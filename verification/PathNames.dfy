// Entry names of a collection: printed from path components by
// engine/native/src/import.rs, split and validated by
// engine/native/src/export.rs.

module PathNames {
  import opened Wrappers

  type Path = seq<string>

  // ------------------------------------------------------------ split and join

  function Split(s: string): (parts: seq<string>)
    ensures parts != [] && forall i :: 0 <= i < |parts| ==> '/' !in parts[i]
  {
    if s == "" then [""]
    else
      var rest := Split(s[1..]);
      if s[0] == '/' then [""] + rest else [[s[0]] + rest[0]] + rest[1..]
  }

  function Join(parts: seq<string>): string {
    if parts == [] then ""
    else if |parts| == 1 then parts[0]
    else parts[0] + "/" + Join(parts[1..])
  }

  lemma JoinCons(part: string, rest: seq<string>)
    requires rest != []
    ensures Join([part] + rest) == part + ("/" + Join(rest))
  {
    assert ([part] + rest)[1..] == rest;
  }

  lemma JoinPrepend(c: char, part: string, rest: seq<string>)
    ensures Join([[c] + part] + rest) == [c] + Join([part] + rest)
  {
    hide Join;
    if rest == [] {
      assert [part] + rest == [part] && [[c] + part] + rest == [[c] + part];
      JoinOne(part);
      JoinOne([c] + part);
    } else {
      JoinCons(part, rest);
      JoinCons([c] + part, rest);
    }
  }

  lemma {:induction false} JoinSplit(s: string)
    ensures Join(Split(s)) == s
  {
    hide Join;
    if s == "" {
      JoinOne("");
    } else {
      JoinSplit(s[1..]);
      var parts := Split(s[1..]);
      JoinCons("", parts);
      JoinPrepend(s[0], parts[0], parts[1..]);
      assert parts == [parts[0]] + parts[1..];
      assert s == [s[0]] + s[1..];
    }
  }

  lemma JoinOne(part: string)
    ensures Join([part]) == part
  {
  }

  lemma {:induction false} SplitPart(part: string)
    requires '/' !in part
    ensures Split(part) == [part]
  {
    if part != "" {
      SplitPart(part[1..]);
      assert part == [part[0]] + part[1..];
    }
  }

  lemma {:induction false} SplitFirst(part: string, rest: string)
    requires '/' !in part
    ensures Split(part + "/" + rest) == [part] + Split(rest)
  {
    var s := part + "/" + rest;
    if part == "" {
      assert s[1..] == rest;
    } else {
      assert s[1..] == part[1..] + "/" + rest;
      SplitFirst(part[1..], rest);
      assert part == [part[0]] + part[1..];
    }
  }

  lemma {:induction false} SplitJoin(parts: seq<string>)
    requires parts != [] && forall i :: 0 <= i < |parts| ==> '/' !in parts[i]
    ensures Split(Join(parts)) == parts
  {
    if |parts| == 1 {
      SplitPart(parts[0]);
    } else {
      SplitFirst(parts[0], Join(parts[1..]));
      SplitJoin(parts[1..]);
      assert parts == [parts[0]] + parts[1..];
    }
  }

  // ------------------------------------------------------------------ printing

  // std::path::Component; NotUnicode is a Normal component that is not UTF-8.
  datatype Component = Normal(name: string) | NotUnicode | RootDir | ParentDir | CurDir | Prefix

  predicate Printable(c: Component, mustBeRelative: bool) {
    match c
    case Normal(name) => '/' !in name && '\\' !in name
    case RootDir => !mustBeRelative
    case _ => false
  }

  function Names(components: seq<Component>): seq<string> {
    if components == [] then []
    else (if components[0].Normal? then [components[0].name] else []) + Names(components[1..])
  }

  function Roots(components: seq<Component>): string {
    if components == [] then ""
    else (if components[0].RootDir? then "/" else "") + Roots(components[1..])
  }

  function CanonicalizedPathToString(components: seq<Component>, mustBeRelative: bool): Result<string> {
    if forall i :: 0 <= i < |components| ==> Printable(components[i], mustBeRelative)
    then Ok(Roots(components) + Join(Names(components)))
    else Err("invalid path component")
  }

  // ------------------------------------------------------------------- parsing

  predicate ValidComponent(c: string) {
    && c != "" && c != ".." && c != "."
    && '/' !in c && '\\' !in c && ':' !in c && '\0' !in c
  }

  predicate AllValid(parts: seq<string>) {
    forall i :: 0 <= i < |parts| ==> ValidComponent(parts[i])
  }

  // PathBuf::push: an absolute part replaces what was there.
  function Push(path: Path, part: string): Path {
    if part != "" && part[0] == '/' then [part] else path + [part]
  }

  // An entry name is accepted exactly when every part of it is valid, and then
  // names the path below the root made of those parts.
  function ExportPath(root: Path, name: string): (r: Result<Path>) {
    if AllValid(Split(name)) then Ok(root + Split(name)) else Err("invalid path component")
  }

  // A part that names something inside a directory on every platform.
  predicate Plain(part: string) {
    part !in {"", ".", ".."} && forall c :: c in part ==> c !in {'/', '\\', ':', '\0'}
  }

  lemma PlainIsValid(part: string)
    ensures Plain(part) <==> ValidComponent(part)
  {
  }

  predicate PlainParts(parts: seq<string>) {
    forall i :: 0 <= i < |parts| ==> Plain(parts[i])
  }

  lemma AllPlain(parts: seq<string>)
    ensures AllValid(parts) <==> PlainParts(parts)
  {
    forall i | 0 <= i < |parts|
      ensures Plain(parts[i]) <==> ValidComponent(parts[i])
    {
      PlainIsValid(parts[i]);
    }
    hide Plain, ValidComponent;
  }

  method GetExportPath(root: Path, name: string) returns (r: Result<Path>)
    ensures r == ExportPath(root, name)
    ensures r.Ok? <==> PlainParts(Split(name))
    ensures r.Ok? ==> r.value == root + Split(name)
  {
    hide PlainParts;
    AllPlain(Split(name));
    var parts := Split(name);
    var path := root;
    for i := 0 to |parts|
      invariant AllValid(parts[..i])
      invariant path == root + parts[..i]
    {
      if !ValidComponent(parts[i]) {
        return Err("invalid path component");
      }
      path := Push(path, parts[i]);
      assert parts[..i + 1] == parts[..i] + [parts[i]];
    }
    assert parts[..|parts|] == parts;
    r := Ok(path);
  }

  // Printing fails exactly on a component that is no plain name: a name with a
  // separator in it, one that is not Unicode, "..", ".", a prefix, or the root
  // of a path that must be relative. A root prints as a leading slash.
  lemma PrintExact(components: seq<Component>, names: seq<string>, mustBeRelative: bool)
    ensures CanonicalizedPathToString(components, mustBeRelative).Ok? <==>
            forall c :: c in components ==>
              match c
              case Normal(name) => '/' !in name && '\\' !in name
              case RootDir => !mustBeRelative
              case _ => false
    ensures CanonicalizedPathToString([RootDir] + Normals(names), false).Ok? ==>
            CanonicalizedPathToString([RootDir] + Normals(names), false).value == "/" + Join(names)
  {
    assert forall i :: 0 <= i < |components| ==> components[i] in components;
    assert forall c :: c in components ==> exists i :: 0 <= i < |components| && components[i] == c;
    NamesOfNormals(names);
    var all := [RootDir] + Normals(names);
    assert all[0] == RootDir && all[1..] == Normals(names);
    hide Join;
    assert Roots(all) == "/" + Roots(Normals(names)) == "/";
    assert Names(all) == [] + names == names;
  }

  function Normals(names: seq<string>): (r: seq<Component>)
    ensures |r| == |names| && forall i :: 0 <= i < |names| ==> r[i] == Normal(names[i])
  {
    seq(|names|, i requires 0 <= i < |names| => Normal(names[i]))
  }

  lemma {:induction false} NamesOfNormals(names: seq<string>)
    ensures Names(Normals(names)) == names && Roots(Normals(names)) == ""
  {
    if names != [] {
      NamesOfNormals(names[1..]);
      assert Normals(names)[1..] == Normals(names[1..]);
      assert names == [names[0]] + names[1..];
    }
  }

  // Splitting and validating undoes printing, for a list of names that can be
  // printed, exactly when the list is not empty and each name is valid.
  lemma PrintThenParse(root: Path, names: seq<string>)
    requires CanonicalizedPathToString(Normals(names), true).Ok?
    ensures ExportPath(root, CanonicalizedPathToString(Normals(names), true).value) == Ok(root + names)
       <==> names != [] && AllValid(names)
  {
    NamesOfNormals(names);
    var text := CanonicalizedPathToString(Normals(names), true).value;
    assert text == Join(names);
    forall i | 0 <= i < |names|
      ensures '/' !in names[i]
    {
      assert Printable(Normals(names)[i], true);
    }
    if names != [] {
      SplitJoin(names);
    } else {
      assert Split(text) == [""];
      assert !ValidComponent(Split(text)[0]);
    }
  }

  // Conversely an accepted name is the printed form of the path it names.
  lemma ParseThenPrint(root: Path, name: string)
    requires ExportPath(root, name).Ok?
    ensures ExportPath(root, name).value[|root|..] == Split(name)
    ensures CanonicalizedPathToString(Normals(Split(name)), true) == Ok(name)
  {
    NamesOfNormals(Split(name));
    JoinSplit(name);
    assert "" + name == name;
    assert ExportPath(root, name).value[|root|..] == Split(name);
    forall i | 0 <= i < |Split(name)|
      ensures Printable(Normals(Split(name))[i], true)
    {
      assert ValidComponent(Split(name)[i]);
    }
  }

  // Lexical resolution of "." and "..".
  function Resolve(path: Path): Path {
    if path == [] then []
    else
      var before, last := Resolve(path[..|path| - 1]), path[|path| - 1];
      if last == "." then before
      else if last == ".." then (if before == [] then [] else before[..|before| - 1])
      else before + [last]
  }

  lemma {:induction false} ResolveBelow(root: Path, parts: seq<string>)
    requires AllValid(parts)
    ensures Resolve(root + parts) == Resolve(root) + parts
  {
    if parts == [] {
      assert root + parts == root;
    } else {
      var n := |parts| - 1;
      assert ValidComponent(parts[n]);
      assert (root + parts)[..|root + parts| - 1] == root + parts[..n];
      ResolveBelow(root, parts[..n]);
      assert parts == parts[..n] + [parts[n]];
    }
  }

  // No accepted name leaves the root, however the root is written.
  lemma NeverLeavesRoot(root: Path, name: string)
    requires ExportPath(root, name).Ok?
    ensures Resolve(ExportPath(root, name).value) == Resolve(root) + Split(name)
  {
    ResolveBelow(root, Split(name));
  }
}
