// Where received files land: the conflict resolvers of
// engine/native/src/export.rs and frontend/src/lib/web-save-location.ts, and
// the export of a collection into a directory.

module ConflictNames {
  import opened Decimal
  import opened Wrappers

  // Position of the last '.', or -1.
  function LastDot(s: string): (r: int)
    ensures -1 <= r < |s| && (r >= 0 ==> s[r] == '.')
    ensures forall i :: r < i < |s| ==> s[i] != '.'
  {
    if s == "" then -1
    else if s[|s| - 1] == '.' then |s| - 1
    else LastDot(s[..|s| - 1])
  }

  // Path::extension: nothing for a name without a dot or with only a leading one.
  predicate HasExtension(fileName: string) {
    LastDot(fileName) > 0
  }

  // Native: "stem (i).ext", or "name (i)" without an extension.
  function Numbered(fileName: string, index: nat): string {
    var dot := LastDot(fileName);
    if HasExtension(fileName)
    then fileName[..dot] + " (" + Print(index) + ")." + fileName[dot + 1..]
    else fileName + " (" + Print(index) + ")"
  }

  // Browser: the number goes in front of the last dot, unless that leads.
  function ResolveConflictName(fileName: string, index: nat): string {
    var dot := LastDot(fileName);
    if dot > 0 then fileName[..dot] + Suffix(index) + fileName[dot..] else fileName + Suffix(index)
  }

  lemma SameNumbering(fileName: string, index: nat)
    ensures Numbered(fileName, index) == ResolveConflictName(fileName, index)
  {
    var dot := LastDot(fileName);
    if dot > 0 {
      assert fileName[dot..] == "." + fileName[dot + 1..];
    }
  }

  lemma NumberedDistinct(fileName: string, i: nat, j: nat)
    requires Numbered(fileName, i) == Numbered(fileName, j)
    ensures i == j
  {
    var dot := LastDot(fileName);
    if HasExtension(fileName) {
      var before, after := fileName[..dot] + " (", ")." + fileName[dot + 1..];
      assert Numbered(fileName, i) == before + Print(i) + after;
      assert Numbered(fileName, j) == before + Print(j) + after;
      NumberedInjective(before, after, i, j);
    } else {
      assert Numbered(fileName, i) == (fileName + " (") + Print(i) + ")";
      assert Numbered(fileName, j) == (fileName + " (") + Print(j) + ")";
      NumberedInjective(fileName + " (", ")", i, j);
    }
  }

  lemma NumberedIsNew(fileName: string, i: nat)
    ensures Numbered(fileName, i) != fileName
  {
    assert |Numbered(fileName, i)| > |fileName|;
  }

  const LIMIT: nat := 10_000

  // The least index from i on whose name is free, or LIMIT.
  function FirstFree(taken: set<string>, fileName: string, i: nat): (r: nat)
    requires i <= LIMIT
    ensures i <= r <= LIMIT
    ensures r < LIMIT ==> Numbered(fileName, r) !in taken
    ensures forall j :: i <= j < r ==> Numbered(fileName, j) in taken
    decreases LIMIT - i
  {
    if i == LIMIT || Numbered(fileName, i) !in taken then i else FirstFree(taken, fileName, i + 1)
  }

  // --------------------------------------------------------------- pigeonhole

  function FirstNumbered(fileName: string, n: nat): set<string> {
    if n == 0 then {fileName} else FirstNumbered(fileName, n - 1) + {Numbered(fileName, n)}
  }

  lemma {:induction false} FirstNumberedSize(fileName: string, n: nat, m: nat)
    requires n < m
    ensures |FirstNumbered(fileName, n)| == n + 1 && Numbered(fileName, m) !in FirstNumbered(fileName, n)
  {
    if n > 0 {
      FirstNumberedSize(fileName, n - 1, n);
      FirstNumberedSize(fileName, n - 1, m);
      if Numbered(fileName, n) == Numbered(fileName, m) {
        NumberedDistinct(fileName, n, m);
      }
    } else {
      NumberedIsNew(fileName, m);
    }
  }

  lemma {:induction false} FirstNumberedTaken(taken: set<string>, fileName: string, n: nat)
    requires fileName in taken && forall j :: 1 <= j <= n ==> Numbered(fileName, j) in taken
    ensures FirstNumbered(fileName, n) <= taken
  {
    if n > 0 {
      FirstNumberedTaken(taken, fileName, n - 1);
    }
  }

  lemma SubsetSize(a: set<string>, b: set<string>)
    requires a <= b
    ensures |a| <= |b|
  {
    assert b == a + (b - a);
  }

  // A directory of at most 9,999 entries always has a free numbered name for a
  // file already in it.
  lemma AlwaysFree(taken: set<string>, fileName: string)
    requires fileName in taken && |taken| <= 9_999
    ensures FirstFree(taken, fileName, 1) < LIMIT
  {
    if FirstFree(taken, fileName, 1) == LIMIT {
      FirstNumberedSize(fileName, 9_999, 10_000);
      FirstNumberedTaken(taken, fileName, 9_999);
      SubsetSize(FirstNumbered(fileName, 9_999), taken);
    }
  }

  // ------------------------------------------------------------------- browser

  function NameAt(fileName: string, index: nat): string {
    if index == 0 then fileName else Numbered(fileName, index)
  }

  // The index whose name a writer settles on; 0 is the name itself.
  function Chosen(taken: set<string>, fileName: string): (r: nat)
    ensures r <= LIMIT && (r < LIMIT ==> NameAt(fileName, r) !in taken)
    ensures forall j :: 0 <= j < r ==> NameAt(fileName, j) in taken
  {
    if fileName !in taken then 0 else FirstFree(taken, fileName, 1)
  }

  function BrowserChoice(taken: set<string>, fileName: string): Result<(string, bool)> {
    var f := Chosen(taken, fileName);
    if f <= 9_998 then Ok((NameAt(fileName, f), f > 0)) else Err("Too many filename conflicts")
  }

  // resolveWritableFileName; `taken` are the names fileExists answers for, those
  // of files. It looks at the name itself in its first turn, so it stops one
  // number short.
  method ResolveWritableFileName(taken: set<string>, fileName: string) returns (r: Result<(string, bool)>)
    ensures r == BrowserChoice(taken, fileName)
    ensures r.Ok? ==> r.value.0 !in taken && (r.value.1 <==> r.value.0 != fileName)
  {
    var candidate := fileName;
    if Chosen(taken, fileName) > 0 {
      NumberedIsNew(fileName, Chosen(taken, fileName));
    }
    for index := 1 to 10_000
      invariant candidate == NameAt(fileName, index - 1)
      invariant forall j :: 0 <= j < index - 1 ==> NameAt(fileName, j) in taken
      invariant Chosen(taken, fileName) >= index - 1
    {
      if candidate !in taken {
        assert Chosen(taken, fileName) == index - 1;
        if index > 1 {
          NumberedIsNew(fileName, index - 1);
        }
        return Ok((candidate, candidate != fileName));
      }
      SameNumbering(fileName, index);
      candidate := ResolveConflictName(fileName, index);
    }
    r := Err("Too many filename conflicts");
  }
}

module FileLanding {
  import opened Bytes
  import opened ConflictNames
  import opened Wrappers
  import PathNames

  type Path = PathNames.Path

  datatype FS = FS(files: map<Path, seq<byte>>, dirs: set<Path>)

  predicate Exists(fs: FS, p: Path) {
    p in fs.files || p in fs.dirs
  }

  // Names of the entries of a directory.
  function Children(fs: FS, parent: Path): (r: set<string>)
    ensures forall name :: name in r <==> Exists(fs, parent + [name])
  {
    var r := set p | p in fs.files.Keys + fs.dirs && |p| == |parent| + 1 && p[..|parent|] == parent :: p[|parent|];
    assert forall name :: name in r <==> Exists(fs, parent + [name]) by {
      forall name
        ensures name in r <==> Exists(fs, parent + [name])
      {
        var p := parent + [name];
        assert p[..|parent|] == parent && p[|parent|] == name;
        if name in r {
          var q :| && q in fs.files.Keys + fs.dirs
                   && |q| == |parent| + 1 && q[..|parent|] == parent && q[|parent|] == name;
          assert q == p;
        }
      }
    }
    r
  }

  // resolve_conflict_path
  function ResolveConflict(fs: FS, path: Path): Result<Path> {
    if path == [] then Err("path has no parent")
    else
      var parent, fileName := path[..|path| - 1], path[|path| - 1];
      if fileName == ".." then Err("invalid filename")
      else
        var i := FirstFree(Children(fs, parent), fileName, 1);
        if i < LIMIT then Ok(parent + [Numbered(fileName, i)]) else Err("too many filename conflicts")
  }

  method ResolveConflictPath(fs: FS, path: Path) returns (r: Result<Path>)
    ensures r == ResolveConflict(fs, path)
  {
    hide Numbered, FirstFree, Children;
    if path == [] {
      return Err("path has no parent");
    }
    var parent, fileName := path[..|path| - 1], path[|path| - 1];
    if fileName == ".." {
      return Err("invalid filename");
    }
    for index := 1 to 10_000
      invariant FirstFree(Children(fs, parent), fileName, 1) >= index
    {
      var candidate := parent + [Numbered(fileName, index)];
      if !Exists(fs, candidate) {
        return Ok(candidate);
      }
    }
    r := Err("too many filename conflicts");
  }

  lemma FreshTarget(fs: FS, path: Path)
    requires ResolveConflict(fs, path).Ok?
    ensures var target := ResolveConflict(fs, path).value;
            && |target| == |path| && target[..|path| - 1] == path[..|path| - 1]
            && target != path && !Exists(fs, target)
  {
    hide Numbered, FirstFree, Children;
    var fileName := path[|path| - 1];
    NumberedIsNew(fileName, FirstFree(Children(fs, path[..|path| - 1]), fileName, 1));
  }

  // ------------------------------------------------------------------- export

  // A collection entry; content is None when the blob store cannot export it.
  datatype Entry = Entry(name: string, content: Option<seq<byte>>)

  datatype Conflict = Conflict(original: Path, resolved: Path)

  datatype Outcome = Outcome(fs: FS, targets: seq<Path>, conflicts: seq<Conflict>, ok: bool)

  predicate Below(p: Path, q: Path) {
    |p| < |q| && q[..|p|] == p
  }

  function Ancestors(p: Path): (r: set<Path>)
    ensures forall q :: q in r <==> Below(q, p)
  {
    var r := set i | 0 <= i < |p| :: p[..i];
    assert forall q :: Below(q, p) ==> q == p[..|q|];
    r
  }

  // create_dir_all fails when an ancestor is a file.
  predicate CanCreate(fs: FS, target: Path) {
    fs.files.Keys !! Ancestors(target)
  }

  function ChooseTarget(fs: FS, desired: Path): Result<Path> {
    if Exists(fs, desired) then ResolveConflict(fs, desired) else Ok(desired)
  }

  // Names of the files of a directory: getFileHandle refuses a subdirectory, and
  // fileExists then answers false.
  function FileNames(fs: FS, parent: Path): (r: set<string>)
    ensures forall name :: name in r <==> parent + [name] in fs.files
  {
    Children(FS(fs.files, {}), parent)
  }

  // Where writeBytesToDirectory writes: creating the file fails on a subdirectory
  // of the chosen name.
  function BrowserTarget(fs: FS, parent: Path, fileName: string): Result<Path> {
    var choice := BrowserChoice(FileNames(fs, parent), fileName);
    if choice.Err? then Err(choice.message)
    else if parent + [choice.value.0] in fs.dirs then Err("TypeMismatchError")
    else Ok(parent + [choice.value.0])
  }

  lemma NativeTarget(fs: FS, parent: Path, fileName: string)
    requires fileName != ".."
    ensures var native, f := ChooseTarget(fs, parent + [fileName]), Chosen(Children(fs, parent), fileName);
            && (native.Ok? <==> f < LIMIT)
            && (native.Ok? ==> native.value == parent + [NameAt(fileName, f)])
  {
    hide Numbered, FirstFree, Children;
    var path := parent + [fileName];
    assert path[..|path| - 1] == parent;
  }

  // Less is taken among the files than among all entries, so the browser stops
  // at the same index or earlier, and earlier only at a subdirectory.
  lemma ChosenAmongFiles(fs: FS, parent: Path, fileName: string)
    ensures var f, g := Chosen(Children(fs, parent), fileName), Chosen(FileNames(fs, parent), fileName);
            && g <= f
            && (g < LIMIT ==> (g == f <==> parent + [NameAt(fileName, g)] !in fs.dirs))
  {
    hide NameAt, FirstFree, Chosen, Children, FileNames;
    var f, g := Chosen(Children(fs, parent), fileName), Chosen(FileNames(fs, parent), fileName);
    assert f < g ==> NameAt(fileName, f) in FileNames(fs, parent);
    assert g < f ==> NameAt(fileName, g) in Children(fs, parent);
  }

  lemma NameAtDistinct(fileName: string, i: nat, j: nat)
    requires NameAt(fileName, i) == NameAt(fileName, j)
    ensures i == j
  {
    hide Numbered;
    if i > 0 && j > 0 {
      NumberedDistinct(fileName, i, j);
    } else if i + j > 0 {
      NumberedIsNew(fileName, i + j);
    }
  }

  // The name the browser settles on is the native one exactly if no subdirectory
  // carries it. Where it settles on none, every name up to 9,998 is a file, and
  // native export still has 9,999 to try.
  lemma ResolversAgree(fs: FS, parent: Path, fileName: string)
    requires fileName != ".."
    ensures var native, f := ChooseTarget(fs, parent + [fileName]), Chosen(Children(fs, parent), fileName);
            && (native.Ok? <==> f < LIMIT)
            && (native.Ok? ==> native.value == parent + [NameAt(fileName, f)])
    ensures var native := ChooseTarget(fs, parent + [fileName]);
            var browser := BrowserChoice(FileNames(fs, parent), fileName);
            && (browser.Ok? ==>
                  (native == Ok(parent + [browser.value.0]) <==> parent + [browser.value.0] !in fs.dirs))
            && (browser.Err? <==> forall j :: 0 <= j <= 9_998 ==> parent + [NameAt(fileName, j)] in fs.files)
            && (browser.Err? ==> (native.Ok? <==> !Exists(fs, parent + [NameAt(fileName, 9_999)])))
  {
    hide NameAt, FirstFree, Chosen, ChooseTarget, Children, FileNames;
    NativeTarget(fs, parent, fileName);
    ChosenAmongFiles(fs, parent, fileName);
    var f, g := Chosen(Children(fs, parent), fileName), Chosen(FileNames(fs, parent), fileName);
    var native := ChooseTarget(fs, parent + [fileName]);
    if g <= 9_998 {
      assert parent + [NameAt(fileName, g)] !in fs.files;
      if native == Ok(parent + [NameAt(fileName, g)]) {
        assert (parent + [NameAt(fileName, f)])[|parent|] == (parent + [NameAt(fileName, g)])[|parent|];
        NameAtDistinct(fileName, f, g);
      }
    }
  }

  // What the browser writes is a path that was absent, the one native export
  // would take. It succeeds exactly when the least name that is no file is no
  // subdirectory either and its index is below 9,999.
  lemma BrowserLandsAsNative(fs: FS, parent: Path, fileName: string)
    requires fileName != ".."
    ensures var native, browser := ChooseTarget(fs, parent + [fileName]), BrowserTarget(fs, parent, fileName);
            && (browser.Ok? ==> native == browser && !Exists(fs, browser.value))
            && (browser.Ok? <==>
                exists j :: && 0 <= j <= 9_998 && !Exists(fs, parent + [NameAt(fileName, j)])
                            && forall i :: 0 <= i < j ==> parent + [NameAt(fileName, i)] in fs.files)
  {
    hide NameAt, FirstFree, Chosen, ChooseTarget, Children, FileNames;
    ResolversAgree(fs, parent, fileName);
    var g := Chosen(FileNames(fs, parent), fileName);
    assert g < LIMIT ==> parent + [NameAt(fileName, g)] !in fs.files;
  }

  // A file "photos" beside a subdirectory "photos": native export renames it, the
  // browser settles on the name and cannot write there.
  lemma SubdirectoryStopsBrowser(parent: Path)
    ensures var fs := FS(map[], {parent + ["photos"]});
            && ChooseTarget(fs, parent + ["photos"]) == Ok(parent + ["photos (1)"])
            && BrowserChoice(FileNames(fs, parent), "photos") == Ok(("photos", false))
            && BrowserTarget(fs, parent, "photos").Err?
  {
    var fs := FS(map[], {parent + ["photos"]});
    hide FirstFree, Children;
    ResolversAgree(fs, parent, "photos");
    assert LastDot("photos") == -1;
    assert Numbered("photos", 1) == "photos (1)";
    assert (parent + ["photos (1)"])[|parent|] != (parent + ["photos"])[|parent|];
    assert NameAt("photos", 1) !in Children(fs, parent) && "photos" in Children(fs, parent);
    assert Chosen(Children(fs, parent), "photos") == 1;
  }

  function Desired(root: Path, e: Entry): Result<Path> {
    PathNames.ExportPath(root, e.name)
  }

  // One turn of the export loop.
  function LandOne(o: Outcome, root: Path, e: Entry): Outcome {
    var desired := Desired(root, e);
    if desired.Err? then o.(ok := false) else
    var chosen := ChooseTarget(o.fs, desired.value);
    if chosen.Err? then o.(ok := false) else
    var target := chosen.value;
    var renamed := if Exists(o.fs, desired.value) then [Conflict(desired.value, target)] else [];
    var conflicts := o.conflicts + renamed;
    if !CanCreate(o.fs, target) then o.(conflicts := conflicts, ok := false) else
    var dirs := o.fs.dirs + Ancestors(target);
    if e.content.None? then o.(fs := FS(o.fs.files, dirs), conflicts := conflicts, ok := false)
    else Outcome(FS(o.fs.files[target := e.content.value], dirs), o.targets + [target], conflicts, true)
  }

  function LandAll(fs: FS, root: Path, entries: seq<Entry>): Outcome {
    if entries == [] then Outcome(fs, [], [], true)
    else
      var before := LandAll(fs, root, entries[..|entries| - 1]);
      if !before.ok then before else LandOne(before, root, entries[|entries| - 1])
  }

  // The filesystem as the export mutates it.
  class Disk {
    var files: map<Path, seq<byte>>
    var dirs: set<Path>

    function Contents(): FS
      reads this
    {
      FS(files, dirs)
    }

    method CreateDirAll(target: Path) returns (ok: bool)
      modifies this`dirs
      ensures ok == old(CanCreate(Contents(), target))
      ensures dirs == old(dirs) + if ok then Ancestors(target) else {}
    {
      ok := files.Keys !! Ancestors(target);
      if ok {
        dirs := dirs + Ancestors(target);
      }
    }

    method ExportToDirectory(collection: seq<Entry>, root: Path)
      returns (r: Result<seq<Conflict>>, ghost targets: seq<Path>)
      modifies this
      ensures var o := LandAll(old(Contents()), root, collection);
              && Contents() == o.fs && targets == o.targets
              && (r.Ok? <==> o.ok) && (r.Ok? ==> r.value == o.conflicts)
    {
      hide Exists, CanCreate, ResolveConflict;
      var conflicts: seq<Conflict> := [];
      targets := [];
      for k := 0 to |collection|
        invariant LandAll(old(Contents()), root, collection[..k]) == Outcome(Contents(), targets, conflicts, true)
      {
        assert collection[..k + 1][..k] == collection[..k];
        FailureStays(old(Contents()), root, collection, k + 1);
        var desired := PathNames.GetExportPath(root, collection[k].name);
        if desired.Err? {
          return Err("invalid path"), targets;
        }
        var target := desired.value;
        if Exists(Contents(), desired.value) {
          var resolved := ResolveConflictPath(Contents(), desired.value);
          if resolved.Err? {
            return Err("too many filename conflicts"), targets;
          }
          target := resolved.value;
          conflicts := conflicts + [Conflict(desired.value, target)];
        }
        var created := CreateDirAll(target);
        if !created {
          return Err("failed creating export parent"), targets;
        }
        if collection[k].content.None? {
          return Err("error exporting"), targets;
        }
        files := files[target := collection[k].content.value];
        targets := targets + [target];
      }
      assert collection[..|collection|] == collection;
      r := Ok(conflicts);
    }
  }

  lemma {:induction false} FailureStays(fs: FS, root: Path, entries: seq<Entry>, k: nat)
    requires k <= |entries|
    ensures !LandAll(fs, root, entries[..k]).ok ==> LandAll(fs, root, entries) == LandAll(fs, root, entries[..k])
  {
    hide LandOne;
    if k < |entries| {
      FailureStays(fs, root, entries[..|entries| - 1], k);
      assert entries[..|entries| - 1][..k] == entries[..k];
    } else {
      assert entries[..k] == entries;
    }
  }

  // ------------------------------------------------------------------ theorems

  // Whether or not the export succeeds, no file that existed is changed.
  lemma {:induction false} NothingOverwritten(fs: FS, root: Path, entries: seq<Entry>)
    ensures forall p :: p in fs.files ==>
              var o := LandAll(fs, root, entries); p in o.fs.files && o.fs.files[p] == fs.files[p]
  {
    hide ResolveConflict, CanCreate, Desired;
    if entries != [] {
      var before := LandAll(fs, root, entries[..|entries| - 1]);
      NothingOverwritten(fs, root, entries[..|entries| - 1]);
      TargetIsFree(before.fs, root, entries[|entries| - 1]);
    }
  }

  lemma TargetIsFree(fs: FS, root: Path, e: Entry)
    ensures Desired(root, e).Ok? && ChooseTarget(fs, Desired(root, e).value).Ok? ==>
              var desired := Desired(root, e).value;
              var target := ChooseTarget(fs, desired).value;
              && !Exists(fs, target) && Below(root, target)
              && (target != desired <==> Exists(fs, desired))
  {
    hide ResolveConflict, Exists;
    if Desired(root, e).Ok? {
      var desired := Desired(root, e).value;
      assert desired[..|root|] == root && |desired| > |root|;
      if Exists(fs, desired) && ResolveConflict(fs, desired).Ok? {
        FreshTarget(fs, desired);
        var target := ResolveConflict(fs, desired).value;
        assert target[..|root|] == target[..|desired| - 1][..|root|] == desired[..|desired| - 1][..|root|];
      }
    }
  }

  // Some target is p or lies below it.
  predicate Covered(targets: seq<Path>, p: Path) {
    exists i :: 0 <= i < |targets| && (targets[i] == p || Below(p, targets[i]))
  }

  // After a successful export: every entry has its own path below the root,
  // absent before, holding its bytes, and nothing else was created but the
  // directories above them.
  ghost predicate Placed(fs: FS, root: Path, entries: seq<Entry>, o: Outcome) {
    && |o.targets| == |entries|
    && (forall i :: 0 <= i < |entries| ==> PlacedAt(fs, root, entries[i], o, o.targets[i]))
    && (forall i, j :: 0 <= i < j < |entries| ==> o.targets[i] != o.targets[j])
    && (forall p :: p in o.fs.files <==> p in fs.files || p in o.targets)
    && (forall p :: Exists(o.fs, p) <==> Exists(fs, p) || Covered(o.targets, p))
  }

  ghost predicate PlacedAt(fs: FS, root: Path, e: Entry, o: Outcome, target: Path) {
    && Below(root, target) && !Exists(fs, target)
    && target in o.fs.files && e.content == Some(o.fs.files[target])
  }

  lemma PlacedOne(fs: FS, root: Path, entries: seq<Entry>, before: Outcome, e: Entry)
    requires before.ok && Placed(fs, root, entries, before) && LandOne(before, root, e).ok
    ensures Placed(fs, root, entries + [e], LandOne(before, root, e))
  {
    hide ResolveConflict, CanCreate, Desired, ChooseTarget, Covered, Below;
    TargetIsFree(before.fs, root, e);
    var o, n := LandOne(before, root, e), |entries|;
    var target := o.targets[n];
    assert o.targets == before.targets + [target];
    forall p
      ensures Exists(o.fs, p) <==> Exists(fs, p) || Covered(o.targets, p)
    {
      CoveredSnoc(before.targets, target, p);
    }
    NotCovered(before.targets, target);
    forall i | 0 <= i <= n
      ensures PlacedAt(fs, root, (entries + [e])[i], o, o.targets[i])
    {
      if i < n {
        assert PlacedAt(fs, root, entries[i], before, before.targets[i]);
      }
    }
  }

  lemma NotCovered(targets: seq<Path>, p: Path)
    ensures !Covered(targets, p) ==> p !in targets
  {
  }

  lemma CoveredSnoc(targets: seq<Path>, t: Path, p: Path)
    ensures Covered(targets + [t], p) <==> Covered(targets, p) || t == p || Below(p, t)
  {
    var all := targets + [t];
    if Covered(targets, p) {
      var i :| 0 <= i < |targets| && (targets[i] == p || Below(p, targets[i]));
      assert all[i] == p || Below(p, all[i]);
    }
    if t == p || Below(p, t) {
      assert all[|targets|] == p || Below(p, all[|targets|]);
    }
  }

  lemma NothingPlaced(fs: FS, root: Path)
    ensures Placed(fs, root, [], Outcome(fs, [], [], true))
  {
  }

  lemma {:induction false} ExportPlaces(fs: FS, root: Path, entries: seq<Entry>)
    requires LandAll(fs, root, entries).ok
    ensures Placed(fs, root, entries, LandAll(fs, root, entries))
  {
    hide LandOne, Placed;
    if entries == [] {
      NothingPlaced(fs, root);
    } else {
      var n := |entries| - 1;
      ExportPlaces(fs, root, entries[..n]);
      PlacedOne(fs, root, entries[..n], LandAll(fs, root, entries[..n]), entries[n]);
      assert entries == entries[..n] + [entries[n]];
    }
  }

  // The pairs whose target is not what the entry asked for, in order.
  function Renamed(root: Path, entries: seq<Entry>, targets: seq<Path>): seq<Conflict>
    requires |entries| == |targets|
    requires forall i :: 0 <= i < |entries| ==> Desired(root, entries[i]).Ok?
  {
    if entries == [] then []
    else
      var n := |entries| - 1;
      Renamed(root, entries[..n], targets[..n])
      + if Desired(root, entries[n]).value != targets[n]
        then [Conflict(Desired(root, entries[n]).value, targets[n])] else []
  }

  lemma OneConflict(before: Outcome, root: Path, e: Entry)
    requires before.ok && LandOne(before, root, e).ok
    ensures Desired(root, e).Ok?
    ensures var o, d := LandOne(before, root, e), Desired(root, e).value;
            && |o.targets| == |before.targets| + 1 && o.targets[..|before.targets|] == before.targets
            && (o.targets[|before.targets|] != d <==> Exists(before.fs, d))
            && o.conflicts == before.conflicts
                 + if d != o.targets[|before.targets|] then [Conflict(d, o.targets[|before.targets|])] else []
  {
    hide ResolveConflict, CanCreate, Exists;
    TargetIsFree(before.fs, root, e);
  }

  // Entry i was renamed just when its wish was taken when it was reached.
  predicate RenamedIff(fs: FS, root: Path, e: Entry, earlier: seq<Path>, target: Path) {
    Desired(root, e).Ok? &&
    var d := Desired(root, e).value;
    target != d <==> Exists(fs, d) || Covered(earlier, d)
  }

  // The reported conflicts are exactly the renamed entries, and an entry is
  // renamed exactly when what it asked for existed before the export or came
  // to exist through an earlier entry, as its file or as a directory above it.
  lemma {:induction false} ConflictsExact(fs: FS, root: Path, entries: seq<Entry>)
    requires LandAll(fs, root, entries).ok
    ensures |LandAll(fs, root, entries).targets| == |entries|
    ensures forall i :: 0 <= i < |entries| ==>
              var targets := LandAll(fs, root, entries).targets;
              RenamedIff(fs, root, entries[i], targets[..i], targets[i])
    ensures forall i :: 0 <= i < |entries| ==> Desired(root, entries[i]).Ok?
    ensures LandAll(fs, root, entries).conflicts == Renamed(root, entries, LandAll(fs, root, entries).targets)
  {
    hide LandOne, Desired, Exists, Covered;
    if entries != [] {
      var n := |entries| - 1;
      var before, o, e := LandAll(fs, root, entries[..n]), LandAll(fs, root, entries), entries[n];
      ConflictsExact(fs, root, entries[..n]);
      ExportPlaces(fs, root, entries[..n]);
      OneConflict(before, root, e);
      forall i | 0 <= i < |entries|
        ensures RenamedIff(fs, root, entries[i], o.targets[..i], o.targets[i]) && Desired(root, entries[i]).Ok?
      {
        if i < n {
          assert o.targets[..i] == before.targets[..i];
          assert RenamedIff(fs, root, entries[..n][i], before.targets[..i], before.targets[i]);
        }
      }
    }
  }

  // ------------------------------------------------------- when an export succeeds

  // The i-th name an entry may land under: its own path, then the numbered ones.
  function Candidate(root: Path, name: string, i: nat): Path {
    var parts := PathNames.Split(name);
    root + parts[..|parts| - 1] + [NameAt(parts[|parts| - 1], i)]
  }

  // Something is at p: from before, or a file of an earlier entry or a directory
  // above one.
  predicate Taken(fs: FS, earlier: seq<Path>, p: Path) {
    Exists(fs, p) || Covered(earlier, p)
  }

  // An entry lands under its j-th candidate, given the targets before it: its
  // name has plain parts, its content is there, the candidate is the first of
  // 10,000 that is free, and no path above it is a file.
  ghost predicate LandsAs(fs: FS, root: Path, e: Entry, earlier: seq<Path>, j: nat) {
    && PathNames.PlainParts(PathNames.Split(e.name)) && e.content.Some?
    && j < 10_000 && !Taken(fs, earlier, Candidate(root, e.name, j))
    && (forall i :: 0 <= i < j ==> Taken(fs, earlier, Candidate(root, e.name, i)))
    && (forall q :: Below(q, Candidate(root, e.name, j)) ==> q !in fs.files && q !in earlier)
  }

  ghost predicate LandsOn(fs: FS, root: Path, e: Entry, earlier: seq<Path>, target: Path) {
    exists j :: LandsAs(fs, root, e, earlier, j) && target == Candidate(root, e.name, j)
  }

  // The first free candidate in a filesystem.
  predicate Chooses(fs: FS, root: Path, name: string, j: nat) {
    && j < 10_000 && !Exists(fs, Candidate(root, name, j))
    && forall i :: 0 <= i < j ==> Exists(fs, Candidate(root, name, i))
  }

  lemma ChosenCandidate(fs: FS, root: Path, e: Entry)
    requires Desired(root, e).Ok?
    ensures var chosen := ChooseTarget(fs, Desired(root, e).value);
            && (forall j: nat :: Chooses(fs, root, e.name, j) ==> chosen == Ok(Candidate(root, e.name, j)))
            && (chosen.Ok? ==> exists j: nat :: Chooses(fs, root, e.name, j))
  {
    var parts := PathNames.Split(e.name);
    var parent, fileName := root + parts[..|parts| - 1], parts[|parts| - 1];
    assert Desired(root, e).value == parent + [fileName];
    assert PathNames.ValidComponent(fileName);
    NativeTarget(fs, parent, fileName);
    var f := Chosen(Children(fs, parent), fileName);
    hide NameAt, FirstFree, Chosen, Children, ChooseTarget, Exists;
    forall i: nat
      ensures Exists(fs, Candidate(root, e.name, i)) <==> NameAt(fileName, i) in Children(fs, parent)
    {
      assert Candidate(root, e.name, i) == parent + [NameAt(fileName, i)];
    }
    assert f < 10_000 ==> Chooses(fs, root, e.name, f);
    assert forall j: nat :: Chooses(fs, root, e.name, j) ==> j <= f;
  }

  lemma CanCreateIff(fs: FS, target: Path)
    ensures CanCreate(fs, target) <==> forall q :: Below(q, target) ==> q !in fs.files
  {
  }

  // The turn of the loop succeeds exactly on such an entry.
  predicate Accepts(fs: FS, root: Path, e: Entry, j: nat) {
    && Desired(root, e).Ok? && e.content.Some?
    && Chooses(fs, root, e.name, j) && CanCreate(fs, Candidate(root, e.name, j))
  }

  lemma LandOneIff(before: Outcome, root: Path, e: Entry)
    requires before.ok
    ensures LandOne(before, root, e).ok ==> exists j: nat :: Accepts(before.fs, root, e, j)
    ensures forall j: nat :: Accepts(before.fs, root, e, j) ==>
              LandOne(before, root, e).ok
              && LandOne(before, root, e).targets == before.targets + [Candidate(root, e.name, j)]
  {
    if Desired(root, e).Ok? {
      ChosenCandidate(before.fs, root, e);
      hide ChooseTarget, Candidate, Chooses, Desired, CanCreate, Exists;
      if LandOne(before, root, e).ok {
        var j: nat :| Chooses(before.fs, root, e.name, j);
        assert Accepts(before.fs, root, e, j);
      }
    }
  }

  // In terms of the filesystem the export started from and the targets so far.
  lemma AcceptsIff(fs: FS, root: Path, entries: seq<Entry>, before: Outcome, e: Entry, j: nat)
    requires Placed(fs, root, entries, before)
    ensures Accepts(before.fs, root, e, j) <==> LandsAs(fs, root, e, before.targets, j)
  {
    PathNames.AllPlain(PathNames.Split(e.name));
    CanCreateIff(before.fs, Candidate(root, e.name, j));
    assert Desired(root, e).Ok? <==> PathNames.PlainParts(PathNames.Split(e.name));
    hide PathNames.PlainParts, Candidate, Covered, Below, Desired, PlacedAt, Exists, CanCreate;
    assert forall i :: Exists(before.fs, Candidate(root, e.name, i)) <==>
                       Taken(fs, before.targets, Candidate(root, e.name, i));
  }

  ghost predicate AllLand(fs: FS, root: Path, entries: seq<Entry>, targets: seq<Path>) {
    && |targets| == |entries|
    && forall i :: 0 <= i < |entries| ==> LandsOn(fs, root, entries[i], targets[..i], targets[i])
  }

  lemma AllLandSnoc(fs: FS, root: Path, entries: seq<Entry>, targets: seq<Path>)
    requires |targets| == |entries| > 0
    ensures var n := |entries| - 1;
            AllLand(fs, root, entries, targets) <==>
            && AllLand(fs, root, entries[..n], targets[..n])
            && LandsOn(fs, root, entries[n], targets[..n], targets[n])
  {
    hide LandsOn;
    var n := |entries| - 1;
    assert forall i :: 0 <= i < n ==> entries[..n][i] == entries[i] && targets[..n][..i] == targets[..i];
  }

  lemma OneLands(fs: FS, root: Path, entries: seq<Entry>, before: Outcome, e: Entry)
    requires before.ok && Placed(fs, root, entries, before)
    ensures var o := LandOne(before, root, e);
            && (o.ok ==> exists target :: LandsOn(fs, root, e, before.targets, target))
            && (forall target :: LandsOn(fs, root, e, before.targets, target) ==>
                  o.ok && o.targets == before.targets + [target])
  {
    LandOneIff(before, root, e);
    forall j: nat
      ensures Accepts(before.fs, root, e, j) <==> LandsAs(fs, root, e, before.targets, j)
    {
      AcceptsIff(fs, root, entries, before, e, j);
    }
    hide Accepts, LandsAs, LandOne, Candidate, Placed;
    if LandOne(before, root, e).ok {
      var j: nat :| Accepts(before.fs, root, e, j);
      assert LandsOn(fs, root, e, before.targets, Candidate(root, e.name, j));
    }
  }

  // An export succeeds if and only if its entries can be placed one after the
  // other in this way, and then it places them so.
  lemma {:induction false} ExportExact(fs: FS, root: Path, entries: seq<Entry>)
    ensures var o := LandAll(fs, root, entries);
            && (o.ok ==> AllLand(fs, root, entries, o.targets))
            && (forall targets :: AllLand(fs, root, entries, targets) ==> o.ok && o.targets == targets)
            && (o.ok <==> exists targets :: AllLand(fs, root, entries, targets))
  {
    hide LandOne, LandsOn, Placed;
    var o := LandAll(fs, root, entries);
    if entries == [] {
      assert AllLand(fs, root, [], []);
    } else {
      var n := |entries| - 1;
      var before := LandAll(fs, root, entries[..n]);
      ExportExact(fs, root, entries[..n]);
      if before.ok {
        ExportPlaces(fs, root, entries[..n]);
        OneLands(fs, root, entries[..n], before, entries[n]);
      }
      forall targets | AllLand(fs, root, entries, targets)
        ensures o.ok && o.targets == targets
      {
        AllLandSnoc(fs, root, entries, targets);
        assert targets == targets[..n] + [targets[n]];
      }
      if o.ok {
        var target :| LandsOn(fs, root, entries[n], before.targets, target);
        assert o.targets == before.targets + [target];
        assert o.targets[..n] == before.targets;
        AllLandSnoc(fs, root, entries, o.targets);
      }
    }
  }

  lemma ExportOne(fs: FS, root: Path, e: Entry, target: Path)
    requires LandsOn(fs, root, e, [], target)
    ensures var o := LandAll(fs, root, [e]);
            && Desired(root, e).Ok? && o.ok && o.targets == [target]
            && o.fs.files == fs.files[target := e.content.value]
    ensures var d := Desired(root, e).value;
            LandAll(fs, root, [e]).conflicts == if target != d then [Conflict(d, target)] else []
  {
    hide LandAll, LandsAs, Desired, Exists, Below, Covered;
    var entries := [e];
    assert entries[0] == e && [target][..0] == [] && entries[..0] == [];
    assert AllLand(fs, root, entries, [target]);
    ExportExact(fs, root, entries);
    ConflictsExact(fs, root, entries);
    ExportPlaces(fs, root, entries);
    NothingOverwritten(fs, root, entries);
    var o := LandAll(fs, root, entries);
    assert PlacedAt(fs, root, entries[0], o, o.targets[0]);
    assert Renamed(root, entries[..0], o.targets[..0]) == [];
  }

  // A file received beside one of its name lands under the next number, and is
  // reported.
  lemma LandsBeside(root: Path, had: seq<byte>, bytes: seq<byte>)
    ensures var fs := FS(map[root + ["a.txt"] := had], {});
            var o := LandAll(fs, root, [Entry("a.txt", Some(bytes))]);
            && o.ok && o.targets == [root + ["a (1).txt"]]
            && o.conflicts == [Conflict(root + ["a.txt"], root + ["a (1).txt"])]
            && o.fs.files == map[root + ["a.txt"] := had, root + ["a (1).txt"] := bytes]
  {
    hide LandAll, LandsOn, Exists;
    var fs, e := FS(map[root + ["a.txt"] := had], {}), Entry("a.txt", Some(bytes));
    var target := root + ["a (1).txt"];
    BesideLands(fs, root, e, target);
    ExportOne(fs, root, e, target);
    PathNames.SplitPart("a.txt");
    assert (root + ["a.txt"])[|root|] != target[|root|];
  }

  lemma NumberedText()
    ensures Numbered("a.txt", 1) == "a (1).txt" && PathNames.Split("a.txt") == ["a.txt"]
  {
    PathNames.SplitPart("a.txt");
    var dot := LastDot("a.txt");
    assert "a.txt"[1] == '.' && dot == 1;
    assert "a.txt"[..1] == "a" && "a.txt"[2..] == "txt";
  }

  lemma BesideLands(fs: FS, root: Path, e: Entry, target: Path)
    requires fs.files.Keys == {root + ["a.txt"]} && fs.dirs == {} && e.name == "a.txt" && e.content.Some?
    requires target == root + ["a (1).txt"]
    ensures LandsOn(fs, root, e, [], target)
  {
    NumberedText();
    hide Numbered, PathNames.Split;
    assert root + [] == root;
    assert Candidate(root, e.name, 0) == root + ["a.txt"] && Candidate(root, e.name, 1) == target;
    assert target[|root|] != (root + ["a.txt"])[|root|];
    assert PathNames.PlainParts(["a.txt"]);
    hide Candidate, PathNames.PlainParts;
    assert LandsAs(fs, root, e, [], 1);
  }
}
