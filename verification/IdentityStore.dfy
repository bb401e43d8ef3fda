// The node's persistent secret across restarts, engine/native/src/identity_store.rs:
// an environment override, the identity file (written to a temporary name and
// renamed) and the OS keychain.

module Hex {
  import opened Bytes
  import opened Wrappers

  predicate IsSpace(c: char) {
    c == ' ' || c == '\t' || c == '\n' || c == '\r'
  }

  function DigitChar(d: nat): (c: char)
    requires d < 16
    ensures !IsSpace(c) && Digit(c) == Some(d)
  {
    if d < 10 then '0' + d as char else 'a' + (d - 10) as char
  }

  function Digit(c: char): (d: Option<nat>)
    ensures d.Some? ==> d.value < 16
  {
    if '0' <= c <= '9' then Some((c - '0') as nat)
    else if 'a' <= c <= 'f' then Some(10 + (c - 'a') as nat)
    else None
  }

  // HEXLOWER
  function Encode(bytes: seq<byte>): (s: string)
    ensures |s| == 2 * |bytes| && forall i :: 0 <= i < |s| ==> !IsSpace(s[i])
  {
    if bytes == [] then ""
    else [DigitChar(bytes[0] / 16), DigitChar(bytes[0] % 16)] + Encode(bytes[1..])
  }

  function Decode(s: string): Option<seq<byte>> {
    if s == "" then Some([])
    else if |s| == 1 then None
    else
      var high, low, rest := Digit(s[0]), Digit(s[1]), Decode(s[2..]);
      if high.None? || low.None? || rest.None? then None
      else Some([16 * high.value + low.value] + rest.value)
  }

  lemma {:induction false} DecodeEncode(bytes: seq<byte>)
    ensures Decode(Encode(bytes)) == Some(bytes)
  {
    hide DigitChar, Digit, IsSpace;
    if bytes != [] {
      DecodeEncode(bytes[1..]);
      assert Encode(bytes)[2..] == Encode(bytes[1..]);
      assert bytes == [bytes[0]] + bytes[1..];
    }
  }

  lemma DigitOf(c: char)
    ensures Digit(c).Some? ==> DigitChar(Digit(c).value) == c
  {
  }

  // And only the lower-case form of some bytes decodes at all.
  lemma {:induction false} EncodeDecode(s: string)
    ensures Decode(s).Some? ==> Encode(Decode(s).value) == s
  {
    hide DigitChar, Digit, IsSpace;
    if |s| >= 2 {
      EncodeDecode(s[2..]);
      if Decode(s).Some? {
        DigitOf(s[0]);
        DigitOf(s[1]);
        var bytes := Decode(s).value;
        assert bytes[1..] == Decode(s[2..]).value;
        assert s == [s[0], s[1]] + s[2..];
      }
    }
  }

  // Strips white space from both ends.
  function Trim(s: string): string {
    if s == "" then ""
    else if IsSpace(s[0]) then Trim(s[1..])
    else if IsSpace(s[|s| - 1]) then Trim(s[..|s| - 1])
    else s
  }

  predicate Blank(s: string) {
    forall i :: 0 <= i < |s| ==> IsSpace(s[i])
  }

  lemma {:induction false} TrimBlanks(before: string, s: string, after: string)
    requires Blank(before) && Blank(after)
    ensures Trim(before + s + after) == Trim(s)
    decreases |before| + |s| + |after|
  {
    var text := before + s + after;
    if before != "" {
      assert text[1..] == before[1..] + s + after;
      TrimBlanks(before[1..], s, after);
    } else if s != "" && IsSpace(s[0]) {
      assert text[1..] == "" + s[1..] + after;
      TrimBlanks("", s[1..], after);
    } else if after != "" {
      assert text[..|text| - 1] == "" + s + after[..|after| - 1];
      TrimBlanks("", s, after[..|after| - 1]);
      if s == "" {
        TrimAllBlank(text);
        TrimAllBlank(s);
      }
    } else {
      assert text == s;
    }
  }

  lemma {:induction false} TrimAllBlank(s: string)
    requires Blank(s)
    ensures Trim(s) == ""
  {
    if s != "" {
      TrimAllBlank(s[1..]);
    }
  }

  lemma TrimEncode(bytes: seq<byte>)
    ensures Trim(Encode(bytes)) == Encode(bytes)
  {
    hide IsSpace, Encode;
  }
}

module IdentityStore {
  import opened Bytes
  import opened Hex
  import opened Wrappers

  const SECRET_LEN: nat := 32

  type Secret = s: seq<byte> | |s| == SECRET_LEN witness seq(32, _ => 0)

  function ParseBytes(bytes: seq<byte>): Option<Secret> {
    if |bytes| == SECRET_LEN then Some(bytes) else None
  }

  function ParseHex(hex: string): Option<Secret> {
    var bytes := Decode(Trim(hex));
    if bytes.None? then None else ParseBytes(bytes.value)
  }

  lemma HexRoundTrip(secret: Secret)
    ensures ParseHex(Encode(secret)) == Some(secret)
  {
    TrimEncode(secret);
    DecodeEncode(secret);
  }

  // What survives the process: the identity file, its temporary sibling and the
  // keychain entry.
  datatype Disk = Disk(file: Option<seq<byte>>, tmp: Option<seq<byte>>, keychain: Option<string>)

  datatype Source = EnvVar | IdentityFile | KeychainMigrated | Generated

  datatype Outcome = Loaded(secret: Secret, source: Source) | LoadError | Crashed

  // What goes wrong during one load. A crash or write error before the rename
  // leaves anything at the temporary name.
  datatype Fault =
    | NoFault
    | FileUnreadable
    | KeychainUnreadable
    | DiesBeforeRename(tmp: Option<seq<byte>>)
    | WriteFails(tmp: Option<seq<byte>>)
    | DiesAfterRename
    | PermissionFails                        // on the renamed file
    | SaveFails

  function FileSecret(d: Disk): Option<Secret> {
    if d.file.None? then None else ParseBytes(d.file.value)
  }

  function KeychainSecret(d: Disk): Option<Secret> {
    if d.keychain.None? then None else ParseHex(d.keychain.value)
  }

  function Synced(d: Disk, secret: Secret, fault: Fault): Disk {
    if fault.SaveFails? then d else d.(keychain := Some(Encode(secret)))
  }

  // Loading when the file already holds a secret: only the keychain may change.
  function LoadFromFile(d: Disk, file: Secret, fault: Fault): (Disk, Outcome) {
    if KeychainSecret(d) == Some(file) then (d, Loaded(file, IdentityFile))
    else if fault.DiesBeforeRename? || fault.DiesAfterRename? then (d, Crashed)
    else (Synced(d, file, fault), Loaded(file, IdentityFile))
  }

  // Storing a secret that is not in the file yet.
  function LoadAndStore(d: Disk, secret: Secret, source: Source, fault: Fault): (Disk, Outcome) {
    match fault
    case DiesBeforeRename(tmp) => (d.(tmp := tmp), Crashed)
    case WriteFails(tmp) => (d.(tmp := tmp), LoadError)
    case DiesAfterRename => (d.(file := Some(secret), tmp := None), Crashed)
    case PermissionFails => (d.(file := Some(secret), tmp := None), LoadError)
    case _ => (Synced(d.(file := Some(secret), tmp := None), secret, fault), Loaded(secret, source))
  }

  function Load(d: Disk, env: Option<string>, generated: Secret, fault: Fault): (Disk, Outcome) {
    if env.Some? then
      (d, if ParseHex(env.value).Some? then Loaded(ParseHex(env.value).value, EnvVar) else LoadError)
    else if fault.FileUnreadable? && d.file.Some? then (d, LoadError)
    else if fault.KeychainUnreadable? then (d, LoadError)
    else if FileSecret(d).Some? then LoadFromFile(d, FileSecret(d).value, fault)
    else if KeychainSecret(d).Some? then LoadAndStore(d, KeychainSecret(d).value, KeychainMigrated, fault)
    else LoadAndStore(d, generated, Generated, fault)
  }

  class SecretHome {
    var file: Option<seq<byte>>
    var tmp: Option<seq<byte>>
    var keychain: Option<string>

    function Now(): Disk
      reads this
    {
      Disk(file, tmp, keychain)
    }

    // None: written and renamed. Some: how it was cut short.
    method WriteIdentityFile(secret: Secret, fault: Fault) returns (cut: Option<Outcome>)
      modifies this
      ensures keychain == old(keychain)
      ensures fault.DiesBeforeRename? || fault.WriteFails? ==> file == old(file) && tmp == fault.tmp
      ensures !fault.DiesBeforeRename? && !fault.WriteFails? ==> file == Some(secret) && tmp == None
      ensures cut == if fault.DiesBeforeRename? || fault.DiesAfterRename? then Some(Crashed)
                     else if fault.WriteFails? || fault.PermissionFails? then Some(LoadError) else None
    {
      tmp := Some(secret);
      if fault.DiesBeforeRename? || fault.WriteFails? {
        tmp := fault.tmp;
        return Some(if fault.WriteFails? then LoadError else Crashed);
      }
      file := tmp;
      tmp := None;
      cut := if fault.DiesAfterRename? then Some(Crashed) else if fault.PermissionFails? then Some(LoadError) else None;
    }

    method SyncKeychain(secret: Secret, fault: Fault)
      modifies this`keychain
      ensures Now() == Synced(old(Now()), secret, fault)
    {
      if !fault.SaveFails? {
        keychain := Some(Encode(secret));
      }
    }

    method LoadOrCreateSecret(env: Option<string>, generated: Secret, fault: Fault) returns (outcome: Outcome)
      modifies this
      ensures (Now(), outcome) == Load(old(Now()), env, generated, fault)
    {
      hide ParseHex;
      if env.Some? {
        var secret := ParseHex(env.value);
        return if secret.Some? then Loaded(secret.value, EnvVar) else LoadError;
      }
      if fault.FileUnreadable? && file.Some? {
        return LoadError;
      }
      var fileSecret := FileSecret(Now());
      if fault.KeychainUnreadable? {
        return LoadError;
      }
      var keychainSecret := KeychainSecret(Now());
      if fileSecret.Some? {
        if keychainSecret != fileSecret {
          if fault.DiesBeforeRename? || fault.DiesAfterRename? {
            return Crashed;
          }
          SyncKeychain(fileSecret.value, fault);
        }
        return Loaded(fileSecret.value, IdentityFile);
      }
      var secret := if keychainSecret.Some? then keychainSecret.value else generated;
      var cut := WriteIdentityFile(secret, fault);
      if cut.Some? {
        return cut.value;
      }
      SyncKeychain(secret, fault);
      outcome := Loaded(secret, if keychainSecret.Some? then KeychainMigrated else Generated);
    }
  }

  // --------------------------------------------------------------- whole lives

  // A start of the application, or something else changing the keychain.
  datatype Event =
    | Start(env: Option<string>, generated: Secret, fault: Fault)
    | OutsideChange(keychain: Option<string>)

  function After(d: Disk, e: Event): Disk {
    match e
    case Start(env, generated, fault) => Load(d, env, generated, fault).0
    case OutsideChange(keychain) => d.(keychain := keychain)
  }

  function State(d: Disk, es: seq<Event>): Disk {
    if es == [] then d else After(State(d, es[..|es| - 1]), es[|es| - 1])
  }

  // What start number i of a life returned.
  function Returned(d: Disk, es: seq<Event>, i: nat): Outcome
    requires i < |es| && es[i].Start?
  {
    Load(State(d, es[..i]), es[i].env, es[i].generated, es[i].fault).1
  }

  // A valid identity file decides, whatever the keychain holds, and stays.
  lemma FileWins(d: Disk, generated: Secret, fault: Fault)
    requires FileSecret(d).Some?
    ensures var (d', outcome) := Load(d, None, generated, fault);
            && d'.file == d.file
            && (outcome.Loaded? ==> outcome == Loaded(FileSecret(d).value, IdentityFile))
            && (fault.NoFault? || fault.SaveFails? ==> outcome.Loaded?)
  {
    hide ParseHex;
  }

  // A text is accepted exactly if it is a secret in lower-case hex, with any
  // white space around it.
  lemma ParseHexExact(hex: string, secret: Secret)
    ensures ParseHex(hex) == Some(secret) <==> Trim(hex) == Encode(secret)
  {
    DecodeEncode(secret);
    EncodeDecode(Trim(hex));
  }

  predicate ValidFile(d: Disk) {
    d.file.Some? && |d.file.value| == 32
  }

  predicate StoreFails(fault: Fault) {
    fault.DiesBeforeRename? || fault.WriteFails? || fault.DiesAfterRename? || fault.PermissionFails?
  }

  // An override that parses is used, one that does not is an error, and neither
  // touches the disk.
  lemma OverrideDecides(d: Disk, env: string, generated: Secret, fault: Fault)
    ensures var (d', outcome) := Load(d, Some(env), generated, fault);
            && d' == d
            && (forall k :: outcome == Loaded(k, EnvVar) <==> ParseHex(env) == Some(k))
            && (ParseHex(env).None? <==> outcome == LoadError)
  {
    hide ParseHex;
  }

  // With no valid file, a secret in the keychain is loaded and moved into the
  // file; with none there either, a fresh one is.
  lemma MigratesOrGenerates(d: Disk, generated: Secret, fault: Fault)
    requires !ValidFile(d) && (fault.NoFault? || fault.SaveFails?)
    ensures var (d', outcome) := Load(d, None, generated, fault);
            && (forall k :: d.keychain.Some? && ParseHex(d.keychain.value) == Some(k) ==>
                  outcome == Loaded(k, KeychainMigrated) && d'.file == Some(k))
            && (d.keychain.None? || ParseHex(d.keychain.value).None? ==>
                  outcome == Loaded(generated, Generated) && d'.file == Some(generated))
            && d'.tmp == None && (fault.SaveFails? ==> d'.keychain == d.keychain)
  {
    hide ParseHex, Encode;
  }

  // Exactly when a start without override loads a secret.
  lemma LoadedIff(d: Disk, generated: Secret, fault: Fault)
    ensures var (d', outcome) := Load(d, None, generated, fault);
            outcome.Loaded? <==>
            && !(fault.FileUnreadable? && d.file.Some?) && !fault.KeychainUnreadable?
            && (!ValidFile(d) ==> !StoreFails(fault))
            && (ValidFile(d) && !(d.keychain.Some? && ParseHex(d.keychain.value) == Some(d.file.value)) ==>
                  !fault.DiesBeforeRename? && !fault.DiesAfterRename?)
  {
    hide ParseHex, Encode;
  }

  // No start without override, whatever goes wrong in it, touches a valid file or
  // loses a keychain secret that no file has replaced.
  predicate Keeps(k: Secret, d: Disk) {
    if ValidFile(d) then d.file == Some(k) else d.keychain.Some? && ParseHex(d.keychain.value) == Some(k)
  }

  lemma StartKeeps(k: Secret, d: Disk, generated: Secret, fault: Fault)
    requires Keeps(k, d)
    ensures var (d', outcome) := Load(d, None, generated, fault);
            Keeps(k, d') && (outcome.Loaded? ==> outcome.secret == k)
  {
    hide ParseHex, Encode;
    HexRoundTrip(k);
  }

  // Over any number of starts, with any faults and overrides in between, a
  // secret held by the file or by the keychain alone is the one that is loaded.
  lemma {:induction false} SecretIsKept(k: Secret, d: Disk, es: seq<Event>)
    requires Keeps(k, d) && forall e :: e in es ==> e.Start?
    ensures Keeps(k, State(d, es))
    ensures forall i :: 0 <= i < |es| && es[i].env.None? && Returned(d, es, i).Loaded? ==>
              Returned(d, es, i).secret == k
  {
    hide Load, Keeps;
    if es != [] {
      var n := |es| - 1;
      SecretIsKept(k, d, es[..n]);
      var before, e := State(d, es[..n]), es[n];
      assert e in es;
      if e.env.None? {
        StartKeeps(k, before, e.generated, e.fault);
      } else {
        EnvTouchesNothing(before, e);
      }
      forall i | 0 <= i < |es| && es[i].env.None? && Returned(d, es, i).Loaded?
        ensures Returned(d, es, i).secret == k
      {
        if i < n {
          assert es[..n][..i] == es[..i] && es[..n][i] == es[i];
          assert Returned(d, es[..n], i) == Returned(d, es, i);
        }
      }
    }
  }

  // A load that meets no fault leaves file and keychain agreeing on its secret.
  lemma LoadSyncs(d: Disk, generated: Secret)
    ensures var (d', outcome) := Load(d, None, generated, NoFault);
            && outcome.Loaded?
            && FileSecret(d') == KeychainSecret(d') == Some(outcome.secret)
  {
    hide Encode, ParseHex;
    var (_, outcome) := Load(d, None, generated, NoFault);
    HexRoundTrip(outcome.secret);
  }

  lemma SecretStored(d: Disk, e: Event)
    requires e.Start? && e.env.None?
    ensures var (d', outcome) := Load(d, e.env, e.generated, e.fault);
            outcome.Loaded? ==> FileSecret(d') == Some(outcome.secret)
  {
    hide ParseHex;
  }

  lemma {:induction false} FileStays(d: Disk, es: seq<Event>, i: nat, j: nat)
    requires i <= j <= |es| && FileSecret(State(d, es[..i])).Some?
    ensures State(d, es[..j]).file == State(d, es[..i]).file
  {
    hide Load;
    if i < j {
      FileStays(d, es, i, j - 1);
      assert es[..j][..j - 1] == es[..j - 1];
      var before, e := State(d, es[..j - 1]), es[j - 1];
      if e.Start? {
        if e.env.None? {
          FileWins(before, e.generated, e.fault);
        } else {
          EnvTouchesNothing(before, e);
        }
      }
    }
  }

  lemma EnvTouchesNothing(d: Disk, e: Event)
    requires e.Start? && e.env.Some?
    ensures Load(d, e.env, e.generated, e.fault).0 == d
  {
  }

  // Once a start without override has loaded a secret, every later one that
  // loads returns the same secret from the identity file, through any crashes,
  // failed saves and outside changes to the keychain.
  lemma SecretIsStable(d: Disk, es: seq<Event>, i: nat, j: nat)
    requires i < j < |es| && es[i].Start? && es[i].env.None? && es[j].Start? && es[j].env.None?
    requires Returned(d, es, i).Loaded? && Returned(d, es, j).Loaded?
    ensures Returned(d, es, j) == Loaded(Returned(d, es, i).secret, IdentityFile)
  {
    hide Load;
    var before := State(d, es[..i]);
    SecretStored(before, es[i]);
    assert es[..i + 1][..i] == es[..i];
    FileStays(d, es, i + 1, j);
    FileWins(State(d, es[..j]), es[j].generated, es[j].fault);
  }
}
