// Numbered names: decimal printing, and the de-duplication of collection entry
// names in engine/native/src/import.rs.

module Decimal {
  function Digit(d: nat): char
    requires d < 10
  {
    '0' + d as char
  }

  // format!("{}", n)
  function Print(n: nat): (s: string)
    ensures s != "" && forall i :: 0 <= i < |s| ==> '0' <= s[i] <= '9'
  {
    if n < 10 then [Digit(n)] else Print(n / 10) + [Digit(n % 10)]
  }

  // The number a string of digits stands for.
  function Value(s: string): nat
    requires forall i :: 0 <= i < |s| ==> '0' <= s[i] <= '9'
  {
    if s == "" then 0 else 10 * Value(s[..|s| - 1]) + (s[|s| - 1] - '0') as nat
  }

  lemma {:induction false} PrintValue(n: nat)
    ensures Value(Print(n)) == n
    ensures n > 0 ==> Print(n)[0] != '0'
  {
    if n >= 10 {
      PrintValue(n / 10);
      assert Print(n)[..|Print(n)| - 1] == Print(n / 10);
    } else {
      assert Value(Print(n)[..0]) == 0;
    }
  }

  lemma {:induction false} PrintInjective(m: nat, n: nat)
    requires Print(m) == Print(n)
    ensures m == n
  {
    var s := Print(m);
    assert s[|s| - 1] == Digit(m % 10) == Digit(n % 10);
    if m < 10 || n < 10 {
      assert |Print(m)| == 1 <==> m < 10;
      assert |Print(n)| == 1 <==> n < 10;
    } else {
      assert Print(m / 10) == s[..|s| - 1] == Print(n / 10);
      PrintInjective(m / 10, n / 10);
    }
  }

  // The " (k)" appended to a repeated name.
  function Suffix(k: nat): string {
    " (" + Print(k) + ")"
  }

  // The suffix can be recovered from the right end of the name.
  lemma SuffixRecoverable(a: string, j: nat, b: string, k: nat)
    requires a + Suffix(j) == b + Suffix(k)
    ensures a == b && j == k
  {
    var s, m, n := a + Suffix(j), |Print(j)|, |Print(k)|;
    assert s == a + " (" + Print(j) + ")" == b + " (" + Print(k) + ")";
    assert s[|s| - 2 - m] == '(' && s[|s| - 2 - n] == '(';
    assert forall i :: |s| - 1 - m <= i < |s| - 1 ==> s[i] == Print(j)[i - (|s| - 1 - m)];
    assert forall i :: |s| - 1 - n <= i < |s| - 1 ==> s[i] == Print(k)[i - (|s| - 1 - n)];
    assert m == n;
    assert Print(j) == s[|s| - 1 - m..|s| - 1] == Print(k);
    PrintInjective(j, k);
    assert a == s[..|s| - |Suffix(j)|] == b;
  }

  lemma NumberedInjective(before: string, after: string, j: nat, k: nat)
    requires before + Print(j) + after == before + Print(k) + after
    ensures j == k
  {
    var s := before + Print(j) + after;
    assert Print(j) == s[|before|..|s| - |after|] == Print(k);
    PrintInjective(j, k);
  }
}

module Dedup {
  import opened Decimal

  // How often x occurs in a list.
  function Count(names: seq<string>, x: string): nat {
    if names == [] then 0
    else Count(names[..|names| - 1], x) + if names[|names| - 1] == x then 1 else 0
  }

  // The how-manieth occurrence of its name entry i is, from 1.
  function Occurrence(names: seq<string>, i: nat): (r: nat)
    requires i < |names|
    ensures r >= 1
  {
    assert names[..i + 1][..i] == names[..i];
    Count(names[..i + 1], names[i])
  }

  // The first occurrence of n keeps its name and the k-th becomes "n (k)".
  function FinalName(names: seq<string>, i: nat): string
    requires i < |names|
  {
    var k := Occurrence(names, i);
    if k == 1 then names[i] else names[i] + Suffix(k)
  }

  // The map of names seen so far.
  class Seen {
    var counts: map<string, nat>

    constructor ()
      ensures counts == map[]
    {
      counts := map[];
    }

    method DedupName(name: string) returns (finalName: string)
      modifies this
      ensures counts == old(counts)[name := (if name in old(counts) then old(counts)[name] else 0) + 1]
      ensures finalName == if name in old(counts) then name + Suffix(counts[name]) else name
    {
      if name in counts {
        counts := counts[name := counts[name] + 1];
        finalName := name + Suffix(counts[name]);
      } else {
        counts := counts[name := 1];
        finalName := name;
      }
    }
  }

  method DedupAll(names: seq<string>) returns (out: seq<string>)
    ensures |out| == |names|
    ensures forall i :: 0 <= i < |names| ==> out[i] == FinalName(names, i)
  {
    hide Suffix;
    var seen := new Seen();
    out := [];
    for n := 0 to |names|
      invariant |out| == n
      invariant forall x :: x in seen.counts <==> Count(names[..n], x) > 0
      invariant forall x :: x in seen.counts ==> seen.counts[x] == Count(names[..n], x)
      invariant forall i :: 0 <= i < n ==> out[i] == FinalName(names, i)
    {
      assert names[..n + 1][..n] == names[..n];
      var finalName := seen.DedupName(names[n]);
      out := out + [finalName];
    }
  }

  lemma {:induction false} CountGrows(names: seq<string>, x: string, m: nat, n: nat)
    requires m <= n <= |names|
    ensures Count(names[..m], x) <= Count(names[..n], x)
  {
    if m < n {
      CountGrows(names, x, m, n - 1);
      assert names[..n][..n - 1] == names[..n - 1];
    }
  }

  lemma OccurrencesIncrease(names: seq<string>, i: nat, j: nat)
    requires i < j < |names| && names[i] == names[j]
    ensures Occurrence(names, i) < Occurrence(names, j)
  {
    CountGrows(names, names[i], i + 1, j);
    assert names[..j + 1][..j] == names[..j];
  }

  lemma {:induction false} FirstOccurrence(names: seq<string>, j: nat) returns (f: nat)
    requires j < |names|
    ensures f <= j && names[f] == names[j] && Occurrence(names, f) == 1
  {
    if i :| 0 <= i < j && names[i] == names[j] {
      f := FirstOccurrence(names, i);
    } else {
      f := j;
      NotBefore(names[..j], names[j]);
      assert names[..j + 1][..j] == names[..j];
    }
  }

  lemma {:induction false} NotBefore(names: seq<string>, x: string)
    requires x !in names
    ensures Count(names, x) == 0
  {
    if names != [] {
      NotBefore(names[..|names| - 1], x);
    }
  }

  predicate OutputsDistinct(names: seq<string>) {
    forall i, j :: 0 <= i < j < |names| ==> FinalName(names, i) != FinalName(names, j)
  }

  // No input name is one that de-duplication makes up for another.
  predicate NoClash(names: seq<string>) {
    forall i, j :: 0 <= i < |names| && 0 <= j < |names| && Occurrence(names, i) >= 2
      ==> names[j] != names[i] + Suffix(Occurrence(names, i))
  }

  lemma DistinctPair(names: seq<string>, i: nat, j: nat)
    requires NoClash(names) && i < j < |names|
    ensures FinalName(names, i) != FinalName(names, j)
  {
    var p, q := Occurrence(names, i), Occurrence(names, j);
    if names[i] == names[j] {
      OccurrencesIncrease(names, i, j);
      if FinalName(names, i) == FinalName(names, j) {
        SuffixRecoverable(names[i], p, names[j], q);
      }
    } else if p >= 2 && q >= 2 && FinalName(names, i) == FinalName(names, j) {
      SuffixRecoverable(names[i], p, names[j], q);
    }
  }

  // Made-up names are not recorded, so the outputs are pairwise distinct exactly
  // when no input name equals one of them.
  lemma DistinctIff(names: seq<string>)
    ensures OutputsDistinct(names) <==> NoClash(names)
  {
    if NoClash(names) {
      forall i, j | 0 <= i < j < |names|
        ensures FinalName(names, i) != FinalName(names, j)
      {
        DistinctPair(names, i, j);
      }
    } else {
      var i, j :| 0 <= i < |names| && 0 <= j < |names| && Occurrence(names, i) >= 2
                  && names[j] == names[i] + Suffix(Occurrence(names, i));
      var f := FirstOccurrence(names, j);
      assert FinalName(names, f) == FinalName(names, i) && f != i;
      assert f < i || i < f;
    }
  }

  // Two names never clash, so the list below is as short as a clash gets.
  lemma NoShorterClash(names: seq<string>)
    requires |names| <= 2
    ensures OutputsDistinct(names)
  {
    forall i, j | 0 <= i < |names| && 0 <= j < |names| && Occurrence(names, i) >= 2
      ensures names[j] != names[i] + Suffix(Occurrence(names, i))
    {
      RepeatedBefore(names, i);
      SuffixNotEmpty(Occurrence(names, i));
      hide *;
      assert names[j] == names[i];
      assert |names[i] + Suffix(Occurrence(names, i))| > |names[j]|;
    }
    DistinctIff(names);
  }

  lemma RepeatedBefore(names: seq<string>, i: nat)
    requires i < |names| && Occurrence(names, i) >= 2
    ensures names[i] in names[..i]
  {
    assert names[..i + 1][..i] == names[..i];
    if names[i] !in names[..i] {
      NotBefore(names[..i], names[i]);
    }
  }

  lemma SuffixNotEmpty(n: nat)
    ensures |Suffix(n)| > 0
  {
  }

  // A clash: two files "a" and one already called "a (2)".
  lemma ClashExists()
    ensures !OutputsDistinct(["a", "a", "a (2)"])
  {
    var names := ["a", "a", "a (2)"];
    assert names[..2] == ["a", "a"] && names[..2][..1] == ["a"] && names[..1] == ["a"] && names[..1][..0] == [];
    assert Occurrence(names, 1) == 2 by {
      assert Count(["a"], "a") == 1;
    }
    assert Print(2) == "2";
    assert names[2] == names[1] + Suffix(2);
    DistinctIff(names);
  }
}
