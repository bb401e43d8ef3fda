// Bytes, and 32-bit numbers as their bits, least significant first: `^` is
// bitwise inequality, `>>> k` drops k bits and pads with zeros, and `& 0xff`
// keeps the first eight.

module Bytes {
  type byte = b: int | 0 <= b < 256
}

module Bits {
  import opened Numbers

  function Halve(n: nat, i: nat): nat
    decreases i
  {
    if i == 0 then n else Halve(n / 2, i - 1)
  }

  // The k low bits of n, least significant first.
  function FromNat(n: nat, k: nat): (r: seq<bool>)
    ensures |r| == k
    ensures forall i :: 0 <= i < k ==> r[i] == (Halve(n, i) % 2 == 1)
  {
    seq(k, i requires 0 <= i < k => Halve(n, i) % 2 == 1)
  }

  lemma FromNatUnfold(n: nat, k: nat)
    requires k > 0
    ensures FromNat(n, k) == [n % 2 == 1] + FromNat(n / 2, k - 1)
  {
    assert forall i :: 1 <= i < k ==> Halve(n, i) == Halve(n / 2, i - 1);
  }

  function ToNat(bits: seq<bool>): nat {
    if bits == [] then 0 else (if bits[0] then 1 else 0) + 2 * ToNat(bits[1..])
  }

  lemma {:induction false} FromToNat(bits: seq<bool>)
    ensures ToNat(bits) < Pow2(|bits|)
    ensures FromNat(ToNat(bits), |bits|) == bits
  {
    if bits != [] {
      FromToNat(bits[1..]);
      FromNatUnfold(ToNat(bits), |bits|);
      assert ToNat(bits) / 2 == ToNat(bits[1..]);
      assert bits == [bits[0]] + bits[1..];
    }
  }

  lemma {:induction false} ToFromNat(n: nat, k: nat)
    requires n < Pow2(k)
    ensures ToNat(FromNat(n, k)) == n
    decreases k
  {
    if k > 0 {
      ToFromNat(n / 2, k - 1);
      FromNatUnfold(n, k);
      assert FromNat(n, k)[1..] == FromNat(n / 2, k - 1);
    }
  }

  lemma Powers()
    ensures Pow2(8) == 0x100 && Pow2(31) == 0x8000_0000 && Pow2(32) == 0x1_0000_0000
  {
    assert Pow2(8) == 0x100;
    assert Pow2(16) == 0x1_0000;
    assert Pow2(24) == 0x100_0000;
  }

  lemma {:induction false} TopBit(bits: seq<bool>)
    requires bits != [] && ToNat(bits) >= Pow2(|bits| - 1)
    ensures bits[|bits| - 1]
  {
    if |bits| > 1 {
      TopBit(bits[1..]);
    }
  }

  function Zeros(k: nat): (r: seq<bool>)
    ensures |r| == k
    ensures forall i :: 0 <= i < k ==> !r[i]
  {
    seq(k, _ => false)
  }

  type Word = w: seq<bool> | |w| == 32 witness Zeros(32)

  function Xor(a: Word, b: Word): (r: Word)
    ensures forall i :: 0 <= i < 32 ==> r[i] == (a[i] != b[i])
  {
    seq(32, i requires 0 <= i < 32 => a[i] != b[i])
  }

  function ShiftRight(a: Word, k: nat): Word
    requires k <= 32
  {
    a[k..] + Zeros(k)
  }

  // A short bit string as the low end of a word.
  function Pad(bits: seq<bool>): (r: Word)
    requires |bits| <= 32
    ensures forall i :: 0 <= i < |bits| ==> r[i] == bits[i]
    ensures forall i :: |bits| <= i < 32 ==> !r[i]
  {
    bits + Zeros(32 - |bits|)
  }
}
