// The CRC-32 of frontend/src/lib/web-zip.ts: the 256-entry table, the
// byte-at-a-time loop over it, and the bit-serial register of section 8 of
// RFC 1952 that both are meant to compute.

module Crc32 {
  import opened Bytes
  import opened Bits
  import opened Numbers

  const POLY: seq<bool> := FromNat(0xEDB88320, 32)

  const ALL_ONES: seq<bool> := FromNat(0xFFFF_FFFF, 32)

  lemma PolynomialTopBit()
    ensures POLY[31]
  {
    hide Pow2, FromNat;
    Powers();
    ToFromNat(0xEDB88320, 32);
    TopBit(POLY);
  }

  // ---------------------------------------------------------------- reference

  // One clock of the shift register with one message bit at its input.
  function Clock(crc: Word, bit: bool): Word {
    if crc[0] != bit then Xor(POLY, ShiftRight(crc, 1)) else ShiftRight(crc, 1)
  }

  function Feed(crc: Word, message: seq<bool>): Word
    decreases |message|
  {
    if message == [] then crc else Feed(Clock(crc, message[0]), message[1..])
  }

  // The message as a bit stream, each byte least significant bit first.
  function Stream(s: seq<byte>): (r: seq<bool>)
    ensures |r| == 8 * |s|
  {
    if s == [] then [] else FromNat(s[0], 8) + Stream(s[1..])
  }

  // The checksum of the standard: preset to ones, feed, complement.
  function Checksum(s: seq<byte>): Word {
    Xor(Feed(ALL_ONES, Stream(s)), ALL_ONES)
  }

  // ---------------------------------------------------------------- the shift

  // The body of the table's inner loop, and n turns of it.
  function Shift1(v: Word): (r: Word)
    ensures forall i :: 0 <= i < 32 ==> r[i] == ((i < 31 && v[i + 1]) != (v[0] && POLY[i]))
  {
    if v[0] then Xor(POLY, ShiftRight(v, 1)) else ShiftRight(v, 1)
  }

  function Shift(v: Word, n: nat): Word
    decreases n
  {
    if n == 0 then v else Shift(Shift1(v), n - 1)
  }

  // The table works because the shifts distribute over XOR.
  lemma {:induction false} ShiftLinear(a: Word, b: Word, n: nat)
    ensures Shift(Xor(a, b), n) == Xor(Shift(a, n), Shift(b, n))
    decreases n
  {
    if n > 0 {
      assert Shift1(Xor(a, b)) == Xor(Shift1(a), Shift1(b));
      ShiftLinear(Shift1(a), Shift1(b), n - 1);
    }
  }

  // The top bit of POLY is set, so a shift can always be undone.
  lemma Shift1Injective(a: Word, b: Word)
    requires Shift1(a) == Shift1(b)
    ensures a == b
  {
    PolynomialTopBit();
    assert Shift1(a)[31] == a[0] && Shift1(b)[31] == b[0];
    forall i | 0 <= i < 32
      ensures a[i] == b[i]
    {
      if i > 0 {
        assert Shift1(a)[i - 1] == Shift1(b)[i - 1];
      }
    }
  }

  lemma {:induction false} ShiftInjective(a: Word, b: Word, n: nat)
    requires Shift(a, n) == Shift(b, n)
    ensures a == b
    decreases n
  {
    if n > 0 {
      ShiftInjective(Shift1(a), Shift1(b), n - 1);
      Shift1Injective(a, b);
    }
  }

  lemma {:induction false} ShiftClear(v: Word, n: nat)
    requires n <= 32 && forall i :: 0 <= i < n ==> !v[i]
    ensures Shift(v, n) == ShiftRight(v, n)
    decreases n
  {
    if n > 0 {
      assert Shift1(v) == ShiftRight(v, 1);
      ShiftClear(Shift1(v), n - 1);
    } else {
      assert ShiftRight(v, 0) == v;
    }
  }

  lemma ClockIsShift(crc: Word, message: seq<bool>)
    requires 0 < |message| <= 32
    ensures Shift1(Xor(crc, Pad(message))) == Xor(Clock(crc, message[0]), Pad(message[1..]))
  {
    hide FromNat;
    var lhs, rhs := Shift1(Xor(crc, Pad(message))), Xor(Clock(crc, message[0]), Pad(message[1..]));
    assert forall i :: 0 <= i < 31 ==> Pad(message)[i + 1] == Pad(message[1..])[i];
    assert forall i :: 0 <= i < 32 ==> lhs[i] == rhs[i];
  }

  // Feeding up to 32 message bits one at a time is that many shifts of the
  // register XORed with the bits.
  lemma {:induction false} FeedIsShift(crc: Word, message: seq<bool>)
    requires |message| <= 32
    ensures Feed(crc, message) == Shift(Xor(crc, Pad(message)), |message|)
    decreases |message|
  {
    hide Clock, Shift1, Pad;
    if message == [] {
      assert Xor(crc, Pad([])) == crc;
    } else {
      ClockIsShift(crc, message);
      FeedIsShift(Clock(crc, message[0]), message[1..]);
    }
  }

  lemma {:induction false} FeedConcat(crc: Word, a: seq<bool>, b: seq<bool>)
    ensures Feed(crc, a + b) == Feed(Feed(crc, a), b)
    decreases |a|
  {
    if a == [] {
      assert a + b == b;
    } else {
      assert (a + b)[1..] == a[1..] + b;
      FeedConcat(Clock(crc, a[0]), a[1..], b);
    }
  }

  lemma {:induction false} FeedInjective(c: Word, d: Word, message: seq<bool>)
    requires Feed(c, message) == Feed(d, message)
    ensures c == d
    decreases |message|
  {
    if message != [] {
      FeedInjective(Clock(c, message[0]), Clock(d, message[0]), message[1..]);
      var w := Pad([message[0]]);
      FeedIsShift(c, [message[0]]);
      FeedIsShift(d, [message[0]]);
      assert Feed(c, [message[0]]) == Feed(d, [message[0]]);
      ShiftInjective(Xor(c, w), Xor(d, w), 1);
      XorCancel(c, d, w);
    }
  }

  lemma XorCancel(c: Word, d: Word, w: Word)
    requires Xor(c, w) == Xor(d, w)
    ensures c == d
  {
    assert forall i :: 0 <= i < 32 ==> Xor(c, w)[i] == Xor(d, w)[i];
  }

  // ------------------------------------------------------ what the CRC detects

  lemma WindowInjective(crc: Word, a: seq<bool>, b: seq<bool>)
    requires |a| == |b| <= 32 && Feed(crc, a) == Feed(crc, b)
    ensures a == b
  {
    FeedIsShift(crc, a);
    FeedIsShift(crc, b);
    ShiftInjective(Xor(crc, Pad(a)), Xor(crc, Pad(b)), |a|);
    assert forall i :: 0 <= i < 32 ==> Xor(crc, Pad(a))[i] == Xor(crc, Pad(b))[i];
    assert forall i :: 0 <= i < |a| ==> Pad(a)[i] == Pad(b)[i];
  }

  // Two bit streams that agree outside a window of at most 32 bits, and differ
  // inside it, never leave the register in the same state.
  lemma BurstSeen(crc: Word, before: seq<bool>, a: seq<bool>, b: seq<bool>, after: seq<bool>)
    requires |a| == |b| <= 32 && a != b
    ensures Feed(crc, before + a + after) != Feed(crc, before + b + after)
  {
    FeedConcat(crc, before + a, after);
    FeedConcat(crc, before + b, after);
    FeedConcat(crc, before, a);
    FeedConcat(crc, before, b);
    if Feed(crc, before + a + after) == Feed(crc, before + b + after) {
      FeedInjective(Feed(crc, before + a), Feed(crc, before + b), after);
      WindowInjective(Feed(crc, before), a, b);
    }
  }

  lemma {:induction false} StreamConcat(s: seq<byte>, t: seq<byte>)
    ensures Stream(s + t) == Stream(s) + Stream(t)
  {
    if s == [] {
      assert s + t == t;
    } else {
      assert (s + t)[1..] == s[1..] + t;
      StreamConcat(s[1..], t);
    }
  }

  lemma {:induction false} StreamInjective(s: seq<byte>, t: seq<byte>)
    requires Stream(s) == Stream(t)
    ensures s == t
  {
    assert |Stream(s)| == 8 * |s| && |Stream(t)| == 8 * |t|;
    if s != [] {
      assert FromNat(s[0], 8) == Stream(s)[..8] == Stream(t)[..8] == FromNat(t[0], 8);
      Powers();
      ToFromNat(s[0], 8);
      ToFromNat(t[0], 8);
      assert Stream(s[1..]) == Stream(s)[8..] == Stream(t)[8..] == Stream(t[1..]);
      StreamInjective(s[1..], t[1..]);
      assert s == [s[0]] + s[1..] && t == [t[0]] + t[1..];
    }
  }

  // Damage confined to four consecutive bytes (so any single byte) always
  // changes the checksum.
  lemma ChecksumDetectsBurst(before: seq<byte>, a: seq<byte>, b: seq<byte>, after: seq<byte>)
    requires |a| == |b| <= 4 && a != b
    ensures Checksum(before + a + after) != Checksum(before + b + after)
  {
    hide Feed, Stream, FromNat;
    StreamConcat(before + a, after);
    StreamConcat(before, a);
    StreamConcat(before + b, after);
    StreamConcat(before, b);
    if Stream(a) == Stream(b) {
      StreamInjective(a, b);
    }
    BurstSeen(ALL_ONES, Stream(before), Stream(a), Stream(b), Stream(after));
    var x, y := Feed(ALL_ONES, Stream(before + a + after)), Feed(ALL_ONES, Stream(before + b + after));
    if Xor(x, ALL_ONES) == Xor(y, ALL_ONES) {
      XorCancel(x, y, ALL_ONES);
    }
  }

  // Two messages of equal length that differ in exactly one byte.
  lemma ChecksumDetectsByte(s: seq<byte>, t: seq<byte>, k: nat)
    requires |s| == |t| && k < |s| && s[k] != t[k]
    requires forall i :: 0 <= i < |s| && i != k ==> s[i] == t[i]
    ensures Checksum(s) != Checksum(t)
  {
    hide Checksum;
    ChecksumDetectsBurst(s[..k], [s[k]], [t[k]], s[k + 1..]);
    assert s == s[..k] + [s[k]] + s[k + 1..];
    assert t == s[..k] + [t[k]] + s[k + 1..];
  }

  // ------------------------------------------------------- the table-driven loop

  function TableEntry(i: byte): Word {
    Shift(Pad(FromNat(i, 8)), 8)
  }

  ghost predicate IsTable(t: seq<Word>) {
    |t| == 256 && forall i :: 0 <= i < 256 ==> t[i] == TableEntry(i)
  }

  method ShiftLoop(start: Word, turns: nat) returns (value: Word)
    ensures value == Shift(start, turns)
  {
    value := start;
    for bit := 0 to turns
      invariant Shift(value, turns - bit) == Shift(start, turns)
    {
      value := if value[0] then Xor(POLY, ShiftRight(value, 1)) else ShiftRight(value, 1);
    }
  }

  method BuildTable() returns (table: array<Word>)
    ensures fresh(table) && IsTable(table[..])
  {
    hide Shift, Pad, FromNat;
    table := new Word[256](_ => Zeros(32));
    for index := 0 to 256
      invariant forall i :: 0 <= i < index ==> table[i] == TableEntry(i)
    {
      var value := ShiftLoop(Pad(FromNat(index, 8)), 8);
      table[index] := value;
    }
  }

  // The low byte of a register, as the table index it is used as.
  function LowByte(w: Word): (r: nat)
    ensures r < 256 && FromNat(r, 8) == w[..8]
  {
    FromToNat(w[..8]);
    Powers();
    ToNat(w[..8])
  }

  lemma SplitLowByte(crc: Word, x: Word)
    requires forall i :: 8 <= i < 32 ==> x[i] == crc[i]
    ensures Shift(x, 8) == Xor(Shift(Pad(x[..8]), 8), ShiftRight(crc, 8))
  {
    hide Shift;
    var low, high := Pad(x[..8]), Zeros(8) + x[8..];
    assert x == Xor(low, high);
    ShiftLinear(low, high, 8);
    ShiftClear(high, 8);
    assert ShiftRight(high, 8) == ShiftRight(crc, 8);
  }

  function Lookup(table: seq<Word>, crc: Word, b: byte): Word
    requires |table| == 256
  {
    Xor(table[LowByte(Xor(crc, Pad(FromNat(b, 8))))], ShiftRight(crc, 8))
  }

  // Splitting the register into its low byte and the rest is what makes 256
  // entries enough.
  lemma TableStep(crc: Word, b: byte, table: seq<Word>)
    requires IsTable(table)
    ensures Lookup(table, crc, b) == Feed(crc, FromNat(b, 8))
  {
    hide Shift, FromNat, Feed;
    var x := Xor(crc, Pad(FromNat(b, 8)));
    FeedIsShift(crc, FromNat(b, 8));
    SplitLowByte(crc, x);
    assert table[LowByte(x)] == TableEntry(LowByte(x)) == Shift(Pad(x[..8]), 8);
  }

  method Compute(table: array<Word>, bytes: seq<byte>) returns (crc: Word)
    requires IsTable(table[..])
    ensures crc == Checksum(bytes)
  {
    hide Feed, FromNat, Lookup;
    crc := ALL_ONES;
    assert Stream(bytes[..0]) == [];
    FeedNothing(crc);
    for k := 0 to |bytes|
      invariant crc == Feed(ALL_ONES, Stream(bytes[..k]))
    {
      TableStep(crc, bytes[k], table[..]);
      crc := Lookup(table[..], crc, bytes[k]);
      StreamSnoc(bytes[..k], bytes[k]);
      assert bytes[..k + 1] == bytes[..k] + [bytes[k]];
      FeedConcat(ALL_ONES, Stream(bytes[..k]), FromNat(bytes[k], 8));
    }
    assert bytes[..|bytes|] == bytes;
    crc := Xor(crc, ALL_ONES);
  }

  lemma FeedNothing(crc: Word)
    ensures Feed(crc, []) == crc
  {
  }

  lemma StreamSnoc(s: seq<byte>, b: byte)
    ensures Stream(s + [b]) == Stream(s) + FromNat(b, 8)
  {
    StreamConcat(s, [b]);
    assert Stream([b]) == FromNat(b, 8) + Stream([]) == FromNat(b, 8);
  }

  // --------------------------------------------------------------- known values

  lemma {:induction false} ShiftZeros(n: nat)
    ensures Shift(Zeros(32), n) == Zeros(32)
    decreases n
  {
    if n > 0 {
      assert Shift1(Zeros(32)) == Zeros(32);
      ShiftZeros(n - 1);
    }
  }

  lemma AllOnes()
    ensures ToNat(POLY) == 0xEDB88320 && ToNat(ALL_ONES) == 0xFFFF_FFFF
    ensures forall i :: 0 <= i < 32 ==> ALL_ONES[i]
  {
    hide Pow2, FromNat;
    Powers();
    ToFromNat(0xEDB88320, 32);
    ToFromNat(0xFFFF_FFFF, 32);
    Maximal(ALL_ONES);
  }

  // Bits whose value is the largest are all set.
  lemma {:induction false} Maximal(bits: seq<bool>)
    requires ToNat(bits) == Pow2(|bits|) - 1
    ensures forall i :: 0 <= i < |bits| ==> bits[i]
  {
    if bits != [] {
      FromToNat(bits[1..]);
      Maximal(bits[1..]);
      assert forall i :: 0 < i < |bits| ==> bits[i] == bits[1..][i - 1];
    }
  }

  // A register of ones is cleared by as many ones.
  lemma OnesCancel(message: seq<bool>)
    requires |message| == 32 && forall i :: 0 <= i < 32 ==> message[i]
    ensures Xor(Feed(ALL_ONES, message), ALL_ONES) == ALL_ONES
  {
    hide Feed, Shift, FromNat;
    AllOnes();
    FeedIsShift(ALL_ONES, message);
    assert Xor(ALL_ONES, Pad(message)) == Zeros(32);
    ShiftZeros(|message|);
    assert Xor(Zeros(32), ALL_ONES) == ALL_ONES;
  }

  // Nothing sums to zero, four bytes 0xff to all ones, and the table holds the
  // polynomial at 128.
  lemma KnownValues()
    ensures ToNat(POLY) == 0xEDB88320 && TableEntry(128) == POLY
    ensures Checksum([]) == Zeros(32)
    ensures Checksum([255, 255, 255, 255]) == ALL_ONES && ToNat(ALL_ONES) == 0xFFFF_FFFF
  {
    hide Feed, Shift, Stream, TableEntry, FromNat, ToNat;
    AllOnes();
    EntryOf128();
    StreamOfOnes();
    FeedNothing(ALL_ONES);
    OnesCancel(Stream([255, 255, 255, 255]));
    assert Xor(ALL_ONES, ALL_ONES) == Zeros(32);
  }

  lemma StreamOfOnes()
    ensures Stream([]) == [] && forall i :: 0 <= i < 32 ==> Stream([255, 255, 255, 255])[i]
  {
    hide FromNat, Pow2;
    var b := FromNat(255, 8);
    Powers();
    ToFromNat(255, 8);
    Maximal(b);
    var s: seq<byte> := [255, 255, 255, 255];
    assert s[1..][1..][1..][1..] == [];
    assert Stream(s) == b + (b + (b + (b + [])));
  }

  lemma EntryOf128()
    ensures TableEntry(128) == POLY
  {
    var v := Pad(FromNat(128, 8));
    assert Halve(128, 7) == 1 && Halve(128, 6) == 2 && Halve(128, 5) == 4 && Halve(128, 4) == 8;
    assert Halve(128, 3) == 16 && Halve(128, 2) == 32 && Halve(128, 1) == 64 && Halve(128, 0) == 128;
    assert forall i :: 0 <= i < 7 ==> !v[i];
    ShiftClear(v, 7);
    var w := ShiftRight(v, 7);
    assert w[0] && forall i :: 1 <= i < 32 ==> !w[i];
    ShiftMore(v, 7);
    assert Shift1(w) == POLY;
  }

  lemma {:induction false} ShiftMore(v: Word, n: nat)
    ensures Shift(v, n + 1) == Shift1(Shift(v, n))
    decreases n
  {
    if n > 0 {
      ShiftMore(Shift1(v), n - 1);
    }
  }
}
