// Length-prefixed control messages, engine/protocol/src/control.rs. The JSON
// encoder is a parameter: all that is used of it is that it never produces an
// empty body and that its decoder undoes it.

module ControlFraming {
  import opened Bytes
  import opened Wrappers

  datatype Codec<!M> = Codec(encode: M -> seq<byte>, decode: seq<byte> -> Option<M>)

  ghost predicate Lawful<M(!new)>(c: Codec<M>) {
    forall m :: c.encode(m) != [] && c.decode(c.encode(m)) == Some(m)
  }

  const MAX_BODY: nat := 1024 * 1024

  // u32::to_be_bytes and from_be_bytes
  function BE16(n: nat): (r: seq<byte>)
    ensures |r| == 2
  {
    [n / 256 % 256, n % 256]
  }

  function BE32(n: nat): (r: seq<byte>)
    ensures |r| == 4
  {
    BE16(n / 0x1_0000) + BE16(n)
  }

  function Value(s: seq<byte>): (n: nat)
    requires |s| == 4
  {
    var a: int, b: int, c: int, d: int := s[0], s[1], s[2], s[3];
    (a * 256 + b) * 0x1_0000 + (c * 256 + d)
  }

  // The length is four bytes, the high one first.
  lemma BigEndian(n: nat, s: seq<byte>)
    requires n < 0x1_0000_0000 && |s| == 4
    ensures BE32(n)[0] == n / 0x100_0000 && BE32(n)[3] == n % 256
    ensures var a: int, b: int, c: int, d: int := s[0], s[1], s[2], s[3];
            Value(s) == 0x100_0000 * a + 0x1_0000 * b + 0x100 * c + d
  {
    assert n / 0x1_0000 / 256 == n / 0x100_0000;
  }

  lemma ValueOfBE32(n: nat)
    requires n < 0x1_0000_0000
    ensures Value(BE32(n)) == n
  {
    var high, low := n / 0x1_0000, n % 0x1_0000;
    assert n / 256 % 256 == low / 256 && n % 256 == low % 256;
    assert high / 256 % 256 == high / 256;
  }

  // ---------------------------------------------------------- one message

  // write_message refuses a body over the limit.
  predicate Writable<M>(c: Codec<M>, m: M) {
    |c.encode(m)| <= MAX_BODY
  }

  function Frame<M>(c: Codec<M>, m: M): (r: seq<byte>)
    ensures |r| == 4 + |c.encode(m)|
  {
    BE32(|c.encode(m)|) + c.encode(m)
  }

  // Ended: nothing was left to read. Truncated: less than a whole frame was.
  datatype Failure = Ended | Truncated | BadLength | BadBody

  datatype Read<M> = Message(message: M, rest: seq<byte>) | Failed(why: Failure, rest: seq<byte>)

  function ReadFrame<M>(c: Codec<M>, s: seq<byte>): (r: Read<M>)
    ensures |r.rest| <= |s| && (r.Message? ==> |r.rest| < |s|)
  {
    if s == [] then Failed(Ended, [])
    else if |s| < 4 then Failed(Truncated, [])
    else
      var n := Value(s[..4]);
      if n == 0 || n > MAX_BODY then Failed(BadLength, s[4..])
      else if |s| < 4 + n then Failed(Truncated, [])
      else
        var body := c.decode(s[4..4 + n]);
        if body.None? then Failed(BadBody, s[4 + n..]) else Message(body.value, s[4 + n..])
  }

  class Stream {
    var bytes: seq<byte>

    method WriteMessage<M>(c: Codec<M>, m: M) returns (ok: bool)
      modifies this
      ensures ok == Writable(c, m) && (ok <==> |c.encode(m)| <= 1048576)
      ensures bytes == old(bytes) + if ok then Frame(c, m) else []
    {
      var body := c.encode(m);
      if |body| > MAX_BODY {
        return false;
      }
      bytes := bytes + BE32(|body|);
      bytes := bytes + body;
      assert bytes == old(bytes) + Frame(c, m);
      ok := true;
    }

    // read_exact: None, with the stream drained, when fewer than n bytes are left.
    method ReadExact(n: nat) returns (r: Option<seq<byte>>)
      modifies this
      ensures r.Some? <==> n <= |old(bytes)|
      ensures r.Some? ==> r.value == old(bytes)[..n] && bytes == old(bytes)[n..]
      ensures r.None? ==> bytes == []
    {
      if n > |bytes| {
        bytes := [];
        return None;
      }
      r := Some(bytes[..n]);
      bytes := bytes[n..];
    }

    method ReadMessage<M>(c: Codec<M>) returns (r: Option<M>)
      modifies this
      ensures var one := ReadFrame(c, old(bytes));
              && bytes == one.rest && r == if one.Message? then Some(one.message) else None
    {
      var prefix := ReadExact(4);
      if prefix.None? {
        return None;
      }
      var n := Value(prefix.value);
      if n == 0 || n > MAX_BODY {
        return None;
      }
      var body := ReadExact(n);
      if body.None? {
        return None;
      }
      assert old(bytes)[4..][..n] == old(bytes)[4..4 + n] && old(bytes)[4..][n..] == old(bytes)[4 + n..];
      r := c.decode(body.value);
    }
  }

  // ------------------------------------------------------------ whole streams

  function Frames<M>(c: Codec<M>, ms: seq<M>): seq<byte> {
    if ms == [] then [] else Frame(c, ms[0]) + Frames(c, ms[1..])
  }

  // Reads until the first failure.
  function ReadAll<M>(c: Codec<M>, s: seq<byte>): (seq<M>, Failure)
    decreases |s|
  {
    var one := ReadFrame(c, s);
    if one.Failed? then ([], one.why)
    else
      var (ms, why) := ReadAll(c, one.rest);
      ([one.message] + ms, why)
  }

  lemma BE16OfValue(a: byte, b: byte)
    ensures var v: int := (a as int) * 256 + b; BE16(v) == [a, b]
  {
  }

  lemma BE32OfValue(s: seq<byte>)
    requires |s| == 4
    ensures Value(s) < 0x1_0000_0000 && BE32(Value(s)) == s
  {
    hide BE16;
    var a: int, b: int, c: int, d: int := s[0], s[1], s[2], s[3];
    var high, low := a * 256 + b, c * 256 + d;
    assert Value(s) / 0x1_0000 == high;
    BE16OfValue(s[0], s[1]);
    BE16OfValue(s[2], s[3]);
    BE16Modulo(Value(s), low);
    assert s == [s[0], s[1]] + [s[2], s[3]];
  }

  lemma BE16Modulo(v: nat, low: nat)
    requires low < 0x1_0000 && v % 0x1_0000 == low
    ensures BE16(v) == BE16(low)
  {
    var q := v / 0x1_0000;
    assert v == 256 * (256 * q) + low;
    assert v / 256 == 256 * q + low / 256 && v % 256 == low % 256;
  }

  // The bytes start with a frame for this body.
  predicate Starts(s: seq<byte>, body: seq<byte>, rest: seq<byte>) {
    s == BE32(|body|) + body + rest
  }

  // A message is read exactly when the bytes start with a big-endian length of 1
  // to 1048576, that many bytes, and these decode to it; what follows is left.
  lemma ReadExactly<M(!new)>(c: Codec<M>, s: seq<byte>, m: M, rest: seq<byte>)
    ensures ReadFrame(c, s) == Message(m, rest) <==>
            exists body :: Starts(s, body, rest) && 1 <= |body| <= 1048576 && c.decode(body) == Some(m)
  {
    hide BE32, Value;
    if ReadFrame(c, s) == Message(m, rest) {
      var n := Value(s[..4]);
      BE32OfValue(s[..4]);
      var body := s[4..4 + n];
      assert s == s[..4] + body + s[4 + n..];
      assert Starts(s, body, rest);
    }
    if body :| Starts(s, body, rest) && 1 <= |body| <= 1048576 && c.decode(body) == Some(m) {
      assert s[..4] == BE32(|body|) && s[4..4 + |body|] == body && s[4 + |body|..] == rest;
      ValueOfBE32(|body|);
    }
  }

  lemma ReadWhole<M(!new)>(c: Codec<M>, m: M, rest: seq<byte>)
    requires Lawful(c) && Writable(c, m)
    ensures ReadFrame(c, Frame(c, m) + rest) == Message(m, rest)
  {
    var body := c.encode(m);
    var s := Frame(c, m) + rest;
    assert s[..4] == BE32(|body|) && s[4..4 + |body|] == body && s[4 + |body|..] == rest;
    ValueOfBE32(|body|);
  }

  lemma ReadPart<M(!new)>(c: Codec<M>, m: M, t: nat)
    requires Lawful(c) && Writable(c, m) && t < |Frame(c, m)|
    ensures ReadFrame(c, Frame(c, m)[..t]) == Failed(if t == 0 then Ended else Truncated, [])
  {
    var body := c.encode(m);
    if t >= 4 {
      assert Frame(c, m)[..t][..4] == BE32(|body|);
      ValueOfBE32(|body|);
    }
  }

  // No frame is a proper prefix of another.
  lemma PrefixFree<M(!new)>(c: Codec<M>, m: M, n: M)
    requires Lawful(c) && Writable(c, m) && Writable(c, n) && Frame(c, m) <= Frame(c, n)
    ensures Frame(c, m) == Frame(c, n) && m == n
  {
    var rest := Frame(c, n)[|Frame(c, m)|..];
    assert Frame(c, n) == Frame(c, m) + rest == Frame(c, n) + [];
    ReadWhole(c, m, rest);
    ReadWhole(c, n, []);
  }

  // How many whole frames the first t bytes hold.
  function Whole<M>(c: Codec<M>, ms: seq<M>, t: nat): (k: nat)
    ensures k <= |ms|
  {
    if ms == [] || t < |Frame(c, ms[0])| then 0 else 1 + Whole(c, ms[1..], t - |Frame(c, ms[0])|)
  }

  lemma {:induction false} WholeIsMaximal<M>(c: Codec<M>, ms: seq<M>, t: nat)
    ensures |Frames(c, ms[..Whole(c, ms, t)])| <= t
    ensures Whole(c, ms, t) < |ms| ==> t < |Frames(c, ms[..Whole(c, ms, t) + 1])|
  {
    if ms != [] && t >= |Frame(c, ms[0])| {
      var k := Whole(c, ms, t) - 1;
      WholeIsMaximal(c, ms[1..], t - |Frame(c, ms[0])|);
      assert ms[..k + 1][1..] == ms[1..][..k];
      if k + 1 < |ms| {
        assert ms[..k + 2][1..] == ms[1..][..k + 1];
      }
    }
  }

  // A stream cut anywhere gives the intact earlier messages and then fails:
  // with nothing left over if the cut is between frames, else in a frame.
  lemma {:induction false} CutAnywhere<M(!new)>(c: Codec<M>, ms: seq<M>, t: nat)
    requires Lawful(c) && (forall i :: 0 <= i < |ms| ==> Writable(c, ms[i])) && t <= |Frames(c, ms)|
    ensures var k := Whole(c, ms, t);
            ReadAll(c, Frames(c, ms)[..t])
              == (ms[..k], if t == |Frames(c, ms[..k])| then Ended else Truncated)
  {
    hide ReadFrame, Frame;
    if ms == [] {
      assert ReadFrame(c, []) == Failed(Ended, []) by {
        ReadNothing(c);
      }
    } else {
      var n, all := |Frame(c, ms[0])|, Frames(c, ms);
      if t < n {
        assert all[..t] == Frame(c, ms[0])[..t];
        ReadPart(c, ms[0], t);
      } else {
        var k := Whole(c, ms[1..], t - n);
        assert all[..t] == Frame(c, ms[0]) + Frames(c, ms[1..])[..t - n];
        ReadWhole(c, ms[0], Frames(c, ms[1..])[..t - n]);
        CutAnywhere(c, ms[1..], t - n);
        assert ms[..k + 1][1..] == ms[1..][..k];
        assert ms[..k + 1] == [ms[0]] + ms[1..][..k];
      }
    }
  }

  lemma ReadNothing<M>(c: Codec<M>)
    ensures ReadFrame(c, []) == Failed(Ended, [])
  {
  }

  lemma {:induction false} WholeAll<M>(c: Codec<M>, ms: seq<M>)
    ensures Whole(c, ms, |Frames(c, ms)|) == |ms|
  {
    if ms != [] {
      WholeAll(c, ms[1..]);
    }
  }

  // Any concatenation of frames is read back as the messages it was made of.
  lemma ReadBack<M(!new)>(c: Codec<M>, ms: seq<M>)
    requires Lawful(c) && forall i :: 0 <= i < |ms| ==> Writable(c, ms[i])
    ensures ReadAll(c, Frames(c, ms)) == (ms, Ended)
  {
    CutAnywhere(c, ms, |Frames(c, ms)|);
    WholeAll(c, ms);
    assert Frames(c, ms)[..|Frames(c, ms)|] == Frames(c, ms) && ms[..|ms|] == ms;
  }
}
