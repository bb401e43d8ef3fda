// The store-only ZIP writer of frontend/src/lib/web-zip.ts, and a reader that
// walks the archive the way the PKWARE APPNOTE describes it: end record
// (4.3.16), central directory (4.3.12), local header (4.3.7), data.

module ZipFields {
  import opened Bytes

  // What DataView.setUint16 and setUint32 leave behind: the value modulo the
  // width of the field, low byte first.
  function LE16(v: nat): (r: seq<byte>)
    ensures |r| == 2
  {
    [v % 256, v / 256 % 256]
  }

  function LE32(v: nat): (r: seq<byte>)
    ensures |r| == 4
  {
    LE16(v) + LE16(v / 0x1_0000)
  }

  // The low byte comes first, in both widths.
  lemma LittleEndian(v: nat)
    ensures LE16(v)[0] == v % 256 && LE16(v)[1] == v / 256 % 256
    ensures LE32(v)[0] == v % 256 && LE32(v)[1] == v / 256 % 256
    ensures LE32(v)[2] == v / 0x1_0000 % 256 && LE32(v)[3] == v / 0x100_0000 % 256
  {
    assert v / 0x1_0000 / 256 == v / 0x100_0000;
  }

  function U16(s: seq<byte>, at: nat): (r: nat)
    requires at + 2 <= |s|
    ensures r < 0x1_0000
  {
    var low: int, high: int := s[at], s[at + 1];
    low + 256 * high
  }

  function U32(s: seq<byte>, at: nat): (r: nat)
    requires at + 4 <= |s|
    ensures r < 0x1_0000_0000
  {
    U16(s, at) + 0x1_0000 * U16(s, at + 2)
  }

  // s holds p at a position.
  predicate Holds(s: seq<byte>, at: nat, p: seq<byte>) {
    at + |p| <= |s| && forall i :: 0 <= i < |p| ==> s[at + i] == p[i]
  }

  lemma HoldsSlice(s: seq<byte>, at: nat, p: seq<byte>)
    requires Holds(s, at, p)
    ensures s[at..at + |p|] == p
  {
  }

  lemma HoldsWithin(s: seq<byte>, at: nat, p: seq<byte>, k: nat, sub: seq<byte>)
    requires Holds(s, at, p) && Holds(p, k, sub)
    ensures Holds(s, at + k, sub)
  {
    forall i | 0 <= i < |sub|
      ensures s[at + k + i] == sub[i]
    {
      assert p[k + i] == sub[i];
    }
  }

  lemma HoldsBoth(s: seq<byte>, at: nat, a: seq<byte>, b: seq<byte>)
    requires Holds(s, at, a + b)
    ensures Holds(s, at, a) && Holds(s, at + |a|, b)
  {
    assert Holds(a + b, 0, a) && Holds(a + b, |a|, b);
    HoldsWithin(s, at, a + b, 0, a);
    HoldsWithin(s, at, a + b, |a|, b);
  }

  lemma Split16(v: nat)
    ensures v % 256 + 256 * (v / 256 % 256) == v % 0x1_0000
  {
    var q, r := v / 0x1_0000, v % 0x1_0000;
    assert v == 0x1_0000 * q + r;
    assert v / 256 == 256 * q + r / 256;
  }

  lemma Holds16(s: seq<byte>, at: nat, v: nat)
    requires Holds(s, at, LE16(v))
    ensures U16(s, at) == v % 0x1_0000
  {
    Split16(v);
    assert s[at + 0] == LE16(v)[0] && s[at + 1] == LE16(v)[1];
  }

  lemma Split32(v: nat)
    ensures v % 0x1_0000 + 0x1_0000 * (v / 0x1_0000 % 0x1_0000) == v % 0x1_0000_0000
  {
    var q, r := v / 0x1_0000_0000, v % 0x1_0000_0000;
    assert v == 0x1_0000_0000 * q + r;
    assert v / 0x1_0000 == 0x1_0000 * q + r / 0x1_0000;
  }

  lemma Holds32(s: seq<byte>, at: nat, v: nat)
    requires Holds(s, at, LE32(v))
    ensures U32(s, at) == v % 0x1_0000_0000
  {
    hide U16, LE16;
    HoldsBoth(s, at, LE16(v), LE16(v / 0x1_0000));
    Holds16(s, at, v);
    Holds16(s, at + 2, v / 0x1_0000);
    Split32(v);
  }

  // `before` names what the buffer holds below the offset.
  method WriteUint16LE(view: array<byte>, offset: nat, value: nat, ghost before: seq<byte>)
    requires offset + 2 <= view.Length && view[..offset] == before
    modifies view
    ensures view[..offset + 2] == before + LE16(value)
    ensures view[offset + 2..] == old(view[offset + 2..])
  {
    view[offset] := value % 256;
    view[offset + 1] := value / 256 % 256;
  }

  method WriteUint32LE(view: array<byte>, offset: nat, value: nat, ghost before: seq<byte>)
    requires offset + 4 <= view.Length && view[..offset] == before
    modifies view
    ensures view[..offset + 4] == before + LE32(value)
    ensures view[offset + 4..] == old(view[offset + 4..])
  {
    WriteUint16LE(view, offset, value, before);
    WriteUint16LE(view, offset + 2, value / 0x1_0000, before + LE16(value));
  }

  // Uint8Array.set
  method SetBytes(target: array<byte>, source: seq<byte>, offset: nat)
    requires offset + |source| <= target.Length
    modifies target
    ensures target[..offset + |source|] == old(target[..offset]) + source
    ensures target[offset + |source|..] == old(target[offset + |source|..])
  {
    for i := 0 to |source|
      invariant target[..offset + i] == old(target[..offset]) + source[..i]
      invariant target[offset + i..] == old(target[offset + i..])
    {
      target[offset + i] := source[i];
      assert target[..offset + i + 1] == target[..offset + i] + [source[i]];
      assert source[..i + 1] == source[..i] + [source[i]];
      assert target[offset + i + 1..] == old(target[offset + i..])[1..];
    }
    assert source[..|source|] == source;
  }
}

module ZipArchive {
  import opened Bytes
  import opened Bits
  import opened Crc32
  import opened Numbers
  import opened Wrappers
  import opened ZipFields

  const LOCAL_SIGNATURE: nat := 0x04034b50
  const CENTRAL_SIGNATURE: nat := 0x02014b50
  const END_SIGNATURE: nat := 0x06054b50

  datatype Entry = Entry(path: string, bytes: seq<byte>)

  // An entry as the format sees it: encoded name and content.
  datatype Record = Record(name: seq<byte>, content: seq<byte>)

  function Crc(content: seq<byte>): (r: nat)
    ensures r < 0x1_0000_0000
  {
    FromToNat(Checksum(content));
    Powers();
    ToNat(Checksum(content))
  }

  // ------------------------------------------------------------------- layout

  function LocalHeader(name: seq<byte>, crc: nat, size: nat): (r: seq<byte>)
    ensures |r| == 30 + |name|
  {
    LE32(LOCAL_SIGNATURE) + LE16(20) + LE16(0) + LE16(0) + LE16(0) + LE16(0)
    + LE32(crc) + LE32(size) + LE32(size) + LE16(|name|) + LE16(0) + name
  }

  function CentralHeader(name: seq<byte>, crc: nat, size: nat, offset: nat): (r: seq<byte>)
    ensures |r| == 46 + |name|
  {
    LE32(CENTRAL_SIGNATURE) + LE16(20) + LE16(20) + LE16(0) + LE16(0) + LE16(0) + LE16(0)
    + LE32(crc) + LE32(size) + LE32(size) + LE16(|name|) + LE16(0) + LE16(0) + LE16(0) + LE16(0)
    + LE32(0) + LE32(offset) + name
  }

  function EndRecord(count: nat, centralSize: nat, centralOffset: nat): (r: seq<byte>)
    ensures |r| == 22
  {
    LE32(END_SIGNATURE) + LE16(0) + LE16(0) + LE16(count) + LE16(count)
    + LE32(centralSize) + LE32(centralOffset) + LE16(0)
  }

  function Local(r: Record): (s: seq<byte>)
    ensures |s| == 30 + |r.name| + |r.content|
  {
    LocalHeader(r.name, Crc(r.content), |r.content|) + r.content
  }

  function Locals(rs: seq<Record>): seq<byte> {
    if rs == [] then [] else Locals(rs[..|rs| - 1]) + Local(rs[|rs| - 1])
  }

  function Central(rs: seq<Record>, k: nat): (s: seq<byte>)
    requires k < |rs|
    ensures |s| == 46 + |rs[k].name|
  {
    CentralHeader(rs[k].name, Crc(rs[k].content), |rs[k].content|, |Locals(rs[..k])|)
  }

  function Directory(rs: seq<Record>): seq<byte> {
    if rs == [] then [] else Directory(rs[..|rs| - 1]) + Central(rs, |rs| - 1)
  }

  function Archive(rs: seq<Record>): seq<byte> {
    Locals(rs) + Directory(rs) + EndRecord(|rs|, |Directory(rs)|, |Locals(rs)|)
  }

  // ------------------------------------------------------------- reading fields

  lemma {:induction false} LocalFields(s: seq<byte>, at: nat, name: seq<byte>, crc: nat, size: nat)
    requires Holds(s, at, LocalHeader(name, crc, size))
    ensures U32(s, at) == 0x04034b50 && U16(s, at + 4) == 20
    ensures U16(s, at + 6) == U16(s, at + 8) == U16(s, at + 10) == U16(s, at + 12) == 0
    ensures U32(s, at + 14) == crc % 0x1_0000_0000
    ensures U32(s, at + 18) == U32(s, at + 22) == size % 0x1_0000_0000
    ensures U16(s, at + 26) == |name| % 0x1_0000 && U16(s, at + 28) == 0
    ensures Holds(s, at + 30, name)
  {
    hide LE16, LE32, U16, U32, Holds;
    var p1 := LE32(LOCAL_SIGNATURE);
    var p2 := p1 + LE16(20);
    var p3 := p2 + LE16(0);
    var p4 := p3 + LE16(0);
    var p5 := p4 + LE16(0);
    var p6 := p5 + LE16(0);
    var p7 := p6 + LE32(crc);
    var p8 := p7 + LE32(size);
    var p9 := p8 + LE32(size);
    var p10 := p9 + LE16(|name|);
    var p11 := p10 + LE16(0);
    HoldsBoth(s, at, p11, name);
    HoldsBoth(s, at, p10, LE16(0));
    HoldsBoth(s, at, p9, LE16(|name|));
    HoldsBoth(s, at, p8, LE32(size));
    HoldsBoth(s, at, p7, LE32(size));
    HoldsBoth(s, at, p6, LE32(crc));
    HoldsBoth(s, at, p5, LE16(0));
    HoldsBoth(s, at, p4, LE16(0));
    HoldsBoth(s, at, p3, LE16(0));
    HoldsBoth(s, at, p2, LE16(0));
    HoldsBoth(s, at, p1, LE16(20));
    Holds32(s, at, LOCAL_SIGNATURE);
    Holds16(s, at + 4, 20);
    Holds16(s, at + 6, 0);
    Holds16(s, at + 8, 0);
    Holds16(s, at + 10, 0);
    Holds16(s, at + 12, 0);
    Holds32(s, at + 14, crc);
    Holds32(s, at + 18, size);
    Holds32(s, at + 22, size);
    Holds16(s, at + 26, |name|);
    Holds16(s, at + 28, 0);
  }

  lemma {:induction false} CentralFields(s: seq<byte>, at: nat, name: seq<byte>, crc: nat, size: nat, offset: nat)
    requires Holds(s, at, CentralHeader(name, crc, size, offset))
    ensures U32(s, at) == 0x02014b50 && U16(s, at + 4) == U16(s, at + 6) == 20
    ensures U16(s, at + 8) == U16(s, at + 10) == U16(s, at + 12) == U16(s, at + 14) == 0
    ensures U16(s, at + 34) == U16(s, at + 36) == 0 && U32(s, at + 38) == 0
    ensures U32(s, at + 16) == crc % 0x1_0000_0000
    ensures U32(s, at + 20) == U32(s, at + 24) == size % 0x1_0000_0000
    ensures U16(s, at + 28) == |name| % 0x1_0000 && U16(s, at + 30) == U16(s, at + 32) == 0
    ensures U32(s, at + 42) == offset % 0x1_0000_0000
    ensures Holds(s, at + 46, name)
  {
    hide LE16, LE32, U16, U32, Holds;
    var p1 := LE32(CENTRAL_SIGNATURE);
    var p2 := p1 + LE16(20);
    var p3 := p2 + LE16(20);
    var p4 := p3 + LE16(0);
    var p5 := p4 + LE16(0);
    var p6 := p5 + LE16(0);
    var p7 := p6 + LE16(0);
    var p8 := p7 + LE32(crc);
    var p9 := p8 + LE32(size);
    var p10 := p9 + LE32(size);
    var p11 := p10 + LE16(|name|);
    var p12 := p11 + LE16(0);
    var p13 := p12 + LE16(0);
    var p14 := p13 + LE16(0);
    var p15 := p14 + LE16(0);
    var p16 := p15 + LE32(0);
    var p17 := p16 + LE32(offset);
    HoldsBoth(s, at, p17, name);
    HoldsBoth(s, at, p16, LE32(offset));
    HoldsBoth(s, at, p15, LE32(0));
    HoldsBoth(s, at, p14, LE16(0));
    HoldsBoth(s, at, p13, LE16(0));
    HoldsBoth(s, at, p12, LE16(0));
    HoldsBoth(s, at, p11, LE16(0));
    HoldsBoth(s, at, p10, LE16(|name|));
    HoldsBoth(s, at, p9, LE32(size));
    HoldsBoth(s, at, p8, LE32(size));
    HoldsBoth(s, at, p7, LE32(crc));
    HoldsBoth(s, at, p6, LE16(0));
    HoldsBoth(s, at, p5, LE16(0));
    HoldsBoth(s, at, p4, LE16(0));
    HoldsBoth(s, at, p3, LE16(0));
    HoldsBoth(s, at, p2, LE16(20));
    HoldsBoth(s, at, p1, LE16(20));
    Holds32(s, at, CENTRAL_SIGNATURE);
    Holds16(s, at + 4, 20);
    Holds16(s, at + 6, 20);
    Holds16(s, at + 8, 0);
    Holds16(s, at + 10, 0);
    Holds16(s, at + 12, 0);
    Holds16(s, at + 14, 0);
    Holds16(s, at + 34, 0);
    Holds16(s, at + 36, 0);
    Holds32(s, at + 38, 0);
    Holds32(s, at + 16, crc);
    Holds32(s, at + 20, size);
    Holds32(s, at + 24, size);
    Holds16(s, at + 28, |name|);
    Holds16(s, at + 30, 0);
    Holds16(s, at + 32, 0);
    Holds32(s, at + 42, offset);
  }

  lemma {:induction false} EndFields(s: seq<byte>, at: nat, count: nat, size: nat, offset: nat)
    requires Holds(s, at, EndRecord(count, size, offset))
    ensures U32(s, at) == 0x06054b50 && U16(s, at + 4) == U16(s, at + 6) == 0
    ensures U16(s, at + 8) == U16(s, at + 10) == count % 0x1_0000
    ensures U32(s, at + 12) == size % 0x1_0000_0000 && U32(s, at + 16) == offset % 0x1_0000_0000
    ensures U16(s, at + 20) == 0
  {
    hide LE16, LE32, U16, U32, Holds;
    var p1 := LE32(END_SIGNATURE);
    var p2 := p1 + LE16(0);
    var p3 := p2 + LE16(0);
    var p4 := p3 + LE16(count);
    var p5 := p4 + LE16(count);
    var p6 := p5 + LE32(size);
    var p7 := p6 + LE32(offset);
    HoldsBoth(s, at, p7, LE16(0));
    HoldsBoth(s, at, p6, LE32(offset));
    HoldsBoth(s, at, p5, LE32(size));
    HoldsBoth(s, at, p4, LE16(count));
    HoldsBoth(s, at, p3, LE16(count));
    HoldsBoth(s, at, p2, LE16(0));
    HoldsBoth(s, at, p1, LE16(0));
    Holds32(s, at, END_SIGNATURE);
    Holds16(s, at + 4, 0);
    Holds16(s, at + 6, 0);
    Holds16(s, at + 8, count);
    Holds16(s, at + 10, count);
    Holds32(s, at + 12, size);
    Holds32(s, at + 16, offset);
    Holds16(s, at + 20, 0);
  }

  // ------------------------------------------------------------------- reader

  // What a reader takes out of the archive for one entry.
  datatype Found = Found(name: seq<byte>, crc: nat, content: seq<byte>)

  // The central header at a position: name, checksum, size, local offset.
  datatype Listing = Listing(name: seq<byte>, crc: nat, size: nat, offset: nat)

  function ReadCentral(s: seq<byte>, at: nat, end: nat): (r: Result<Listing>)
    requires end <= |s|
    ensures r.Ok? ==> |r.value.name| < 0x1_0000 && r.value.size < 0x1_0000_0000
  {
    if at + 46 > end then Err("central directory is cut short")
    else if U32(s, at) != CENTRAL_SIGNATURE then Err("central header signature")
    else if U16(s, at + 8) != 0 || U16(s, at + 10) != 0 then Err("not a stored entry")
    else if U32(s, at + 20) != U32(s, at + 24) then Err("stored sizes differ")
    else if U16(s, at + 30) != 0 || U16(s, at + 32) != 0 then Err("unexpected extra field")
    else if at + 46 + U16(s, at + 28) > end then Err("name is cut short")
    else Ok(Listing(s[at + 46..at + 46 + U16(s, at + 28)], U32(s, at + 16), U32(s, at + 20), U32(s, at + 42)))
  }

  // The data behind a local header that must agree with its listing and end
  // before `end`.
  function ReadLocal(s: seq<byte>, item: Listing, end: nat): (r: Result<seq<byte>>)
    requires end <= |s|
    ensures r.Ok? ==> |r.value| == item.size && Crc(r.value) == item.crc
    ensures r.Ok? ==> item.offset + 30 + |item.name| + item.size <= end
  {
    var at, data := item.offset, item.offset + 30 + |item.name|;
    if data + item.size > end then Err("local entry is cut short")
    else if U32(s, at) != LOCAL_SIGNATURE then Err("local header signature")
    else if U16(s, at + 6) != 0 || U16(s, at + 8) != 0 then Err("not a stored entry")
    else if U32(s, at + 14) != item.crc then Err("checksums disagree")
    else if U32(s, at + 18) != item.size || U32(s, at + 22) != item.size then Err("sizes disagree")
    else if U16(s, at + 26) != |item.name| || U16(s, at + 28) != 0 then Err("names disagree")
    else if s[at + 30..data] != item.name then Err("names disagree")
    else if Crc(s[data..data + item.size]) != item.crc then Err("content is damaged")
    else Ok(s[data..data + item.size])
  }

  // n entries from the central directory at `at`, whose local regions must
  // follow each other without gap from `next` to `start`, and whose headers
  // must run exactly up to `end`.
  function ReadEntries(s: seq<byte>, n: nat, at: nat, next: nat, start: nat, end: nat): (r: Result<seq<Found>>)
    requires start <= end <= |s|
    ensures r.Ok? ==> |r.value| == n
    ensures r.Ok? ==> forall i :: 0 <= i < n ==> |r.value[i].name| < 0x1_0000
    decreases n
  {
    if n == 0 then
      if at == end && next == start then Ok([]) else Err("gap in the archive")
    else
      var listing := ReadCentral(s, at, end);
      if listing.Err? then Err(listing.message) else
      var item := listing.value;
      if item.offset != next then Err("gap in the archive") else
      var data := ReadLocal(s, item, start);
      if data.Err? then Err(data.message) else
      var rest := ReadEntries(s, n - 1, at + 46 + |item.name|, next + 30 + |item.name| + item.size, start, end);
      if rest.Err? then rest
      else Ok([Found(item.name, item.crc, data.value)] + rest.value)
  }

  function Read(s: seq<byte>): (r: Result<seq<Found>>) {
    if |s| < 22 then Err("no end record") else
    var e := |s| - 22;
    var size, offset := U32(s, e + 12), U32(s, e + 16);
    if U32(s, e) != END_SIGNATURE then Err("end record signature")
    else if U16(s, e + 4) != 0 || U16(s, e + 6) != 0 then Err("spans disks")
    else if U16(s, e + 8) != U16(s, e + 10) then Err("spans disks")
    else if U16(s, e + 20) != 0 then Err("unexpected comment")
    else if offset + size != e then Err("gap in the archive")
    else ReadEntries(s, U16(s, e + 8), offset, 0, offset, e)
  }

  // ---------------------------------------------------------------- round trip

  function Expected(rs: seq<Record>): (r: seq<Found>)
    ensures |r| == |rs|
  {
    seq(|rs|, i requires 0 <= i < |rs| => Found(rs[i].name, Crc(rs[i].content), rs[i].content))
  }

  // The archive stays inside the field widths of the format.
  predicate Fits(rs: seq<Record>) {
    && |rs| < 0x1_0000
    && (forall i :: 0 <= i < |rs| ==> |rs[i].name| < 0x1_0000)
    && |Locals(rs)| < 0x1_0000_0000
    && |Directory(rs)| < 0x1_0000_0000
  }

  // Where entry k lies.
  lemma {:induction false} LocalAt(rs: seq<Record>, k: nat)
    requires k < |rs|
    ensures Holds(Locals(rs), |Locals(rs[..k])|, Local(rs[k]))
    ensures |Locals(rs[..k + 1])| == |Locals(rs[..k])| + |Local(rs[k])| <= |Locals(rs)|
    decreases |rs|
  {
    hide Local;
    var init := rs[..|rs| - 1];
    assert rs[..k + 1][..k] == rs[..k];
    if k < |rs| - 1 {
      LocalAt(init, k);
      assert init[..k] == rs[..k];
      assert Locals(rs) == Locals(init) + Local(rs[|rs| - 1]);
    } else {
      assert rs[..k] == init && rs[..k + 1] == rs;
    }
  }

  lemma {:induction false} CentralAt(rs: seq<Record>, k: nat)
    requires k < |rs|
    ensures Holds(Directory(rs), |Directory(rs[..k])|, Central(rs, k))
    ensures |Directory(rs[..k + 1])| == |Directory(rs[..k])| + |Central(rs, k)| <= |Directory(rs)|
    decreases |rs|
  {
    hide CentralHeader, Crc;
    var init := rs[..|rs| - 1];
    assert rs[..k + 1][..k] == rs[..k];
    if k < |rs| - 1 {
      CentralAt(init, k);
      assert init[..k] == rs[..k];
      assert Directory(rs) == Directory(init) + Central(rs, |rs| - 1);
    } else {
      assert rs[..k] == init && rs[..k + 1] == rs;
    }
  }

  // The positions a reader has reached after k entries.
  function CentralPos(rs: seq<Record>, k: nat): nat
    requires k <= |rs|
  {
    |Locals(rs)| + |Directory(rs[..k])|
  }

  function LocalPos(rs: seq<Record>, k: nat): nat
    requires k <= |rs|
  {
    |Locals(rs[..k])|
  }

  lemma HoldsParts(a: seq<byte>, b: seq<byte>, c: seq<byte>)
    ensures Holds(a + b + c, 0, a) && Holds(a + b + c, |a|, b)
  {
  }

  lemma Placed(rs: seq<Record>, k: nat)
    requires k < |rs|
    ensures Holds(Archive(rs), LocalPos(rs, k), Local(rs[k]))
    ensures Holds(Archive(rs), CentralPos(rs, k), Central(rs, k))
    ensures LocalPos(rs, k + 1) == LocalPos(rs, k) + |Local(rs[k])| <= |Locals(rs)|
    ensures CentralPos(rs, k + 1) == CentralPos(rs, k) + |Central(rs, k)| <= |Locals(rs)| + |Directory(rs)|
  {
    hide Local, Central, EndRecord, Locals, Directory, Holds;
    LocalAt(rs, k);
    CentralAt(rs, k);
    HoldsParts(Locals(rs), Directory(rs), EndRecord(|rs|, |Directory(rs)|, |Locals(rs)|));
    HoldsWithin(Archive(rs), 0, Locals(rs), LocalPos(rs, k), Local(rs[k]));
    HoldsWithin(Archive(rs), |Locals(rs)|, Directory(rs), |Directory(rs[..k])|, Central(rs, k));
  }

  function ListingOf(rs: seq<Record>, k: nat): Listing
    requires k < |rs|
  {
    Listing(rs[k].name, Crc(rs[k].content), |rs[k].content|, LocalPos(rs, k))
  }

  lemma CentralReads(s: seq<byte>, at: nat, end: nat, item: Listing)
    requires Holds(s, at, CentralHeader(item.name, item.crc, item.size, item.offset))
    requires at + 46 + |item.name| <= end <= |s| && |item.name| < 0x1_0000
    requires item.crc < 0x1_0000_0000 && item.size < 0x1_0000_0000 && item.offset < 0x1_0000_0000
    ensures ReadCentral(s, at, end) == Ok(item)
  {
    hide U16, U32, CentralHeader, Holds;
    CentralFields(s, at, item.name, item.crc, item.size, item.offset);
    HoldsSlice(s, at + 46, item.name);
  }

  lemma LocalReads(s: seq<byte>, end: nat, item: Listing, content: seq<byte>)
    requires Holds(s, item.offset, LocalHeader(item.name, item.crc, item.size) + content)
    requires item.crc == Crc(content) && item.size == |content| < 0x1_0000_0000 && |item.name| < 0x1_0000
    requires item.offset + 30 + |item.name| + item.size <= end <= |s|
    ensures ReadLocal(s, item, end) == Ok(content)
  {
    hide U16, U32, LocalHeader, Crc, Holds;
    HoldsBoth(s, item.offset, LocalHeader(item.name, item.crc, item.size), content);
    LocalFields(s, item.offset, item.name, item.crc, item.size);
    HoldsSlice(s, item.offset + 30, item.name);
    HoldsSlice(s, item.offset + 30 + |item.name|, content);
  }

  lemma ReadOne(rs: seq<Record>, k: nat)
    requires Fits(rs) && k < |rs|
    ensures |Locals(rs)| + |Directory(rs)| <= |Archive(rs)|
    ensures ReadCentral(Archive(rs), CentralPos(rs, k), |Locals(rs)| + |Directory(rs)|) == Ok(ListingOf(rs, k))
    ensures ReadLocal(Archive(rs), ListingOf(rs, k), |Locals(rs)|) == Ok(rs[k].content)
  {
    hide ReadCentral, ReadLocal, LocalHeader, CentralHeader, Crc, Locals, Directory, Holds, Archive;
    Placed(rs, k);
    HoldsEnd(rs);
    CentralReads(Archive(rs), CentralPos(rs, k), |Locals(rs)| + |Directory(rs)|, ListingOf(rs, k));
    LocalReads(Archive(rs), |Locals(rs)|, ListingOf(rs, k), rs[k].content);
  }

  lemma ReadStep(s: seq<byte>, n: nat, at: nat, start: nat, end: nat, item: Listing, data: seq<byte>, rest: seq<Found>)
    requires n > 0 && start <= end <= |s|
    requires ReadCentral(s, at, end) == Ok(item) && ReadLocal(s, item, start) == Ok(data)
    requires ReadEntries(s, n - 1, at + 46 + |item.name|, item.offset + 30 + |item.name| + item.size, start, end)
          == Ok(rest)
    ensures ReadEntries(s, n, at, item.offset, start, end) == Ok([Found(item.name, item.crc, data)] + rest)
  {
    hide ReadCentral, ReadLocal;
  }

  lemma ReadNone(rs: seq<Record>)
    ensures |Locals(rs)| + |Directory(rs)| <= |Archive(rs)|
    ensures ReadEntries(Archive(rs), 0, CentralPos(rs, |rs|), LocalPos(rs, |rs|),
                        |Locals(rs)|, |Locals(rs)| + |Directory(rs)|) == Ok(Expected(rs)[|rs|..])
  {
    hide Locals, Directory;
    assert rs[..|rs|] == rs;
    assert Expected(rs)[|rs|..] == [];
  }

  lemma {:induction false} ReadRest(rs: seq<Record>, k: nat)
    requires Fits(rs) && k <= |rs|
    ensures |Locals(rs)| + |Directory(rs)| <= |Archive(rs)|
    ensures ReadEntries(Archive(rs), |rs| - k, CentralPos(rs, k), LocalPos(rs, k),
                        |Locals(rs)|, |Locals(rs)| + |Directory(rs)|) == Ok(Expected(rs)[k..])
    decreases |rs| - k
  {
    hide ReadCentral, ReadLocal, ReadEntries, Crc, Locals, Directory, Holds, Local, Central, Archive, Fits;
    hide CentralPos, LocalPos;
    if k == |rs| {
      ReadNone(rs);
    } else {
      ReadOne(rs, k);
      Placed(rs, k);
      SizeOf(rs, k);
      ReadRest(rs, k + 1);
      ReadStep(Archive(rs), |rs| - k, CentralPos(rs, k), |Locals(rs)|, |Locals(rs)| + |Directory(rs)|,
               ListingOf(rs, k), rs[k].content, Expected(rs)[k + 1..]);
      assert Expected(rs)[k] == Found(rs[k].name, Crc(rs[k].content), rs[k].content);
      assert Expected(rs)[k..] == [Expected(rs)[k]] + Expected(rs)[k + 1..];
    }
  }

  lemma SizeOf(rs: seq<Record>, k: nat)
    requires k < |rs|
    ensures |Local(rs[k])| == 30 + |rs[k].name| + |rs[k].content| && |Central(rs, k)| == 46 + |rs[k].name|
  {
  }

  lemma ReadFitting(rs: seq<Record>)
    requires Fits(rs)
    ensures Read(Archive(rs)) == Ok(Expected(rs))
  {
    hide U16, U32, Locals, Directory, ReadEntries, Expected, EndRecord;
    HoldsEnd(rs);
    EndFields(Archive(rs), |Locals(rs)| + |Directory(rs)|, |rs|, |Directory(rs)|, |Locals(rs)|);
    ReadRest(rs, 0);
    EmptyStart(rs);
  }

  lemma ReadOnlyFitting(rs: seq<Record>)
    requires Read(Archive(rs)) == Ok(Expected(rs))
    ensures Fits(rs)
  {
    hide U16, U32, Locals, Directory, ReadEntries, EndRecord;
    HoldsEnd(rs);
    EndFields(Archive(rs), |Locals(rs)| + |Directory(rs)|, |rs|, |Directory(rs)|, |Locals(rs)|);
    assert |Expected(rs)| == |rs| % 0x1_0000;
    assert forall i :: 0 <= i < |rs| ==> Expected(rs)[i].name == rs[i].name;
  }

  // The archive is read back entry for entry, in order, with its local
  // regions, central directory and end record partitioning it, exactly when
  // it stays inside the field widths the writer does not check.
  lemma RoundTrip(rs: seq<Record>)
    ensures Read(Archive(rs)) == Ok(Expected(rs)) <==> Fits(rs)
  {
    hide Read, Fits;
    if Fits(rs) {
      ReadFitting(rs);
    }
    if Read(Archive(rs)) == Ok(Expected(rs)) {
      ReadOnlyFitting(rs);
    }
  }

  lemma HoldsEnd(rs: seq<Record>)
    ensures |Archive(rs)| == |Locals(rs)| + |Directory(rs)| + 22
    ensures Holds(Archive(rs), |Locals(rs)| + |Directory(rs)|, EndRecord(|rs|, |Directory(rs)|, |Locals(rs)|))
  {
  }

  lemma EmptyStart(rs: seq<Record>)
    ensures CentralPos(rs, 0) == |Locals(rs)| && LocalPos(rs, 0) == 0 && Expected(rs)[0..] == Expected(rs)
  {
  }

  // ------------------------------------------------------------------- writer

  method BuildLocalFileHeader(name: seq<byte>, crc: nat, size: nat) returns (header: array<byte>)
    ensures fresh(header) && header[..] == LocalHeader(name, crc, size)
  {
    hide LE16, LE32;
    header := new byte[30 + |name|](_ => 0);
    WriteUint32LE(header, 0, LOCAL_SIGNATURE, []);
    ghost var p1 := LE32(LOCAL_SIGNATURE);
    WriteUint16LE(header, 4, 20, p1);
    ghost var p2 := p1 + LE16(20);
    WriteUint16LE(header, 6, 0, p2);
    ghost var p3 := p2 + LE16(0);
    WriteUint16LE(header, 8, 0, p3);
    ghost var p4 := p3 + LE16(0);
    WriteUint16LE(header, 10, 0, p4);
    ghost var p5 := p4 + LE16(0);
    WriteUint16LE(header, 12, 0, p5);
    ghost var p6 := p5 + LE16(0);
    WriteUint32LE(header, 14, crc, p6);
    ghost var p7 := p6 + LE32(crc);
    WriteUint32LE(header, 18, size, p7);
    ghost var p8 := p7 + LE32(size);
    WriteUint32LE(header, 22, size, p8);
    ghost var p9 := p8 + LE32(size);
    WriteUint16LE(header, 26, |name|, p9);
    ghost var p10 := p9 + LE16(|name|);
    WriteUint16LE(header, 28, 0, p10);
    ghost var p11 := p10 + LE16(0);
    SetBytes(header, name, 30);
    assert header[..] == header[..30 + |name|];
  }

  method BuildCentralDirectoryHeader(name: seq<byte>, crc: nat, size: nat, offset: nat) returns (header: array<byte>)
    ensures fresh(header) && header[..] == CentralHeader(name, crc, size, offset)
  {
    hide LE16, LE32;
    header := new byte[46 + |name|](_ => 0);
    WriteUint32LE(header, 0, CENTRAL_SIGNATURE, []);
    ghost var p1 := LE32(CENTRAL_SIGNATURE);
    WriteUint16LE(header, 4, 20, p1);
    ghost var p2 := p1 + LE16(20);
    WriteUint16LE(header, 6, 20, p2);
    ghost var p3 := p2 + LE16(20);
    WriteUint16LE(header, 8, 0, p3);
    ghost var p4 := p3 + LE16(0);
    WriteUint16LE(header, 10, 0, p4);
    ghost var p5 := p4 + LE16(0);
    WriteUint16LE(header, 12, 0, p5);
    ghost var p6 := p5 + LE16(0);
    WriteUint16LE(header, 14, 0, p6);
    ghost var p7 := p6 + LE16(0);
    WriteUint32LE(header, 16, crc, p7);
    ghost var p8 := p7 + LE32(crc);
    WriteCentralTail(header, name, size, offset, p8);
  }

  // The second half of the central header, from the sizes on.
  method WriteCentralTail(header: array<byte>, name: seq<byte>, size: nat, offset: nat, ghost p8: seq<byte>)
    requires header.Length == 46 + |name| && header[..20] == p8
    modifies header
    ensures header[..] == p8 + LE32(size) + LE32(size) + LE16(|name|) + LE16(0) + LE16(0) + LE16(0) + LE16(0)
                          + LE32(0) + LE32(offset) + name
  {
    hide LE16, LE32;
    WriteUint32LE(header, 20, size, p8);
    ghost var p9 := p8 + LE32(size);
    WriteUint32LE(header, 24, size, p9);
    ghost var p10 := p9 + LE32(size);
    WriteUint16LE(header, 28, |name|, p10);
    ghost var p11 := p10 + LE16(|name|);
    WriteUint16LE(header, 30, 0, p11);
    ghost var p12 := p11 + LE16(0);
    WriteUint16LE(header, 32, 0, p12);
    ghost var p13 := p12 + LE16(0);
    WriteUint16LE(header, 34, 0, p13);
    ghost var p14 := p13 + LE16(0);
    WriteUint16LE(header, 36, 0, p14);
    ghost var p15 := p14 + LE16(0);
    WriteUint32LE(header, 38, 0, p15);
    ghost var p16 := p15 + LE32(0);
    WriteUint32LE(header, 42, offset, p16);
    SetBytes(header, name, 46);
    assert header[..] == header[..46 + |name|];
  }

  method BuildEndOfCentralDirectory(count: nat, size: nat, offset: nat) returns (header: array<byte>)
    ensures fresh(header) && header[..] == EndRecord(count, size, offset)
  {
    hide LE16, LE32;
    header := new byte[22](_ => 0);
    WriteUint32LE(header, 0, END_SIGNATURE, []);
    ghost var p1 := LE32(END_SIGNATURE);
    WriteUint16LE(header, 4, 0, p1);
    ghost var p2 := p1 + LE16(0);
    WriteUint16LE(header, 6, 0, p2);
    ghost var p3 := p2 + LE16(0);
    WriteUint16LE(header, 8, count, p3);
    ghost var p4 := p3 + LE16(count);
    WriteUint16LE(header, 10, count, p4);
    ghost var p5 := p4 + LE16(count);
    WriteUint32LE(header, 12, size, p5);
    ghost var p6 := p5 + LE32(size);
    WriteUint32LE(header, 16, offset, p6);
    ghost var p7 := p6 + LE32(offset);
    WriteUint16LE(header, 20, 0, p7);
    ghost var p8 := p7 + LE16(0);
    assert header[..] == header[..22];
  }

  function Flatten(chunks: seq<seq<byte>>): seq<byte> {
    if chunks == [] then [] else Flatten(chunks[..|chunks| - 1]) + chunks[|chunks| - 1]
  }

  lemma FlattenSnoc(chunks: seq<seq<byte>>, chunk: seq<byte>)
    ensures Flatten(chunks + [chunk]) == Flatten(chunks) + chunk
  {
    assert (chunks + [chunk])[..|chunks|] == chunks;
  }

  method ConcatChunks(chunks: seq<seq<byte>>) returns (output: array<byte>)
    ensures fresh(output) && output[..] == Flatten(chunks)
  {
    var total := 0;
    for i := 0 to |chunks|
      invariant total == |Flatten(chunks[..i])|
    {
      total := total + |chunks[i]|;
      assert chunks[..i + 1] == chunks[..i] + [chunks[i]];
      FlattenSnoc(chunks[..i], chunks[i]);
    }
    assert chunks[..|chunks|] == chunks;
    output := new byte[total](_ => 0);
    var offset := 0;
    for i := 0 to |chunks|
      invariant offset == |Flatten(chunks[..i])| <= total
      invariant output[..offset] == Flatten(chunks[..i])
    {
      assert chunks[..i + 1] == chunks[..i] + [chunks[i]];
      FlattenSnoc(chunks[..i], chunks[i]);
      FlattenPrefix(chunks, i + 1);
      SetBytes(output, chunks[i], offset);
      offset := offset + |chunks[i]|;
    }
    assert output[..] == output[..offset];
  }

  lemma {:induction false} FlattenPrefix(chunks: seq<seq<byte>>, i: nat)
    requires i <= |chunks|
    ensures |Flatten(chunks[..i])| <= |Flatten(chunks)|
  {
    if i < |chunks| {
      FlattenPrefix(chunks[..|chunks| - 1], i);
      assert chunks[..|chunks| - 1][..i] == chunks[..i];
    } else {
      assert chunks[..i] == chunks;
    }
  }

  // Backslashes become slashes before the name is encoded.
  function Normalise(path: string): (r: string)
    ensures |r| == |path| && '\\' !in r
    ensures forall i :: 0 <= i < |path| && path[i] != '\\' ==> r[i] == path[i]
    ensures forall i :: 0 <= i < |path| && path[i] == '\\' ==> r[i] == '/'
  {
    seq(|path|, i requires 0 <= i < |path| => if path[i] == '\\' then '/' else path[i])
  }

  function Records(entries: seq<Entry>, encode: string -> seq<byte>): (r: seq<Record>)
    ensures |r| == |entries|
  {
    seq(|entries|, i requires 0 <= i < |entries| => Record(encode(Normalise(entries[i].path)), entries[i].bytes))
  }

  // Sizes of the entries, their local headers and their central headers.
  function LocalBytes(entries: seq<Entry>, encode: string -> seq<byte>): nat {
    if entries == [] then 0 else
    var e := entries[|entries| - 1];
    LocalBytes(entries[..|entries| - 1], encode) + 30 + |encode(Normalise(e.path))| + |e.bytes|
  }

  function CentralBytes(entries: seq<Entry>, encode: string -> seq<byte>): nat {
    if entries == [] then 0 else
    CentralBytes(entries[..|entries| - 1], encode) + 46 + |encode(Normalise(entries[|entries| - 1].path))|
  }

  predicate EntriesFit(entries: seq<Entry>, encode: string -> seq<byte>) {
    && |entries| < 0x1_0000
    && (forall i :: 0 <= i < |entries| ==> |encode(Normalise(entries[i].path))| < 0x1_0000)
    && LocalBytes(entries, encode) < 0x1_0000_0000 && CentralBytes(entries, encode) < 0x1_0000_0000
  }

  // A reader got every entry back, in order: its name with slashes for
  // backslashes, the checksum of its bytes, and its bytes.
  predicate ReadsBack(entries: seq<Entry>, encode: string -> seq<byte>, r: Result<seq<Found>>) {
    && r.Ok? && |r.value| == |entries|
    && forall i :: 0 <= i < |entries| ==>
         && r.value[i].name == encode(Normalise(entries[i].path))
         && r.value[i].crc == ToNat(Checksum(entries[i].bytes)) && r.value[i].content == entries[i].bytes
  }

  lemma {:induction false} RecordSizes(entries: seq<Entry>, encode: string -> seq<byte>)
    ensures |Locals(Records(entries, encode))| == LocalBytes(entries, encode)
    ensures |Directory(Records(entries, encode))| == CentralBytes(entries, encode)
  {
    hide LocalHeader, CentralHeader, Crc, Normalise;
    if entries != [] {
      var n := |entries| - 1;
      RecordSizes(entries[..n], encode);
      assert Records(entries, encode)[..n] == Records(entries[..n], encode);
    }
  }

  lemma FitsExactly(entries: seq<Entry>, encode: string -> seq<byte>)
    ensures Fits(Records(entries, encode)) <==> EntriesFit(entries, encode)
  {
    RecordSizes(entries, encode);
    hide Locals, Directory, LocalBytes, CentralBytes, Normalise;
    var rs := Records(entries, encode);
    assert forall i :: 0 <= i < |entries| ==> |rs[i].name| == |encode(Normalise(entries[i].path))|;
  }

  lemma ExpectedReadsBack(entries: seq<Entry>, encode: string -> seq<byte>, r: Result<seq<Found>>)
    ensures r == Ok(Expected(Records(entries, encode))) <==> ReadsBack(entries, encode, r)
  {
    hide Checksum, Normalise;
    var found := Expected(Records(entries, encode));
    if ReadsBack(entries, encode, r) {
      assert forall i :: 0 <= i < |entries| ==> r.value[i] == found[i];
      assert r.value == found;
    }
  }

  // `encode` stands for TextEncoder.
  method CreateStoreOnlyZip(entries: seq<Entry>, encode: string -> seq<byte>) returns (result: Result<seq<byte>>)
    ensures result.Err? <==> entries == []
    ensures result.Ok? ==> result.value == Archive(Records(entries, encode))
    ensures result.Ok? ==>
      (Read(result.value) == Ok(Expected(Records(entries, encode))) <==> Fits(Records(entries, encode)))
    ensures result.Ok? ==> (ReadsBack(entries, encode, Read(result.value)) <==> EntriesFit(entries, encode))
  {
    hide Read, Fits, Expected, EntriesFit, ReadsBack, Checksum, IsTable, Crc, EndRecord, LocalHeader, CentralHeader;
    if entries == [] {
      return Err("ZIP archive requires at least one file");
    }
    var table := BuildTable();
    ghost var rs := Records(entries, encode);
    var localChunks: seq<seq<byte>>, centralChunks: seq<seq<byte>>, offset := [], [], 0;
    for k := 0 to |entries|
      invariant IsTable(table[..])
      invariant Flatten(localChunks) == Locals(rs[..k])
      invariant Flatten(centralChunks) == Directory(rs[..k])
      invariant offset == |Locals(rs[..k])|
    {
      var name := encode(Normalise(entries[k].path));
      var content := entries[k].bytes;
      var checksum := Compute(table, content);
      CrcIs(content);
      var crc := ToNat(checksum);
      var header := BuildLocalFileHeader(name, crc, |content|);
      FlattenSnoc(localChunks, header[..]);
      FlattenSnoc(localChunks + [header[..]], content);
      localChunks := localChunks + [header[..]] + [content];
      var central := BuildCentralDirectoryHeader(name, crc, |content|, offset);
      FlattenSnoc(centralChunks, central[..]);
      centralChunks := centralChunks + [central[..]];
      offset := offset + header.Length + |content|;
      Extend(rs, k);
    }
    assert rs[..|entries|] == rs;
    var directory := ConcatChunks(centralChunks);
    var end := BuildEndOfCentralDirectory(|entries|, directory.Length, offset);
    FlattenSnoc(localChunks, directory[..]);
    FlattenSnoc(localChunks + [directory[..]], end[..]);
    var output := ConcatChunks(localChunks + [directory[..]] + [end[..]]);
    result := Ok(output[..]);
    RoundTrip(rs);
    FitsExactly(entries, encode);
    ExpectedReadsBack(entries, encode, Read(result.value));
  }

  lemma CrcIs(content: seq<byte>)
    ensures Crc(content) == ToNat(Checksum(content))
  {
  }

  lemma Extend(rs: seq<Record>, k: nat)
    requires k < |rs|
    ensures Locals(rs[..k + 1])
         == Locals(rs[..k]) + (LocalHeader(rs[k].name, Crc(rs[k].content), |rs[k].content|) + rs[k].content)
    ensures Directory(rs[..k + 1]) == Directory(rs[..k]) + Central(rs, k)
  {
    hide LocalHeader, CentralHeader, Crc;
    assert rs[..k + 1][..k] == rs[..k];
  }
}
