/** The log's logical bytes: messages in their wire form, framed one after another. */
module Framing {
  import opened Bytes
  import opened Varints
  import BR = BlockRecords
  import BH = BlockHeaders

  const TWO31: int := 0x8000_0000
  const FRAME_LEN := 32

  // ---- messages ----

  /** What a message says. */
  datatype Content = Content(attributes: byte, key: Option<Str>, value: Option<Str>, headers: map<Str, Str>)

  function V1Field(f: Option<Str>): Str {
    match f
    case None => BH.Be(0xffff_ffff, 4)
    case Some(s) => BH.Be(|s|, 4) + s
  }

  function V1Pairs(keys: seq<Str>, m: map<Str, Str>): Str
    requires BR.AllIn(keys, m)
  {
    if keys == [] then [] else
      BH.Be(|keys[0]|, 2) + (keys[0] + (BH.Be(|m[keys[0]]|, 4) + (m[keys[0]] + V1Pairs(keys[1..], m))))
  }

  /** Key, value and headers, the headers in the given order of keys. */
  function V1Fields(c: Content, keys: seq<Str>): Str
    requires BR.AllIn(keys, c.headers)
  {
    V1Field(c.key) + (V1Field(c.value) + (BH.Be(|keys|, 2) + V1Pairs(keys, c.headers)))
  }

  function V1Bytes(crc: Str -> BH.U32, c: Content, keys: seq<Str>): Str
    requires BR.AllIn(keys, c.headers)
  {
    var body := [0, c.attributes] + V1Fields(c, keys);
    BH.Be(crc(body), 4) + body
  }

  // ---- reading a message ----

  function ReadBe(b: Str, w: nat): Parsed<nat> {
    if |b| < w then Fail else Got(BH.Unbe(b[..w]), b[w..])
  }

  function ReadV1Field(b: Str): Parsed<Option<Str>> {
    match ReadBe(b, 4)
    case Fail => Fail
    case Got(n, rest) =>
      if n == 0xffff_ffff then Got(None, rest)
      else if n >= TWO31 then Fail
      else
        match BR.ReadBytes(rest, n)
        case Fail => Fail
        case Got(s, after) => Got(Some(s), after)
  }

  function ReadSized(b: Str, w: nat): Parsed<Str> {
    match ReadBe(b, w)
    case Fail => Fail
    case Got(n, rest) => BR.ReadBytes(rest, n)
  }

  function ReadV1Pairs(b: Str, n: nat, m: map<Str, Str>): Parsed<map<Str, Str>> {
    if n == 0 then Got(m, b) else
      match ReadSized(b, 2)
      case Fail => Fail
      case Got(k, rest) =>
        match ReadSized(rest, 4)
        case Fail => Fail
        case Got(v, after) => ReadV1Pairs(after, n - 1, m[k := v])
  }

  function ReadV1Map(b: Str): Option<map<Str, Str>> {
    match ReadBe(b, 2)
    case Fail => None
    case Got(n, rest) =>
      match ReadV1Pairs(rest, n, map[])
      case Fail => None
      case Got(m, _) => Some(m)
  }

  /** The key, value and headers after the checksum, magic and attributes. */
  function ReadV1(b: Str): Option<Content> {
    if |b| < 6 then None else
      match ReadV1Field(b[6..])
      case Fail => None
      case Got(key, rest) =>
        match ReadV1Field(rest)
        case Fail => None
        case Got(value, after) =>
          match ReadV1Map(after)
          case None => None
          case Some(m) => Some(Content(b[5], key, value, m))
  }

  // ---- reading undoes writing ----

  lemma Pow2()
    ensures BH.Pow(2) == 0x1_0000 && BH.Pow(4) == BH.TWO32
  {
    BH.Powers();
    assert BH.Pow(1) == 256;
  }

  lemma BeReads(v: nat, w: nat, rest: Str)
    requires v < BH.Pow(w)
    ensures ReadBe(BH.Be(v, w) + rest, w) == Got(v, rest)
  {
    BH.BeInverse(v, w);
    var b := BH.Be(v, w) + rest;
    assert b[..w] == BH.Be(v, w) && b[w..] == rest;
  }

  lemma SizedReads(s: Str, w: nat, rest: Str)
    requires |s| < BH.Pow(w)
    ensures ReadSized(BH.Be(|s|, w) + (s + rest), w) == Got(s, rest)
  {
    BeReads(|s|, w, s + rest);
    assert (s + rest)[..|s|] == s && (s + rest)[|s|..] == rest;
  }

  lemma V1FieldReads(f: Option<Str>, rest: Str)
    requires f.Some? ==> |f.value| < TWO31
    ensures ReadV1Field(V1Field(f) + rest) == Got(f, rest)
  {
    Pow2();
    match f
    case None => BeReads(0xffff_ffff, 4, rest);
    case Some(s) =>
      assert V1Field(f) + rest == BH.Be(|s|, 4) + (s + rest);
      BeReads(|s|, 4, s + rest);
      assert (s + rest)[..|s|] == s && (s + rest)[|s|..] == rest;
  }

  ghost predicate Short(keys: seq<Str>, m: map<Str, Str>)
    requires BR.AllIn(keys, m)
  {
    forall i :: 0 <= i < |keys| ==> |keys[i]| < 0x8000 && |m[keys[i]]| < TWO31
  }

  lemma {:induction false} V1PairsRead(keys: seq<Str>, m: map<Str, Str>, acc: map<Str, Str>, rest: Str)
    requires BR.AllIn(keys, m) && Short(keys, m)
    ensures ReadV1Pairs(V1Pairs(keys, m) + rest, |keys|, acc) == Got(acc + BR.Pairs(keys, m), rest)
    decreases |keys|
  {
    if keys == [] {
      assert acc + BR.Pairs(keys, m) == acc;
      assert V1Pairs(keys, m) + rest == rest;
    } else {
      var k, v := keys[0], m[keys[0]];
      var after := V1Pairs(keys[1..], m) + rest;
      var values := BH.Be(|v|, 4) + (v + after);
      PairShape(BH.Be(|k|, 2), k, BH.Be(|v|, 4), v, V1Pairs(keys[1..], m), rest);
      Pow2();
      SizedReads(k, 2, values);
      SizedReads(v, 4, after);
      V1PairsRead(keys[1..], m, acc[k := v], rest);
      BR.PairsStep(keys, m, acc);
    }
  }

  lemma PairShape(a: Str, k: Str, b: Str, v: Str, pairs: Str, rest: Str)
    ensures a + (k + (b + (v + pairs))) + rest == a + (k + (b + (v + (pairs + rest))))
  {
    assert v + pairs + rest == v + (pairs + rest);
    assert b + (v + pairs) + rest == b + (v + pairs + rest);
    assert k + (b + (v + pairs)) + rest == k + (b + (v + pairs) + rest);
  }

  /** What fits the wire form: header counts and names of 15 bits, the rest of 31. */
  ghost predicate Fits(c: Content, keys: seq<Str>) {
    && BR.Lists(keys, c.headers) && |keys| < 0x8000 && Short(keys, c.headers)
    && (c.key.Some? ==> |c.key.value| < TWO31) && (c.value.Some? ==> |c.value.value| < TWO31)
  }

  lemma V1MapReads(keys: seq<Str>, m: map<Str, Str>)
    requires BR.Lists(keys, m) && |keys| < 0x8000 && Short(keys, m)
    ensures ReadV1Map(BH.Be(|keys|, 2) + V1Pairs(keys, m)) == Some(m)
  {
    Pow2();
    BeReads(|keys|, 2, V1Pairs(keys, m));
    assert V1Pairs(keys, m) + [] == V1Pairs(keys, m);
    V1PairsRead(keys, m, map[], []);
    BR.AllPairs(keys, m);
  }

  /** A message reads back as what it says, in whatever order its headers were written. */
  lemma V1RoundTrip(crc: Str -> BH.U32, c: Content, keys: seq<Str>)
    requires Fits(c, keys)
    ensures ReadV1(V1Bytes(crc, c, keys)) == Some(c) && |V1Bytes(crc, c, keys)| > 6
  {
    var b := V1Bytes(crc, c, keys);
    var tail := BH.Be(|keys|, 2) + V1Pairs(keys, c.headers);
    assert b[6..] == V1Fields(c, keys) && b[5] == c.attributes;
    V1FieldReads(c.key, V1Field(c.value) + tail);
    V1FieldReads(c.value, tail);
    V1MapReads(keys, c.headers);
  }

  // ---- frames ----

  datatype Frame = Frame(offset: BH.I64, timestamp: BH.I64, epoch: BH.U64, payload: Str)

  function FrameHead(f: Frame): Str {
    BH.Be(BH.ToU64(f.offset), 8) +
      (BH.Be(BH.ToU64(f.timestamp), 8) + (BH.Be(f.epoch, 8) + BH.Be(|f.payload| % BH.TWO32, 4)))
  }

  function FrameBytes(crc: Str -> BH.U32, f: Frame): Str {
    FrameHead(f) + BH.Be(crc(FrameHead(f)), 4) + f.payload
  }

  function FramesBytes(crc: Str -> BH.U32, fs: seq<Frame>): Str {
    if fs == [] then [] else FrameBytes(crc, fs[0]) + FramesBytes(crc, fs[1..])
  }

  datatype Entry = Entry(offset: BH.I64, timestamp: BH.I64, epoch: BH.U64, position: int, size: nat)

  /** The payload size a frame header gives; negative when its top bit is set. */
  function SizeAt(ms: Str): BH.I32
    requires |ms| >= FRAME_LEN
  {
    BH.ToI32(BH.F4(ms, 24))
  }

  predicate HoldsFrame(ms: Str) {
    |ms| >= FRAME_LEN && 0 <= SizeAt(ms) <= |ms| - FRAME_LEN
  }

  function EntryAt(ms: Str, position: int): Entry
    requires HoldsFrame(ms)
  {
    Entry(BH.ToI64(BH.F8(ms, 0)), BH.ToI64(BH.F8(ms, 8)), BH.F8(ms, 16), position, SizeAt(ms) + FRAME_LEN)
  }

  /** The frames the bytes hold, up to the first they cannot hold. */
  function Entries(ms: Str, position: int): seq<Entry>
    decreases |ms|
  {
    if !HoldsFrame(ms) then [] else
      [EntryAt(ms, position)] + Entries(ms[FRAME_LEN + SizeAt(ms)..], position + FRAME_LEN + SizeAt(ms))
  }

  method EntriesForMessageSet(basePos: int, set': Str) returns (entries: seq<Entry>)
    ensures entries == if |set'| <= FRAME_LEN then [] else Entries(set', basePos)
  {
    entries := [];
    if |set'| <= FRAME_LEN {
      return;
    }
    var ms, n := set', 0;
    ghost var answer, rest := Entries(set', basePos), Entries(set', basePos);
    while |ms| >= FRAME_LEN
      invariant answer == entries + rest && Remain(ms, basePos + n, rest)
      decreases |ms|
    {
      var size := SizeAt(ms);
      if size < 0 || size > |ms| - FRAME_LEN {
        break;
      }
      rest := Peel(ms, basePos + n, rest, entries);
      entries := entries + [EntryAt(ms, basePos + n)];
      n := n + FRAME_LEN + size;
      ms := ms[FRAME_LEN + size..];
    }
    assert rest == [];
  }

  /** These are the frames the bytes hold. */
  ghost predicate Remain(ms: Str, position: int, rest: seq<Entry>) {
    Entries(ms, position) == rest
  }

  lemma Peel(ms: Str, position: int, rest: seq<Entry>, entries: seq<Entry>) returns (rest': seq<Entry>)
    requires Remain(ms, position, rest) && HoldsFrame(ms)
    ensures Remain(ms[FRAME_LEN + SizeAt(ms)..], position + FRAME_LEN + SizeAt(ms), rest')
    ensures entries + rest == entries + [EntryAt(ms, position)] + rest'
  {
    rest' := rest[1..];
  }

  /** The entries of frames laid end to end. */
  function EntriesOf(fs: seq<Frame>, position: int): seq<Entry> {
    if fs == [] then [] else
      [Entry(fs[0].offset, fs[0].timestamp, fs[0].epoch, position, FRAME_LEN + |fs[0].payload|)]
      + EntriesOf(fs[1..], position + FRAME_LEN + |fs[0].payload|)
  }

  lemma FrameReads(crc: Str -> BH.U32, f: Frame, rest: Str)
    requires |f.payload| < TWO31
    ensures var ms := FrameBytes(crc, f) + rest;
            && |ms| >= FRAME_LEN + |f.payload| && ms[FRAME_LEN + |f.payload|..] == rest
            && BH.F8(ms, 0) == BH.ToU64(f.offset) && BH.F8(ms, 8) == BH.ToU64(f.timestamp)
            && BH.F8(ms, 16) == f.epoch && BH.F4(ms, 24) == |f.payload|
  {
    var ms, h := FrameBytes(crc, f) + rest, FrameHead(f);
    FrameHeadReads(f);
    assert forall k :: 0 <= k < 28 ==> ms[k] == h[k];
    BH.AgreeField(h, ms, 0, 8);
    BH.AgreeField(h, ms, 8, 8);
    BH.AgreeField(h, ms, 16, 8);
    BH.AgreeField(h, ms, 24, 4);
  }

  lemma FrameHeadReads(f: Frame)
    requires |f.payload| < TWO31
    ensures var h := FrameHead(f);
            && |h| == 28 && BH.F8(h, 0) == BH.ToU64(f.offset) && BH.F8(h, 8) == BH.ToU64(f.timestamp)
            && BH.F8(h, 16) == f.epoch && BH.F4(h, 24) == |f.payload|
  {
    var h := FrameHead(f);
    BH.Powers();
    var a, b, c, d := BH.Be(BH.ToU64(f.offset), 8), BH.Be(BH.ToU64(f.timestamp), 8), BH.Be(f.epoch, 8),
      BH.Be(|f.payload| % BH.TWO32, 4);
    assert h[0..8] == a && h[8..16] == b && h[16..24] == c && h[24..28] == d;
    BH.BeInverse(BH.ToU64(f.offset), 8);
    BH.BeInverse(BH.ToU64(f.timestamp), 8);
    BH.BeInverse(f.epoch, 8);
    BH.BeInverse(|f.payload|, 4);
  }

  ghost predicate Payload(f: Frame) {
    0 < |f.payload| < TWO31
  }

  ghost predicate Framable(fs: seq<Frame>) {
    forall i {:trigger Payload(fs[i])} :: 0 <= i < |fs| ==> Payload(fs[i])
  }

  /** Frames tile their bytes: parsing finds each of them, where it is, and nothing is
      left over. */
  lemma {:induction false} FramesTile(crc: Str -> BH.U32, fs: seq<Frame>, position: int)
    requires Framable(fs)
    ensures Remain(FramesBytes(crc, fs), position, EntriesOf(fs, position))
    ensures fs != [] ==> |FramesBytes(crc, fs)| > FRAME_LEN
    decreases |fs|
  {
    if fs != [] {
      assert Payload(fs[0]);
      FramableTail(fs);
      FramesTile(crc, fs[1..], position + FRAME_LEN + |fs[0].payload|);
      TileOne(crc, fs[0], FramesBytes(crc, fs[1..]), position,
              EntriesOf(fs[1..], position + FRAME_LEN + |fs[0].payload|));
    }
  }

  lemma TileOne(crc: Str -> BH.U32, f: Frame, rest: Str, position: int, es: seq<Entry>)
    requires Payload(f) && Remain(rest, position + FRAME_LEN + |f.payload|, es)
    ensures var ms := FrameBytes(crc, f) + rest;
            |ms| > FRAME_LEN &&
              Remain(ms, position, [Entry(f.offset, f.timestamp, f.epoch, position, FRAME_LEN + |f.payload|)] + es)
  {
    FirstFrame(crc, f, rest, position);
    TileStep(FrameBytes(crc, f) + rest, f, rest, position, es);
  }

  lemma FramableTail(fs: seq<Frame>)
    requires Framable(fs) && fs != []
    ensures Framable(fs[1..])
  {
    forall i | 0 <= i < |fs[1..]|
      ensures Payload(fs[1..][i])
    {
      assert Payload(fs[i + 1]);
    }
  }

  lemma TileStep(ms: Str, f: Frame, rest: Str, position: int, es: seq<Entry>)
    requires HoldsFrame(ms) && SizeAt(ms) == |f.payload| && ms[FRAME_LEN + |f.payload|..] == rest
    requires EntryAt(ms, position) == Entry(f.offset, f.timestamp, f.epoch, position, FRAME_LEN + |f.payload|)
    requires Remain(rest, position + FRAME_LEN + |f.payload|, es)
    ensures Remain(ms, position, [Entry(f.offset, f.timestamp, f.epoch, position, FRAME_LEN + |f.payload|)] + es)
  {
  }

  lemma FirstFrame(crc: Str -> BH.U32, f: Frame, rest: Str, position: int)
    requires 0 < |f.payload| < TWO31
    ensures var ms := FrameBytes(crc, f) + rest;
            && HoldsFrame(ms) && SizeAt(ms) == |f.payload| && ms[FRAME_LEN + |f.payload|..] == rest && |ms| > FRAME_LEN
            && EntryAt(ms, position) == Entry(f.offset, f.timestamp, f.epoch, position, FRAME_LEN + |f.payload|)
  {
    FrameReads(crc, f, rest);
    TwosComplement(f.offset, f.timestamp);
  }

  lemma TwosComplement(x: BH.I64, y: BH.I64)
    ensures BH.ToI64(BH.ToU64(x)) == x && BH.ToI64(BH.ToU64(y)) == y
  {
  }

  /** The entries' sizes add up to the bytes. */
  function Extent(entries: seq<Entry>): nat {
    if entries == [] then 0 else entries[0].size + Extent(entries[1..])
  }

  lemma {:induction false} FramesExtent(crc: Str -> BH.U32, fs: seq<Frame>, position: int)
    ensures Extent(EntriesOf(fs, position)) == |FramesBytes(crc, fs)| && |EntriesOf(fs, position)| == |fs|
    ensures forall i :: 0 <= i < |fs| ==> EntriesOf(fs, position)[i].offset == fs[i].offset
    decreases |fs|
  {
    if fs != [] {
      FramesExtent(crc, fs[1..], position + FRAME_LEN + |fs[0].payload|);
      var es := EntriesOf(fs, position);
      assert es[1..] == EntriesOf(fs[1..], position + FRAME_LEN + |fs[0].payload|);
      assert |FrameBytes(crc, fs[0])| == FRAME_LEN + |fs[0].payload|;
    }
  }

  /** Entry i is frame i's, and locates its payload; it begins where the entry before it
      ends, and the last one ends with the bytes. */
  ghost predicate Placed(ms: Str, es: seq<Entry>, fs: seq<Frame>, position: int, i: nat) {
    && i < |es| && i < |fs| && es[i].size >= FRAME_LEN
    && es[i].offset == fs[i].offset && es[i].timestamp == fs[i].timestamp && es[i].epoch == fs[i].epoch
    && var at := es[i].position - position;
    && 0 <= at && at + es[i].size <= |ms| && ms[at + FRAME_LEN..at + es[i].size] == fs[i].payload
    && (i == 0 ==> at == 0) && (i + 1 == |es| ==> at + es[i].size == |ms|)
    && (i + 1 < |es| ==> es[i + 1].position == es[i].position + es[i].size)
  }

  ghost predicate AllPlaced(ms: Str, es: seq<Entry>, fs: seq<Frame>, position: int) {
    && |es| == |fs| && (fs == [] ==> ms == [])
    && forall i {:trigger Placed(ms, es, fs, position, i)} :: 0 <= i < |fs| ==> Placed(ms, es, fs, position, i)
  }

  lemma {:induction false} FramesPlaced(crc: Str -> BH.U32, fs: seq<Frame>, position: int)
    ensures AllPlaced(FramesBytes(crc, fs), EntriesOf(fs, position), fs, position)
    decreases |fs|
  {
    if fs != [] {
      var f, next := fs[0], position + FRAME_LEN + |fs[0].payload|;
      FramesPlaced(crc, fs[1..], next);
      FrameShape(crc, f);
      assert fs == [f] + fs[1..];
      PlacedOne(f, FrameBytes(crc, f), FramesBytes(crc, fs[1..]), EntriesOf(fs[1..], next), fs[1..], position);
    }
  }

  lemma FrameShape(crc: Str -> BH.U32, f: Frame)
    ensures var b := FrameBytes(crc, f); |b| == FRAME_LEN + |f.payload| && b[FRAME_LEN..] == f.payload
  {
  }

  lemma PlacedOne(f: Frame, first: Str, rest: Str, es: seq<Entry>, fs: seq<Frame>, position: int)
    requires |first| == FRAME_LEN + |f.payload| && first[FRAME_LEN..] == f.payload
    requires AllPlaced(rest, es, fs, position + |first|)
    ensures AllPlaced(first + rest, [Entry(f.offset, f.timestamp, f.epoch, position, |first|)] + es, [f] + fs, position)
  {
    var e := Entry(f.offset, f.timestamp, f.epoch, position, |first|);
    forall i | 0 <= i < |[f] + fs|
      ensures Placed(first + rest, [e] + es, [f] + fs, position, i)
    {
      if i == 0 {
        assert es != [] ==> Placed(rest, es, fs, position + |first|, 0);
        assert (first + rest)[FRAME_LEN..|first|] == first[FRAME_LEN..];
      } else {
        assert Placed(rest, es, fs, position + |first|, i - 1);
        var at := es[i - 1].position - position - |first|;
        SliceShift(first, rest, at + FRAME_LEN, at + es[i - 1].size);
      }
    }
  }

  lemma SliceShift(a: Str, b: Str, lo: nat, hi: nat)
    requires lo <= hi <= |b|
    ensures (a + b)[|a| + lo..|a| + hi] == b[lo..hi]
  {
  }
}
