/** One batch, two block formats: stamped message by message in version 2, or framed once
    under a version-3 header. Both say the same of every record. */
module TwoFormats {
  import opened Bytes
  import opened Varints
  import opened Framing
  import BR = BlockRecords
  import BC = BlockCursors
  import BH = BlockHeaders
  import V3 = BlocksV3

  // The header names a record's producer identity is read from.
  const PID: Str := [112, 105, 100]
  const EPOCH: Str := [101, 112, 111, 99, 104]
  const SEQ: Str := [115, 101, 113]
  const NONCE: Str := [110, 111, 110, 99, 101]

  predicate Reserved(k: Str) {
    k == PID || k == EPOCH || k == SEQ || k == NONCE
  }

  datatype Message = Message(
    control: bool, tombstone: bool, key: Option<Str>, value: Option<Str>, headers: map<Str, Str>,
    timestamp: BH.I64, epoch: BH.U64)

  /** A batch's producer identity; all zeros is none. */
  datatype Meta = Meta(pid: BH.U64, epoch: BH.U32, sequence: BH.I32, nonce: BH.U64)

  const NOBODY: Meta := Meta(0, 0, 0, 0)

  predicate Unreserved(m: Message) {
    forall k :: k in m.headers ==> !Reserved(k)
  }

  // ---- version 2: the identity goes on each record ----

  function Attributes(control: bool, tombstone: bool): byte {
    (if control then 1 else 0) + if tombstone then 2 else 0
  }

  /** A record's sequence in 32 bits, wrapping. */
  function SeqBits(base: BH.I32, i: nat): BH.U32 {
    (base + i) % BH.TWO32
  }

  function Stamps(meta: Meta, i: nat): map<Str, Str> {
    var id := map[PID := BH.Be(meta.pid, 8), EPOCH := BH.Be(meta.epoch, 4), SEQ := BH.Be(SeqBits(meta.sequence, i), 4)];
    if meta.nonce != 0 then id[NONCE := BH.Be(meta.nonce, 8)] else id
  }

  /** What version 2 stores of record i. */
  function Stamped(meta: Meta, m: Message, i: nat): Content {
    Content(Attributes(m.control, m.tombstone), m.key, m.value,
            if meta == NOBODY then m.headers else m.headers + Stamps(meta, i))
  }

  // ---- version 3: the identity goes in the block header ----

  function Flags(control: bool, transactional: bool, stripped: bool): byte {
    (if control then 1 else 0) + (if transactional then 2 else 0) + if stripped then 4 else 0
  }

  /** The block header of a batch, before its payload fills in the rest. */
  function HeaderFor(meta: Meta, control: bool, codec: byte, base: BH.I64, epoch: BH.U64, stamp: BH.I64): BH.Header {
    BH.Header(codec, Flags(control, meta.nonce != 0, meta == NOBODY), base, epoch, stamp,
              BH.ToI64(meta.pid), BH.ToI32(meta.epoch), meta.sequence, meta.nonce, 0, 0, 0, 0, 0)
  }

  function RecFor(m: Message, i: nat): BR.Rec {
    BR.Rec(Attributes(false, m.tombstone), i % BH.TWO32, m.key, m.value, m.headers)
  }

  predicate IsControl(flags: byte) { flags as int % 2 == 1 }

  /** What reading a version-3 block makes of record i. */
  function Synthesized(h: BH.Header, r: BR.Rec, i: nat): Content {
    var id := map[PID := BH.Be(BH.ToU64(h.producerID), 8), EPOCH := BH.Be(BH.ToU32(h.producerEpoch), 4)];
    var id' := if BH.Transactional(h.flags) then id[NONCE := BH.Be(h.txNonce, 8)] else id;
    Content(Attributes(IsControl(h.flags), BH.Transactional(r.attributes)), r.key, r.value,
            if BH.Stripped(h.flags) then r.headers else r.headers + id'[SEQ := BH.Be(SeqBits(h.baseSequence, i), 4)])
  }

  lemma FlagsRead(control: bool, transactional: bool, stripped: bool)
    ensures var f := Flags(control, transactional, stripped);
            IsControl(f) == control && BH.Transactional(f) == transactional && BH.Stripped(f) == stripped
    ensures BH.Transactional(Attributes(false, transactional)) == transactional
  {
  }

  /** Whatever the batch's identity, both formats say the same of every record. */
  lemma SameContent(meta: Meta, m: Message, i: nat, h: BH.Header)
    requires h.flags == Flags(m.control, meta.nonce != 0, meta == NOBODY)
    requires h.producerID == BH.ToI64(meta.pid) && h.producerEpoch == BH.ToI32(meta.epoch)
    requires h.baseSequence == meta.sequence && h.txNonce == meta.nonce
    ensures Synthesized(h, RecFor(m, i), i) == Stamped(meta, m, i)
  {
    FlagsRead(m.control, meta.nonce != 0, meta == NOBODY);
    FlagsRead(false, m.tombstone, false);
    assert BH.ToU64(h.producerID) == meta.pid && BH.ToU32(h.producerEpoch) == meta.epoch;
    if meta != NOBODY {
      assert Synthesized(h, RecFor(m, i), i).headers == m.headers + Stamps(meta, i);
    }
  }

  // ---- the identity, read back ----

  datatype Id = Id(pid: nat, epoch: nat, sequence: int, nonce: nat)

  function Lookup(m: map<Str, Str>, k: Str, w: nat): Option<nat> {
    if k in m && |m[k]| == w then Some(BH.Unbe(m[k])) else None
  }

  function IdentityFromHeaders(m: map<Str, Str>): Option<Id> {
    var p, e, s, n := Lookup(m, PID, 8), Lookup(m, EPOCH, 4), Lookup(m, SEQ, 4), Lookup(m, NONCE, 8);
    if p.None? || e.None? || s.None? then None
    else Some(Id(p.value, e.value, if s.value >= BH.TWO31 then s.value - BH.TWO32 else s.value,
                 if n.Some? then n.value else 0))
  }

  lemma LookupBe(m: map<Str, Str>, k: Str, v: nat, w: nat)
    requires k in m && m[k] == BH.Be(v, w) && v < BH.Pow(w)
    ensures Lookup(m, k, w) == Some(v)
  {
    BH.BeInverse(v, w);
  }

  /** A batch with an identity reads back with it, record i under sequence base + i in 32
      bits; a batch without one reads back with none. */
  lemma IdentityRead(meta: Meta, m: Message, i: nat)
    requires Unreserved(m)
    ensures IdentityFromHeaders(Stamped(meta, m, i).headers) ==
            if meta == NOBODY then None
            else Some(Id(meta.pid, meta.epoch, BH.ToI32(SeqBits(meta.sequence, i)), meta.nonce))
  {
    BH.Powers();
    var hs := Stamped(meta, m, i).headers;
    if meta != NOBODY {
      LookupBe(hs, PID, meta.pid, 8);
      LookupBe(hs, EPOCH, meta.epoch, 4);
      LookupBe(hs, SEQ, SeqBits(meta.sequence, i), 4);
      if meta.nonce != 0 {
        LookupBe(hs, NONCE, meta.nonce, 8);
      } else {
        assert NONCE !in hs;
      }
    } else {
      assert PID !in hs;
    }
  }

  /** The bytes each format stores of a record read back alike, headers in whatever order
      each wrote them. */
  lemma SameReading(crc: Str -> BH.U32, meta: Meta, m: Message, i: nat, h: BH.Header, keys2: seq<Str>, keys3: seq<Str>)
    requires h.flags == Flags(m.control, meta.nonce != 0, meta == NOBODY)
    requires h.producerID == BH.ToI64(meta.pid) && h.producerEpoch == BH.ToI32(meta.epoch)
    requires h.baseSequence == meta.sequence && h.txNonce == meta.nonce
    requires Fits(Stamped(meta, m, i), keys2) && Fits(Synthesized(h, RecFor(m, i), i), keys3)
    ensures ReadV1(V1Bytes(crc, Stamped(meta, m, i), keys2)) == Some(Stamped(meta, m, i))
    ensures ReadV1(V1Bytes(crc, Synthesized(h, RecFor(m, i), i), keys3)) == Some(Stamped(meta, m, i))
  {
    SameContent(meta, m, i, h);
    V1RoundTrip(crc, Stamped(meta, m, i), keys2);
    V1RoundTrip(crc, Synthesized(h, RecFor(m, i), i), keys3);
  }

  // ---- accepting a batch ----

  /** A version-3 batch: one timestamp, one epoch, one kind, and no header the identity
      writes. */
  ghost predicate Uniform(msgs: seq<Message>, stamp: BH.I64) {
    && msgs != []
    && (forall i :: 0 <= i < |msgs| ==> Unreserved(msgs[i]))
    && (forall i :: 0 <= i < |msgs| ==> msgs[i].timestamp == 0 || msgs[i].timestamp == stamp)
    && (forall i :: 0 <= i < |msgs| ==> msgs[i].epoch == msgs[0].epoch && msgs[i].control == msgs[0].control)
  }

  ghost predicate Acceptable(msgs: seq<Message>) {
    exists stamp :: Uniform(msgs, stamp)
  }

  method AnyReserved(msgs: seq<Message>) returns (r: bool)
    ensures r <==> exists i :: 0 <= i < |msgs| && !Unreserved(msgs[i])
  {
    for i := 0 to |msgs|
      invariant forall j :: 0 <= j < i ==> Unreserved(msgs[j])
    {
      if PID in msgs[i].headers || EPOCH in msgs[i].headers || SEQ in msgs[i].headers || NONCE in msgs[i].headers {
        return true;
      }
    }
    return false;
  }

  /** The batch's one timestamp, 0 if no message has one, or a refusal. */
  method CheckBatch(msgs: seq<Message>) returns (stamp: Option<BH.I64>)
    ensures stamp.Some? <==> Acceptable(msgs)
    ensures stamp.Some? ==> Uniform(msgs, stamp.value)
    ensures stamp.Some? && stamp.value != 0 ==> exists i :: 0 <= i < |msgs| && msgs[i].timestamp == stamp.value
  {
    if |msgs| == 0 {
      return None;
    }
    var reserved := AnyReserved(msgs);
    if reserved {
      return None;
    }
    var found: BH.I64 := 0;
    for i := 0 to |msgs|
      invariant forall j :: 0 <= j < i ==> msgs[j].timestamp == 0 || msgs[j].timestamp == found
      invariant found == 0 || exists j :: 0 <= j < i && msgs[j].timestamp == found
      invariant forall j :: 0 <= j < i ==> msgs[j].epoch == msgs[0].epoch && msgs[j].control == msgs[0].control
    {
      var m := msgs[i];
      if m.timestamp != 0 && found != 0 && m.timestamp != found {
        return None;
      }
      if m.timestamp != 0 {
        found := m.timestamp;
      }
      if m.epoch != msgs[0].epoch || m.control != msgs[0].control {
        return None;
      }
    }
    assert Uniform(msgs, found);
    return Some(found);
  }

  // ---- the block, written and read back ----

  /** Payloads shorter than this are stored raw. */
  const COMPRESS_MIN := 4096

  function PackedMin(cs: V3.Codecs, codec: byte, logical: Str): (byte, Str) {
    if |logical| < COMPRESS_MIN then (0, logical) else V3.Packed(cs, codec, logical)
  }

  function FilledMin(cs: V3.Codecs, h: BH.Header, logical: Str, n: nat, lastDelta: nat): BH.Header {
    var (codec, payload) := PackedMin(cs, h.codec, logical);
    h.(codec := codec, records := V3.U32(n), lastOffsetDelta := V3.U32(lastDelta), uncompressedLen := V3.U32(|logical|),
       compressedLen := V3.U32(|payload|), payloadCRC := cs.env.crc(payload))
  }

  /** A block of these records, as the log appends it, and the header in it. */
  ghost predicate IsV3Block(cs: V3.Codecs, h: BH.Header, recs: seq<BR.Rec>, logical: Str, block: Str, full: BH.Header) {
    && recs != [] && BC.Encodes(recs, logical)
    && full == FilledMin(cs, h, logical, |recs|, recs[|recs| - 1].offsetDelta)
    && block == BH.EncodeHeader(cs.env, full) + PackedMin(cs, h.codec, logical).1
  }

  method EncodeV3Block(cs: V3.Codecs, h: BH.Header, recs: seq<BR.Rec>) returns (block: Str, full: BH.Header)
    requires recs != [] && forall i :: 0 <= i < |recs| ==> recs[i].offsetDelta < BH.TWO32
    ensures exists logical :: IsV3Block(cs, h, recs, logical, block, full)
  {
    var logical := BC.EncodeRecords([], recs);
    assert logical[0..] == logical;
    var payload, codec := logical, h.codec;
    if |logical| < COMPRESS_MIN {
      codec := 0;
    } else if h.codec != 0 {
      var c := cs.compress(h.codec, logical);
      if |c| < |logical| {
        payload := c;
      } else {
        codec := 0;
      }
    }
    full := h.(codec := codec, records := V3.U32(|recs|), lastOffsetDelta := V3.U32(recs[|recs| - 1].offsetDelta),
               uncompressedLen := V3.U32(|logical|), compressedLen := V3.U32(|payload|),
               payloadCRC := cs.env.crc(payload));
    block := BH.EncodeHeader(cs.env, full) + payload;
    assert IsV3Block(cs, h, recs, logical, block, full);
  }

  /** What was appended is what a reader decodes: the same header, the same records. */
  lemma V3RoundTrip(cs: V3.Codecs, h: BH.Header, recs: seq<BR.Rec>, logical: Str, block: Str, full: BH.Header)
    requires V3.Faithful(cs) && cs.env.valid(h.codec) && IsV3Block(cs, h, recs, logical, block, full) &&
             |logical| < BH.TWO32
    ensures V3.ReadBlock(cs, block) == BH.Ok((full, recs))
  {
    if |logical| < COMPRESS_MIN {
      V3.BlockRoundTrip(cs, h.(codec := 0), recs, logical, block);
    } else {
      V3.BlockRoundTrip(cs, h, recs, logical, block);
    }
  }

  // ---- the framing ----

  /** The frame of record i: its offset, the block's timestamp and epoch, and its message
      with header keys in order. */
  ghost predicate IsFrame(crc: Str -> BH.U32, h: BH.Header, r: BR.Rec, i: nat, f: Frame, keys: seq<Str>) {
    var c := Synthesized(h, r, i);
    && Fits(c, keys) && BR.InOrder(keys)
    && f.offset == h.baseOffset + r.offsetDelta && f.timestamp == h.baseTimestamp && f.epoch == h.leaderEpoch
    && f.payload == V1Bytes(crc, c, keys)
  }

  ghost predicate IsFraming(crc: Str -> BH.U32, h: BH.Header, recs: seq<BR.Rec>, fs: seq<Frame>, keyss: seq<seq<Str>>) {
    && |fs| == |recs| == |keyss|
    && forall i {:trigger IsFrame(crc, h, recs[i], i, fs[i], keyss[i])} :: 0 <= i < |recs| ==>
         IsFrame(crc, h, recs[i], i, fs[i], keyss[i])
  }

  /** The logical bytes of a block's records. */
  ghost predicate FramesAs(crc: Str -> BH.U32, h: BH.Header, recs: seq<BR.Rec>, bytes: Str) {
    exists fs, keyss :: IsFraming(crc, h, recs, fs, keyss) && bytes == FramesBytes(crc, fs)
  }

  /** Fields of 31 bits, which the wire form takes for granted. */
  ghost predicate Sized(r: BR.Rec) {
    && (r.key.Some? ==> |r.key.value| < TWO31) && (r.value.Some? ==> |r.value.value| < TWO31)
    && forall k :: k in r.headers ==> |r.headers[k]| < TWO31
  }

  ghost predicate SizedContent(c: Content) {
    && (c.key.Some? ==> |c.key.value| < TWO31) && (c.value.Some? ==> |c.value.value| < TWO31)
    && forall k :: k in c.headers ==> |c.headers[k]| < TWO31
  }

  lemma SynthesizedSized(h: BH.Header, r: BR.Rec, i: nat)
    requires Sized(r)
    ensures SizedContent(Synthesized(h, r, i))
  {
  }

  method AnyLong(keys: seq<Str>) returns (long: bool)
    ensures long <==> exists j :: 0 <= j < |keys| && |keys[j]| >= 0x8000
  {
    for n := 0 to |keys|
      invariant forall j :: 0 <= j < n ==> |keys[j]| < 0x8000
    {
      if |keys[n]| > 0x7fff {
        return true;
      }
    }
    return false;
  }

  /** Too many headers, or too long a name. */
  ghost predicate Refused(c: Content) {
    |c.headers| >= 0x8000 || exists k :: k in c.headers && |k| >= 0x8000
  }

  /** One record's message, or a refusal. */
  method EncodeV1Message(crc: Str -> BH.U32, c: Content) returns (msg: Option<Str>)
    requires SizedContent(c)
    ensures msg.Some? ==> exists keys :: IsMessage(crc, c, keys, msg.value)
    ensures msg.None? <==> Refused(c)
  {
    var keys := BC.SortKeys(c.headers);
    var long := AnyLong(keys);
    if |keys| > 0x7fff {
      return None;
    }
    if long {
      ghost var j :| 0 <= j < |keys| && |keys[j]| >= 0x8000;
      assert keys[j] in c.headers;
      return None;
    }
    ShortFits(c, keys);
    assert IsMessage(crc, c, keys, V1Bytes(crc, c, keys));
    assert forall k :: k in c.headers ==> k in keys;
    msg := Some(V1Bytes(crc, c, keys));
  }

  /** A message in its wire form, with these header keys, all of them and in order. */
  ghost predicate IsMessage(crc: Str -> BH.U32, c: Content, keys: seq<Str>, msg: Str) {
    Fits(c, keys) && BR.InOrder(keys) && msg == V1Bytes(crc, c, keys)
  }

  lemma ShortFits(c: Content, keys: seq<Str>)
    requires SizedContent(c) && BR.Lists(keys, c.headers) && |keys| < 0x8000
    requires forall j :: 0 <= j < |keys| ==> |keys[j]| < 0x8000
    ensures Fits(c, keys)
  {
    forall j | 0 <= j < |keys|
      ensures |c.headers[keys[j]]| < TWO31
    {
      assert keys[j] in c.headers;
    }
  }

  /** The frame of one record, or a refusal. */
  method FrameFor(crc: Str -> BH.U32, h: BH.Header, r: BR.Rec, i: nat) returns (f: Option<Frame>)
    requires Sized(r) && h.baseOffset + r.offsetDelta < TWO63
    ensures f.None? <==> Unframed(h, r, i)
    ensures f.Some? ==> FrameAs(crc, h, r, i, f.value)
  {
    SynthesizedSized(h, r, i);
    var msg := EncodeV1Message(crc, Synthesized(h, r, i));
    if msg.None? {
      return None;
    }
    ghost var keys :| IsMessage(crc, Synthesized(h, r, i), keys, msg.value);
    f := Some(Frame(h.baseOffset + r.offsetDelta, h.baseTimestamp, h.leaderEpoch, msg.value));
    assert IsFrame(crc, h, r, i, f.value, keys);
  }

  ghost predicate FrameAs(crc: Str -> BH.U32, h: BH.Header, r: BR.Rec, i: nat, f: Frame) {
    exists keys :: IsFrame(crc, h, r, i, f, keys)
  }

  ghost predicate Unframed(h: BH.Header, r: BR.Rec, i: nat) {
    Refused(Synthesized(h, r, i))
  }

  ghost predicate SomeUnframed(h: BH.Header, recs: seq<BR.Rec>) {
    exists i :: 0 <= i < |recs| && Unframed(h, recs[i], i)
  }

  /** The frames of a decoded block, one per record, or a refusal when one record's is. */
  method SynthesizeFraming(crc: Str -> BH.U32, h: BH.Header, recs: seq<BR.Rec>) returns (out: Option<Str>)
    requires forall i :: 0 <= i < |recs| ==> Sized(recs[i]) && h.baseOffset + recs[i].offsetDelta < TWO63
    ensures out.None? <==> SomeUnframed(h, recs)
    ensures out.Some? ==> FramesAs(crc, h, recs, out.value)
  {
    var bytes: Str := [];
    NoFraming(crc, h);
    for i := 0 to |recs|
      invariant FramesAs(crc, h, recs[..i], bytes)
    {
      var f := FrameFor(crc, h, recs[i], i);
      if f.None? {
        return None;
      }
      OneMoreFrame(crc, h, recs, i, bytes, f.value);
      bytes := bytes + FrameBytes(crc, f.value);
    }
    assert recs[..|recs|] == recs;
    NoneUnframed(crc, h, recs, bytes);
    out := Some(bytes);
  }

  lemma NoneUnframed(crc: Str -> BH.U32, h: BH.Header, recs: seq<BR.Rec>, bytes: Str)
    requires FramesAs(crc, h, recs, bytes)
    ensures !SomeUnframed(h, recs)
  {
    var fs, keyss :| IsFraming(crc, h, recs, fs, keyss) && bytes == FramesBytes(crc, fs);
    forall i | 0 <= i < |recs|
      ensures !Unframed(h, recs[i], i)
    {
      assert IsFrame(crc, h, recs[i], i, fs[i], keyss[i]);
      FitsTaken(Synthesized(h, recs[i], i), keyss[i]);
    }
  }

  lemma FitsTaken(c: Content, keys: seq<Str>)
    requires Fits(c, keys)
    ensures !Refused(c)
  {
    forall k | k in c.headers
      ensures |k| < 0x8000
    {
      var j :| 0 <= j < |keys| && keys[j] == k;
    }
  }

  lemma NoFraming(crc: Str -> BH.U32, h: BH.Header)
    ensures FramesAs(crc, h, [], [])
  {
    assert IsFraming(crc, h, [], [], []) && FramesBytes(crc, []) == [];
  }

  lemma OneMoreFrame(crc: Str -> BH.U32, h: BH.Header, recs: seq<BR.Rec>, i: nat, bytes: Str, f: Frame)
    requires i < |recs| && FramesAs(crc, h, recs[..i], bytes) && FrameAs(crc, h, recs[i], i, f)
    ensures FramesAs(crc, h, recs[..i + 1], bytes + FrameBytes(crc, f))
  {
    var fs, keyss :| IsFraming(crc, h, recs[..i], fs, keyss) && bytes == FramesBytes(crc, fs);
    var keys :| IsFrame(crc, h, recs[i], i, f, keys);
    MoreFraming(crc, h, recs, i, fs, keyss, f, keys);
    FramesSnoc(crc, fs, f);
  }

  lemma MoreFraming(crc: Str -> BH.U32, h: BH.Header, recs: seq<BR.Rec>, i: nat, fs: seq<Frame>,
                    keyss: seq<seq<Str>>, f: Frame, keys: seq<Str>)
    requires i < |recs| && IsFraming(crc, h, recs[..i], fs, keyss) && IsFrame(crc, h, recs[i], i, f, keys)
    ensures IsFraming(crc, h, recs[..i + 1], fs + [f], keyss + [keys])
  {
    var rs', fs', keyss' := recs[..i + 1], fs + [f], keyss + [keys];
    forall j | 0 <= j < |rs'|
      ensures IsFrame(crc, h, rs'[j], j, fs'[j], keyss'[j])
    {
      assert j < i ==> IsFrame(crc, h, recs[..i][j], j, fs[j], keyss[j]);
    }
  }

  lemma {:induction false} FramesSnoc(crc: Str -> BH.U32, fs: seq<Frame>, f: Frame)
    ensures FramesBytes(crc, fs + [f]) == FramesBytes(crc, fs) + FrameBytes(crc, f)
    decreases |fs|
  {
    if fs == [] {
      assert fs + [f] == [f];
      assert FramesBytes(crc, [f]) == FrameBytes(crc, f) + FramesBytes(crc, []);
    } else {
      assert (fs + [f])[1..] == fs[1..] + [f];
      FramesSnoc(crc, fs[1..], f);
      BC.Assoc(FrameBytes(crc, fs[0]), FramesBytes(crc, fs[1..]), FrameBytes(crc, f), []);
    }
  }

  /** A map's keys have one order. */
  lemma {:induction false} OrderUnique(a: seq<Str>, b: seq<Str>)
    requires BR.InOrder(a) && BR.InOrder(b) && forall k :: k in a <==> k in b
    ensures a == b
    decreases |a|
  {
    SomeKey(b);
    if a != [] {
      assert a[0] in a && a[0] in b && b[0] in b && b[0] in a;
      FirstKey(a, b);
      forall k
        ensures k in a[1..] <==> k in b[1..]
      {
        KeyTail(a, k);
        KeyTail(b, k);
      }
      TailInOrder(a);
      TailInOrder(b);
      OrderUnique(a[1..], b[1..]);
    }
  }

  lemma SomeKey(b: seq<Str>)
    ensures b == [] || exists k :: k in b
  {
    if b != [] {
      assert b[0] in b;
    }
  }

  lemma FirstKey(a: seq<Str>, b: seq<Str>)
    requires BR.InOrder(a) && BR.InOrder(b) && a != [] && b != [] && a[0] in b && b[0] in a
    ensures a[0] == b[0]
  {
    var i :| 0 <= i < |b| && b[i] == a[0];
    var j :| 0 <= j < |a| && a[j] == b[0];
    if i > 0 && j > 0 {
      assert Less(b[0], b[i]) && Less(a[0], a[j]);
      LessAsymmetric(a[0], b[0]);
    }
  }

  lemma KeyTail(a: seq<Str>, k: Str)
    requires BR.InOrder(a) && a != []
    ensures k in a[1..] <==> k in a && k != a[0]
  {
    if k in a[1..] {
      var i :| 0 <= i < |a[1..]| && a[1..][i] == k;
      assert Less(a[0], a[i + 1]);
      LessAsymmetric(a[0], a[i + 1]);
    }
    assert a == [a[0]] + a[1..];
  }

  lemma TailInOrder(a: seq<Str>)
    requires BR.InOrder(a) && a != []
    ensures BR.InOrder(a[1..])
  {
    forall i, j | 0 <= i < j < |a[1..]|
      ensures Less(a[1..][i], a[1..][j])
    {
      assert Less(a[i + 1], a[j + 1]);
    }
  }

  /** The framing is determined by the block: what was computed when it was written is
      what every later decode computes, byte for byte. */
  lemma FramingUnique(crc: Str -> BH.U32, h: BH.Header, recs: seq<BR.Rec>, bytes: Str, bytes': Str)
    requires FramesAs(crc, h, recs, bytes) && FramesAs(crc, h, recs, bytes')
    ensures bytes == bytes'
  {
    var fs, keyss :| IsFraming(crc, h, recs, fs, keyss) && bytes == FramesBytes(crc, fs);
    var fs', keyss' :| IsFraming(crc, h, recs, fs', keyss') && bytes' == FramesBytes(crc, fs');
    FramesUnique(crc, h, recs, fs, keyss, fs', keyss');
  }

  lemma FramesUnique(crc: Str -> BH.U32, h: BH.Header, recs: seq<BR.Rec>,
                     fs: seq<Frame>, keyss: seq<seq<Str>>, fs': seq<Frame>, keyss': seq<seq<Str>>)
    requires IsFraming(crc, h, recs, fs, keyss) && IsFraming(crc, h, recs, fs', keyss')
    ensures fs == fs'
  {
    forall i | 0 <= i < |recs|
      ensures fs[i] == fs'[i]
    {
      assert IsFrame(crc, h, recs[i], i, fs[i], keyss[i]) && IsFrame(crc, h, recs[i], i, fs'[i], keyss'[i]);
      SameKeys(Synthesized(h, recs[i], i).headers, keyss[i], keyss'[i]);
    }
  }

  lemma SameKeys(m: map<Str, Str>, a: seq<Str>, b: seq<Str>)
    requires BR.Lists(a, m) && BR.Lists(b, m) && BR.InOrder(a) && BR.InOrder(b)
    ensures a == b
  {
    forall k
      ensures k in a <==> k in b
    {
      assert k in a <==> k in m;
      assert k in b <==> k in m;
    }
    OrderUnique(a, b);
  }

  /** The index entries of a framing: one per record, offsets ascending with the records'
      deltas, sizes adding up to all the bytes. */
  lemma FramingTiles(crc: Str -> BH.U32, h: BH.Header, recs: seq<BR.Rec>, fs: seq<Frame>, keyss: seq<seq<Str>>,
                     position: int)
    requires IsFraming(crc, h, recs, fs, keyss) && recs != [] && forall i :: 0 <= i < |fs| ==> |fs[i].payload| < TWO31
    requires forall i, j :: 0 <= i < j < |recs| ==> recs[i].offsetDelta < recs[j].offsetDelta
    ensures var es := Entries(FramesBytes(crc, fs), position);
            && |es| == |recs| && Extent(es) == |FramesBytes(crc, fs)| && |FramesBytes(crc, fs)| > FRAME_LEN
            && (forall i :: 0 <= i < |es| ==> es[i].offset == h.baseOffset + recs[i].offsetDelta)
            && forall i, j :: 0 <= i < j < |es| ==> es[i].offset < es[j].offset
  {
    forall i | 0 <= i < |recs|
      ensures fs[i].offset == h.baseOffset + recs[i].offsetDelta && |fs[i].payload| > 0
    {
      assert IsFrame(crc, h, recs[i], i, fs[i], keyss[i]);
      V1RoundTrip(crc, Synthesized(h, recs[i], i), keyss[i]);
    }
    FramesTile(crc, fs, position);
    FramesExtent(crc, fs, position);
  }
}
