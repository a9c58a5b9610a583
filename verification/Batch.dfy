/** A whole batch in version 3: accepted, written as a block, read back and framed. Every
    record comes out as version 2 would have stored it. */
module Batches {
  import opened Bytes
  import opened Varints
  import opened Framing
  import opened TwoFormats
  import BR = BlockRecords
  import BC = BlockCursors
  import BH = BlockHeaders
  import V3 = BlocksV3

  function RecsFor(msgs: seq<Message>): seq<BR.Rec> {
    seq(|msgs|, i requires 0 <= i < |msgs| => RecFor(msgs[i], i))
  }

  function BatchHeader(meta: Meta, msgs: seq<Message>, codec: byte, base: BH.I64, stamp: BH.I64): BH.Header
    requires msgs != []
  {
    HeaderFor(meta, msgs[0].control, codec, base, msgs[0].epoch, stamp)
  }

  /** A batch of messages, its block, and the header in that. */
  ghost predicate BatchBlock(cs: V3.Codecs, meta: Meta, msgs: seq<Message>, codec: byte, base: BH.I64, stamp: BH.I64,
                             logical: Str, block: Str, full: BH.Header) {
    && Uniform(msgs, stamp)
    && IsV3Block(cs, BatchHeader(meta, msgs, codec, base, stamp), RecsFor(msgs), logical, block, full)
  }

  /** The identity a record of a batch reads back with. */
  function IdentityOf(meta: Meta, i: nat): Option<Id> {
    if meta == NOBODY then None else Some(Id(meta.pid, meta.epoch, BH.ToI32(SeqBits(meta.sequence, i)), meta.nonce))
  }

  /** A header with the batch's identity, offsets and time, whatever its payload. */
  ghost predicate Headed(h: BH.Header, meta: Meta, msgs: seq<Message>, base: BH.I64, stamp: BH.I64) {
    && Uniform(msgs, stamp) && h.flags == Flags(msgs[0].control, meta.nonce != 0, meta == NOBODY)
    && h.producerID == BH.ToI64(meta.pid) && h.producerEpoch == BH.ToI32(meta.epoch)
    && h.baseSequence == meta.sequence && h.txNonce == meta.nonce
    && h.baseOffset == base && h.baseTimestamp == stamp && h.leaderEpoch == msgs[0].epoch
  }

  lemma BatchHeaded(cs: V3.Codecs, meta: Meta, msgs: seq<Message>, codec: byte, base: BH.I64, stamp: BH.I64,
                    logical: Str, block: Str, full: BH.Header)
    requires BatchBlock(cs, meta, msgs, codec, base, stamp, logical, block, full)
    ensures Headed(full, meta, msgs, base, stamp)
  {
  }

  /** One record under such a header says what version 2 stores of its message, and its
      identity reads back as the batch's. */
  lemma RecordMeaning(h: BH.Header, meta: Meta, msgs: seq<Message>, base: BH.I64, stamp: BH.I64, i: nat)
    requires Headed(h, meta, msgs, base, stamp) && i < |msgs|
    ensures Synthesized(h, RecsFor(msgs)[i], i) == Stamped(meta, msgs[i], i)
    ensures IdentityFromHeaders(Stamped(meta, msgs[i], i).headers) == IdentityOf(meta, i)
    ensures h.leaderEpoch == msgs[i].epoch && (|msgs| <= BH.TWO32 ==> RecsFor(msgs)[i].offsetDelta == i)
  {
    SameContent(meta, msgs[i], i, h);
    IdentityRead(meta, msgs[i], i);
  }

  /** Two formats, one meaning. For every batch the log accepts, the block it appends
      decodes to the same header and records, record i says of message i what version 2
      would have stored of it, and its producer identity is the batch's. */
  lemma BlockMeaning(cs: V3.Codecs, meta: Meta, msgs: seq<Message>, codec: byte, base: BH.I64, stamp: BH.I64,
                     logical: Str, block: Str, full: BH.Header)
    requires V3.Faithful(cs) && cs.env.valid(codec) && |logical| < BH.TWO32
    requires BatchBlock(cs, meta, msgs, codec, base, stamp, logical, block, full)
    ensures V3.ReadBlock(cs, block) == BH.Ok((full, RecsFor(msgs)))
    ensures forall i :: 0 <= i < |msgs| ==>
              Synthesized(full, RecsFor(msgs)[i], i) == Stamped(meta, msgs[i], i)
    ensures forall i :: 0 <= i < |msgs| ==>
              IdentityFromHeaders(Stamped(meta, msgs[i], i).headers) == IdentityOf(meta, i)
  {
    V3RoundTrip(cs, BatchHeader(meta, msgs, codec, base, stamp), RecsFor(msgs), logical, block, full);
    BatchHeaded(cs, meta, msgs, codec, base, stamp, logical, block, full);
    forall i | 0 <= i < |msgs|
      ensures Synthesized(full, RecsFor(msgs)[i], i) == Stamped(meta, msgs[i], i)
      ensures IdentityFromHeaders(Stamped(meta, msgs[i], i).headers) == IdentityOf(meta, i)
    {
      RecordMeaning(full, meta, msgs, base, stamp, i);
    }
  }

  /** An entry lies within the bytes: it begins where the one before it ends, and the last
      one ends with the bytes. */
  ghost predicate Located(ms: Str, es: seq<Entry>, position: int, i: nat)
    requires i < |es|
  {
    var at := es[i].position - position;
    && 0 <= at && es[i].size >= FRAME_LEN && at + es[i].size <= |ms|
    && (i == 0 ==> at == 0) && (i + 1 == |es| ==> at + es[i].size == |ms|)
    && (i + 1 < |es| ==> es[i + 1].position == es[i].position + es[i].size)
  }

  ghost function PayloadAt(ms: Str, es: seq<Entry>, position: int, i: nat): Str
    requires i < |es| && Located(ms, es, position, i)
  {
    var at := es[i].position - position;
    ms[at + FRAME_LEN..at + es[i].size]
  }

  /** Entry i of a framing: where it is, and the content its bytes read back as. */
  ghost predicate EntryHolds(ms: Str, es: seq<Entry>, position: int, i: nat, offset: int, timestamp: int, epoch: int,
                             c: Content)
    requires i < |es|
  {
    && es[i].offset == offset && es[i].timestamp == timestamp && es[i].epoch == epoch
    && Located(ms, es, position, i) && ReadV1(PayloadAt(ms, es, position, i)) == Some(c)
  }

  /** The framing computed when the block was written, and the one computed from the block
      when it is read, are the same bytes. They hold one frame per message, end to end
      with nothing left over, each with its message's offset and content. */
  lemma FramingMeaning(cs: V3.Codecs, meta: Meta, msgs: seq<Message>, codec: byte, base: BH.I64, stamp: BH.I64,
                       logical: Str, block: Str, full: BH.Header, crc: Str -> BH.U32, written: Str, position: int)
    requires V3.Faithful(cs) && cs.env.valid(codec) && |logical| < BH.TWO32
    requires BatchBlock(cs, meta, msgs, codec, base, stamp, logical, block, full)
    requires FramesAs(crc, full, RecsFor(msgs), written) && |written| < TWO31
    ensures var read := V3.ReadBlock(cs, block);
            read.Ok? && forall bytes :: FramesAs(crc, read.value.0, read.value.1, bytes) <==> bytes == written
    ensures var es := Entries(written, position);
            && |es| == |msgs|
            && forall i :: 0 <= i < |msgs| ==>
                 EntryHolds(written, es, position, i, base + i, stamp, msgs[i].epoch, Stamped(meta, msgs[i], i))
  {
    BlockMeaning(cs, meta, msgs, codec, base, stamp, logical, block, full);
    BatchHeaded(cs, meta, msgs, codec, base, stamp, logical, block, full);
    OneFraming(crc, full, RecsFor(msgs), written);
    BC.EncodesReads(RecsFor(msgs), logical);
    var es := EntriesIn(crc, full, RecsFor(msgs), written, position);
    forall i | 0 <= i < |msgs|
      ensures EntryHolds(written, es, position, i, base + i, stamp, msgs[i].epoch, Stamped(meta, msgs[i], i))
    {
      RecordMeaning(full, meta, msgs, base, stamp, i);
      assert EntryReads(written, es, position, i, full, RecsFor(msgs));
    }
  }

  lemma OneFraming(crc: Str -> BH.U32, h: BH.Header, recs: seq<BR.Rec>, written: Str)
    requires FramesAs(crc, h, recs, written)
    ensures forall bytes :: FramesAs(crc, h, recs, bytes) <==> bytes == written
  {
    forall bytes | FramesAs(crc, h, recs, bytes)
      ensures bytes == written
    {
      FramingUnique(crc, h, recs, bytes, written);
    }
  }

  /** Entry i of a block's framing, in the block's terms. */
  ghost predicate EntryReads(ms: Str, es: seq<Entry>, position: int, i: nat, h: BH.Header, recs: seq<BR.Rec>)
    requires i < |es| && i < |recs|
  {
    EntryHolds(ms, es, position, i, h.baseOffset + recs[i].offsetDelta, h.baseTimestamp, h.leaderEpoch,
               Synthesized(h, recs[i], i))
  }

  lemma EntriesIn(crc: Str -> BH.U32, h: BH.Header, recs: seq<BR.Rec>, ms: Str, position: int) returns (es: seq<Entry>)
    requires FramesAs(crc, h, recs, ms) && |ms| < TWO31
    ensures es == Entries(ms, position) && |es| == |recs|
    ensures forall i :: 0 <= i < |recs| ==> EntryReads(ms, es, position, i, h, recs)
  {
    var fs, keyss :| IsFraming(crc, h, recs, fs, keyss) && ms == FramesBytes(crc, fs);
    FramesReadable(crc, h, recs, fs, keyss);
    FramesTile(crc, fs, position);
    FramesPlaced(crc, fs, position);
    es := EntriesOf(fs, position);
    forall i | 0 <= i < |recs|
      ensures EntryReads(ms, es, position, i, h, recs)
    {
      EntryIn(crc, h, recs, fs, keyss, ms, es, position, i);
    }
  }

  lemma EntryIn(crc: Str -> BH.U32, h: BH.Header, recs: seq<BR.Rec>, fs: seq<Frame>, keyss: seq<seq<Str>>, ms: Str,
                es: seq<Entry>, position: int, i: nat)
    requires IsFraming(crc, h, recs, fs, keyss) && AllPlaced(ms, es, fs, position) && i < |recs|
    ensures EntryReads(ms, es, position, i, h, recs)
  {
    assert Placed(ms, es, fs, position, i);
    FrameMeaning(crc, h, recs, fs, keyss, i);
  }

  lemma FrameMeaning(crc: Str -> BH.U32, h: BH.Header, recs: seq<BR.Rec>, fs: seq<Frame>, keyss: seq<seq<Str>>, i: nat)
    requires IsFraming(crc, h, recs, fs, keyss) && i < |recs|
    ensures fs[i].offset == h.baseOffset + recs[i].offsetDelta && fs[i].timestamp == h.baseTimestamp &&
            fs[i].epoch == h.leaderEpoch
    ensures ReadV1(fs[i].payload) == Some(Synthesized(h, recs[i], i)) && |fs[i].payload| > 6
  {
    assert IsFrame(crc, h, recs[i], i, fs[i], keyss[i]);
    V1RoundTrip(crc, Synthesized(h, recs[i], i), keyss[i]);
  }

  /** Frames of fewer than 2^31 bytes in all can be told apart. */
  lemma FramesReadable(crc: Str -> BH.U32, h: BH.Header, recs: seq<BR.Rec>, fs: seq<Frame>, keyss: seq<seq<Str>>)
    requires IsFraming(crc, h, recs, fs, keyss) && |FramesBytes(crc, fs)| < TWO31
    ensures Framable(fs)
  {
    FramesPlaced(crc, fs, 0);
    forall i | 0 <= i < |fs|
      ensures Payload(fs[i])
    {
      assert Placed(FramesBytes(crc, fs), EntriesOf(fs, 0), fs, 0, i);
      FrameMeaning(crc, h, recs, fs, keyss, i);
    }
  }

  // ---- appending ----

  /** What the log stores of an accepted batch. */
  datatype Appended = Appended(block: Str, header: BH.Header, framing: Str)

  /** Field sizes the wire form takes for granted. */
  ghost predicate Sizes(m: Message) {
    && (m.key.Some? ==> |m.key.value| < TWO31) && (m.value.Some? ==> |m.value.value| < TWO31)
    && forall k :: k in m.headers ==> |m.headers[k]| < TWO31
  }

  /** The block of a batch, whatever form its payload took. */
  ghost predicate BlockOf(cs: V3.Codecs, meta: Meta, msgs: seq<Message>, codec: byte, base: BH.I64, stamp: BH.I64,
                          block: Str, full: BH.Header) {
    exists logical :: BatchBlock(cs, meta, msgs, codec, base, stamp, logical, block, full)
  }

  method EncodeBatch(cs: V3.Codecs, meta: Meta, msgs: seq<Message>, codec: byte, base: BH.I64, stamp: BH.I64)
    returns (block: Str, full: BH.Header)
    requires Uniform(msgs, stamp)
    ensures BlockOf(cs, meta, msgs, codec, base, stamp, block, full)
  {
    block, full := EncodeV3Block(cs, BatchHeader(meta, msgs, codec, base, stamp), RecsFor(msgs));
    ghost var logical :|
      IsV3Block(cs, BatchHeader(meta, msgs, codec, base, stamp), RecsFor(msgs), logical, block, full);
    assert BatchBlock(cs, meta, msgs, codec, base, stamp, logical, block, full);
  }

  /** A batch is stamped with its own time, or the clock's if it has none. */
  ghost predicate StampOf(msgs: seq<Message>, clock: BH.I64, stamp: BH.I64) {
    Uniform(msgs, stamp) && ((forall i :: 0 <= i < |msgs| ==> msgs[i].timestamp == 0) ==> stamp == clock)
  }

  /** Some message cannot be written in its wire form. */
  ghost predicate SomeRefused(meta: Meta, msgs: seq<Message>) {
    exists i :: 0 <= i < |msgs| && Refused(Stamped(meta, msgs[i], i))
  }

  /** Append a batch at the log's next offset. It is refused exactly when its messages
      disagree, use the identity's headers, or one of them could not be read back. */
  method AppendBatch(cs: V3.Codecs, crc: Str -> BH.U32, meta: Meta, msgs: seq<Message>, codec: byte, base: BH.I64,
                     clock: BH.I64)
    returns (r: Option<Appended>)
    requires Addressable(msgs, base)
    ensures r.None? <==> !Acceptable(msgs) || SomeRefused(meta, msgs)
    ensures r.Some? ==>
              exists stamp ::
                && StampOf(msgs, clock, stamp)
                && BlockOf(cs, meta, msgs, codec, base, stamp, r.value.block, r.value.header)
    ensures r.Some? ==> FramesAs(crc, r.value.header, RecsFor(msgs), r.value.framing)
  {
    var found := CheckBatch(msgs);
    if found.None? {
      return None;
    }
    var stamp := if found.value == 0 then clock else found.value;
    assert StampOf(msgs, clock, stamp);
    r := WriteBatch(cs, crc, meta, msgs, codec, base, stamp);
  }

  /** Offsets, deltas and field sizes within what the wire form takes for granted. */
  ghost predicate Addressable(msgs: seq<Message>, base: BH.I64) {
    base + |msgs| <= TWO63 && |msgs| <= BH.TWO32 && forall i :: 0 <= i < |msgs| ==> Sizes(msgs[i])
  }

  method WriteBatch(cs: V3.Codecs, crc: Str -> BH.U32, meta: Meta, msgs: seq<Message>, codec: byte, base: BH.I64,
                    stamp: BH.I64)
    returns (r: Option<Appended>)
    requires Addressable(msgs, base) && Uniform(msgs, stamp)
    ensures r.None? <==> SomeRefused(meta, msgs)
    ensures r.Some? ==> BlockOf(cs, meta, msgs, codec, base, stamp, r.value.block, r.value.header)
    ensures r.Some? ==> FramesAs(crc, r.value.header, RecsFor(msgs), r.value.framing)
  {
    var block, full := EncodeBatch(cs, meta, msgs, codec, base, stamp);
    BatchReady(cs, meta, msgs, codec, base, stamp, block, full);
    var framing := SynthesizeFraming(crc, full, RecsFor(msgs));
    if framing.Some? {
      return Some(Appended(block, full, framing.value));
    }
    return None;
  }

  lemma BatchReady(cs: V3.Codecs, meta: Meta, msgs: seq<Message>, codec: byte, base: BH.I64, stamp: BH.I64,
                   block: Str, full: BH.Header)
    requires BlockOf(cs, meta, msgs, codec, base, stamp, block, full)
    requires Addressable(msgs, base)
    ensures forall i :: 0 <= i < |msgs| ==>
              Sized(RecsFor(msgs)[i]) && full.baseOffset + RecsFor(msgs)[i].offsetDelta < TWO63
    ensures SomeUnframed(full, RecsFor(msgs)) <==> SomeRefused(meta, msgs)
  {
    var logical :| BatchBlock(cs, meta, msgs, codec, base, stamp, logical, block, full);
    BatchHeaded(cs, meta, msgs, codec, base, stamp, logical, block, full);
    forall i | 0 <= i < |msgs|
      ensures Sized(RecsFor(msgs)[i]) && full.baseOffset + RecsFor(msgs)[i].offsetDelta < TWO63
      ensures Unframed(full, RecsFor(msgs)[i], i) <==> Refused(Stamped(meta, msgs[i], i))
    {
      RecordMeaning(full, meta, msgs, base, stamp, i);
      assert Sizes(msgs[i]);
    }
  }
}
