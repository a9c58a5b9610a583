/** Whole version-3 blocks: header and payload. */
module BlocksV3 {
  import opened Bytes
  import opened Varints
  import opened BlockRecords
  import opened BlockCursors
  import BH = BlockHeaders

  type Header = BH.Header

  /** Compression, by codec; codec 0 stores bytes as they are. */
  datatype Codecs = Codecs(env: BH.Env, compress: (byte, Str) -> Str, decompress: (byte, Str) -> Option<Str>)

  /** Decompressing undoes compressing. */
  ghost predicate Faithful(cs: Codecs) {
    && cs.env.valid(0)
    && forall c, b :: cs.env.valid(c) && c != 0 ==> cs.decompress(c, cs.compress(c, b)) == Some(b)
  }

  function U32(n: nat): BH.U32 {
    n % TWO32
  }

  // ---- the written form ----

  /** The payload, compressed when that makes it shorter, and the codec it ended up in. */
  function Packed(cs: Codecs, codec: byte, logical: Str): (byte, Str) {
    if codec != 0 && |cs.compress(codec, logical)| < |logical| then (codec, cs.compress(codec, logical))
    else (0, logical)
  }

  /** The header with what the payload decides filled in. */
  function Filled(cs: Codecs, h: Header, logical: Str, n: nat, lastDelta: nat): Header {
    var (codec, payload) := Packed(cs, h.codec, logical);
    h.(codec := codec, records := U32(n), lastOffsetDelta := U32(lastDelta), uncompressedLen := U32(|logical|),
       compressedLen := U32(|payload|), payloadCRC := cs.env.crc(payload))
  }

  function BlockBytes(cs: Codecs, h: Header, logical: Str, n: nat, lastDelta: nat): Str {
    BH.EncodeHeader(cs.env, Filled(cs, h, logical, n, lastDelta)) + Packed(cs, h.codec, logical).1
  }

  /** A block of these records around their payload form. */
  ghost predicate IsBlock(cs: Codecs, h: Header, recs: seq<Rec>, logical: Str, block: Str) {
    recs != [] && Encodes(recs, logical) && block == BlockBytes(cs, h, logical, |recs|, recs[|recs| - 1].offsetDelta)
  }

  method EncodeBlock(cs: Codecs, h: Header, recs: seq<Rec>) returns (r: Option<Str>)
    requires forall i :: 0 <= i < |recs| ==> recs[i].offsetDelta < TWO32
    ensures r.None? <==> recs == []
    ensures r.Some? ==> exists logical :: IsBlock(cs, h, recs, logical, r.value)
  {
    if |recs| == 0 {
      return None;
    }
    var logical := EncodeRecords([], recs);
    assert logical[0..] == logical;
    var block := Assemble(cs, h, logical, |recs|, recs[|recs| - 1].offsetDelta);
    assert IsBlock(cs, h, recs, logical, block);
    r := Some(block);
  }

  method Assemble(cs: Codecs, h: Header, logical: Str, n: nat, lastDelta: nat) returns (r: Str)
    ensures r == BlockBytes(cs, h, logical, n, lastDelta)
  {
    var payload, codec := logical, h.codec;
    if h.codec != 0 {
      var c := cs.compress(h.codec, logical);
      if |c| < |logical| {
        payload := c;
      } else {
        codec := 0;
      }
    }
    var full := h.(codec := codec, records := U32(n), lastOffsetDelta := U32(lastDelta),
                   uncompressedLen := U32(|logical|), compressedLen := U32(|payload|),
                   payloadCRC := cs.env.crc(payload));
    r := BH.EncodeHeader(cs.env, full) + payload;
  }

  // ---- reading ----

  /** A block that is exactly its header and the payload the header describes. */
  function VerifyPayload(cs: Codecs, b: Str): (r: BH.Result<Header>)
    ensures r.Ok? ==> |b| >= BH.HEADER_LEN
  {
    var r := BH.DecodeHeader(cs.env, b);
    if !r.Ok? then r
    else if |b| != BH.HEADER_LEN + r.value.compressedLen then BH.Corrupt
    else if cs.env.crc(b[BH.HEADER_LEN..]) != r.value.payloadCRC then BH.Corrupt
    else r
  }

  function Unpacked(cs: Codecs, codec: byte, payload: Str): Option<Str> {
    if codec == 0 then Some(payload) else cs.decompress(codec, payload)
  }

  /** The records of a stored payload, as many and as long as the header says. */
  function Opened(cs: Codecs, h: Header, stored: Str): Option<seq<Rec>> {
    var payload := Unpacked(cs, h.codec, stored);
    if payload.None? || |payload.value| != h.uncompressedLen then None else
      Checked(h, ReadRecs(payload.value, h.records))
  }

  /** The payload's last offset delta must be the header's. */
  function Checked(h: Header, recs: Option<seq<Rec>>): Option<seq<Rec>> {
    if recs.None? || recs.value == [] || recs.value[|recs.value| - 1].offsetDelta != h.lastOffsetDelta then None
    else recs
  }

  function ReadBlock(cs: Codecs, b: Str): BH.Result<(Header, seq<Rec>)> {
    match VerifyPayload(cs, b)
    case NotVersion3 => BH.NotVersion3
    case Corrupt => BH.Corrupt
    case Ok(h) =>
      var recs := Opened(cs, h, b[BH.HEADER_LEN..]);
      if recs.None? then BH.Corrupt else BH.Ok((h, recs.value))
  }

  method Open(cs: Codecs, h: Header, stored: Str) returns (r: Option<seq<Rec>>)
    ensures r == Opened(cs, h, stored)
  {
    var payload := Some(stored);
    if h.codec != 0 {
      payload := cs.decompress(h.codec, stored);
    }
    if payload.None? || |payload.value| != h.uncompressedLen {
      return None;
    }
    var recs := DecodeRecords(payload.value, h.records);
    r := Checked(h, recs);
  }

  method DecodeBlock(cs: Codecs, b: Str) returns (r: BH.Result<(Header, seq<Rec>)>)
    ensures r == ReadBlock(cs, b)
  {
    var v := VerifyPayload(cs, b);
    if v.NotVersion3? {
      return BH.NotVersion3;
    }
    if v.Corrupt? {
      return BH.Corrupt;
    }
    var recs := Open(cs, v.value, b[BH.HEADER_LEN..]);
    r := if recs.None? then BH.Corrupt else BH.Ok((v.value, recs.value));
  }

  // ---- reading undoes writing ----

  lemma PackedRoundTrip(cs: Codecs, codec: byte, logical: Str)
    requires Faithful(cs) && cs.env.valid(codec)
    ensures var (c, payload) := Packed(cs, codec, logical);
            cs.env.valid(c) && |payload| <= |logical| && Unpacked(cs, c, payload) == Some(logical)
  {
  }

  lemma Verified(cs: Codecs, h: Header, payload: Str)
    requires cs.env.valid(h.codec) && h.records != 0 && h.compressedLen == |payload| &&
             h.payloadCRC == cs.env.crc(payload)
    ensures var b := BH.EncodeHeader(cs.env, h) + payload;
            |b| == BH.HEADER_LEN + |payload| && b[BH.HEADER_LEN..] == payload && VerifyPayload(cs, b) == BH.Ok(h)
  {
    BH.HeaderRoundTrip(cs.env, h, payload);
  }

  /** A block of records whose payload fits 32 bits, written as the encoder writes it,
      decodes to those records, under the header given with the payload's own fields
      filled in. */
  lemma BlockRoundTrip(cs: Codecs, h: Header, recs: seq<Rec>, logical: Str, block: Str)
    requires Faithful(cs) && cs.env.valid(h.codec) && IsBlock(cs, h, recs, logical, block) && |logical| < TWO32
    ensures ReadBlock(cs, block) == BH.Ok((Filled(cs, h, logical, |recs|, recs[|recs| - 1].offsetDelta), recs))
  {
    EncodesReads(recs, logical);
    FilledRoundTrip(cs, h, logical, recs);
  }

  lemma FilledRoundTrip(cs: Codecs, h: Header, logical: Str, recs: seq<Rec>)
    requires Faithful(cs) && cs.env.valid(h.codec) && |logical| < TWO32
    requires 0 < |recs| < TWO32 && ReadRecs(logical, |recs|) == Some(recs) && recs[|recs| - 1].offsetDelta < TWO32
    ensures var last := recs[|recs| - 1].offsetDelta;
            ReadBlock(cs, BlockBytes(cs, h, logical, |recs|, last)) ==
            BH.Ok((Filled(cs, h, logical, |recs|, last), recs))
  {
    var last := recs[|recs| - 1].offsetDelta;
    var full, stored := Filled(cs, h, logical, |recs|, last), Packed(cs, h.codec, logical).1;
    PackedRoundTrip(cs, h.codec, logical);
    FilledFields(cs, h, logical, |recs|, last);
    Verified(cs, full, stored);
    OpenedRoundTrip(cs, full, stored, logical, recs);
    ReadVerified(cs, full, stored, recs);
  }

  lemma FilledFields(cs: Codecs, h: Header, logical: Str, n: nat, last: nat)
    requires |logical| < TWO32 && n < TWO32 && last < TWO32 && |Packed(cs, h.codec, logical).1| <= |logical|
    ensures var full := Filled(cs, h, logical, n, last);
            var (codec, stored) := Packed(cs, h.codec, logical);
            && full.codec == codec && full.records == n && full.lastOffsetDelta == last
            && full.uncompressedLen == |logical| && full.compressedLen == |stored| &&
               full.payloadCRC == cs.env.crc(stored)
  {
  }

  lemma OpenedRoundTrip(cs: Codecs, h: Header, stored: Str, logical: Str, recs: seq<Rec>)
    requires Unpacked(cs, h.codec, stored) == Some(logical) && h.uncompressedLen == |logical| && h.records == |recs|
    requires recs != [] && ReadRecs(logical, |recs|) == Some(recs) && h.lastOffsetDelta == recs[|recs| - 1].offsetDelta
    ensures Opened(cs, h, stored) == Some(recs)
  {
    OpenedIs(cs, h, stored, logical);
    CheckedIs(h, ReadRecs(logical, |recs|), recs);
  }

  lemma OpenedIs(cs: Codecs, h: Header, stored: Str, logical: Str)
    requires Unpacked(cs, h.codec, stored) == Some(logical) && h.uncompressedLen == |logical|
    ensures Opened(cs, h, stored) == Checked(h, ReadRecs(logical, h.records))
  {
  }

  lemma CheckedIs(h: Header, read: Option<seq<Rec>>, recs: seq<Rec>)
    requires read == Some(recs) && recs != [] && h.lastOffsetDelta == recs[|recs| - 1].offsetDelta
    ensures Checked(h, read) == Some(recs)
  {
  }

  lemma ReadVerified(cs: Codecs, h: Header, stored: Str, recs: seq<Rec>)
    requires var b := BH.EncodeHeader(cs.env, h) + stored;
             |b| >= BH.HEADER_LEN && b[BH.HEADER_LEN..] == stored && VerifyPayload(cs, b) == BH.Ok(h)
    requires Opened(cs, h, stored) == Some(recs)
    ensures ReadBlock(cs, BH.EncodeHeader(cs.env, h) + stored) == BH.Ok((h, recs))
  {
  }
}
