/** The fixed header of a version-3 block, and the edits made to it in place. */
module BlockHeaders {
  import opened Bytes
  import opened Varints

  const TWO32: int := 0x1_0000_0000
  const TWO31: int := 0x8000_0000
  const MAGIC: byte := 0xC1
  const VERSION: byte := 3
  const HEADER_LEN := 76

  type U64 = x: int | 0 <= x < TWO64
  type I64 = x: int | -TWO63 <= x < TWO63
  type U32 = x: int | 0 <= x < TWO32
  type I32 = x: int | -TWO31 <= x < TWO31

  datatype Header = Header(
    codec: byte, flags: byte,
    baseOffset: I64, leaderEpoch: U64, baseTimestamp: I64,
    producerID: I64, producerEpoch: I32, baseSequence: I32, txNonce: U64,
    records: U32, lastOffsetDelta: U32, uncompressedLen: U32, compressedLen: U32, payloadCRC: U32)

  /** What the header code is given: the checksum and which codecs exist. */
  datatype Env = Env(crc: Str -> U32, valid: byte -> bool)

  datatype Result<T> = Ok(value: T) | NotVersion3 | Corrupt

  // ---- big-endian integers ----

  function Pow(w: nat): nat {
    if w == 0 then 1 else 256 * Pow(w - 1)
  }

  function Be(v: nat, w: nat): (r: Str)
    ensures |r| == w
  {
    if w == 0 then [] else Be(v / 256, w - 1) + [(v % 256) as byte]
  }

  function Unbe(b: Str): nat {
    if b == [] then 0 else 256 * Unbe(b[..|b| - 1]) + b[|b| - 1] as nat
  }

  lemma {:induction false} BeInverse(v: nat, w: nat)
    requires v < Pow(w)
    ensures Unbe(Be(v, w)) == v
  {
    if w > 0 {
      BeInverse(v / 256, w - 1);
      assert Be(v, w)[..w - 1] == Be(v / 256, w - 1);
    }
  }

  lemma {:induction false} UnbeInverse(b: Str)
    ensures Be(Unbe(b), |b|) == b && Unbe(b) < Pow(|b|)
  {
    if b != [] {
      UnbeInverse(b[..|b| - 1]);
    }
  }

  lemma Powers()
    ensures Pow(4) == TWO32 && Pow(8) == TWO64
  {
    assert Pow(2) == 65536;
    assert Pow(4) == 65536 * 65536;
    assert Pow(6) == 65536 * 65536 * 65536;
    assert Pow(8) == 65536 * 65536 * 65536 * 65536;
  }

  /** Two's complement. */
  function ToU64(x: I64): U64 { if x < 0 then x + TWO64 else x }

  function ToI64(u: U64): I64 { if u >= TWO63 then u - TWO64 else u }

  function ToU32(x: I32): U32 { if x < 0 then x + TWO32 else x }

  function ToI32(u: U32): I32 { if u >= TWO31 then u - TWO32 else u }

  /** The field of w bytes at an offset. */
  function Field(b: Str, at: nat, w: nat): nat
    requires at + w <= |b|
  {
    Unbe(b[at..at + w])
  }

  function F8(b: Str, at: nat): U64
    requires at + 8 <= |b|
  {
    UnbeInverse(b[at..at + 8]);
    Powers();
    Field(b, at, 8)
  }

  function F4(b: Str, at: nat): U32
    requires at + 4 <= |b|
  {
    UnbeInverse(b[at..at + 4]);
    Powers();
    Field(b, at, 4)
  }

  // ---- decoding ----

  function Fields(b: Str): Header
    requires |b| >= HEADER_LEN
  {
    Header(b[2], b[3], ToI64(F8(b, 4)), F8(b, 12), ToI64(F8(b, 20)),
           ToI64(F8(b, 28)), ToI32(F4(b, 36)), ToI32(F4(b, 40)), F8(b, 44),
           F4(b, 52), F4(b, 56), F4(b, 60), F4(b, 64), F4(b, 68))
  }

  predicate Sealed(env: Env, b: Str)
    requires |b| >= HEADER_LEN
  {
    F4(b, 72) == env.crc(b[..72])
  }

  function DecodeHeader(env: Env, b: Str): (r: Result<Header>)
    ensures r.Ok? ==> |b| >= HEADER_LEN && r.value == Fields(b)
  {
    if |b| < HEADER_LEN then Corrupt
    else if b[0] != MAGIC then NotVersion3
    else if b[1] != VERSION then NotVersion3
    else if !Sealed(env, b) then Corrupt
    else if !env.valid(b[2]) then Corrupt
    else if Fields(b).records == 0 then Corrupt
    else Ok(Fields(b))
  }

  // ---- a header's bytes and its fields determine each other ----

  lemma SameField(b: Str, c: Str, at: nat, w: nat)
    requires at + w <= |b| && at + w <= |c|
    ensures Field(b, at, w) == Field(c, at, w) <==> b[at..at + w] == c[at..at + w]
  {
    UnbeInverse(b[at..at + w]);
    UnbeInverse(c[at..at + w]);
  }

  ghost predicate Agree(b: Str, c: Str, lo: nat, hi: nat) {
    hi <= |b| && hi <= |c| && forall k :: lo <= k < hi ==> b[k] == c[k]
  }

  lemma AgreeField(b: Str, c: Str, at: nat, w: nat)
    requires at + w <= |b| && at + w <= |c|
    ensures Agree(b, c, at, at + w) <==> Field(b, at, w) == Field(c, at, w)
  {
    SameField(b, c, at, w);
    if b[at..at + w] == c[at..at + w] {
      forall k | at <= k < at + w
        ensures b[k] == c[k]
      {
        assert b[k] == b[at..at + w][k - at] && c[k] == c[at..at + w][k - at];
      }
    }
  }

  lemma SignedSame(a: U64, b: U64, c: U32, d: U32)
    ensures ToI64(a) == ToI64(b) <==> a == b
    ensures ToI32(c) == ToI32(d) <==> c == d
  {
  }

  /** Equal fields are equal bytes, from the third to the checksum. */
  lemma FieldsExact(b: Str, c: Str)
    requires |b| >= HEADER_LEN && |c| >= HEADER_LEN
    ensures Fields(b) == Fields(c) <==> Agree(b, c, 2, 72)
  {
    AgreeField(b, c, 4, 8);
    AgreeField(b, c, 12, 8);
    AgreeField(b, c, 20, 8);
    AgreeField(b, c, 28, 8);
    AgreeField(b, c, 36, 4);
    AgreeField(b, c, 40, 4);
    AgreeField(b, c, 44, 8);
    AgreeField(b, c, 52, 4);
    AgreeField(b, c, 56, 4);
    AgreeField(b, c, 60, 4);
    AgreeField(b, c, 64, 4);
    AgreeField(b, c, 68, 4);
    SignedSame(F8(b, 4), F8(c, 4), F4(b, 36), F4(c, 36));
    SignedSame(F8(b, 20), F8(c, 20), F4(b, 40), F4(c, 40));
    SignedSame(F8(b, 28), F8(c, 28), 0, 0);
  }

  /** Two blocks that decode to the same header have the same header bytes. */
  lemma HeaderInjective(env: Env, b: Str, c: Str)
    requires DecodeHeader(env, b).Ok? && DecodeHeader(env, b) == DecodeHeader(env, c)
    ensures b[..HEADER_LEN] == c[..HEADER_LEN]
  {
    FieldsExact(b, c);
    assert b[..72] == c[..72];
    AgreeField(b, c, 72, 4);
  }

  // ---- writing in place ----

  ghost predicate SameBut(b: Str, c: Str, lo: nat, hi: nat) {
    |b| == |c| && hi <= |b| && forall k :: 0 <= k < |b| && (k < lo || hi <= k) ==> b[k] == c[k]
  }

  method PutBytes(a: array<byte>, at: nat, v: nat, w: nat)
    requires at + w <= a.Length
    modifies a
    ensures forall k :: 0 <= k < a.Length && (k < at || at + w <= k) ==> a[k] == old(a[k])
    ensures a[at..at + w] == Be(v, w)
  {
    var i, rest := w, v;
    while i > 0
      invariant 0 <= i <= w
      invariant forall k :: 0 <= k < a.Length && (k < at + i || at + w <= k) ==> a[k] == old(a[k])
      invariant Be(v, w) == Be(rest, i) + a[at + i..at + w]
    {
      i := i - 1;
      ghost var tail := a[at + i + 1..at + w];
      a[at + i] := (rest % 256) as byte;
      assert a[at + i..at + w] == [a[at + i]] + tail;
      rest := rest / 256;
    }
  }

  method PutUint(a: array<byte>, at: nat, v: nat, w: nat)
    requires at + w <= a.Length && v < Pow(w)
    modifies a
    ensures SameBut(old(a[..]), a[..], at, at + w) && Field(a[..], at, w) == v
  {
    PutBytes(a, at, v, w);
    assert a[..][at..at + w] == a[at..at + w];
    BeInverse(v, w);
  }

  /** Reseal the checksum over the header's other bytes. */
  method Seal(env: Env, a: array<byte>)
    requires a.Length >= HEADER_LEN
    modifies a
    ensures SameBut(old(a[..]), a[..], 72, 76) && Sealed(env, a[..])
  {
    Powers();
    var crc := env.crc(a[..72]);
    PutUint(a, 72, crc, 4);
    assert a[..][..72] == old(a[..72]);
  }

  // ---- writing from scratch ----

  function Put8(b: Str, v: U64): Str { b + Be(v, 8) }

  function Put4(b: Str, v: U32): Str { b + Be(v, 4) }

  function Start(h: Header): Str { [MAGIC, VERSION, h.codec, h.flags] }

  function Offsets(h: Header): Str {
    Put8(Put8(Put8(Start(h), ToU64(h.baseOffset)), h.leaderEpoch), ToU64(h.baseTimestamp))
  }

  function Identity(h: Header): Str {
    Put8(Put4(Put4(Put8(Offsets(h), ToU64(h.producerID)), ToU32(h.producerEpoch)), ToU32(h.baseSequence)), h.txNonce)
  }

  function Sizes(h: Header): Str {
    Put4(Put4(Put4(Put4(Put4(Identity(h), h.records), h.lastOffsetDelta), h.uncompressedLen), h.compressedLen),
         h.payloadCRC)
  }

  function EncodeHeader(env: Env, h: Header): Str {
    Put4(Sizes(h), env.crc(Sizes(h)))
  }

  ghost predicate Begins(p: Str, b: Str) {
    |p| <= |b| && b[..|p|] == p
  }

  lemma Put8At(p: Str, v: U64, b: Str)
    requires Begins(Put8(p, v), b)
    ensures Begins(p, b) && |p| + 8 <= |b| && F8(b, |p|) == v
  {
    Powers();
    BeInverse(v, 8);
    assert b[..|p|] == Put8(p, v)[..|p|] == p;
    assert b[|p|..|p| + 8] == Put8(p, v)[|p|..] == Be(v, 8);
  }

  lemma Put4At(p: Str, v: U32, b: Str)
    requires Begins(Put4(p, v), b)
    ensures Begins(p, b) && |p| + 4 <= |b| && F4(b, |p|) == v
  {
    Powers();
    BeInverse(v, 4);
    assert b[..|p|] == Put4(p, v)[..|p|] == p;
    assert b[|p|..|p| + 4] == Put4(p, v)[|p|..] == Be(v, 4);
  }

  lemma OffsetsRead(h: Header, b: Str)
    requires Begins(Offsets(h), b)
    ensures Begins(Start(h), b) && |b| >= 28
    ensures F8(b, 4) == ToU64(h.baseOffset) && F8(b, 12) == h.leaderEpoch && F8(b, 20) == ToU64(h.baseTimestamp)
  {
    var p0 := Start(h);
    var p1 := Put8(p0, ToU64(h.baseOffset));
    var p2 := Put8(p1, h.leaderEpoch);
    Put8At(p2, ToU64(h.baseTimestamp), b);
    Put8At(p1, h.leaderEpoch, b);
    Put8At(p0, ToU64(h.baseOffset), b);
  }

  lemma IdentityRead(h: Header, b: Str)
    requires Begins(Identity(h), b)
    ensures Begins(Offsets(h), b) && |b| >= 52
    ensures F8(b, 28) == ToU64(h.producerID) && F4(b, 36) == ToU32(h.producerEpoch)
    ensures F4(b, 40) == ToU32(h.baseSequence) && F8(b, 44) == h.txNonce
  {
    var p0 := Offsets(h);
    var p1 := Put8(p0, ToU64(h.producerID));
    var p2 := Put4(p1, ToU32(h.producerEpoch));
    var p3 := Put4(p2, ToU32(h.baseSequence));
    Put8At(p3, h.txNonce, b);
    Put4At(p2, ToU32(h.baseSequence), b);
    Put4At(p1, ToU32(h.producerEpoch), b);
    Put8At(p0, ToU64(h.producerID), b);
  }

  lemma SizesRead(h: Header, b: Str)
    requires Begins(Sizes(h), b)
    ensures Begins(Identity(h), b) && |b| >= 72
    ensures F4(b, 52) == h.records && F4(b, 56) == h.lastOffsetDelta && F4(b, 60) == h.uncompressedLen
    ensures F4(b, 64) == h.compressedLen && F4(b, 68) == h.payloadCRC
  {
    var p0 := Identity(h);
    var p1 := Put4(p0, h.records);
    var p2 := Put4(p1, h.lastOffsetDelta);
    var p3 := Put4(p2, h.uncompressedLen);
    var p4 := Put4(p3, h.compressedLen);
    Put4At(p4, h.payloadCRC, b);
    Put4At(p3, h.compressedLen, b);
    Put4At(p2, h.uncompressedLen, b);
    Put4At(p1, h.lastOffsetDelta, b);
    Put4At(p0, h.records, b);
  }

  /** A header reads back as itself, whatever payload follows. */
  lemma HeaderRoundTrip(env: Env, h: Header, rest: Str)
    requires env.valid(h.codec) && h.records != 0
    ensures |EncodeHeader(env, h)| == HEADER_LEN
    ensures DecodeHeader(env, EncodeHeader(env, h) + rest) == Ok(h)
  {
    var b := EncodeHeader(env, h) + rest;
    assert b[..76] == EncodeHeader(env, h);
    Put4At(Sizes(h), env.crc(Sizes(h)), b);
    SizesRead(h, b);
    IdentityRead(h, b);
    OffsetsRead(h, b);
    assert b[0] == b[..4][0] && b[1] == b[..4][1] && b[2] == b[..4][2] && b[3] == b[..4][3];
    assert |Sizes(h)| == 72;
  }

  // ---- the edits ----

  /** Fields away from an edit keep their values. */
  lemma Rewritten(b: Str, c: Str, x: I64, y: U64, z: I64)
    requires |b| >= HEADER_LEN && |c| >= HEADER_LEN && Agree(b, c, 2, 4) && Agree(b, c, 28, 72)
    requires F8(c, 4) == ToU64(x) && F8(c, 12) == y && F8(c, 20) == ToU64(z)
    ensures Fields(c) == Fields(b).(baseOffset := x, leaderEpoch := y, baseTimestamp := z)
  {
    AgreeField(b, c, 28, 8);
    AgreeField(b, c, 36, 4);
    AgreeField(b, c, 40, 4);
    AgreeField(b, c, 44, 8);
    TailFields(b, c);
  }

  lemma TailFields(b: Str, c: Str)
    requires |b| >= HEADER_LEN && |c| >= HEADER_LEN && Agree(b, c, 52, 72)
    ensures F4(b, 52) == F4(c, 52) && F4(b, 56) == F4(c, 56) && F4(b, 60) == F4(c, 60)
    ensures F4(b, 64) == F4(c, 64) && F4(b, 68) == F4(c, 68)
  {
    AgreeField(b, c, 52, 4);
    AgreeField(b, c, 56, 4);
    AgreeField(b, c, 60, 4);
    AgreeField(b, c, 64, 4);
    AgreeField(b, c, 68, 4);
  }

  lemma Reidentified(b: Str, c: Str, flags: byte, id: I64, epoch: I32, sequence: I32, nonce: U64)
    requires |b| >= HEADER_LEN && |c| >= HEADER_LEN && b[2] == c[2] && Agree(b, c, 4, 28) && Agree(b, c, 52, 72)
    requires c[3] == flags && F8(c, 28) == ToU64(id) && F4(c, 36) == ToU32(epoch) && F4(c, 40) == ToU32(sequence) &&
             F8(c, 44) == nonce
    ensures Fields(c) == Fields(b).(flags := flags, producerID := id, producerEpoch := epoch,
                                    baseSequence := sequence, txNonce := nonce)
  {
    AgreeField(b, c, 4, 8);
    AgreeField(b, c, 12, 8);
    AgreeField(b, c, 20, 8);
    TailFields(b, c);
  }

  /** A resealed header decodes to its fields. */
  lemma Resealed(env: Env, b: Str, c: Str)
    requires SameBut(b, c, 72, 76) && Sealed(env, c) && |b| >= HEADER_LEN
    ensures Fields(c) == Fields(b)
    ensures b[0] == MAGIC && b[1] == VERSION && env.valid(b[2]) && Fields(b).records != 0 ==>
              DecodeHeader(env, c) == Ok(Fields(b))
  {
    FieldsExact(b, c);
  }

  /** The three fields the appending log owns, and no others, take new values; a block
      whose header does not decode is refused and left as it is. */
  method Rewrite(env: Env, a: array<byte>, baseOffset: I64, leaderEpoch: U64, baseTimestamp: I64) returns (ok: bool)
    modifies a
    ensures ok <==> old(DecodeHeader(env, a[..]).Ok?)
    ensures !ok ==> a[..] == old(a[..])
    ensures ok ==> DecodeHeader(env, a[..]) ==
                     Ok(old(Fields(a[..])).(baseOffset := baseOffset, leaderEpoch := leaderEpoch,
                                            baseTimestamp := baseTimestamp))
    ensures ok ==> a[HEADER_LEN..] == old(a[HEADER_LEN..])
  {
    ok := DecodeHeader(env, a[..]).Ok?;
    if !ok {
      return;
    }
    Powers();
    PutOffsets(a, baseOffset, leaderEpoch, baseTimestamp);
    ghost var c := a[..];
    Rewritten(old(a[..]), c, baseOffset, leaderEpoch, baseTimestamp);
    Seal(env, a);
    Resealed(env, c, a[..]);
  }

  method PutOffsets(a: array<byte>, baseOffset: I64, leaderEpoch: U64, baseTimestamp: I64)
    requires a.Length >= HEADER_LEN
    modifies a
    ensures SameBut(old(a[..]), a[..], 4, 28)
    ensures F8(a[..], 4) == ToU64(baseOffset) && F8(a[..], 12) == leaderEpoch && F8(a[..], 20) == ToU64(baseTimestamp)
  {
    Powers();
    PutUint(a, 4, ToU64(baseOffset), 8);
    ghost var b1 := a[..];
    PutUint(a, 12, leaderEpoch, 8);
    ghost var b2 := a[..];
    PutUint(a, 20, ToU64(baseTimestamp), 8);
    AgreeField(b1, a[..], 4, 8);
    AgreeField(b2, a[..], 12, 8);
  }

  // ---- flags ----

  predicate Transactional(f: byte) { f as int / 2 % 2 == 1 }

  predicate Stripped(f: byte) { f as int / 4 % 2 == 1 }

  /** The flags with the transactional and stripped bits set as given. */
  function WithFlags(f: byte, tx: bool, stripped: bool): byte {
    var cleared := f as int - (if Transactional(f) then 2 else 0) - (if Stripped(f) then 4 else 0);
    (cleared + (if tx then 2 else 0) + (if stripped then 4 else 0)) as byte
  }

  lemma Bits(q: int, s: int, t: int, c: int)
    requires 0 <= s <= 1 && 0 <= t <= 1 && 0 <= c <= 1
    ensures (8 * q + 4 * s + 2 * t + c) / 2 % 2 == t && (8 * q + 4 * s + 2 * t + c) / 4 % 2 == s
  {
    assert (8 * q + 4 * s + 2 * t + c) / 2 == 4 * q + 2 * s + t;
    assert (8 * q + 4 * s + 2 * t + c) / 4 == 2 * q + s;
  }

  /** Setting the two bits sets them, and changes nothing else. */
  lemma FlagsExact(f: byte, tx: bool, stripped: bool)
    ensures Transactional(WithFlags(f, tx, stripped)) == tx && Stripped(WithFlags(f, tx, stripped)) == stripped
    ensures WithFlags(f, tx, stripped) == f <==> Transactional(f) == tx && Stripped(f) == stripped
  {
    var n := f as int;
    var q, s, t, c := n / 8, n / 4 % 2, n / 2 % 2, n % 2;
    assert n == 8 * q + 4 * s + 2 * t + c;
    Bits(q, if stripped then 1 else 0, if tx then 1 else 0, c);
  }

  lemma FlagsTwice(f: byte, t: bool, s: bool, tx: bool, stripped: bool)
    ensures WithFlags(WithFlags(f, t, s), tx, stripped) == WithFlags(f, tx, stripped)
  {
    FlagsExact(f, t, s);
  }

  /** A header given a producer's identity. */
  function Restamped(h: Header, id: I64, epoch: I32, sequence: I32, nonce: U64): Header {
    h.(flags := WithFlags(h.flags, nonce != 0, false), producerID := id, producerEpoch := epoch,
       baseSequence := sequence, txNonce := nonce)
  }

  /** A header without one. */
  function StrippedOf(h: Header): Header {
    h.(flags := WithFlags(h.flags, false, true), producerID := 0, producerEpoch := 0, baseSequence := 0, txNonce := 0)
  }

  method PutIdentity(a: array<byte>, flags: byte, id: I64, epoch: I32, sequence: I32, nonce: U64)
    requires a.Length >= HEADER_LEN
    modifies a
    ensures a.Length == |old(a[..])| && Agree(old(a[..]), a[..], 0, 3) && Agree(old(a[..]), a[..], 4, 28)
    ensures a[3] == flags && Agree(old(a[..]), a[..], 52, a.Length)
    ensures F8(a[..], 28) == ToU64(id) && F4(a[..], 36) == ToU32(epoch) && F4(a[..], 40) == ToU32(sequence) &&
            F8(a[..], 44) == nonce
  {
    Powers();
    PutUint(a, 28, ToU64(id), 8);
    ghost var b1 := a[..];
    PutUint(a, 36, ToU32(epoch), 4);
    ghost var b2 := a[..];
    PutUint(a, 40, ToU32(sequence), 4);
    ghost var b3 := a[..];
    PutUint(a, 44, nonce, 8);
    ghost var b4 := a[..];
    a[3] := flags;
    AgreeField(b1, a[..], 28, 8);
    AgreeField(b2, a[..], 36, 4);
    AgreeField(b3, a[..], 40, 4);
    AgreeField(b4, a[..], 44, 8);
  }

  /** Give the block a producer's identity: transactional exactly when the nonce is not
      zero, and no longer stripped. */
  method Restamp(env: Env, a: array<byte>, id: I64, epoch: I32, sequence: I32, nonce: U64) returns (ok: bool)
    modifies a
    ensures ok <==> old(DecodeHeader(env, a[..]).Ok?)
    ensures !ok ==> a[..] == old(a[..])
    ensures ok ==> DecodeHeader(env, a[..]) == Ok(Restamped(old(Fields(a[..])), id, epoch, sequence, nonce))
    ensures ok ==> a[HEADER_LEN..] == old(a[HEADER_LEN..])
  {
    ok := DecodeHeader(env, a[..]).Ok?;
    if !ok {
      return;
    }
    var flags := WithFlags(a[3], nonce != 0, false);
    PutIdentity(a, flags, id, epoch, sequence, nonce);
    ghost var c := a[..];
    Reidentified(old(a[..]), c, flags, id, epoch, sequence, nonce);
    Seal(env, a);
    Resealed(env, c, a[..]);
  }

  /** Remove the block's producer identity. */
  method Strip(env: Env, a: array<byte>) returns (ok: bool)
    modifies a
    ensures ok <==> old(DecodeHeader(env, a[..]).Ok?)
    ensures !ok ==> a[..] == old(a[..])
    ensures ok ==> DecodeHeader(env, a[..]) == Ok(StrippedOf(old(Fields(a[..]))))
    ensures ok ==> a[HEADER_LEN..] == old(a[HEADER_LEN..])
  {
    ok := DecodeHeader(env, a[..]).Ok?;
    if !ok {
      return;
    }
    var flags := WithFlags(a[3], false, true);
    PutIdentity(a, flags, 0, 0, 0, 0);
    ghost var c := a[..];
    Reidentified(old(a[..]), c, flags, 0, 0, 0, 0);
    Seal(env, a);
    Resealed(env, c, a[..]);
  }

  /** Restamping a stripped block with the identity it had gives back its bytes if and
      only if it was not stripped before and was marked transactional exactly when it
      had a nonce. */
  lemma RestampUndoesStrip(env: Env, block: Str, back: Str)
    requires DecodeHeader(env, block).Ok? && DecodeHeader(env, back).Ok? && back[HEADER_LEN..] == block[HEADER_LEN..]
    requires var h := Fields(block);
             Fields(back) == Restamped(StrippedOf(h), h.producerID, h.producerEpoch, h.baseSequence, h.txNonce)
    ensures back == block <==>
            !Stripped(Fields(block).flags) && (Transactional(Fields(block).flags) <==> Fields(block).txNonce != 0)
  {
    var h := Fields(block);
    FlagsTwice(h.flags, false, true, h.txNonce != 0, false);
    FlagsExact(h.flags, h.txNonce != 0, false);
    if Fields(back) == h {
      HeaderInjective(env, back, block);
      assert back == back[..HEADER_LEN] + back[HEADER_LEN..];
      assert block == block[..HEADER_LEN] + block[HEADER_LEN..];
    }
  }

  /** A block that names a transaction without being marked transactional: stripped and
      given its identity back, it comes out marked, with other bytes. */
  lemma RestampMarks(env: Env)
    requires env.valid(0)
    ensures var h := Header(0, 0, 0, 0, 0, 1, 0, 0, 1, 1, 0, 0, 0, 0);
            var back := Restamped(StrippedOf(h), h.producerID, h.producerEpoch, h.baseSequence, h.txNonce);
            && DecodeHeader(env, EncodeHeader(env, h)) == Ok(h) &&
               DecodeHeader(env, EncodeHeader(env, back)) == Ok(back)
            && Transactional(back.flags) && EncodeHeader(env, back) != EncodeHeader(env, h)
  {
    var h := Header(0, 0, 0, 0, 0, 1, 0, 0, 1, 1, 0, 0, 0, 0);
    var back := Restamped(StrippedOf(h), h.producerID, h.producerEpoch, h.baseSequence, h.txNonce);
    FlagsTwice(0, false, true, true, false);
    FlagsExact(0, true, false);
    EncodedAlone(env, h);
    EncodedAlone(env, back);
  }

  lemma EncodedAlone(env: Env, h: Header)
    requires env.valid(h.codec) && h.records != 0
    ensures DecodeHeader(env, EncodeHeader(env, h)) == Ok(h)
  {
    HeaderRoundTrip(env, h, []);
    assert EncodeHeader(env, h) + [] == EncodeHeader(env, h);
  }
}
