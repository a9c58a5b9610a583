/** The payload of a version-3 block: its records, and the bounds-checked cursor that
    reads them back. */
module BlockRecords {
  import opened Bytes
  import opened Varints

  const TWO32: int := 0x1_0000_0000

  /** One record; absent and empty keys and values differ. */
  datatype Rec = Rec(attributes: byte, offsetDelta: nat, key: Option<Str>, value: Option<Str>, headers: map<Str, Str>)

  // ---- the written form ----

  function FieldBytes(b: Option<Str>): Str {
    match b
    case None => Varint(-1)
    case Some(s) => Varint(|s|) + s
  }

  function Prefixed(s: Str): Str {
    Uvarint(|s|) + s
  }

  /** Header pairs, in the given order of keys. */
  function HeaderBytes(keys: seq<Str>, m: map<Str, Str>): Str
    requires AllIn(keys, m)
  {
    if keys == [] then [] else Prefixed(keys[0]) + Prefixed(m[keys[0]]) + HeaderBytes(keys[1..], m)
  }

  /** An order of all the header keys. */
  ghost predicate Lists(keys: seq<Str>, m: map<Str, Str>) {
    AllIn(keys, m) && |keys| == |m| && forall k :: k in m ==> k in keys
  }

  ghost predicate AllIn(keys: seq<Str>, m: map<Str, Str>) {
    forall i :: 0 <= i < |keys| ==> keys[i] in m
  }

  ghost predicate InOrder(keys: seq<Str>) {
    forall i, j {:trigger Less(keys[i], keys[j])} :: 0 <= i < j < |keys| ==> Less(keys[i], keys[j])
  }

  function MapBytes(keys: seq<Str>, m: map<Str, Str>): Str
    requires AllIn(keys, m)
  {
    Uvarint(|keys|) + HeaderBytes(keys, m)
  }

  function BodyBytes(r: Rec, keys: seq<Str>): Str
    requires AllIn(keys, r.headers)
  {
    FieldBytes(r.key) + (FieldBytes(r.value) + MapBytes(keys, r.headers))
  }

  function RecBytes(r: Rec, keys: seq<Str>): Str
    requires AllIn(keys, r.headers)
  {
    [r.attributes] + (Uvarint(r.offsetDelta) + BodyBytes(r, keys))
  }

  // ---- reading ----

  function ReadByte(b: Str): Parsed<byte> {
    if b == [] then Fail else Got(b[0], b[1..])
  }

  function ReadBytes(b: Str, n: int): Parsed<Str> {
    if n < 0 || n > |b| then Fail else Got(b[..n], b[n..])
  }

  function ReadPrefixed(b: Str): Parsed<Str> {
    match ReadUvarint(b)
    case Fail => Fail
    case Got(n, rest) => ReadBytes(rest, n)
  }

  function ReadField(b: Str): Parsed<Option<Str>> {
    match ReadVarint(b)
    case Fail => Fail
    case Got(n, rest) =>
      if n == -1 then Got(None, rest) else
        match ReadBytes(rest, n)
        case Fail => Fail
        case Got(s, after) => Got(Some(s), after)
  }

  function ReadHeaders(b: Str, n: nat, m: map<Str, Str>): Parsed<map<Str, Str>> {
    if n == 0 then Got(m, b) else
      match ReadPrefixed(b)
      case Fail => Fail
      case Got(k, rest) =>
        match ReadPrefixed(rest)
        case Fail => Fail
        case Got(v, after) => ReadHeaders(after, n - 1, m[k := v])
  }

  /** Headers that take up the whole of the bytes. */
  function ReadMap(b: Str): Option<map<Str, Str>> {
    match ReadUvarint(b)
    case Fail => None
    case Got(n, rest) =>
      match ReadHeaders(rest, n, map[])
      case Fail => None
      case Got(m, after) => if after == [] then Some(m) else None
  }

  /** Key, value and headers. */
  function ReadBody(b: Str, attributes: byte, delta: nat): Option<Rec> {
    match ReadField(b)
    case Fail => None
    case Got(key, rest) => WithValue(attributes, delta, key, ReadField(rest))
  }

  function WithValue(attributes: byte, delta: nat, key: Option<Str>, p: Parsed<Option<Str>>): Option<Rec> {
    match p
    case Fail => None
    case Got(value, after) => WithHeaders(attributes, delta, key, value, ReadMap(after))
  }

  function WithHeaders(attributes: byte, delta: nat, key: Option<Str>, value: Option<Str>,
                       m: Option<map<Str, Str>>): Option<Rec> {
    match m
    case None => None
    case Some(headers) => Some(Rec(attributes, delta % TWO32, key, value, headers))
  }

  /** A record that takes up the whole of its bytes. */
  function ReadRec(b: Str): Option<Rec> {
    match ReadByte(b)
    case Fail => None
    case Got(attributes, rest) =>
      match ReadUvarint(rest)
      case Fail => None
      case Got(delta, after) => ReadBody(after, attributes, delta)
  }

  /** n records that take up the whole payload. */
  function ReadRecs(b: Str, n: nat): Option<seq<Rec>>
    decreases n
  {
    if n == 0 then if b == [] then Some([]) else None else
      match ReadPrefixed(b)
      case Fail => None
      case Got(body, rest) =>
        var r := ReadRec(body);
        var rs := ReadRecs(rest, n - 1);
        if r.None? || rs.None? then None else Some([r.value] + rs.value)
  }

  // ---- reading undoes writing ----

  lemma PrefixedRoundTrip(s: Str, rest: Str)
    requires |s| < TWO64
    ensures ReadPrefixed(Prefixed(s) + rest) == Got(s, rest)
  {
    assert Prefixed(s) + rest == Uvarint(|s|) + (s + rest);
    UvarintRoundTrip(|s|, s + rest);
  }

  lemma FieldRoundTrip(f: Option<Str>, rest: Str)
    requires f.Some? ==> |f.value| < TWO63
    ensures ReadField(FieldBytes(f) + rest) == Got(f, rest)
  {
    match f
    case None => VarintRoundTrip(-1, rest);
    case Some(s) =>
      assert FieldBytes(f) + rest == Varint(|s|) + (s + rest);
      VarintRoundTrip(|s|, s + rest);
  }

  /** The pairs of the listed keys. */
  function Pairs(keys: seq<Str>, m: map<Str, Str>): map<Str, Str>
    requires AllIn(keys, m)
  {
    map k | k in keys :: m[k]
  }

  lemma {:induction false} HeadersRoundTrip(keys: seq<Str>, m: map<Str, Str>, acc: map<Str, Str>, rest: Str)
    requires AllIn(keys, m) && PairsFit(keys, m)
    ensures ReadHeaders(HeaderBytes(keys, m) + rest, |keys|, acc) == Got(acc + Pairs(keys, m), rest)
    decreases |keys|
  {
    if keys == [] {
      assert acc + Pairs(keys, m) == acc;
    } else {
      var k, after := keys[0], HeaderBytes(keys[1..], m) + rest;
      assert HeaderBytes(keys, m) + rest == Prefixed(k) + (Prefixed(m[k]) + after);
      PrefixedRoundTrip(k, Prefixed(m[k]) + after);
      PrefixedRoundTrip(m[k], after);
      HeadersRoundTrip(keys[1..], m, acc[k := m[k]], rest);
      PairsStep(keys, m, acc);
    }
  }

  lemma PairsStep(keys: seq<Str>, m: map<Str, Str>, acc: map<Str, Str>)
    requires keys != [] && AllIn(keys, m)
    ensures acc[keys[0] := m[keys[0]]] + Pairs(keys[1..], m) == acc + Pairs(keys, m)
  {
    assert forall k :: k in keys <==> k == keys[0] || k in keys[1..];
  }

  /** Everything about a record fits its integers. */
  ghost predicate Fits(r: Rec, keys: seq<Str>) {
    && r.offsetDelta < TWO32 && |keys| < TWO64
    && (r.key.Some? ==> |r.key.value| < TWO63) && (r.value.Some? ==> |r.value.value| < TWO63)
    && AllIn(keys, r.headers) && PairsFit(keys, r.headers)
  }

  ghost predicate PairsFit(keys: seq<Str>, m: map<Str, Str>)
    requires AllIn(keys, m)
  {
    forall i :: 0 <= i < |keys| ==> |keys[i]| < TWO64 && |m[keys[i]]| < TWO64
  }

  lemma MapRoundTrip(keys: seq<Str>, m: map<Str, Str>)
    requires Lists(keys, m) && |keys| < TWO64 && PairsFit(keys, m)
    ensures ReadMap(MapBytes(keys, m)) == Some(m)
  {
    var h := HeaderBytes(keys, m);
    UvarintRoundTrip(|keys|, h);
    assert h + [] == h;
    HeadersRoundTrip(keys, m, map[], []);
    AllPairs(keys, m);
  }

  lemma AllPairs(keys: seq<Str>, m: map<Str, Str>)
    requires Lists(keys, m)
    ensures map[] + Pairs(keys, m) == m
  {
  }

  lemma BodyRoundTrip(r: Rec, keys: seq<Str>)
    requires Lists(keys, r.headers) && Fits(r, keys)
    ensures ReadBody(BodyBytes(r, keys), r.attributes, r.offsetDelta) == Some(r)
  {
    MapRoundTrip(keys, r.headers);
    FieldsRoundTrip(r, MapBytes(keys, r.headers));
  }

  lemma FieldsRoundTrip(r: Rec, after: Str)
    requires r.offsetDelta < TWO32 && ReadMap(after) == Some(r.headers)
    requires (r.key.Some? ==> |r.key.value| < TWO63) && (r.value.Some? ==> |r.value.value| < TWO63)
    ensures ReadBody(FieldBytes(r.key) + (FieldBytes(r.value) + after), r.attributes, r.offsetDelta) == Some(r)
  {
    var rest := FieldBytes(r.value) + after;
    FieldRoundTrip(r.key, rest);
    FieldRoundTrip(r.value, after);
    ReadsKey(FieldBytes(r.key) + rest, rest, r);
    ReadsValue(r, ReadField(rest), after);
  }

  lemma ReadsValue(r: Rec, p: Parsed<Option<Str>>, after: Str)
    requires p == Got(r.value, after) && ReadMap(after) == Some(r.headers) && r.offsetDelta < TWO32
    ensures WithValue(r.attributes, r.offsetDelta, r.key, p) == Some(r)
  {
    assert WithHeaders(r.attributes, r.offsetDelta, r.key, r.value, Some(r.headers)) == Some(r);
  }

  lemma ReadsKey(b: Str, rest: Str, r: Rec)
    requires ReadField(b) == Got(r.key, rest)
    ensures ReadBody(b, r.attributes, r.offsetDelta) == WithValue(r.attributes, r.offsetDelta, r.key, ReadField(rest))
  {
  }

  /** In whatever order its header keys were written, a record reads back as itself. */
  lemma RecRoundTrip(r: Rec, keys: seq<Str>)
    requires Lists(keys, r.headers) && Fits(r, keys)
    ensures ReadRec(RecBytes(r, keys)) == Some(r)
  {
    BodyRoundTrip(r, keys);
    UvarintRoundTrip(r.offsetDelta, BodyBytes(r, keys));
    assert RecBytes(r, keys)[1..] == Uvarint(r.offsetDelta) + BodyBytes(r, keys);
  }

  // ---- whole payloads ----

  /** The bytes of each record, in some order of its header keys. */
  datatype Written = Written(rec: Rec, keys: seq<Str>)

  function PayloadBytes(ws: seq<Written>): Str
    requires AllGood(ws)
  {
    if ws == [] then [] else Prefixed(RecBytes(ws[0].rec, ws[0].keys)) + PayloadBytes(ws[1..])
  }

  function RecsOf(ws: seq<Written>): seq<Rec> {
    if ws == [] then [] else [ws[0].rec] + RecsOf(ws[1..])
  }

  ghost predicate AllGood(ws: seq<Written>) {
    forall i :: 0 <= i < |ws| ==> Good(ws[i])
  }

  ghost predicate Good(w: Written) {
    Lists(w.keys, w.rec.headers) && w.rec.offsetDelta < TWO32
  }

  lemma {:induction false} HeadersShort(keys: seq<Str>, m: map<Str, Str>, i: nat)
    requires AllIn(keys, m) && i < |keys|
    ensures |keys[i]| + |m[keys[i]]| <= |HeaderBytes(keys, m)| && |keys| <= |HeaderBytes(keys, m)|
    decreases |keys|
  {
    if |keys| > 1 {
      HeadersShort(keys[1..], m, if i > 0 then i - 1 else 0);
    }
  }

  /** A record whose bytes are short fits. */
  lemma ShortFits(r: Rec, keys: seq<Str>)
    requires Lists(keys, r.headers) && r.offsetDelta < TWO32 && |RecBytes(r, keys)| < TWO63
    ensures Fits(r, keys)
  {
    forall i | 0 <= i < |keys|
      ensures |keys[i]| < TWO64 && |r.headers[keys[i]]| < TWO64 && |keys| < TWO64
    {
      HeadersShort(keys, r.headers, i);
    }
  }

  /** One record's place in a payload. */
  lemma OneRec(w: Written, rest: Str)
    requires Good(w) && |Prefixed(RecBytes(w.rec, w.keys)) + rest| < TWO63
    ensures ReadPrefixed(Prefixed(RecBytes(w.rec, w.keys)) + rest) == Got(RecBytes(w.rec, w.keys), rest)
    ensures ReadRec(RecBytes(w.rec, w.keys)) == Some(w.rec)
  {
    ShortFits(w.rec, w.keys);
    RecRoundTrip(w.rec, w.keys);
    PrefixedRoundTrip(RecBytes(w.rec, w.keys), rest);
  }

  lemma ReadOne(b: Str, n: nat, body: Str, rest: Str, r: Rec, rs: seq<Rec>)
    requires n > 0 && ReadPrefixed(b) == Got(body, rest) && ReadRec(body) == Some(r) &&
             ReadRecs(rest, n - 1) == Some(rs)
    ensures ReadRecs(b, n) == Some([r] + rs)
  {
  }

  /** A payload of fewer than 2^63 bytes reads back as the records written. */
  lemma {:induction false} PayloadRoundTrip(ws: seq<Written>)
    requires AllGood(ws) && |PayloadBytes(ws)| < TWO63
    ensures ReadRecs(PayloadBytes(ws), |ws|) == Some(RecsOf(ws))
    ensures |ws| <= |PayloadBytes(ws)|
    decreases |ws|
  {
    if ws != [] {
      var w, rest := ws[0], PayloadBytes(ws[1..]);
      OneRec(w, rest);
      PayloadRoundTrip(ws[1..]);
      ReadOne(PayloadBytes(ws), |ws|, RecBytes(w.rec, w.keys), rest, w.rec, RecsOf(ws[1..]));
    }
  }
}
