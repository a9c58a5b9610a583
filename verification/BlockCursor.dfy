/** Writing a block's records, and the cursor that walks them back. */
module BlockCursors {
  import opened Bytes
  import opened Varints
  import opened BlockRecords

  // ---- writing ----

  method InsertKey(keys: seq<Str>, k: Str) returns (r: seq<Str>)
    requires InOrder(keys) && k !in keys
    ensures InOrder(r) && |r| == |keys| + 1 && forall x :: x in r <==> x == k || x in keys
  {
    var i := 0;
    while i < |keys| && Less(keys[i], k)
      invariant 0 <= i <= |keys| && forall j :: 0 <= j < i ==> Less(keys[j], k)
    {
      i := i + 1;
    }
    Inserted(keys, k, i);
    r := keys[..i] + [k] + keys[i..];
  }

  lemma Inserted(keys: seq<Str>, k: Str, i: nat)
    requires InOrder(keys) && k !in keys && i <= |keys|
    requires (forall j :: 0 <= j < i ==> Less(keys[j], k)) && (i < |keys| ==> !Less(keys[i], k))
    ensures var r := keys[..i] + [k] + keys[i..]; InOrder(r) && forall x :: x in r <==> x == k || x in keys
  {
    var r := keys[..i] + [k] + keys[i..];
    forall j | i <= j < |keys|
      ensures Less(k, keys[j])
    {
      LessTotal(keys[i], k);
      if i < j {
        LessTransitive(k, keys[i], keys[j]);
      }
    }
    forall x
      ensures x in r <==> x == k || x in keys
    {
      assert keys == keys[..i] + keys[i..];
    }
  }

  /** Header keys in order. */
  method SortKeys(m: map<Str, Str>) returns (keys: seq<Str>)
    ensures Lists(keys, m) && InOrder(keys)
  {
    keys := [];
    var todo: set<Str> := m.Keys;
    while todo != {}
      invariant todo <= m.Keys && InOrder(keys) && |keys| + |todo| == |m.Keys|
      invariant forall x :: x in keys <==> x in m && x !in todo
    {
      var k :| k in todo;
      keys := InsertKey(keys, k);
      todo := todo - {k};
    }
    assert |m.Keys| == |m|;
    forall i | 0 <= i < |keys|
      ensures keys[i] in m
    {
      assert keys[i] in keys;
    }
  }

  method AppendField(dst: Str, f: Option<Str>) returns (r: Str)
    ensures r == dst + FieldBytes(f)
  {
    if f.None? {
      r := AppendUvarint(dst, Zigzag(-1));
    } else {
      r := AppendUvarint(dst, Zigzag(|f.value|));
      r := r + f.value;
    }
  }

  method AppendHeaders(dst: Str, keys: seq<Str>, m: map<Str, Str>) returns (r: Str)
    requires AllIn(keys, m)
    ensures r == dst + HeaderBytes(keys, m)
  {
    r := dst;
    for i := 0 to |keys|
      invariant r + HeaderBytes(keys[i..], m) == dst + HeaderBytes(keys, m)
    {
      var k := keys[i];
      ghost var before := r;
      r := AppendPrefixed(r, k);
      r := AppendPrefixed(r, m[k]);
      assert keys[i..][1..] == keys[i + 1..];
      Assoc(before, Prefixed(k), Prefixed(m[k]), HeaderBytes(keys[i + 1..], m));
      assert Prefixed(k) + (Prefixed(m[k]) + HeaderBytes(keys[i + 1..], m)) == HeaderBytes(keys[i..], m);
    }
  }

  method AppendPrefixed(dst: Str, s: Str) returns (r: Str)
    ensures r == dst + Prefixed(s)
  {
    r := AppendUvarint(dst, |s|);
    Assoc(dst, Uvarint(|s|), s, []);
    r := r + s;
  }

  lemma Assoc(a: Str, b: Str, c: Str, d: Str)
    ensures a + b + c + d == a + (b + (c + d))
  {
  }

  method AppendMap(dst: Str, keys: seq<Str>, m: map<Str, Str>) returns (r: Str)
    requires Lists(keys, m)
    ensures r == dst + MapBytes(keys, m)
  {
    r := AppendUvarint(dst, |m|);
    r := AppendHeaders(r, keys, m);
    Assoc(dst, Uvarint(|m|), HeaderBytes(keys, m), []);
  }

  method AppendBody(dst: Str, rec: Rec, keys: seq<Str>) returns (r: Str)
    requires Lists(keys, rec.headers)
    ensures r == dst + BodyBytes(rec, keys)
  {
    r := AppendField(dst, rec.key);
    r := AppendField(r, rec.value);
    r := AppendMap(r, keys, rec.headers);
    Assoc(dst, FieldBytes(rec.key), FieldBytes(rec.value), MapBytes(keys, rec.headers));
  }

  /** A record's bytes with these header keys, all of them and in order. */
  ghost predicate EncodesWith(rec: Rec, keys: seq<Str>, b: Str) {
    Lists(keys, rec.headers) && InOrder(keys) && b == RecBytes(rec, keys)
  }

  method EncodeRecord(rec: Rec) returns (r: Str)
    ensures exists keys :: EncodesWith(rec, keys, r)
  {
    var keys := SortKeys(rec.headers);
    r := AppendUvarint([rec.attributes], rec.offsetDelta);
    r := AppendBody(r, rec, keys);
    Assoc([rec.attributes], Uvarint(rec.offsetDelta), BodyBytes(rec, keys), []);
    assert EncodesWith(rec, keys, r);
  }

  // ---- payloads, piece by piece ----

  function Concat(pieces: seq<Str>): Str {
    if pieces == [] then [] else pieces[0] + Concat(pieces[1..])
  }

  lemma {:induction false} ConcatSnoc(pieces: seq<Str>, p: Str)
    ensures Concat(pieces + [p]) == Concat(pieces) + p
    decreases |pieces|
  {
    if pieces == [] {
      assert pieces + [p] == [p];
      assert Concat([p]) == p + Concat([]);
    } else {
      assert (pieces + [p])[1..] == pieces[1..] + [p];
      ConcatSnoc(pieces[1..], p);
      Assoc(pieces[0], Concat(pieces[1..]), p, []);
    }
  }

  /** A record's bytes behind their length, its header keys in order. */
  ghost predicate IsPiece(rec: Rec, w: Written, p: Str) {
    && w.rec == rec && Lists(w.keys, rec.headers) && InOrder(w.keys) && rec.offsetDelta < TWO32
    && p == Prefixed(RecBytes(rec, w.keys))
  }

  /** How a list of records was written. */
  ghost predicate WrittenAs(recs: seq<Rec>, ws: seq<Written>, pieces: seq<Str>) {
    && |ws| == |recs| == |pieces|
    && forall i {:trigger IsPiece(recs[i], ws[i], pieces[i])} :: 0 <= i < |recs| ==> IsPiece(recs[i], ws[i], pieces[i])
  }

  lemma WrittenSnoc(recs: seq<Rec>, ws: seq<Written>, pieces: seq<Str>, rec: Rec, w: Written, p: Str)
    requires WrittenAs(recs, ws, pieces) && IsPiece(rec, w, p)
    ensures WrittenAs(recs + [rec], ws + [w], pieces + [p])
  {
    var recs', ws', pieces' := recs + [rec], ws + [w], pieces + [p];
    forall i | 0 <= i < |recs'|
      ensures IsPiece(recs'[i], ws'[i], pieces'[i])
    {
      assert i < |recs| ==> IsPiece(recs[i], ws[i], pieces[i]);
    }
  }

  lemma WrittenTail(recs: seq<Rec>, ws: seq<Written>, pieces: seq<Str>)
    requires WrittenAs(recs, ws, pieces) && recs != []
    ensures WrittenAs(recs[1..], ws[1..], pieces[1..])
  {
    forall i | 0 <= i < |recs[1..]|
      ensures IsPiece(recs[1..][i], ws[1..][i], pieces[1..][i])
    {
      assert IsPiece(recs[i + 1], ws[i + 1], pieces[i + 1]);
    }
  }

  lemma {:induction false} WrittenGood(recs: seq<Rec>, ws: seq<Written>, pieces: seq<Str>)
    requires WrittenAs(recs, ws, pieces)
    ensures AllGood(ws) && RecsOf(ws) == recs
    decreases |recs|
  {
    if recs != [] {
      WrittenTail(recs, ws, pieces);
      WrittenGood(recs[1..], ws[1..], pieces[1..]);
      assert IsPiece(recs[0], ws[0], pieces[0]);
      assert forall i :: 0 < i < |ws| ==> ws[i] == ws[1..][i - 1];
    }
  }

  lemma {:induction false} WrittenBytes(recs: seq<Rec>, ws: seq<Written>, pieces: seq<Str>)
    requires WrittenAs(recs, ws, pieces) && AllGood(ws)
    ensures PayloadBytes(ws) == Concat(pieces)
    decreases |recs|
  {
    if recs != [] {
      WrittenTail(recs, ws, pieces);
      WrittenBytes(recs[1..], ws[1..], pieces[1..]);
      assert IsPiece(recs[0], ws[0], pieces[0]);
    }
  }

  /** The payload form of a list of records. */
  ghost predicate Encodes(recs: seq<Rec>, logical: Str) {
    exists ws, pieces :: WrittenAs(recs, ws, pieces) && logical == Concat(pieces)
  }

  /** Every payload form reads back as its records. */
  lemma EncodesReads(recs: seq<Rec>, logical: Str)
    requires Encodes(recs, logical) && |logical| < TWO63
    ensures ReadRecs(logical, |recs|) == Some(recs) && |recs| <= |logical|
    ensures forall i :: 0 <= i < |recs| ==> recs[i].offsetDelta < TWO32
  {
    var ws, pieces :| WrittenAs(recs, ws, pieces) && logical == Concat(pieces);
    WrittenGood(recs, ws, pieces);
    WrittenBytes(recs, ws, pieces);
    PayloadRoundTrip(ws);
    forall i | 0 <= i < |recs|
      ensures recs[i].offsetDelta < TWO32
    {
      assert IsPiece(recs[i], ws[i], pieces[i]);
    }
  }

  /** A payload's records, each behind its length. */
  method EncodeRecords(dst: Str, recs: seq<Rec>) returns (r: Str)
    requires forall i :: 0 <= i < |recs| ==> recs[i].offsetDelta < TWO32
    ensures |dst| <= |r| && r[..|dst|] == dst && Encodes(recs, r[|dst|..])
  {
    ghost var ws: seq<Written>, pieces: seq<Str> := [], [];
    r := dst;
    for i := 0 to |recs|
      invariant WrittenAs(recs[..i], ws, pieces) && r == dst + Concat(pieces)
    {
      ghost var w, p;
      r, w, p := AppendRecord(r, recs[i]);
      WrittenSnoc(recs[..i], ws, pieces, recs[i], w, p);
      ConcatSnoc(pieces, p);
      Assoc(dst, Concat(pieces), p, []);
      ws, pieces := ws + [w], pieces + [p];
      assert recs[..i + 1] == recs[..i] + [recs[i]];
    }
    assert recs[..|recs|] == recs;
    assert r[|dst|..] == Concat(pieces);
  }

  method AppendRecord(dst: Str, rec: Rec) returns (r: Str, ghost w: Written, ghost p: Str)
    requires rec.offsetDelta < TWO32
    ensures r == dst + p && IsPiece(rec, w, p)
  {
    var scratch := EncodeRecord(rec);
    ghost var keys :| EncodesWith(rec, keys, scratch);
    w, p := Written(rec, keys), Prefixed(scratch);
    r := AppendPrefixed(dst, scratch);
  }

  // ---- reading ----

  /** A walk over bytes. The first read that would leave them latches an error that the
      rest of the walk keeps. */
  class Cursor {
    const buf: Str
    var pos: nat
    var err: bool

    ghost predicate Valid()
      reads this
    {
      pos <= |buf|
    }

    ghost function Rest(): Str
      requires Valid()
      reads this
    {
      buf[pos..]
    }

    constructor (b: Str)
      ensures Valid() && buf == b && !err && Rest() == b
    {
      buf, pos, err := b, 0, false;
    }

    method Byte() returns (r: byte)
      requires Valid()
      modifies this
      ensures Valid() && (old(err) ==> err && pos == old(pos))
      ensures !old(err) ==> (err <==> ReadByte(old(Rest())) == Fail)
      ensures !err ==> ReadByte(old(Rest())) == Got(r, Rest())
    {
      if err || pos >= |buf| {
        err := true;
        return 0;
      }
      r := buf[pos];
      pos := pos + 1;
    }

    /** Seven bits at a time; nothing past the tenth byte, and one bit of that. */
    method Uvarint() returns (r: nat)
      requires Valid()
      modifies this
      ensures Valid() && (old(err) ==> err && pos == old(pos))
      ensures !old(err) ==> (err <==> ReadUvarint(old(Rest())) == Fail)
      ensures !err ==> ReadUvarint(old(Rest())) == Got(r, Rest())
    {
      if err {
        return 0;
      }
      ghost var b := buf[pos..];
      var i: nat, v: nat, scale: nat := 0, 0, 1;
      while true
        invariant i <= |b| && i <= 10 && pos == old(pos) && !err
        invariant match UvarintAt(b[i..], i)
                  case None => UvarintAt(b, 0).None?
                  case Some(t) => UvarintAt(b, 0) == Some((v + scale * t.0, i + t.1))
        decreases 10 - i
      {
        if i == 10 || pos + i == |buf| {
          err := true;
          return 0;
        }
        var c := buf[pos + i];
        assert c == b[i..][0] && b[i..][1..] == b[i + 1..];
        if c < 128 {
          if i == 9 && c > 1 {
            err := true;
            return 0;
          }
          r := v + scale * c as nat;
          pos := pos + i + 1;
          assert b[i + 1..] == buf[pos..];
          return;
        }
        Carry(v, scale, c as nat - 128, b[i + 1..], i + 1);
        v, scale, i := v + scale * (c as nat - 128), scale * 128, i + 1;
      }
    }

    method Varint() returns (r: int)
      requires Valid()
      modifies this
      ensures Valid() && (old(err) ==> err && pos == old(pos))
      ensures !old(err) ==> (err <==> ReadVarint(old(Rest())) == Fail)
      ensures !err ==> ReadVarint(old(Rest())) == Got(r, Rest())
    {
      var u := Uvarint();
      r := Unzigzag(u);
    }

    method Bytes(n: int) returns (r: Str)
      requires Valid()
      modifies this
      ensures Valid() && (old(err) ==> err && pos == old(pos))
      ensures !old(err) ==> (err <==> ReadBytes(old(Rest()), n) == Fail)
      ensures !err ==> ReadBytes(old(Rest()), n) == Got(r, Rest())
    {
      if err {
        return [];
      }
      if n < 0 || n > |buf| - pos {
        err := true;
        return [];
      }
      r := buf[pos..pos + n];
      assert r == buf[pos..][..n];
      pos := pos + n;
      assert old(Rest())[n..] == Rest();
    }

    method Prefixed() returns (r: Str)
      requires Valid()
      modifies this
      ensures Valid() && (old(err) ==> err && pos == old(pos))
      ensures !old(err) ==> (err <==> ReadPrefixed(old(Rest())) == Fail)
      ensures !err ==> ReadPrefixed(old(Rest())) == Got(r, Rest())
    {
      var n := Uvarint();
      r := Bytes(n);
    }

    /** A field: -1 is absent, 0 present and empty. */
    method Field() returns (r: Option<Str>)
      requires Valid()
      modifies this
      ensures Valid() && (old(err) ==> err && pos == old(pos))
      ensures !old(err) ==> (err <==> ReadField(old(Rest())) == Fail)
      ensures !err ==> ReadField(old(Rest())) == Got(r, Rest())
    {
      var n := Varint();
      if err || n == -1 {
        return None;
      }
      if n < -1 {
        err := true;
        return None;
      }
      var b := Bytes(n);
      r := Some(b);
    }

    method Headers(n: nat) returns (m: map<Str, Str>)
      requires Valid()
      modifies this
      ensures Valid() && (old(err) ==> err)
      ensures !old(err) ==> (err <==> ReadHeaders(old(Rest()), n, map[]) == Fail)
      ensures !err ==> ReadHeaders(old(Rest()), n, map[]) == Got(m, Rest())
    {
      m := map[];
      var i := 0;
      while i < n && !err
        invariant Valid() && i <= n && (old(err) ==> err)
        invariant !old(err) && err ==> ReadHeaders(old(Rest()), n, map[]) == Fail
        invariant !err ==> ReadHeaders(old(Rest()), n, map[]) == ReadHeaders(Rest(), n - i, m)
        decreases n - i
      {
        var k := Prefixed();
        var v := Prefixed();
        m := m[k := v];
        i := i + 1;
      }
    }

    /** The headers, which must end the bytes. */
    method MapToEnd() returns (r: Option<map<Str, Str>>)
      requires Valid()
      modifies this
      ensures r == if old(err) then None else ReadMap(old(Rest()))
    {
      var n := Uvarint();
      var m := Headers(n);
      r := if err || pos != |buf| then None else Some(m);
    }

    /** Key, value and headers, which must end the bytes. */
    method BodyToEnd(attributes: byte, delta: nat) returns (r: Option<Rec>)
      requires Valid()
      modifies this
      ensures r == if old(err) then None else ReadBody(old(Rest()), attributes, delta)
    {
      var key := Field();
      var value := Field();
      var m := MapToEnd();
      r := if m.None? then None else Some(Rec(attributes, delta % TWO32, key, value, m.value));
    }
  }

  lemma Carry(v: nat, scale: nat, low: nat, b: Str, i: nat)
    ensures UvarintAt(b, i).Some? ==>
              v + scale * (low + 128 * UvarintAt(b, i).value.0) == v + scale * low +
                scale * 128 * UvarintAt(b, i).value.0
  {
  }

  method DecodeRecord(body: Str) returns (r: Option<Rec>)
    ensures r == ReadRec(body)
  {
    var c := new Cursor(body);
    var attributes := c.Byte();
    var delta := c.Uvarint();
    r := c.BodyToEnd(attributes, delta);
  }

  method DecodeRecords(payload: Str, n: nat) returns (r: Option<seq<Rec>>)
    ensures r == ReadRecs(payload, n)
  {
    var c := new Cursor(payload);
    assert c.Rest() == payload;
    Reader();
    assert Remains(ReadRecs, payload, n, ReadRecs(payload, n));
    r := RecordsToEnd(c, n, ReadRecs, ReadRecs(payload, n));
  }

  lemma Reader()
    ensures IsReader(ReadRecs)
  {
  }

  /** The reader of a payload's records, by any name. */
  ghost predicate IsReader(read: (Str, nat) -> Option<seq<Rec>>) {
    forall b, n {:trigger ReadRecs(b, n)} :: read(b, n) == ReadRecs(b, n)
  }

  method RecordsToEnd(c: Cursor, n: nat, ghost read: (Str, nat) -> Option<seq<Rec>>, ghost answer: Option<seq<Rec>>)
    returns (r: Option<seq<Rec>>)
    requires c.Valid() && !c.err && IsReader(read) && Remains(read, c.Rest(), n, answer)
    modifies c
    ensures r == answer
  {
    var recs: seq<Rec> := [];
    ghost var rest := answer;
    Begins(rest);
    for i := 0 to n
      invariant c.Valid() && !c.err
      invariant Remains(read, c.Rest(), n - i, rest) && answer == Continued(recs, rest)
    {
      var rec;
      rec, rest := NextRecord(c, n - i, read, rest);
      if rec.None? {
        return None;
      }
      Continues(recs, rec.value, rest);
      recs := recs + [rec.value];
    }
    Ends(c.Rest(), read, rest, recs);
    if c.pos != |c.buf| {
      return None;
    }
    return Some(recs);
  }

  ghost predicate Remains(read: (Str, nat) -> Option<seq<Rec>>, b: Str, n: nat, rest: Option<seq<Rec>>) {
    read(b, n) == rest
  }

  lemma Ends(b: Str, read: (Str, nat) -> Option<seq<Rec>>, rest: Option<seq<Rec>>, recs: seq<Rec>)
    requires IsReader(read) && Remains(read, b, 0, rest)
    ensures Continued(recs, rest) == if b == [] then Some(recs) else None
  {
    assert ReadRecs(b, 0) == rest;
    assert recs + [] == recs;
  }

  /** One record off the front of a payload. */
  method NextRecord(c: Cursor, n: nat, ghost read: (Str, nat) -> Option<seq<Rec>>, ghost rest: Option<seq<Rec>>)
    returns (rec: Option<Rec>, ghost rest': Option<seq<Rec>>)
    requires c.Valid() && !c.err && n > 0 && IsReader(read) && Remains(read, c.Rest(), n, rest)
    modifies c
    ensures c.Valid()
    ensures rec.None? ==> rest == None
    ensures rec.Some? ==> !c.err && rest == Continued([rec.value], rest') && Remains(read, c.Rest(), n - 1, rest')
  {
    assert ReadRecs(c.Rest(), n) == rest;
    var body := c.Prefixed();
    if c.err {
      return None, None;
    }
    rec := DecodeRecord(body);
    rest' := ReadRecs(c.Rest(), n - 1);
  }

  lemma Begins(rest: Option<seq<Rec>>)
    ensures Continued([], rest) == rest
  {
    assert rest.Some? ==> [] + rest.value == rest.value;
  }

  lemma Continues(recs: seq<Rec>, r: Rec, rest: Option<seq<Rec>>)
    ensures Continued(recs, Continued([r], rest)) == Continued(recs + [r], rest)
  {
    if rest.Some? {
      assert recs + ([r] + rest.value) == recs + [r] + rest.value;
    }
  }

  ghost function Continued(recs: seq<Rec>, rest: Option<seq<Rec>>): Option<seq<Rec>> {
    if rest.None? then None else Some(recs + rest.value)
  }
}
