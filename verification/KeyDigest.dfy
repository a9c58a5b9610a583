/** The per-segment summary compaction plans from: every keyed data record's
    offset, flags and timestamp, grouped by key and sorted by it, plus the unkeyed
    data records and the control markers. */
module KeyDigests {
  import opened Bytes
  import opened LogModel

  datatype DigestRec = DigestRec(offset: int, tombstone: bool, hasHeaders: bool, ts: int)

  datatype KeyEntry = KeyEntry(key: Key, recs: seq<DigestRec>)

  /** `stamp` is the strip stamp: stripping `stampHeaders` off the data records
      below it is known to change nothing. */
  datatype KeyDigest = KeyDigest(
    keyed: seq<KeyEntry>, unkeyed: seq<DigestRec>, control: seq<int>,
    stamp: int, stampHeaders: seq<string>)

  /** The section of a digest a record belongs to. */
  datatype Section = Keyed(key: Key) | Unkeyed | Control

  function SectionOf(r: Record): Section {
    if r.control then Control else if r.key.Some? then Keyed(r.key.value) else Unkeyed
  }

  function EntryOf(r: Record): DigestRec {
    DigestRec(r.offset, r.tombstone, r.headers != map[], r.ts)
  }

  /** The entries one section holds for a run of records, in offset order. */
  function Select(rs: seq<Record>, s: Section): seq<DigestRec> {
    if rs == [] then [] else
      var n := |rs| - 1;
      Select(rs[..n], s) + if SectionOf(rs[n]) == s then [EntryOf(rs[n])] else []
  }

  function Offsets(es: seq<DigestRec>): seq<int> {
    seq(|es|, i requires 0 <= i < |es| => es[i].offset)
  }

  ghost predicate SortedByKey(keyed: seq<KeyEntry>) {
    forall i, j :: 0 <= i < j < |keyed| ==> Less(keyed[i].key, keyed[j].key)
  }

  ghost predicate HasKey(keyed: seq<KeyEntry>, k: Key) {
    exists i :: 0 <= i < |keyed| && keyed[i].key == k
  }

  /** The digest says exactly what the records do, stamp aside. */
  ghost predicate Accurate(d: KeyDigest, rs: seq<Record>) {
    && SortedByKey(d.keyed)
    && (forall i :: 0 <= i < |d.keyed| ==>
          d.keyed[i].recs == Select(rs, Keyed(d.keyed[i].key)) && d.keyed[i].recs != [])
    && (forall k :: Select(rs, Keyed(k)) != [] ==> HasKey(d.keyed, k))
    && d.unkeyed == Select(rs, Unkeyed)
    && d.control == Offsets(Select(rs, Control))
  }

  lemma {:induction false} Selected(rs: seq<Record>, s: Section, e: DigestRec)
    ensures e in Select(rs, s) <==> exists r :: r in rs && SectionOf(r) == s && EntryOf(r) == e
  {
    if rs != [] {
      var n := |rs| - 1;
      Selected(rs[..n], s, e);
      assert rs == rs[..n] + [rs[n]];
    }
  }

  /** One pass over the records, then the keys sorted: the digest a clean builds
      for a segment that has none. */
  method BuildKeyDigest(rs: seq<Record>) returns (d: KeyDigest)
    ensures Accurate(d, rs) && d.stamp == -1 && d.stampHeaders == []
  {
    var byKey: map<Key, seq<DigestRec>> := map[];
    var unkeyed, control := [], [];
    for n := 0 to |rs|
      invariant unkeyed == Select(rs[..n], Unkeyed)
      invariant control == Offsets(Select(rs[..n], Control))
      invariant forall k :: k in byKey ==> byKey[k] == Select(rs[..n], Keyed(k)) && byKey[k] != []
      invariant forall k :: k !in byKey ==> Select(rs[..n], Keyed(k)) == []
    {
      assert rs[..n + 1][..n] == rs[..n];
      var r := rs[n];
      if r.control {
        control := control + [r.offset];
      } else if r.key.None? {
        unkeyed := unkeyed + [EntryOf(r)];
      } else {
        var k := r.key.value;
        var had := if k in byKey then byKey[k] else [];
        byKey := byKey[k := had + [EntryOf(r)]];
      }
    }
    assert rs[..|rs|] == rs;
    var keyed := SortKeys(byKey);
    AllSorted(rs, byKey, keyed);
    d := KeyDigest(keyed, unkeyed, control, -1, []);
  }

  lemma AllSorted(rs: seq<Record>, byKey: map<Key, seq<DigestRec>>, keyed: seq<KeyEntry>)
    requires forall k :: k in byKey ==> byKey[k] == Select(rs, Keyed(k)) && byKey[k] != []
    requires forall k :: k !in byKey ==> Select(rs, Keyed(k)) == []
    requires forall e :: e in keyed <==> e.key in byKey && e.recs == byKey[e.key]
    ensures forall i :: 0 <= i < |keyed| ==>
              keyed[i].recs == Select(rs, Keyed(keyed[i].key)) && keyed[i].recs != []
    ensures forall k :: Select(rs, Keyed(k)) != [] ==> HasKey(keyed, k)
  {
    forall i | 0 <= i < |keyed|
      ensures keyed[i].recs == Select(rs, Keyed(keyed[i].key)) && keyed[i].recs != []
    {
      assert keyed[i] in keyed;
    }
    forall k | Select(rs, Keyed(k)) != []
      ensures HasKey(keyed, k)
    {
      assert KeyEntry(k, byKey[k]) in keyed;
    }
  }

  /** The entries of a map in ascending key order. */
  method SortKeys(byKey: map<Key, seq<DigestRec>>) returns (keyed: seq<KeyEntry>)
    ensures SortedByKey(keyed)
    ensures forall e :: e in keyed <==> e.key in byKey && e.recs == byKey[e.key]
  {
    keyed := [];
    var left := byKey.Keys;
    while left != {}
      invariant left <= byKey.Keys
      invariant SortedByKey(keyed)
      invariant forall e :: e in keyed <==> e.key in byKey && e.key !in left && e.recs == byKey[e.key]
      decreases |left|
    {
      var k :| k in left;
      keyed := InsertEntry(keyed, KeyEntry(k, byKey[k]));
      left := left - {k};
    }
  }

  method InsertEntry(keyed: seq<KeyEntry>, e: KeyEntry) returns (r: seq<KeyEntry>)
    requires SortedByKey(keyed)
    requires forall i :: 0 <= i < |keyed| ==> keyed[i].key != e.key
    ensures SortedByKey(r)
    ensures forall x :: x in r <==> x in keyed || x == e
  {
    var at := 0;
    while at < |keyed| && Less(keyed[at].key, e.key)
      invariant 0 <= at <= |keyed|
      invariant forall i :: 0 <= i < at ==> Less(keyed[i].key, e.key)
    {
      at := at + 1;
    }
    if at < |keyed| {
      LessTotal(keyed[at].key, e.key);
    }
    r := keyed[..at] + [e] + keyed[at..];
    InsertedInOrder(keyed, at, e);
    assert keyed == keyed[..at] + keyed[at..];
  }

  lemma InsertedInOrder(keyed: seq<KeyEntry>, at: nat, e: KeyEntry)
    requires SortedByKey(keyed) && at <= |keyed|
    requires forall i :: 0 <= i < at ==> Less(keyed[i].key, e.key)
    requires at < |keyed| ==> Less(e.key, keyed[at].key)
    ensures SortedByKey(keyed[..at] + [e] + keyed[at..])
  {
    var r := keyed[..at] + [e] + keyed[at..];
    forall i, j | 0 <= i < j < |r|
      ensures Less(r[i].key, r[j].key)
    {
      if i == at && j > at + 1 {
        LessTransitive(e.key, keyed[at].key, keyed[j - 1].key);
      }
    }
  }
}
