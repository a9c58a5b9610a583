/** The log as the maintenance code sees it: a list of segments, oldest first,
    each a run of blocks of records in ascending offset order. */
module LogModel {
  import opened Bytes

  type Key = seq<byte>

  /** One record. `sound` says whether the stored checksum matches the bytes. */
  datatype Record = Record(
    offset: int, ts: int, epoch: nat,
    key: Option<Key>, value: Option<seq<byte>>, headers: map<string, seq<byte>>,
    control: bool, tombstone: bool, sound: bool)

  /** A stored block. A block that is not mergeable is one a rewrite carries
      verbatim or takes apart record by record. A segment with no block layout
      is one mergeable block. */
  datatype Block = Block(mergeable: bool, records: seq<Record>)

  function Flatten(blocks: seq<Block>): seq<Record> {
    if blocks == [] then [] else blocks[0].records + Flatten(blocks[1..])
  }

  /** `stamp`/`stampHeaders` are the strip stamp of the segment's key digest;
      `fragmented` is the block layout's request for consolidation. */
  datatype Segment = Segment(
    base: int, blocks: seq<Block>, tier: Option<string>,
    stamp: int, stampHeaders: seq<string>, fragmented: bool)
  {
    function Records(): seq<Record> { Flatten(blocks) }

    /** One past the last record, or the base when there is none. */
    function Next(): int {
      var rs := Records();
      if rs == [] then base else rs[|rs| - 1].offset + 1
    }

    /** The timestamp of the newest record. */
    function LastWrite(): int {
      var rs := Records();
      if rs == [] then 0 else rs[|rs| - 1].ts
    }
  }

  predicate Ascending(rs: seq<Record>) {
    forall i, j :: 0 <= i < j < |rs| ==> rs[i].offset < rs[j].offset
  }

  predicate ValidSegment(s: Segment) {
    && 0 <= s.base
    && Ascending(s.Records())
    && (forall i :: 0 <= i < |s.Records()| ==> s.base <= s.Records()[i].offset)
  }

  /** Segments in order, no offset in two of them. */
  predicate ValidLog(L: seq<Segment>) {
    && (forall i :: 0 <= i < |L| ==> ValidSegment(L[i]))
    && (forall i, j :: 0 <= i < j < |L| ==> L[i].Next() <= L[j].base)
  }

  predicate HeldBy(L: seq<Segment>, i: int, r: Record) {
    0 <= i < |L| && r in L[i].Records()
  }

  ghost predicate Holds(L: seq<Segment>, r: Record) {
    exists i :: HeldBy(L, i, r)
  }

  lemma RecordBounds(L: seq<Segment>, i: int, r: Record)
    requires ValidLog(L) && HeldBy(L, i, r)
    ensures 0 <= L[i].base <= r.offset < L[i].Next()
  {
    var rs := L[i].Records();
    var n :| 0 <= n < |rs| && rs[n] == r;
    assert n < |rs| - 1 ==> rs[n].offset < rs[|rs| - 1].offset;
  }

  /** A lower offset never sits in a later segment. */
  lemma OffsetOrder(L: seq<Segment>, i: int, r: Record, j: int, q: Record)
    requires ValidLog(L) && HeldBy(L, i, r) && HeldBy(L, j, q)
    ensures i < j ==> r.offset < q.offset
    ensures r.offset < q.offset ==> i <= j
    ensures r.offset == q.offset ==> i == j && r == q
  {
    RecordBounds(L, i, r);
    RecordBounds(L, j, q);
    if i == j {
      var rs := L[i].Records();
      var n :| 0 <= n < |rs| && rs[n] == r;
      var m :| 0 <= m < |rs| && rs[m] == q;
      assert n < m ==> rs[n].offset < rs[m].offset;
      assert m < n ==> rs[m].offset < rs[n].offset;
    }
  }

  lemma {:induction false} FlattenConcat(a: seq<Block>, b: seq<Block>)
    ensures Flatten(a + b) == Flatten(a) + Flatten(b)
  {
    if a == [] {
      assert a + b == b;
    } else {
      assert (a + b)[1..] == a[1..] + b;
      FlattenConcat(a[1..], b);
    }
  }

  lemma HoldsSnoc(L: seq<Segment>, s: Segment, r: Record)
    ensures Holds(L + [s], r) <==> Holds(L, r) || r in s.Records()
  {
    if Holds(L + [s], r) {
      var i :| HeldBy(L + [s], i, r);
      assert i == |L| || HeldBy(L, i, r);
    }
    if Holds(L, r) {
      var i :| HeldBy(L, i, r);
      assert HeldBy(L + [s], i, r);
    }
    assert HeldBy(L + [s], |L|, r) <==> r in s.Records();
  }

  /** A segment that starts where the log has ended extends it. */
  lemma ValidAppend(L: seq<Segment>, s: Segment)
    requires ValidLog(L) && ValidSegment(s)
    requires forall i :: 0 <= i < |L| ==> L[i].Next() <= s.base
    ensures ValidLog(L + [s])
  {
  }

  lemma NextAtLeastBase(s: Segment)
    requires ValidSegment(s)
    ensures s.base <= s.Next()
  {
  }

  // ---- a list of what became of each segment ----

  /** The segments that are left, in order. */
  function Kept(parts: seq<Option<Segment>>): seq<Segment> {
    if parts == [] then [] else
      var last := parts[|parts| - 1];
      Kept(parts[..|parts| - 1]) + if last.Some? then [last.value] else []
  }

  predicate InPart(parts: seq<Option<Segment>>, i: int, r: Record) {
    0 <= i < |parts| && parts[i].Some? && r in parts[i].value.Records()
  }

  lemma {:induction false} KeptHolds(parts: seq<Option<Segment>>, r: Record)
    ensures Holds(Kept(parts), r) <==> exists i :: InPart(parts, i, r)
  {
    if parts != [] {
      var n := |parts| - 1;
      KeptHolds(parts[..n], r);
      if i :| InPart(parts, i, r) {
        assert i == n || InPart(parts[..n], i, r);
      }
      if i :| InPart(parts[..n], i, r) {
        assert InPart(parts, i, r);
      }
      assert InPart(parts, n, r) <==> parts[n].Some? && r in parts[n].value.Records();
      if parts[n].Some? {
        HoldsSnoc(Kept(parts[..n]), parts[n].value, r);
      } else {
        assert Kept(parts) == Kept(parts[..n]);
      }
    } else {
      assert forall i :: !HeldBy([], i, r);
    }
  }

  /** Each part sits within the extent of the segment it replaces. */
  ghost predicate Within(parts: seq<Option<Segment>>, L: seq<Segment>) {
    |parts| <= |L| && forall i :: 0 <= i < |parts| && parts[i].Some? ==>
      ValidSegment(parts[i].value) && parts[i].value.base == L[i].base && parts[i].value.Next() <= L[i].Next()
  }

  lemma {:induction false} KeptValid(parts: seq<Option<Segment>>, L: seq<Segment>)
    requires ValidLog(L) && Within(parts, L)
    ensures ValidLog(Kept(parts))
    ensures forall k, j :: 0 <= k < |Kept(parts)| && |parts| <= j < |L| ==> Kept(parts)[k].Next() <= L[j].base
  {
    if parts != [] {
      var n := |parts| - 1;
      KeptValid(parts[..n], L);
      if parts[n].Some? {
        ValidAppend(Kept(parts[..n]), parts[n].value);
      }
    }
  }

  lemma {:induction false} KeptSource(parts: seq<Option<Segment>>, k: int) returns (i: int)
    requires 0 <= k < |Kept(parts)|
    ensures 0 <= i < |parts| && parts[i] == Some(Kept(parts)[k])
    decreases |parts|
  {
    var n := |parts| - 1;
    if k < |Kept(parts[..n])| {
      i := KeptSource(parts[..n], k);
    } else {
      i := n;
    }
  }
}
