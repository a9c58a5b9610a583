/** The log's side of the epoch history: appends, new leaderships and truncations,
    and the probe a follower truncates to. */
module EpochLog {
  import opened Bytes
  import opened EpochCache

  /** A segment's base and the offsets it holds. */
  datatype Extent = Extent(base: int, offsets: seq<int>)

  function Next(s: Extent): int {
    if s.offsets == [] then s.base else s.offsets[|s.offsets| - 1] + 1
  }

  /** One frame of an appended set. */
  datatype Entry = Entry(offset: int, epoch: Epoch)

  function Held(segs: seq<Extent>): seq<int> {
    if segs == [] then [] else Held(segs[..|segs| - 1]) + segs[|segs| - 1].offsets
  }

  function Last(offs: seq<int>): int {
    if offs == [] then -1 else offs[|offs| - 1]
  }

  ghost predicate Ascending(offs: seq<int>) {
    && (forall n :: 0 <= n < |offs| ==> offs[n] >= 0)
    && forall m, n :: 0 <= m < n < |offs| ==> offs[m] < offs[n]
  }

  /** Each segment begins right after everything before it. */
  ghost predicate Chained(segs: seq<Extent>) {
    forall i :: 0 <= i < |segs| ==> segs[i].base == Last(Held(segs[..i])) + 1
  }

  // ---- tenure: the epoch in force when a record was appended ----

  ghost predicate InHistory(es: History, t: Epoch) {
    exists i :: 0 <= i < |es| && es[i].epoch == t
  }

  ghost predicate AnchorsHeld(es: History, offs: seq<int>) {
    forall i :: 0 <= i < |es| ==> es[i].anchor == -1 || es[i].anchor in offs
  }

  ghost predicate TenuresKnown(es: History, tenures: seq<Epoch>) {
    forall n :: 0 <= n < |tenures| ==> tenures[n] == 0 || InHistory(es, tenures[n])
  }

  /** An entry past epoch 0 separates the records appended before it from the rest. */
  ghost predicate Separates(x: EpochOffset, offs: seq<int>, tenures: seq<Epoch>)
    requires |tenures| == |offs|
  {
    x.epoch > 0 ==> forall n :: 0 <= n < |offs| ==> (offs[n] > x.anchor <==> tenures[n] >= x.epoch)
  }

  /** The sparse history agrees with every record's tenure. */
  ghost predicate Agrees(es: History, offs: seq<int>, tenures: seq<Epoch>) {
    && Ordered(es) && Ascending(offs) && |tenures| == |offs|
    && AnchorsHeld(es, offs) && TenuresKnown(es, tenures)
    && forall i :: 0 <= i < |es| ==> Separates(es[i], offs, tenures)
  }

  /** The greatest held offset whose tenure is at most e, or -1. */
  ghost predicate EndOfEpoch(offs: seq<int>, tenures: seq<Epoch>, e: Epoch, a: int)
    requires |tenures| == |offs|
  {
    && (a == -1 || exists n :: 0 <= n < |offs| && offs[n] == a && tenures[n] <= e)
    && forall n :: 0 <= n < |offs| && tenures[n] <= e ==> offs[n] <= a
  }

  /** The log's answer: the cache's, or the log end when it has none. */
  function Probe(es: History, offs: seq<int>, e: Epoch): int {
    var a := Answer(es, e);
    if a.Some? then a.value else Last(offs)
  }

  lemma TenureBounded(es: History, offs: seq<int>, tenures: seq<Epoch>, n: nat)
    requires Ordered(es) && TenuresKnown(es, tenures) && n < |offs| == |tenures|
    ensures tenures[n] <= LatestEpoch(es)
  {
    if tenures[n] != 0 {
      var i :| 0 <= i < |es| && es[i].epoch == tenures[n];
    }
  }

  lemma {:induction false} FirstEntry(es: History, e: Epoch) returns (i: nat)
    ensures FirstAtLeast(es, e, i)
  {
    if es == [] || es[0].epoch >= e {
      i := 0;
    } else {
      i := FirstEntry(es[1..], e);
      i := i + 1;
    }
  }

  lemma LastIsGreatest(offs: seq<int>, n: nat)
    requires Ascending(offs) && n < |offs|
    ensures offs[n] <= Last(offs)
  {
    assert n < |offs| - 1 ==> offs[n] < offs[|offs| - 1];
  }

  /** The first entry past e separates the tenures up to e from the rest. */
  lemma SeparatesAt(es: History, offs: seq<int>, tenures: seq<Epoch>, e: Epoch, i: nat, n: nat)
    requires Agrees(es, offs, tenures) && e < EPOCHS - 1 && FirstAtLeast(es, e + 1, i) && i < |es| && n < |offs|
    ensures tenures[n] <= e <==> offs[n] <= es[i].anchor
  {
    assert Separates(es[i], offs, tenures);
    if tenures[n] != 0 && tenures[n] < es[i].epoch {
      var j :| 0 <= j < |es| && es[j].epoch == tenures[n];
      assert j < i;
    }
  }

  /** For every epoch but the last one representable, the probe is exact: it names
      the last record this log holds that was appended at or before that epoch. */
  lemma ProbeExact(es: History, offs: seq<int>, tenures: seq<Epoch>, e: Epoch)
    requires Agrees(es, offs, tenures) && e < EPOCHS - 1
    ensures EndOfEpoch(offs, tenures, e, Probe(es, offs, e))
  {
    var i := FirstEntry(es, e + 1);
    FirstSplits(es, offs, tenures, e, i);
    ProbeIs(es, offs, e, i);
    EndIs(offs, tenures, e, Probe(es, offs, e));
  }

  lemma ProbeIs(es: History, offs: seq<int>, e: Epoch, i: nat)
    requires e < EPOCHS - 1 && FirstAtLeast(es, e + 1, i)
    ensures Probe(es, offs, e) == if i < |es| then es[i].anchor else Last(offs)
  {
    AnswerIsFirst(es, e + 1, i);
  }

  /** The records up to e end where the first entry past e is anchored, or with the log. */
  lemma FirstSplits(es: History, offs: seq<int>, tenures: seq<Epoch>, e: Epoch, i: nat)
    requires Agrees(es, offs, tenures) && e < EPOCHS - 1 && FirstAtLeast(es, e + 1, i)
    ensures var a := if i < |es| then es[i].anchor else Last(offs);
            (a == -1 || a in offs) && forall n :: 0 <= n < |offs| ==> (tenures[n] <= e <==> offs[n] <= a)
  {
    forall n | 0 <= n < |offs|
      ensures tenures[n] <= e <==> offs[n] <= if i < |es| then es[i].anchor else Last(offs)
    {
      if i < |es| {
        SeparatesAt(es, offs, tenures, e, i, n);
      } else {
        TenureBounded(es, offs, tenures, n);
        LastIsGreatest(offs, n);
      }
    }
  }

  lemma EndIs(offs: seq<int>, tenures: seq<Epoch>, e: Epoch, a: int)
    requires |tenures| == |offs| && (a == -1 || a in offs)
    requires forall n :: 0 <= n < |offs| ==> (tenures[n] <= e <==> offs[n] <= a)
    ensures EndOfEpoch(offs, tenures, e, a)
  {
  }

  /** The successor of the last epoch wraps to 0, so its probe is answered by the
      oldest entry: right exactly when that entry is anchored at the log end. */
  lemma LastEpochProbe(es: History, offs: seq<int>, tenures: seq<Epoch>)
    requires Agrees(es, offs, tenures)
    ensures EndOfEpoch(offs, tenures, EPOCHS - 1, Probe(es, offs, EPOCHS - 1)) <==>
            es == [] || es[0].anchor == Last(offs)
  {
    forall n | 0 <= n < |offs|
      ensures offs[n] <= Last(offs)
    {
      LastIsGreatest(offs, n);
    }
    if offs != [] {
      assert tenures[|offs| - 1] <= EPOCHS - 1;
    }
    if es != [] && es[0].anchor != Last(offs) && es[0].anchor != -1 {
      var n :| 0 <= n < |offs| && offs[n] == es[0].anchor;
    }
  }

  /** One record appended in epoch 1, the only epoch of the log: asked about the last
      epoch, the log answers that it holds nothing of it or before it. */
  lemma LastEpochWrong()
    ensures var es, offs, tenures := [EpochOffset(1, -1)], [0], [1 as Epoch];
            && Agrees(es, offs, tenures) && Probe(es, offs, EPOCHS - 1) == -1
            && !EndOfEpoch(offs, tenures, EPOCHS - 1, -1) && EndOfEpoch(offs, tenures, EPOCHS - 1, 0)
  {
    var es, offs, tenures := [EpochOffset(1, -1)], [0], [1 as Epoch];
    assert InHistory(es, tenures[0]) by {
      assert es[0].epoch == tenures[0];
    }
    assert offs[0] == 0 && tenures[0] <= EPOCHS - 1;
    LastEpochProbe(es, offs, tenures);
  }

  // ---- each operation keeps the agreement ----

  /** Opening an epoch at the log end. */
  lemma AgreesAssign(es: History, offs: seq<int>, tenures: seq<Epoch>, e: Epoch)
    requires Agrees(es, offs, tenures) && Assignable(es, e, Last(offs))
    ensures Agrees(es + [EpochOffset(e, Last(offs))], offs, tenures)
  {
    var x := EpochOffset(e, Last(offs));
    var es' := es + [x];
    forall n | 0 <= n < |offs|
      ensures offs[n] <= Last(offs) && tenures[n] <= LatestEpoch(es)
    {
      LastIsGreatest(offs, n);
      TenureBounded(es, offs, tenures, n);
    }
    assert Separates(x, offs, tenures);
    assert forall i :: 0 <= i < |es| ==> es'[i] == es[i];
    KnownStill(es, es', tenures);
    assert Ordered(es');
  }

  lemma KnownStill(es: History, es': History, tenures: seq<Epoch>)
    requires TenuresKnown(es, tenures) && |es| <= |es'| && es'[..|es|] == es
    ensures TenuresKnown(es', tenures)
  {
    forall n | 0 <= n < |tenures| && tenures[n] != 0
      ensures InHistory(es', tenures[n])
    {
      var i :| 0 <= i < |es| && es[i].epoch == tenures[n];
      assert es'[i] == es'[..|es|][i];
    }
  }

  /** No anchor is past the log end, so a newer epoch is always assignable there. */
  lemma AnchorsBounded(es: History, offs: seq<int>, i: nat)
    requires Ascending(offs) && AnchorsHeld(es, offs) && i < |es|
    ensures es[i].anchor <= Last(offs)
  {
    if es[i].anchor != -1 {
      var n :| 0 <= n < |offs| && offs[n] == es[i].anchor;
      LastIsGreatest(offs, n);
    }
  }

  /** A record appended under the newest epoch. */
  lemma AgreesAppend(es: History, offs: seq<int>, tenures: seq<Epoch>, offset: int)
    requires Agrees(es, offs, tenures) && offset > Last(offs) && offset >= 0
    ensures Agrees(es, offs + [offset], tenures + [LatestEpoch(es)])
  {
    var offs', tenures' := offs + [offset], tenures + [LatestEpoch(es)];
    AscendingSnoc(offs, offset);
    forall i | 0 <= i < |es|
      ensures Separates(es[i], offs', tenures')
    {
      AnchorsBounded(es, offs, i);
      assert Separates(es[i], offs, tenures);
      SeparatesSnoc(es[i], offs, tenures, offset, LatestEpoch(es));
    }
    KnownSnoc(es, tenures);
  }

  lemma AscendingSnoc(offs: seq<int>, offset: int)
    requires Ascending(offs) && offset > Last(offs) && offset >= 0
    ensures Ascending(offs + [offset])
  {
    forall m | 0 <= m < |offs|
      ensures offs[m] < offset
    {
      LastIsGreatest(offs, m);
    }
  }

  lemma SeparatesSnoc(x: EpochOffset, offs: seq<int>, tenures: seq<Epoch>, offset: int, e: Epoch)
    requires |tenures| == |offs| && Separates(x, offs, tenures) && offset > x.anchor && e >= x.epoch
    ensures Separates(x, offs + [offset], tenures + [e])
  {
  }

  lemma KnownSnoc(es: History, tenures: seq<Epoch>)
    requires TenuresKnown(es, tenures)
    ensures TenuresKnown(es, tenures + [LatestEpoch(es)])
  {
    assert es != [] ==> InHistory(es, LatestEpoch(es));
  }

  /** Cutting the log and clearing the entries anchored at or past the cut. */
  lemma AgreesTruncate(es: History, offs: seq<int>, tenures: seq<Epoch>, n: nat, offset: int)
    requires Agrees(es, offs, tenures) && CutAt(offs, n, offset)
    ensures Agrees(es[..Below(es, offset)], offs[..n], tenures[..n])
  {
    var k := Below(es, offset);
    forall i | 0 <= i < |es|
      ensures i < k <==> es[i].anchor < offset
    {
      BelowSplits(es, offset, i);
    }
    CutAnchors(es, offs, n, offset, k);
    CutTenures(es, offs, tenures, n, offset, k);
    CutSeparates(es[..k], offs, tenures, n);
  }

  lemma CutAnchors(es: History, offs: seq<int>, n: nat, offset: int, k: nat)
    requires AnchorsHeld(es, offs) && CutAt(offs, n, offset) && k <= |es|
    requires forall i :: 0 <= i < k ==> es[i].anchor < offset
    ensures AnchorsHeld(es[..k], offs[..n])
  {
    forall i | 0 <= i < k
      ensures es[i].anchor == -1 || es[i].anchor in offs[..n]
    {
      if es[i].anchor != -1 {
        var m :| 0 <= m < |offs| && offs[m] == es[i].anchor;
        assert offs[..n][m] == es[i].anchor;
      }
    }
  }

  /** A record below the cut was not appended under an entry at or past it. */
  lemma CutTenures(es: History, offs: seq<int>, tenures: seq<Epoch>, n: nat, offset: int, k: nat)
    requires TenuresKnown(es, tenures) && CutAt(offs, n, offset) && |tenures| == |offs| && k <= |es|
    requires forall i :: 0 <= i < |es| ==> Separates(es[i], offs, tenures)
    requires forall i :: k <= i < |es| ==> es[i].anchor >= offset
    ensures TenuresKnown(es[..k], tenures[..n])
  {
    forall m | 0 <= m < n && tenures[m] != 0
      ensures InHistory(es[..k], tenures[m])
    {
      var i :| 0 <= i < |es| && es[i].epoch == tenures[m];
      assert Separates(es[i], offs, tenures);
      assert es[..k][i].epoch == tenures[m];
    }
  }

  lemma CutSeparates(es: History, offs: seq<int>, tenures: seq<Epoch>, n: nat)
    requires |tenures| == |offs| && n <= |offs|
    requires forall i :: 0 <= i < |es| ==> Separates(es[i], offs, tenures)
    ensures forall i :: 0 <= i < |es| ==> Separates(es[i], offs[..n], tenures[..n])
  {
    forall i | 0 <= i < |es|
      ensures Separates(es[i], offs[..n], tenures[..n])
    {
      assert Separates(es[i], offs, tenures);
    }
  }

  // ---- segments ----

  lemma {:induction false} HeldSplit(segs: seq<Extent>, i: nat)
    requires i <= |segs|
    ensures |Held(segs[..i])| <= |Held(segs)| && Held(segs)[..|Held(segs[..i])|] == Held(segs[..i])
    decreases |segs|
  {
    if i == |segs| {
      assert segs[..i] == segs;
    } else {
      var front := segs[..|segs| - 1];
      HeldSplit(front, i);
      assert front[..i] == segs[..i];
    }
  }

  lemma HeldThrough(segs: seq<Extent>, i: nat)
    requires i < |segs|
    ensures Held(segs[..i + 1]) == Held(segs[..i]) + segs[i].offsets
  {
    assert segs[..i + 1][..i] == segs[..i];
  }

  /** A segment's next offset is one past everything up to its end. */
  lemma NextIsEnd(segs: seq<Extent>, i: nat)
    requires Chained(segs) && i < |segs|
    ensures Next(segs[i]) == Last(Held(segs[..i + 1])) + 1
  {
    HeldThrough(segs, i);
  }

  lemma LastOfPrefix(offs: seq<int>, n: nat)
    requires Ascending(offs) && n < |offs|
    ensures offs[n] > Last(offs[..n])
  {
  }

  /** Cutting the middle part of ascending offsets where it reaches the offset cuts
      them all there. */
  lemma CutParts(front: seq<int>, mid: seq<int>, rest: seq<int>, k: nat, offset: int)
    requires Ascending(front + mid + rest) && k <= |mid|
    requires front != [] ==> Last(front) < offset
    requires if mid == [] then Last(front) >= offset else Last(mid) >= offset
    requires forall m :: 0 <= m < k ==> mid[m] < offset
    requires k < |mid| ==> mid[k] >= offset
    ensures CutAt(front + mid + rest, |front| + k, offset)
  {
    var held, n := front + mid + rest, |front| + k;
    if front != [] {
      assert held[|front| - 1] == Last(front);
    }
    assert k < |mid| ==> held[n] == mid[k];
  }

  /** Cutting the first segment that reaches the offset cuts the log there. */
  lemma TruncatedHeld(segs: seq<Extent>, idx: nat, k: nat, offset: int)
    requires Chained(segs) && Ascending(Held(segs)) && idx < |segs| && k <= |segs[idx].offsets|
    requires Next(segs[idx]) > offset && (idx > 0 ==> Next(segs[idx - 1]) <= offset)
    requires forall m :: 0 <= m < k ==> segs[idx].offsets[m] < offset
    requires k < |segs[idx].offsets| ==> segs[idx].offsets[k] >= offset
    ensures var n := |Held(segs[..idx])| + k;
            && CutAt(Held(segs), n, offset) && Held(segs)[..n] == Held(segs[..idx]) + segs[idx].offsets[..k]
  {
    var front, mid := Held(segs[..idx]), segs[idx].offsets;
    var rest := HeldParts(segs, idx);
    if idx > 0 {
      NextIsEnd(segs, idx - 1);
    }
    CutParts(front, mid, rest, k, offset);
    PrefixOfParts(front, mid, rest, k);
  }

  /** Cutting the segments cuts the records. */
  lemma CutExact(segs: seq<Extent>, idx: nat, k: nat, offset: int) returns (n: nat)
    requires Chained(segs) && Ascending(Held(segs)) && idx < |segs| && k <= |segs[idx].offsets|
    requires Next(segs[idx]) > offset && (idx > 0 ==> Next(segs[idx - 1]) <= offset)
    requires forall m :: 0 <= m < k ==> segs[idx].offsets[m] < offset
    requires k < |segs[idx].offsets| ==> segs[idx].offsets[k] >= offset
    ensures Cut(segs, idx, k, offset) != [] && Chained(Cut(segs, idx, k, offset))
    ensures CutAt(Held(segs), n, offset) && Held(Cut(segs, idx, k, offset)) == Held(segs)[..n]
  {
    n := |Held(segs[..idx])| + k;
    assert CutAt(Held(segs), n, offset) && Held(segs)[..n] == Held(segs[..idx]) + segs[idx].offsets[..k] by {
      TruncatedHeld(segs, idx, k, offset);
    }
    CutHeld(segs, idx, k, offset);
  }

  lemma HeldParts(segs: seq<Extent>, idx: nat) returns (rest: seq<int>)
    requires idx < |segs|
    ensures Held(segs) == Held(segs[..idx]) + segs[idx].offsets + rest
  {
    HeldSplit(segs, idx + 1);
    HeldThrough(segs, idx);
    rest := Held(segs)[|Held(segs[..idx + 1])|..];
  }

  lemma PrefixOfParts(front: seq<int>, mid: seq<int>, rest: seq<int>, k: nat)
    requires k <= |mid|
    ensures (front + mid + rest)[..|front| + k] == front + mid[..k]
  {
  }

  /** The first n offsets are exactly those below the cut. */
  ghost predicate CutAt(offs: seq<int>, n: nat, offset: int) {
    && n <= |offs|
    && (forall m :: 0 <= m < n ==> offs[m] < offset)
    && (forall m :: n <= m < |offs| ==> offs[m] >= offset)
  }

  // ---- the log ----

  /** The epoch in force after a run of entries. */
  function EpochAfter(latest: Epoch, entries: seq<Entry>): Epoch {
    if entries == [] then latest else
      var e := EpochAfter(latest, entries[..|entries| - 1]);
      if entries[|entries| - 1].epoch > e then entries[|entries| - 1].epoch else e
  }

  function TenuresOf(latest: Epoch, entries: seq<Entry>): seq<Epoch> {
    if entries == [] then [] else TenuresOf(latest, entries[..|entries| - 1]) + [EpochAfter(latest, entries)]
  }

  function OffsetsOf(entries: seq<Entry>): seq<int> {
    if entries == [] then [] else OffsetsOf(entries[..|entries| - 1]) + [entries[|entries| - 1].offset]
  }

  /** Frames a log with this tail takes: some, above the tail, ascending. */
  predicate Acceptable(tail: int, entries: seq<Entry>) {
    && entries != [] && entries[0].offset > tail
    && forall i :: 0 < i < |entries| ==> entries[i].offset > entries[i - 1].offset
  }

  method CheckAppendedSet(tail: int, entries: seq<Entry>) returns (ok: bool)
    ensures ok <==> Acceptable(tail, entries)
  {
    if |entries| == 0 {
      return false;
    }
    if entries[0].offset <= tail {
      return false;
    }
    for i := 1 to |entries|
      invariant forall j :: 0 < j < i ==> entries[j].offset > entries[j - 1].offset
    {
      if entries[i].offset <= entries[i - 1].offset {
        return false;
      }
    }
    return true;
  }

  method CollectOffsets(entries: seq<Entry>) returns (offsets: seq<int>)
    ensures offsets == OffsetsOf(entries)
  {
    offsets := [];
    for i := 0 to |entries|
      invariant offsets == OffsetsOf(entries[..i])
    {
      assert entries[..i + 1][..i] == entries[..i];
      offsets := offsets + [entries[i].offset];
    }
    assert entries[..|entries|] == entries;
  }

  /** How many leading offsets are below one. */
  method CountBelow(offsets: seq<int>, offset: int) returns (k: nat)
    ensures k <= |offsets| && (forall m :: 0 <= m < k ==> offsets[m] < offset) &&
            (k < |offsets| ==> offsets[k] >= offset)
  {
    k := 0;
    while k < |offsets| && offsets[k] < offset
      invariant 0 <= k <= |offsets|
      invariant forall m :: 0 <= m < k ==> offsets[m] < offset
    {
      k := k + 1;
    }
  }

  /** The first segment that reaches past an offset. */
  method FindSegment(segs: seq<Extent>, offset: int) returns (idx: nat)
    ensures idx <= |segs| && (idx > 0 ==> Next(segs[idx - 1]) <= offset)
    ensures idx < |segs| ==> Next(segs[idx]) > offset
  {
    idx := 0;
    while idx < |segs| && Next(segs[idx]) <= offset
      invariant 0 <= idx <= |segs|
      invariant idx > 0 ==> Next(segs[idx - 1]) <= offset
    {
      idx := idx + 1;
    }
  }

  /** Writing to the active segment. */
  lemma ExtendLast(segs: seq<Extent>, offsets: seq<int>)
    requires segs != [] && Chained(segs)
    ensures var active := segs[|segs| - 1];
            var segs' := segs[|segs| - 1 := Extent(active.base, active.offsets + offsets)];
            Chained(segs') && Held(segs') == Held(segs) + offsets
  {
    var last, active := |segs| - 1, segs[|segs| - 1];
    var segs' := segs[last := Extent(active.base, active.offsets + offsets)];
    assert segs'[..last] == segs[..last];
    assert segs' == segs[..last] + [Extent(active.base, active.offsets + offsets)];
    ChainedPrefix(segs, last, active.offsets + offsets);
  }

  class TenuredLog {
    var segments: seq<Extent>
    const cache: LeaderEpochCache
    /** The tenure of each held record. */
    ghost var tenures: seq<Epoch>

    ghost predicate Valid()
      reads this, cache
    {
      && segments != [] && Chained(segments)
      && Agrees(cache.epochOffsets, Held(segments), tenures)
    }

    /** An empty log. */
    constructor ()
      ensures Valid() && fresh(cache) && Held(segments) == [] && cache.epochOffsets == []
    {
      segments := [Extent(0, [])];
      cache := new LeaderEpochCache();
      tenures := [];
      new;
      assert segments[..0] == [];
    }

    function NewestOffset(): (n: int)
      requires Valid()
      reads this, cache
      ensures n == Last(Held(segments))
    {
      NextIsEnd(segments, |segments| - 1);
      assert segments[..|segments|] == segments;
      Next(segments[|segments| - 1]) - 1
    }

    /** Roll to a new segment where the log ends; a segment nothing was written to
        does not roll. */
    method Roll()
      requires Valid()
      modifies this`segments
      ensures Valid() && Held(segments) == old(Held(segments))
    {
      var active := segments[|segments| - 1];
      if active.offsets == [] {
        return;
      }
      var next := NewestOffset() + 1;
      ghost var before := segments;
      segments := segments + [Extent(next, [])];
      assert segments[..|before|] == before;
      assert Held(segments) == Held(before);
      forall i | 0 <= i < |segments|
        ensures segments[i].base == Last(Held(segments[..i])) + 1
      {
        assert i < |before| ==> segments[..i] == before[..i];
      }
    }

    /** Write a set of frames and record the epochs that open with it. */
    method Append(entries: seq<Entry>) returns (ok: bool)
      requires Valid()
      modifies this, cache
      ensures Valid() && (ok <==> Acceptable(old(NewestOffset()), entries))
      ensures Held(segments) == old(Held(segments)) + if ok then OffsetsOf(entries) else []
      ensures tenures == old(tenures) + if ok then TenuresOf(old(LatestEpoch(cache.epochOffsets)), entries) else []
    {
      var tail := NewestOffset();
      ok := CheckAppendedSet(tail, entries);
      if ok {
        var offsets := CollectOffsets(entries);
        AssignEpochs(tail, entries);
        Write(offsets);
      }
    }

    /** The bytes half of an append. */
    method Write(offsets: seq<int>)
      requires segments != [] && Chained(segments) && Agrees(cache.epochOffsets, Held(segments) + offsets, tenures)
      modifies this`segments
      ensures Valid() && Held(segments) == old(Held(segments)) + offsets
    {
      ExtendLast(segments, offsets);
      var active := segments[|segments| - 1];
      segments := segments[|segments| - 1 := Extent(active.base, active.offsets + offsets)];
    }

    /** The epoch half of an append: an entry newer than any epoch so far opens its
        epoch at the record before it. */
    method AssignEpochs(tail: int, entries: seq<Entry>)
      requires Valid() && tail == NewestOffset() && Acceptable(tail, entries)
      modifies this`tenures, cache
      ensures tenures == old(tenures) + TenuresOf(old(LatestEpoch(cache.epochOffsets)), entries)
      ensures Agrees(cache.epochOffsets, old(Held(segments)) + OffsetsOf(entries), tenures)
    {
      ghost var held, latest0 := Held(segments), LatestEpoch(cache.epochOffsets);
      var latest := LatestEpoch(cache.epochOffsets);
      for i := 0 to |entries|
        invariant latest == LatestEpoch(cache.epochOffsets) == EpochAfter(latest0, entries[..i])
        invariant tenures == old(tenures) + TenuresOf(latest0, entries[..i])
        invariant Agrees(cache.epochOffsets, held + OffsetsOf(entries[..i]), tenures)
        invariant Last(held + OffsetsOf(entries[..i])) == if i == 0 then tail else entries[i - 1].offset
      {
        ghost var offs := held + OffsetsOf(entries[..i]);
        AscendsFrom(tail, entries, i);
        OneMoreEntry(held, old(tenures), latest0, entries, i);
        latest := AppendOne(offs, tenures, latest, if i > 0 then entries[i - 1].offset else tail, entries[i]);
        tenures := tenures + [latest];
      }
      assert entries[..|entries|] == entries;
    }

    /** One entry: its epoch opened if it is newer, its record under the newest. */
    method AppendOne(ghost offs: seq<int>, ghost ten: seq<Epoch>, latest: Epoch, anchor: int, e: Entry)
      returns (newest: Epoch)
      requires Agrees(cache.epochOffsets, offs, ten) && latest == LatestEpoch(cache.epochOffsets)
      requires anchor == Last(offs) && e.offset > anchor && e.offset >= 0
      modifies cache
      ensures newest == LatestEpoch(cache.epochOffsets) == if e.epoch > latest then e.epoch else latest
      ensures Agrees(cache.epochOffsets, offs + [e.offset], ten + [newest])
    {
      newest := latest;
      if e.epoch > latest {
        ghost var es := cache.epochOffsets;
        if es != [] {
          AnchorsBounded(es, offs, |es| - 1);
        }
        AgreesAssign(es, offs, ten, e.epoch);
        cache.Assign(e.epoch, anchor);
        assert cache.epochOffsets == es + [EpochOffset(e.epoch, Last(offs))];
        newest := e.epoch;
      }
      AgreesAppend(cache.epochOffsets, offs, ten, e.offset);
    }

    /** A leadership that begins where the log ends. */
    method NewLeaderEpoch(e: Epoch)
      requires Valid()
      modifies cache
      ensures Valid()
      ensures cache.epochOffsets == old(cache.epochOffsets) +
                if Assignable(old(cache.epochOffsets), e, NewestOffset()) then [EpochOffset(e, NewestOffset())] else []
    {
      var newest := NewestOffset();
      ghost var es := cache.epochOffsets;
      cache.Assign(e, newest);
      if Assignable(es, e, newest) {
        AgreesAssign(es, Held(segments), tenures, e);
        assert cache.epochOffsets == es + [EpochOffset(e, Last(Held(segments)))];
      } else {
        assert cache.epochOffsets == es;
      }
    }

    /** Remove every record at or past the offset, and the epochs that began there. */
    method Truncate(offset: int)
      requires Valid()
      modifies this, cache
      ensures Valid()
      ensures |Held(segments)| <= old(|Held(segments)|) && Held(segments) == old(Held(segments))[..|Held(segments)|]
      ensures tenures == old(tenures)[..|Held(segments)|]
      ensures forall m :: 0 <= m < old(|Held(segments)|) ==>
                (m < |Held(segments)| <==> old(Held(segments))[m] < offset)
    {
      ghost var held, es, ten := Held(segments), cache.epochOffsets, tenures;
      var idx := FindSegment(segments, offset);
      if idx == |segments| {
        NextIsEnd(segments, idx - 1);
        assert segments[..idx] == segments;
        forall m | 0 <= m < |held|
          ensures held[m] < offset
        {
          LastIsGreatest(held, m);
        }
        assert held[..|held|] == held;
        return;
      }
      ghost var n := CutSegments(idx, offset);
      tenures := tenures[..n];
      cache.ClearLatest(offset);
      AgreesTruncate(es, held, ten, n, offset);
    }

    method CutSegments(idx: nat, offset: int) returns (ghost n: nat)
      requires Valid() && idx < |segments|
      requires Next(segments[idx]) > offset && (idx > 0 ==> Next(segments[idx - 1]) <= offset)
      modifies this`segments
      ensures segments != [] && Chained(segments)
      ensures CutAt(old(Held(segments)), n, offset) && Held(segments) == old(Held(segments))[..n]
    {
      var k := CountBelow(segments[idx].offsets, offset);
      n := CutExact(segments, idx, k, offset);
      segments := Cut(segments, idx, k, offset);
    }

    /** Where an epoch ends in this log, for a follower to keep up to and including;
        a probe that names no epoch is refused. */
    method LastOffsetForLeaderEpoch(e: Option<Epoch>) returns (r: Option<int>)
      requires Valid()
      ensures r.None? <==> e.None?
      ensures e.Some? && e.value < EPOCHS - 1 ==> EndOfEpoch(Held(segments), tenures, e.value, r.value)
    {
      if e.None? {
        return None;
      }
      var a := cache.LastOffsetForLeaderEpoch(e.value);
      var offset := if a.Some? then a.value else NewestOffset();
      if e.value < EPOCHS - 1 {
        ProbeExact(cache.epochOffsets, Held(segments), tenures, e.value);
      }
      r := Some(offset);
    }
  }

  lemma {:induction false} AscendsFrom(tail: int, entries: seq<Entry>, i: nat)
    requires Acceptable(tail, entries) && i < |entries| && tail >= -1
    ensures entries[i].offset > (if i == 0 then tail else entries[i - 1].offset)
    ensures entries[i].offset >= 0
  {
    if i > 0 {
      AscendsFrom(tail, entries, i - 1);
    }
  }

  lemma OneMoreEntry(held: seq<int>, tenures: seq<Epoch>, latest: Epoch, entries: seq<Entry>, i: nat)
    requires i < |entries|
    ensures held + OffsetsOf(entries[..i + 1]) == held + OffsetsOf(entries[..i]) + [entries[i].offset]
    ensures var e := EpochAfter(latest, entries[..i]);
            EpochAfter(latest, entries[..i + 1]) == if entries[i].epoch > e then entries[i].epoch else e
    ensures tenures + TenuresOf(latest, entries[..i + 1]) ==
            tenures + TenuresOf(latest, entries[..i]) + [EpochAfter(latest, entries[..i + 1])]
  {
    assert entries[..i + 1][..i] == entries[..i];
  }

  lemma ChainedPrefix(segs: seq<Extent>, idx: nat, offsets: seq<int>)
    requires Chained(segs) && idx < |segs|
    ensures Chained(segs[..idx]) && Chained(segs[..idx] + [Extent(segs[idx].base, offsets)])
  {
    var cut := segs[..idx] + [Extent(segs[idx].base, offsets)];
    forall i | 0 <= i <= idx
      ensures cut[..i] == segs[..i]
    {
    }
    forall i | 0 <= i < idx
      ensures segs[..idx][..i] == segs[..i]
    {
    }
  }

  /** A segment that begins at the cut keeps nothing. */
  lemma NothingBelowBase(segs: seq<Extent>, idx: nat)
    requires Chained(segs) && Ascending(Held(segs)) && idx < |segs| && segs[idx].offsets != []
    ensures segs[idx].offsets[0] >= segs[idx].base
  {
    var n := |Held(segs[..idx])|;
    HeldSplit(segs, idx);
    HeldSplit(segs, idx + 1);
    HeldThrough(segs, idx);
    assert Held(segs)[n] == Held(segs[..idx + 1])[n];
    LastOfPrefix(Held(segs), n);
  }

  /** The segments a truncation leaves: the one the offset falls in without its tail,
      or none of it when it begins there and is not the only one. */
  function Cut(segs: seq<Extent>, idx: nat, k: nat, offset: int): (r: seq<Extent>)
    requires idx < |segs| && k <= |segs[idx].offsets|
  {
    if segs[idx].base != offset || idx == 0 then
      segs[..idx] + [Extent(segs[idx].base, segs[idx].offsets[..k])]
    else
      segs[..idx]
  }

  lemma CutHeld(segs: seq<Extent>, idx: nat, k: nat, offset: int)
    requires Chained(segs) && Ascending(Held(segs)) && idx < |segs| && k <= |segs[idx].offsets|
    requires forall m :: 0 <= m < k ==> segs[idx].offsets[m] < offset
    ensures Cut(segs, idx, k, offset) != [] && Chained(Cut(segs, idx, k, offset))
    ensures Held(Cut(segs, idx, k, offset)) == Held(segs[..idx]) + segs[idx].offsets[..k]
  {
    ChainedPrefix(segs, idx, segs[idx].offsets[..k]);
    if segs[idx].base != offset || idx == 0 {
      assert Cut(segs, idx, k, offset)[..idx] == segs[..idx];
    } else if k > 0 {
      NothingBelowBase(segs, idx);
    }
  }
}
