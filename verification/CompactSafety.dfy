/** What every pass keeps, wherever it stopped: a key's newest value, the
    transactions whose markers it took away, the truth of its strip stamps and of
    the floor it reports, and the fixed point a complete pass reaches. */
module CompactSafety {
  import opened Bytes
  import opened LogModel
  import opened CleanRules
  import opened CleanSegments
  import opened MergeDigests
  import opened CompactPass

  // ---- a key's newest value ----

  predicate Visible(aborted: int -> bool, k: Key, bound: int, r: Record) {
    !r.control && r.key == Some(k) && r.offset <= bound && !aborted(r.offset)
  }

  /** r is what a reader bounded at `bound` finds for the key. */
  ghost predicate LatestIs(L: seq<Segment>, aborted: int -> bool, k: Key, bound: int, r: Record) {
    && Holds(L, r) && Visible(aborted, k, bound, r)
    && forall q :: Holds(L, q) && Visible(aborted, k, bound, q) ==> q.offset <= r.offset
  }

  ghost predicate Absent(L: seq<Segment>, aborted: int -> bool, k: Key, bound: int) {
    forall q :: Holds(L, q) ==> !Visible(aborted, k, bound, q)
  }

  /** Where a record of the compacted log came from. */
  lemma Origin(L: seq<Segment>, p: Pass, did: seq<bool>, refreshed: seq<bool>, L': seq<Segment>, x: Record)
    returns (i: int, r: Record)
    requires PassStep(L, p, did, refreshed, L') && Holds(L', x)
    ensures Becomes(L, p, did, i, r, x) && SameRecord(r, x)
  {
    PassHolds(L, p, did, refreshed, L', x);
    i, r :| Becomes(L, p, did, i, r, x);
  }

  /** A governed segment is rewritten before its governor: whatever below a rewritten
      governing segment is neither protected nor skippable was rewritten too. */
  lemma GovernedRewritten(L: seq<Segment>, p: Pass, did: seq<bool>, i: int, j: int)
    requires Governed(L, p, did)
    requires 0 <= j <= i < |did| && did[i] && Late(L, p, i) && !Protected(L[j], p.horizon)
    ensures did[j] || Converged(L, p, j)
  {
  }

  lemma NotProtectedBelow(L: seq<Segment>, p: Pass, i: int, j: int)
    requires HorizonSafe(L, p) && 0 <= j <= i < |L| && !Protected(L[i], p.horizon)
    requires L[i].Records() != [] && L[j].Records() != []
    ensures !Protected(L[j], p.horizon)
  {
  }

  /** A superseded copy outside the protected horizon cannot outlive the collected
      tombstone that shadows it. */
  lemma NoCopyOutlives(L: seq<Segment>, p: Pass, did: seq<bool>, i: int, r: Record, j: int, q: Record, x: Record)
    requires ValidLog(L) && Governed(L, p, did)
    requires HeldBy(L, i, r) && Rewrites(did, i) && !p.spec.stripOnly && Collectable(L, p.spec, p.now, r)
    requires HeldBy(L, j, q) && Candidate(p.spec, q) && q.key == r.key && q.offset < r.offset
    requires !Protected(L[j], p.horizon)
    ensures !Becomes(L, p, did, j, q, x)
  {
    OffsetOrder(L, j, q, i, r);
    assert Holds(L, r);
    assert Superseded(L, p.spec, q) && Dropped(L, p.spec, p.now, q);
    DropsByRecord(L, p, j, q);
    assert HasCollectable(L, p.spec, p.now, i);
    GovernedRewritten(L, p, did, i, j);
  }

  /** An older visible copy of the key in a segment the age horizon protects. */
  ghost predicate ProtectedCopy(L: seq<Segment>, p: Pass, k: Key, bound: int, r: Record) {
    exists j, q :: HeldBy(L, j, q) && Visible(p.spec.aborted, k, bound, q) && q.offset < r.offset
      && Protected(L[j], p.horizon)
  }

  predicate Removed(spec: CleanSpec, dropped: bool, r: Record) {
    Outcome(spec, dropped, r).None?
  }

  /** A newest value is only ever removed as an expired tombstone, and its key is
      then gone exactly when no older copy hides inside the protected horizon. */
  lemma CollectedExactly(L: seq<Segment>, p: Pass, did: seq<bool>, refreshed: seq<bool>, L': seq<Segment>,
                         k: Key, bound: int, i: int, r: Record)
    requires PassStep(L, p, did, refreshed, L') && p.spec.ceiling <= bound
    requires HeldBy(L, i, r) && LatestIs(L, p.spec.aborted, k, bound, r)
    requires Rewrites(did, i) && Removed(p.spec, r.offset in PassDrops(L, p, i), r)
    ensures Expired(p.spec, p.now, r) && r.offset < p.spec.ceiling
    ensures Absent(L', p.spec.aborted, k, bound) <==> !ProtectedCopy(L, p, k, bound, r)
  {
    DropsByRecord(L, p, i, r);
    assert Collectable(L, p.spec, p.now, r);
    if !ProtectedCopy(L, p, k, bound, r) {
      forall q' | Holds(L', q')
        ensures !Visible(p.spec.aborted, k, bound, q')
      {
        var j, q := Origin(L, p, did, refreshed, L', q');
        if Visible(p.spec.aborted, k, bound, q') {
          assert Holds(L, q);
          OffsetOrder(L, j, q, i, r);
          if q.offset < r.offset {
            NoCopyOutlives(L, p, did, i, r, j, q, q');
          }
        }
      }
    } else {
      var j, q :| HeldBy(L, j, q) && Visible(p.spec.aborted, k, bound, q) && q.offset < r.offset
        && Protected(L[j], p.horizon);
      assert Becomes(L, p, did, j, q, q);
      PassHolds(L, p, did, refreshed, L', q);
    }
  }

  /** A newest value that is not removed is still the newest. */
  lemma LatestStays(L: seq<Segment>, p: Pass, did: seq<bool>, refreshed: seq<bool>, L': seq<Segment>,
                    k: Key, bound: int, i: int, r: Record, x: Record)
    requires PassStep(L, p, did, refreshed, L')
    requires LatestIs(L, p.spec.aborted, k, bound, r) && Becomes(L, p, did, i, r, x)
    ensures LatestIs(L', p.spec.aborted, k, bound, x) && SameRecord(r, x)
  {
    PassHolds(L, p, did, refreshed, L', x);
    forall q' | Holds(L', q') && Visible(p.spec.aborted, k, bound, q')
      ensures q'.offset <= x.offset
    {
      var j, q := Origin(L, p, did, refreshed, L', q');
      assert Holds(L, q);
    }
  }

  /** Every pass, partial or whole, leaves a key's newest value in place. The one
      change it may make is an expired tombstone's to nothing at all. */
  lemma NoResurrection(L: seq<Segment>, p: Pass, did: seq<bool>, refreshed: seq<bool>, L': seq<Segment>,
                       k: Key, bound: int, r: Record)
    requires PassStep(L, p, did, refreshed, L') && HorizonSafe(L, p)
    requires p.spec.ceiling <= bound && LatestIs(L, p.spec.aborted, k, bound, r)
    ensures (exists x :: LatestIs(L', p.spec.aborted, k, bound, x) && SameRecord(r, x))
            || (Absent(L', p.spec.aborted, k, bound) && Expired(p.spec, p.now, r) && r.offset < p.spec.ceiling)
  {
    var i :| HeldBy(L, i, r);
    var o := if Rewrites(did, i) then Outcome(p.spec, r.offset in PassDrops(L, p, i), r) else Some(r);
    if o.Some? {
      LatestStays(L, p, did, refreshed, L', k, bound, i, r, o.value);
    } else {
      CollectedExactly(L, p, did, refreshed, L', k, bound, i, r);
      forall j, q | HeldBy(L, j, q) && q.offset < r.offset
        ensures !Protected(L[j], p.horizon)
      {
        OffsetOrder(L, j, q, i, r);
        NotProtectedBelow(L, p, i, j);
      }
    }
  }

  function MisdatedValue(k: Key): Record { Record(0, 100, 0, Some(k), None, map[], false, false, true) }

  function MisdatedTombstone(k: Key): Record { Record(1, 1, 0, Some(k), None, map[], false, true, true) }

  /** A value written with a late clock, its tombstone with an early one, and an age
      horizon between them. */
  function MisdatedLog(k: Key): seq<Segment> {
    [Segment(0, [Block(true, [MisdatedValue(k)])], None, -1, [], false),
     Segment(1, [Block(true, [MisdatedTombstone(k)])], None, -1, [], false),
     Segment(2, [], None, -1, [], false)]
  }

  function MisdatedPass(): Pass {
    Pass(CleanSpec(5, 0, [], _ => false, 5, 10, false), 1000, 50)
  }

  lemma MisdatedRecords(k: Key)
    ensures var L, p := MisdatedLog(k), MisdatedPass();
            && ValidLog(L) && HeldBy(L, 0, MisdatedValue(k)) && HeldBy(L, 1, MisdatedTombstone(k))
            && Protected(L[0], p.horizon) && !Protected(L[1], p.horizon)
            && forall r :: Holds(L, r) ==> r == MisdatedValue(k) || r == MisdatedTombstone(k)
  {
    var L := MisdatedLog(k);
    assert forall b: Block :: Flatten([b]) == b.records;
    assert L[0].Records() == [MisdatedValue(k)] && L[1].Records() == [MisdatedTombstone(k)] && L[2].Records() == [];
  }

  lemma MisdatedCollected(k: Key)
    ensures var L, p, t := MisdatedLog(k), MisdatedPass(), MisdatedTombstone(k);
            t.offset in PassDrops(L, p, 1) && LatestIs(L, p.spec.aborted, k, 5, t)
  {
    var L, p, t := MisdatedLog(k), MisdatedPass(), MisdatedTombstone(k);
    MisdatedRecords(k);
    assert Holds(L, t);
    assert !Superseded(L, p.spec, t);
    assert Collectable(L, p.spec, p.now, t);
    DropsByRecord(L, p, 1, t);
  }

  lemma MisdatedGoverned(k: Key)
    ensures Governed(MisdatedLog(k), MisdatedPass(), [false, true])
  {
    MisdatedRecords(k);
    MisdatedCollected(k);
    assert !Skippable(MisdatedLog(k), MisdatedPass(), 1);
  }

  /** The horizon keeps the value and lets the tombstone go: the deleted value returns. */
  lemma MisdatedCopyReturns(k: Key)
    ensures var L, p := MisdatedLog(k), MisdatedPass();
            var L' := Kept(Parts(L, p, [false, true], [true, true, true]));
            PassStep(L, p, [false, true], [true, true, true], L')
            && LatestIs(L, p.spec.aborted, k, 5, MisdatedTombstone(k)) && !Absent(L', p.spec.aborted, k, 5)
  {
    var L, p, did := MisdatedLog(k), MisdatedPass(), [false, true];
    MisdatedRecords(k);
    MisdatedCollected(k);
    MisdatedGoverned(k);
    var L' := Kept(Parts(L, p, did, [true, true, true]));
    assert ProtectedCopy(L, p, k, 5, MisdatedTombstone(k));
    CollectedExactly(L, p, did, [true, true, true], L', k, 5, 1, MisdatedTombstone(k));
  }

  lemma AbsentStays(L: seq<Segment>, p: Pass, did: seq<bool>, refreshed: seq<bool>, L': seq<Segment>, k: Key,
                    bound: int)
    requires PassStep(L, p, did, refreshed, L') && Absent(L, p.spec.aborted, k, bound)
    ensures Absent(L', p.spec.aborted, k, bound)
  {
    forall q' | Holds(L', q')
      ensures !Visible(p.spec.aborted, k, bound, q')
    {
      var j, q := Origin(L, p, did, refreshed, L', q');
      assert Holds(L, q);
    }
  }

  // ---- strip stamps and skips ----

  ghost predicate AllTruthful(L: seq<Segment>) {
    forall i :: 0 <= i < |L| ==> Truthful(L[i].Records(), L[i].stamp, L[i].stampHeaders)
  }

  /** A segment the pass may skip is one a rewrite would keep record for record. */
  lemma SkipSound(L: seq<Segment>, p: Pass, i: int)
    requires ValidLog(L) && 0 <= i < |L| && Skippable(L, p, i)
    requires Truthful(L[i].Records(), L[i].stamp, L[i].stampHeaders)
    ensures KeepsAll(p.spec, PassDrops(L, p, i), L[i].Records())
  {
    forall r | r in L[i].Records()
      ensures Outcome(p.spec, r.offset in PassDrops(L, p, i), r) == Some(r)
    {
      assert HeldBy(L, i, r);
      RecordBounds(L, i, r);
      assert AbortedWork(p.spec, r) ==> HasAborted(L, p.spec, i);
      assert StripWork(p.spec, r) ==> HasStrip(L, p.spec, i);
      assert Strippable(r, p.spec.stripHeaders) ==> r.headers != map[];
    }
  }

  /** A control marker a pass has taken away. */
  ghost predicate MarkerRemoved(L: seq<Segment>, p: Pass, did: seq<bool>, i: int, m: Record) {
    HeldBy(L, i, m) && m.control && Rewrites(did, i) && Removed(p.spec, m.offset in PassDrops(L, p, i), m)
  }

  /** A data record still waiting for a marker: carrying what the strip removes, or aborted. */
  predicate Undecided(spec: CleanSpec, r: Record) {
    !r.control && (Strippable(r, spec.stripHeaders) || spec.aborted(r.offset))
  }

  ghost predicate ProtectedUndecided(L: seq<Segment>, p: Pass, m: Record) {
    exists j, q :: HeldBy(L, j, q) && Undecided(p.spec, q) && q.offset < m.offset && Protected(L[j], p.horizon)
  }

  /** A rewritten or skipped segment holds nothing undecided below both bounds. */
  lemma DecidedBelow(L: seq<Segment>, p: Pass, did: seq<bool>, j: int, q: Record, x: Record)
    requires ValidLog(L) && Becomes(L, p, did, j, q, x) && (Rewrites(did, j) || Converged(L, p, j))
    requires Truthful(L[j].Records(), L[j].stamp, L[j].stampHeaders)
    requires q.offset < p.spec.ceiling && q.offset < p.spec.stripBelow && p.spec.stripHeaders != []
    ensures !x.control && !Undecided(p.spec, x)
  {
    if !Rewrites(did, j) {
      SkipSound(L, p, j);
    }
  }

  /** No pass removes a marker ahead of the records it decides, wherever it stopped:
      what is left below a removed marker is decided, exactly when the protected
      horizon hides nothing undecided below it. */
  lemma MarkersGoLast(L: seq<Segment>, p: Pass, did: seq<bool>, refreshed: seq<bool>, L': seq<Segment>, i: int,
                      m: Record)
    requires PassStep(L, p, did, refreshed, L') && AllTruthful(L) && MarkerRemoved(L, p, did, i, m)
    ensures (forall x :: Holds(L', x) && x.offset < m.offset ==> !Undecided(p.spec, x)) <==>
            !ProtectedUndecided(L, p, m)
  {
    RecordBounds(L, i, m);
    assert Late(L, p, i);
    if !ProtectedUndecided(L, p, m) {
      forall x | Holds(L', x) && x.offset < m.offset
        ensures !Undecided(p.spec, x)
      {
        var j, q := Origin(L, p, did, refreshed, L', x);
        OffsetOrder(L, j, q, i, m);
        if Protected(L[j], p.horizon) {
          assert !Rewrites(did, j) && x == q;
        } else {
          GovernedRewritten(L, p, did, i, j);
          DecidedBelow(L, p, did, j, q, x);
        }
      }
    } else {
      var j, q :| HeldBy(L, j, q) && Undecided(p.spec, q) && q.offset < m.offset && Protected(L[j], p.horizon);
      assert Becomes(L, p, did, j, q, q);
      PassHolds(L, p, did, refreshed, L', q);
    }
  }

  /** With write times in order the horizon hides nothing below what it lets go. */
  lemma MarkersNeverOutrun(L: seq<Segment>, p: Pass, did: seq<bool>, refreshed: seq<bool>, L': seq<Segment>,
                           i: int, m: Record, x: Record)
    requires PassStep(L, p, did, refreshed, L') && AllTruthful(L) && MarkerRemoved(L, p, did, i, m)
    requires HorizonSafe(L, p) && Holds(L', x) && !x.control && x.offset < m.offset
    ensures !Strippable(x, p.spec.stripHeaders) && !p.spec.aborted(x.offset)
  {
    MarkersGoLast(L, p, did, refreshed, L', i, m);
    forall j, q | HeldBy(L, j, q) && q.offset < m.offset
      ensures !Protected(L[j], p.horizon)
    {
      OffsetOrder(L, j, q, i, m);
      NotProtectedBelow(L, p, i, j);
    }
  }

  /** The stamps a pass leaves are true exactly when each rewrite's was. */
  ghost predicate StampsHold(L: seq<Segment>, p: Pass, did: seq<bool>, refreshed: seq<bool>, i: int)
    requires 0 <= i < |L| == |refreshed|
  {
    var drops := PassDrops(L, p, i);
    Rewrites(did, i) && refreshed[i] && p.spec.StripActive() && Survivors(p.spec, drops, L[i].Records()) != [] ==>
      NonePinned(p.spec, L[i].blocks) &&
        (Residue(p.spec, drops, L[i].blocks) || NoneCarried(p.spec, drops, L[i].blocks))
  }

  ghost predicate PartTruthful(a: Option<Segment>) {
    a.Some? ==> Truthful(a.value.Records(), a.value.stamp, a.value.stampHeaders)
  }

  lemma AfterTruthful(L: seq<Segment>, p: Pass, did: seq<bool>, refreshed: seq<bool>, i: int)
    requires 0 <= i < |L| == |refreshed| && p.spec.stripBelow <= MAX_OFFSET
    requires Truthful(L[i].Records(), L[i].stamp, L[i].stampHeaders)
    ensures StampsHold(L, p, did, refreshed, i) <==> PartTruthful(After(L, p, did, refreshed, i))
  {
    if Rewrites(did, i) {
      var drops := PassDrops(L, p, i);
      RewrittenHolds(p.spec, drops, L[i], refreshed[i]);
      if p.spec.StripActive() {
        StampTruth(p.spec, drops, L[i].blocks);
      }
    }
  }

  lemma {:induction false} KeptTruthful(parts: seq<Option<Segment>>)
    ensures AllTruthful(Kept(parts)) <==> forall i :: 0 <= i < |parts| ==> PartTruthful(parts[i])
  {
    if parts != [] {
      var n := |parts| - 1;
      KeptTruthful(parts[..n]);
      if parts[n].Some? {
        TruthfulAppend(Kept(parts[..n]), parts[n].value);
      } else {
        assert Kept(parts) == Kept(parts[..n]);
      }
    }
  }

  lemma TruthfulAppend(L: seq<Segment>, s: Segment)
    ensures AllTruthful(L + [s]) <==> AllTruthful(L) && Truthful(s.Records(), s.stamp, s.stampHeaders)
  {
    var all := L + [s];
    assert all[|L|] == s;
    assert forall k :: 0 <= k < |L| ==> all[k] == L[k];
  }

  /** True stamps stay true across a pass if and only if every rewrite's stamp is. */
  lemma StampsAcrossPass(L: seq<Segment>, p: Pass, did: seq<bool>, refreshed: seq<bool>, L': seq<Segment>)
    requires PassStep(L, p, did, refreshed, L') && AllTruthful(L) && p.spec.stripBelow <= MAX_OFFSET
    ensures AllTruthful(L') <==> forall i :: 0 <= i < |L| ==> StampsHold(L, p, did, refreshed, i)
  {
    var parts := Parts(L, p, did, refreshed);
    KeptTruthful(parts);
    forall i | 0 <= i < |L|
      ensures StampsHold(L, p, did, refreshed, i) <==> PartTruthful(parts[i])
    {
      AfterTruthful(L, p, did, refreshed, i);
    }
  }
}
