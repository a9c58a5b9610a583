/** One compaction pass over the log, as the set of outcomes it may have: which
    segments it chose to rewrite, in which order, and where a budget, a read-only
    tier or a failure made it stop. */
module CompactPass {
  import opened Bytes
  import opened LogModel
  import opened CleanRules
  import opened CleanSegments
  import opened MergeDigests

  /** `horizon` is the clock less the minimum age, 0 when there is none. */
  datatype Pass = Pass(spec: CleanSpec, now: int, horizon: int)

  // ---- dispositions ----

  /** The offsets a pass removes from segment i for its keys. */
  ghost function PassDrops(L: seq<Segment>, p: Pass, i: int): set<int>
    requires 0 <= i < |L|
  {
    if p.spec.stripOnly then {} else DroppedIn(L, p.spec, p.now, i)
  }

  predicate Protected(s: Segment, horizon: int) {
    horizon > 0 && s.LastWrite() > horizon
  }

  /** `stripStampCovers`. */
  predicate StampCovers(stamp: int, stampHeaders: seq<string>, boundary: int, headers: seq<string>) {
    stamp >= boundary && stampHeaders == headers
  }

  predicate MarkerBelow(spec: CleanSpec, r: Record) {
    r.control && r.offset < spec.stripBelow
  }

  predicate UnkeyedStrip(spec: CleanSpec, r: Record) {
    !r.control && r.key.None? && r.offset < spec.stripBelow && r.headers != map[]
  }

  predicate UnkeyedAborted(spec: CleanSpec, r: Record) {
    !r.control && r.key.None? && r.offset < spec.ceiling && spec.aborted(r.offset)
  }

  /** `canSkip`: nothing in the segment is this pass's to change. */
  ghost predicate Skippable(L: seq<Segment>, p: Pass, i: int)
    requires 0 <= i < |L|
  {
    var s, spec := L[i], p.spec;
    var covered := StampCovers(s.stamp, s.stampHeaders, spec.stripBelow, spec.stripHeaders);
    && PassDrops(L, p, i) == {}
    && !HasAborted(L, spec, i)
    && (spec.StripActive() ==>
          && (forall r :: HeldBy(L, i, r) ==> !MarkerBelow(spec, r))
          && (HasStrip(L, spec, i) ==> covered)
          && (forall r :: HeldBy(L, i, r) && UnkeyedStrip(spec, r) ==> covered))
    && (forall r :: HeldBy(L, i, r) ==> !UnkeyedAborted(spec, r))
  }

  ghost predicate Converged(L: seq<Segment>, p: Pass, i: int)
    requires 0 <= i < |L|
  {
    !Protected(L[i], p.horizon) && Skippable(L, p, i) && !L[i].fragmented
  }

  ghost predicate Wants(L: seq<Segment>, p: Pass, i: int)
    requires 0 <= i < |L|
  {
    !Protected(L[i], p.horizon) && !(Skippable(L, p, i) && !L[i].fragmented)
  }

  /** The segment removes a record that governs older ones: an expired tombstone,
      or a control marker. */
  ghost predicate Late(L: seq<Segment>, p: Pass, i: int) {
    || (!p.spec.stripOnly && HasCollectable(L, p.spec, p.now, i))
    || (p.spec.StripActive() && exists r :: HeldBy(L, i, r) && MarkerBelow(p.spec, r))
  }

  // ---- outcomes ----

  /** The rewrites a pass may end up having done, wherever it stopped: a governing
      segment only after everything it could govern. */
  ghost predicate Governed(L: seq<Segment>, p: Pass, did: seq<bool>) {
    && |did| + 1 == |L|
    && (forall i :: 0 <= i < |did| && did[i] ==> Wants(L, p, i))
    && (forall i, j :: 0 <= i < |did| && 0 <= j < |did| && did[i] && Late(L, p, i) ==>
          Wants(L, p, j) && (!Late(L, p, j) || j < i) ==> did[j])
  }

  predicate Rewrites(did: seq<bool>, i: int) {
    0 <= i < |did| && did[i]
  }

  ghost function After(L: seq<Segment>, p: Pass, did: seq<bool>, refreshed: seq<bool>, i: int): Option<Segment>
    requires 0 <= i < |L| == |refreshed|
  {
    if Rewrites(did, i) then Rewritten(p.spec, PassDrops(L, p, i), L[i], refreshed[i]) else Some(L[i])
  }

  /** What became of each segment. */
  ghost function Parts(L: seq<Segment>, p: Pass, did: seq<bool>, refreshed: seq<bool>): seq<Option<Segment>>
    requires |refreshed| == |L|
  {
    seq(|L|, i requires 0 <= i < |L| => After(L, p, did, refreshed, i))
  }

  /** One possible result of a pass. */
  ghost predicate PassStep(L: seq<Segment>, p: Pass, did: seq<bool>, refreshed: seq<bool>, L': seq<Segment>) {
    && ValidLog(L) && Governed(L, p, did) && |refreshed| == |L|
    && L' == Kept(Parts(L, p, did, refreshed))
  }

  /** The write times the age horizon needs: newer segments are not older. */
  ghost predicate WriteTimesOrdered(L: seq<Segment>) {
    forall i, j :: 0 <= i < j < |L| && L[i].Records() != [] && L[j].Records() != [] ==>
      L[i].LastWrite() <= L[j].LastWrite()
  }

  ghost predicate HorizonSafe(L: seq<Segment>, p: Pass) {
    p.horizon <= 0 || WriteTimesOrdered(L)
  }

  // ---- records across a pass ----

  /** Record r of segment i comes out of the pass as x. */
  ghost predicate Becomes(L: seq<Segment>, p: Pass, did: seq<bool>, i: int, r: Record, x: Record) {
    && HeldBy(L, i, r)
    && if Rewrites(did, i) then Outcome(p.spec, r.offset in PassDrops(L, p, i), r) == Some(x) else x == r
  }

  lemma AfterHolds(L: seq<Segment>, p: Pass, did: seq<bool>, refreshed: seq<bool>, i: int, x: Record)
    requires 0 <= i < |L| == |refreshed|
    ensures var a := After(L, p, did, refreshed, i);
            (a.Some? && x in a.value.Records()) <==> exists r :: Becomes(L, p, did, i, r, x)
  {
    var drops := PassDrops(L, p, i);
    if Rewrites(did, i) {
      RewrittenHolds(p.spec, drops, L[i], refreshed[i]);
      SurvivorOf(p.spec, drops, L[i].Records(), x);
      forall r
        ensures Becomes(L, p, did, i, r, x) <==> r in L[i].Records() && Outcome(p.spec, r.offset in drops, r) == Some(x)
      {
      }
    } else if x in L[i].Records() {
      assert Becomes(L, p, did, i, x, x);
    }
  }

  /** What the log holds afterwards is what its records became. */
  lemma PassHolds(L: seq<Segment>, p: Pass, did: seq<bool>, refreshed: seq<bool>, L': seq<Segment>, x: Record)
    requires PassStep(L, p, did, refreshed, L')
    ensures Holds(L', x) <==> exists i, r :: Becomes(L, p, did, i, r, x)
  {
    var parts := Parts(L, p, did, refreshed);
    KeptHolds(parts, x);
    if i :| InPart(parts, i, x) {
      AfterHolds(L, p, did, refreshed, i, x);
    }
    if i, r :| Becomes(L, p, did, i, r, x) {
      AfterHolds(L, p, did, refreshed, i, x);
      assert InPart(parts, i, x);
    }
  }

  /** A record's offset is in its segment's drops exactly when it is dropped. */
  lemma DropsByRecord(L: seq<Segment>, p: Pass, i: int, r: Record)
    requires ValidLog(L) && HeldBy(L, i, r)
    ensures r.offset in PassDrops(L, p, i) <==> !p.spec.stripOnly && Dropped(L, p.spec, p.now, r)
  {
    if !p.spec.stripOnly && r.offset in DroppedIn(L, p.spec, p.now, i) {
      var q :| q in L[i].Records() && Dropped(L, p.spec, p.now, q) && q.offset == r.offset;
      OffsetOrder(L, i, r, i, q);
    }
  }

  /** A rewrite keeps a segment's base and never reaches past its end. */
  lemma RewrittenValid(spec: CleanSpec, drops: set<int>, s: Segment, refreshed: bool)
    requires ValidSegment(s) && Rewritten(spec, drops, s, refreshed).Some?
    ensures var t := Rewritten(spec, drops, s, refreshed).value;
            ValidSegment(t) && t.base == s.base && t.Next() <= s.Next()
  {
    var rs := s.Records();
    var out := Survivors(spec, drops, rs);
    RewrittenHolds(spec, drops, s, refreshed);
    SurvivorsAscend(spec, drops, rs);
    forall i | 0 <= i < |out|
      ensures s.base <= out[i].offset < s.Next()
    {
      SurvivorOf(spec, drops, rs, out[i]);
      var r :| r in rs && Outcome(spec, r.offset in drops, r) == Some(out[i]);
      RecordBounds([s], 0, r);
    }
  }

  lemma AfterWithin(L: seq<Segment>, p: Pass, did: seq<bool>, refreshed: seq<bool>)
    requires ValidLog(L) && |refreshed| == |L|
    ensures Within(Parts(L, p, did, refreshed), L)
  {
    forall i | 0 <= i < |L| && After(L, p, did, refreshed, i).Some? && Rewrites(did, i) {
      RewrittenValid(p.spec, PassDrops(L, p, i), L[i], refreshed[i]);
    }
  }

  /** A pass leaves a log, its active segment untouched. */
  lemma PassValid(L: seq<Segment>, p: Pass, did: seq<bool>, refreshed: seq<bool>, L': seq<Segment>)
    requires PassStep(L, p, did, refreshed, L')
    ensures ValidLog(L') && L' != [] && L'[|L'| - 1] == L[|L| - 1]
  {
    AfterWithin(L, p, did, refreshed);
    KeptValid(Parts(L, p, did, refreshed), L);
  }
}
