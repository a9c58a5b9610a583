/** The verified floor a pass reports, and the fixed point a complete pass reaches. */
module CompactFloor {
  import opened Bytes
  import opened LogModel
  import opened CleanRules
  import opened CleanSegments
  import opened CompactPass
  import opened CompactSafety

  // ---- the floor ----

  /** A sealed segment this pass rewrote or proved converged. */
  ghost predicate Verified(L: seq<Segment>, p: Pass, did: seq<bool>, i: int)
    requires 0 <= i < |L|
  {
    Rewrites(did, i) || Converged(L, p, i)
  }

  ghost predicate ChainTo(L: seq<Segment>, p: Pass, did: seq<bool>, n: nat)
    requires n <= |L|
  {
    forall i :: 0 <= i < n ==> Verified(L, p, did, i)
  }

  /** The last offset of the unbroken oldest run of verified segments among the first n. */
  ghost function VerifiedThrough(L: seq<Segment>, p: Pass, did: seq<bool>, n: nat): int
    requires n <= |L|
  {
    if n == 0 then -1
    else if ChainTo(L, p, did, n) then L[n - 1].Next() - 1
    else VerifiedThrough(L, p, did, n - 1)
  }

  /** What a pass that did not fail reports. */
  ghost function Floor(L: seq<Segment>, p: Pass, did: seq<bool>): int
    requires L != []
  {
    var verified := VerifiedThrough(L, p, did, |L| - 1);
    if verified > p.spec.stripBelow - 1 then p.spec.stripBelow - 1 else verified
  }

  /** What a reader may not meet at or below a floor. */
  predicate Residual(aborted: int -> bool, headers: seq<string>, r: Record) {
    r.control || aborted(r.offset) || Strippable(r, headers)
  }

  /** The log is settled through f. */
  ghost predicate Settled(L: seq<Segment>, aborted: int -> bool, headers: seq<string>, f: int) {
    forall r :: Holds(L, r) && r.offset <= f ==> !Residual(aborted, headers, r)
  }

  lemma {:induction false} VerifiedCovers(L: seq<Segment>, p: Pass, did: seq<bool>, n: nat, j: int, r: Record)
    requires ValidLog(L) && n < |L| && HeldBy(L, j, r) && r.offset <= VerifiedThrough(L, p, did, n)
    ensures j < n && Verified(L, p, did, j)
  {
    RecordBounds(L, j, r);
    if n > 0 && !ChainTo(L, p, did, n) {
      VerifiedCovers(L, p, did, n - 1, j, r);
    }
  }

  /** What the floor leaves unexamined: everything from the ceiling up, and every
      marker when there is nothing to strip. */
  ghost predicate Unexamined(spec: CleanSpec, f: int, r: Record) {
    r.offset <= f && (spec.ceiling <= r.offset || (spec.stripHeaders == [] && r.control))
  }

  lemma FloorRecord(L: seq<Segment>, p: Pass, did: seq<bool>, j: int, r: Record, x: Record)
    requires ValidLog(L) && L != [] && AllTruthful(L) && Becomes(L, p, did, j, r, x) && r.offset <= Floor(L, p, did)
    ensures Unexamined(p.spec, Floor(L, p, did), r) ==> (Residual(p.spec.aborted, p.spec.stripHeaders, x) <==>
              Residual(p.spec.aborted, p.spec.stripHeaders, r))
    ensures !Unexamined(p.spec, Floor(L, p, did), r) ==> !Residual(p.spec.aborted, p.spec.stripHeaders, x)
  {
    VerifiedCovers(L, p, did, |L| - 1, j, r);
    RecordBounds(L, j, r);
    if !Unexamined(p.spec, Floor(L, p, did), r) {
      if p.spec.stripHeaders != [] {
        DecidedBelow(L, p, did, j, r, x);
      } else if !Rewrites(did, j) {
        SkipSound(L, p, j);
      }
    }
  }

  /** The floor is sound if and only if nothing it fails to examine is residual. */
  lemma FloorExact(L: seq<Segment>, p: Pass, did: seq<bool>, refreshed: seq<bool>, L': seq<Segment>)
    requires PassStep(L, p, did, refreshed, L') && AllTruthful(L)
    ensures Settled(L', p.spec.aborted, p.spec.stripHeaders, Floor(L, p, did)) <==>
            forall r :: Holds(L, r) && Unexamined(p.spec, Floor(L, p, did), r) ==>
              !Residual(p.spec.aborted, p.spec.stripHeaders, r)
  {
    var f := Floor(L, p, did);
    if forall r :: Holds(L, r) && Unexamined(p.spec, f, r) ==> !Residual(p.spec.aborted, p.spec.stripHeaders, r) {
      forall x | Holds(L', x) && x.offset <= f
        ensures !Residual(p.spec.aborted, p.spec.stripHeaders, x)
      {
        var j, r := Origin(L, p, did, refreshed, L', x);
        assert Holds(L, r);
        FloorRecord(L, p, did, j, r, x);
      }
    } else {
      var r :| Holds(L, r) && Unexamined(p.spec, f, r) && Residual(p.spec.aborted, p.spec.stripHeaders, r);
      UnexaminedStays(L, p, did, refreshed, L', r);
    }
  }

  /** What is residual and unexamined is not changed either. */
  lemma UnexaminedStays(L: seq<Segment>, p: Pass, did: seq<bool>, refreshed: seq<bool>, L': seq<Segment>, r: Record)
    requires PassStep(L, p, did, refreshed, L') && Holds(L, r)
    requires Unexamined(p.spec, Floor(L, p, did), r) && Residual(p.spec.aborted, p.spec.stripHeaders, r)
    ensures Holds(L', r)
  {
    var j :| HeldBy(L, j, r);
    assert Becomes(L, p, did, j, r, r);
    PassHolds(L, p, did, refreshed, L', r);
  }

  /** A strip at or below the ceiling earns a floor that says what it claims. */
  lemma FloorSound(L: seq<Segment>, p: Pass, did: seq<bool>, refreshed: seq<bool>, L': seq<Segment>)
    requires PassStep(L, p, did, refreshed, L') && AllTruthful(L)
    requires p.spec.stripHeaders != [] && p.spec.stripBelow <= p.spec.ceiling
    ensures Settled(L', p.spec.aborted, p.spec.stripHeaders, Floor(L, p, did))
  {
    FloorExact(L, p, did, refreshed, L');
  }

  /** A settled prefix stays settled through every later pass, whatever it strips. */
  lemma SettledStays(L: seq<Segment>, p: Pass, did: seq<bool>, refreshed: seq<bool>, L': seq<Segment>,
                     headers: seq<string>, f: int)
    requires PassStep(L, p, did, refreshed, L') && Settled(L, p.spec.aborted, headers, f)
    ensures Settled(L', p.spec.aborted, headers, f)
  {
    forall x | Holds(L', x) && x.offset <= f
      ensures !Residual(p.spec.aborted, headers, x)
    {
      var j, r := Origin(L, p, did, refreshed, L', x);
      assert Holds(L, r);
    }
  }

  function PinnedLog(): seq<Segment> {
    [Segment(0, [Block(true, [Tagged(7)])], None, -1, [], false), Segment(10, [], None, -1, [], false)]
  }

  lemma PinnedPass()
    ensures var L, p := PinnedLog(), Pass(PinnedSpec(), 0, 0);
            ValidLog(L) && AllTruthful(L) && Governed(L, p, [true]) && Holds(L, Tagged(7)) && L[0].Next() == 8
  {
    var r, L, p := Tagged(7), PinnedLog(), Pass(PinnedSpec(), 0, 0);
    assert Flatten([Block(true, [r])]) == [r];
    assert L[0].Records() == [r] && L[1].Records() == [];
    assert "tx" in r.headers;
    assert HeldBy(L, 0, r) && UnkeyedStrip(p.spec, r);
    assert Wants(L, p, 0);
  }

  /** A floor reported over a pinned record: the strip target at 7 is kept by the
      ceiling at 5, and the floor is 7 all the same. */
  lemma FloorIgnoresCeiling()
    ensures var L, p := PinnedLog(), Pass(PinnedSpec(), 0, 0);
            var L' := Kept(Parts(L, p, [true], [true, true]));
            PassStep(L, p, [true], [true, true], L') && AllTruthful(L)
            && Floor(L, p, [true]) == 7 && !Settled(L', p.spec.aborted, p.spec.stripHeaders, 7)
  {
    var L, p := PinnedLog(), Pass(PinnedSpec(), 0, 0);
    PinnedPass();
    PinnedFloor();
    FloorExact(L, p, [true], [true, true], Kept(Parts(L, p, [true], [true, true])));
    assert Unexamined(p.spec, 7, Tagged(7)) && Residual(p.spec.aborted, p.spec.stripHeaders, Tagged(7)) by {
      assert "tx" in Tagged(7).headers;
    }
  }

  lemma PinnedFloor()
    ensures Floor(PinnedLog(), Pass(PinnedSpec(), 0, 0), [true]) == 7
  {
    var L, p := PinnedLog(), Pass(PinnedSpec(), 0, 0);
    PinnedPass();
    assert Verified(L, p, [true], 0);
    assert ChainTo(L, p, [true], 1);
  }

  // ---- the fixed point ----

  /** A pass no budget, tier or failure cut short. */
  ghost predicate Complete(L: seq<Segment>, p: Pass, did: seq<bool>) {
    |did| + 1 == |L| && forall i :: 0 <= i < |did| && Wants(L, p, i) ==> did[i]
  }

  /** A record of an unprotected sealed segment of a completely compacted log is one
      a further pass would keep as it is. */
  lemma NothingLeft(L: seq<Segment>, p: Pass, did: seq<bool>, refreshed: seq<bool>, L': seq<Segment>,
                    i: int, r: Record, x: Record)
    requires PassStep(L, p, did, refreshed, L') && Complete(L, p, did) && AllTruthful(L)
    requires 0 <= i < |did| && !Protected(L[i], p.horizon) && Becomes(L, p, did, i, r, x)
    ensures Outcome(p.spec, !p.spec.stripOnly && Dropped(L', p.spec, p.now, x), x) == Some(x)
  {
    RecordBounds(L, i, r);
    DropsByRecord(L, p, i, r);
    if !Rewrites(did, i) {
      assert Converged(L, p, i);
      SkipSound(L, p, i);
    }
    NoNewDrops(L, p, did, refreshed, L', i, r, x);
  }

  /** A surviving copy below the ceiling is not dropped by the pass that follows. */
  lemma NoNewDrops(L: seq<Segment>, p: Pass, did: seq<bool>, refreshed: seq<bool>, L': seq<Segment>,
                   i: int, r: Record, x: Record)
    requires PassStep(L, p, did, refreshed, L') && Becomes(L, p, did, i, r, x)
    ensures Dropped(L', p.spec, p.now, x) && x.offset < p.spec.ceiling ==> Dropped(L, p.spec, p.now, r)
  {
    if Superseded(L', p.spec, x) {
      var q' :| Holds(L', q') && Candidate(p.spec, q') && q'.key == x.key && x.offset < q'.offset;
      var j, q := Origin(L, p, did, refreshed, L', q');
      assert Holds(L, q);
      assert Superseded(L, p.spec, r);
    }
  }

  /** What a second pass may touch it would keep as it is. */
  lemma SecondPassKeeps(L: seq<Segment>, p: Pass, did: seq<bool>, refreshed: seq<bool>, L': seq<Segment>, k: int,
                        x: Record)
    requires PassStep(L, p, did, refreshed, L') && Complete(L, p, did) && AllTruthful(L)
    requires 0 <= k < |L'| - 1 && !Protected(L'[k], p.horizon) && HeldBy(L', k, x)
    ensures Outcome(p.spec, x.offset in PassDrops(L', p, k), x) == Some(x)
  {
    PassValid(L, p, did, refreshed, L');
    DropsByRecord(L', p, k, x);
    var i := KeptSource(Parts(L, p, did, refreshed), k);
    AfterHolds(L, p, did, refreshed, i, x);
    var r :| Becomes(L, p, did, i, r, x);
    if i == |L| - 1 {
      assert HeldBy(L', |L'| - 1, x);
      OffsetOrder(L', k, x, |L'| - 1, x);
    } else {
      assert Protected(L[i], p.horizon) ==> !Rewrites(did, i);
      NothingLeft(L, p, did, refreshed, L', i, r, x);
    }
  }

  /** After a complete pass, a second one under the same spec and clock removes and
      strips nothing, whatever it chooses to rewrite and wherever it stops. */
  lemma SecondPassIdle(L: seq<Segment>, p: Pass, did: seq<bool>, refreshed: seq<bool>, L': seq<Segment>,
                       did': seq<bool>, refreshed': seq<bool>, L'': seq<Segment>)
    requires PassStep(L, p, did, refreshed, L') && Complete(L, p, did) && AllTruthful(L)
    requires PassStep(L', p, did', refreshed', L'')
    ensures forall x :: Holds(L'', x) <==> Holds(L', x)
  {
    forall k, x | HeldBy(L', k, x)
      ensures forall y :: Becomes(L', p, did', k, x, y) <==> y == x
    {
      if Rewrites(did', k) {
        assert Wants(L', p, k);
        SecondPassKeeps(L, p, did, refreshed, L', k, x);
      }
    }
    forall x
      ensures Holds(L'', x) <==> Holds(L', x)
    {
      PassHolds(L', p, did', refreshed', L'', x);
      if Holds(L', x) {
        var k :| HeldBy(L', k, x);
        assert Becomes(L', p, did', k, x, x);
      }
    }
  }
}
