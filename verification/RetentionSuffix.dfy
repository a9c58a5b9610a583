/** When retention leaves one log, and when it leaves two ends of one: each half keeps a
    suffix of itself, but the two together need not be a suffix of the log. */
module RetentionSuffix {
  import opened Bytes
  import opened Retention

  /** No two segments share a base, which names their files. */
  ghost predicate Ascending(segs: seq<Seg>) {
    forall i, j :: 0 <= i < j < |segs| ==> segs[i].base < segs[j].base
  }

  ghost predicate IsSuffix(segs: seq<Seg>, out: seq<Seg>) {
    exists k :: 0 <= k <= |segs| && out == segs[k..]
  }

  lemma TwoEnds(segs: seq<Seg>, n: nat, a: nat, b: nat)
    requires Ascending(segs) && a <= n && n + b <= |segs|
    ensures IsSuffix(segs, segs[a..n] + segs[n + b..]) <==> a == n || b == 0
  {
    var out := segs[a..n] + segs[n + b..];
    if a == n {
      assert out == segs[n + b..];
    } else if b == 0 {
      assert out == segs[a..];
    } else {
      assert out[0] == segs[a];
      forall k | 0 <= k <= |segs|
        ensures out != segs[k..]
      {
        assert k == a + b ==> segs[k..][0].base > segs[a].base;
      }
    }
  }

  // ---- the local half ----

  /** The local half is left whole: its limits are met, or the floor is in the oldest of
      its segments. */
  ghost predicate LocalWhole(limits: Limits, local: seq<Seg>, floor: Option<int>) {
    Meets(limits, local, 1, 0) || Floored(local, 0, floor)
  }

  lemma LocalExact(limits: Limits, local: seq<Seg>, b: nat, floor: Option<int>)
    requires InOrder(local) && Enforced(limits, local, 1, b, !Floored(local, b, floor)) && SparesFloor(local, b, floor)
    ensures b == 0 <==> LocalWhole(limits, local, floor)
  {
    if b > 1 && floor.Some? {
      assert Before(local[1], local[b]);
    }
  }

  // ---- the tiered half ----

  /** Every segment of a run may go: its tier is configured and may be written to, and its
      limits ask for each of them. */
  ghost predicate Drains(r: TierRun, tiers: map<string, Limits>, skip: set<string>) {
    && r.tier.Some? && r.tier.value !in skip && r.tier.value in tiers
    && forall j :: 0 <= j < |r.segs| ==> !Meets(tiers[r.tier.value], r.segs, 0, j)
  }

  ghost predicate AllDrain(runs: seq<TierRun>, tiers: map<string, Limits>, skip: set<string>) {
    forall i :: 0 <= i < |runs| ==> Drains(runs[i], tiers, skip)
  }

  /** The tiered half is deleted altogether: every run of it drains, and the floor is past
      all of it. */
  ghost predicate TieredGone(segs: seq<Seg>, n: nat, tiers: map<string, Limits>, skip: set<string>, floor: Option<int>)
    requires n <= |segs|
  {
    && (floor.Some? ==> n < |segs| && segs[n].base <= floor.value)
    && exists runs :: RunsOf(segs[..n], runs) && AllDrain(runs, tiers, skip)
  }

  lemma {:induction false} FlatMore(runs: seq<TierRun>, i: nat)
    requires i < |runs|
    ensures |Flat(runs[..i])| + |runs[i].segs| <= |Flat(runs)|
    decreases |runs|
  {
    var front := runs[..|runs| - 1];
    if i < |runs| - 1 {
      FlatMore(front, i);
      assert front[..i] == runs[..i];
    }
  }

  /** A list of segments has one list of maximal runs. */
  lemma {:induction false} RunsUnique(segs: seq<Seg>, x: seq<TierRun>, y: seq<TierRun>)
    requires RunsOf(segs, x) && RunsOf(segs, y)
    ensures x == y
    decreases |x|
  {
    if x == [] || y == [] {
      NoRuns(x);
      NoRuns(y);
    } else {
      var p, q := x[|x| - 1], y[|y| - 1];
      LastRun(segs, x, y);
      LastRun(segs, y, x);
      assert p.segs == segs[|segs| - |p.segs|..] == q.segs;
      assert p == q;
      var front := segs[..|segs| - |p.segs|];
      FrontRuns(segs, x);
      FrontRuns(segs, y);
      RunsUnique(front, x[..|x| - 1], y[..|y| - 1]);
      assert x == x[..|x| - 1] + [p] && y == y[..|y| - 1] + [q];
    }
  }

  lemma NoRuns(runs: seq<TierRun>)
    requires forall n :: 0 <= n < |runs| ==> OneTier(runs[n])
    ensures Flat(runs) == [] <==> runs == []
  {
    if runs != [] {
      assert OneTier(runs[|runs| - 1]);
    }
  }

  lemma FrontRuns(segs: seq<Seg>, runs: seq<TierRun>)
    requires RunsOf(segs, runs) && runs != []
    ensures var p := runs[|runs| - 1];
            |p.segs| <= |segs| && RunsOf(segs[..|segs| - |p.segs|], runs[..|runs| - 1])
  {
  }

  /** The last run reaches no further back than that of any other such list. */
  lemma LastRun(segs: seq<Seg>, x: seq<TierRun>, y: seq<TierRun>)
    requires RunsOf(segs, x) && RunsOf(segs, y) && x != [] && y != []
    ensures var p, q := x[|x| - 1], y[|y| - 1];
            |p.segs| <= |segs| && |q.segs| <= |segs| && |p.segs| >= |q.segs| && p.tier == q.tier
            && p.segs == segs[|segs| - |p.segs|..]
  {
    var p, q := x[|x| - 1], y[|y| - 1];
    assert OneTier(p) && OneTier(q);
    EndsWith(segs, x);
    EndsWith(segs, y);
    assert segs[|segs| - 1].tier == p.tier == q.tier;
    if |x| == 1 {
      assert x[..0] == [] && Flat(x[..0]) == [];
      assert segs == p.segs;
    } else {
      var o := x[|x| - 2];
      assert OneTier(o);
      FrontRuns(segs, x);
      EndsWith(segs[..|segs| - |p.segs|], x[..|x| - 1]);
      var at := |segs| - |p.segs| - 1;
      assert segs[at].tier == o.tier;
    }
  }

  lemma EndsWith(segs: seq<Seg>, runs: seq<TierRun>)
    requires RunsOf(segs, runs) && runs != []
    ensures var p := runs[|runs| - 1];
            && 0 < |p.segs| <= |segs| && p.segs == segs[|segs| - |p.segs|..]
            && forall j :: |segs| - |p.segs| <= j < |segs| ==> segs[j].tier == p.tier
  {
    var p := runs[|runs| - 1];
    assert OneTier(p);
    forall j | |segs| - |p.segs| <= j < |segs|
      ensures segs[j].tier == p.tier
    {
      assert segs[j] == p.segs[j - (|segs| - |p.segs|)];
    }
  }

  /** Deleting the whole half is draining every run. */
  lemma GoneDrains(runs: seq<TierRun>, at: nat, d: nat, tiers: map<string, Limits>, skip: set<string>)
    requires Drained(runs, at, d, tiers, skip) && |Flat(runs[..at])| + d == |Flat(runs)|
    requires forall n :: 0 <= n < |runs| ==> OneTier(runs[n])
    ensures AllDrain(runs, tiers, skip)
  {
    forall i | 0 <= i < |runs|
      ensures Drains(runs[i], tiers, skip)
    {
      assert OneTier(runs[i]);
      if i < at {
        assert Demanded(runs[i], |runs[i].segs|, tiers, skip);
      } else {
        ReachesEnd(runs, at, d, i, tiers, skip);
      }
    }
  }

  lemma ReachesEnd(runs: seq<TierRun>, at: nat, d: nat, i: nat, tiers: map<string, Limits>, skip: set<string>)
    requires Drained(runs, at, d, tiers, skip) && |Flat(runs[..at])| + d == |Flat(runs)| && at <= i < |runs|
    requires forall n :: 0 <= n < |runs| ==> OneTier(runs[n])
    ensures i == at && d == |runs[at].segs| && Demanded(runs[at], d, tiers, skip)
  {
    assert OneTier(runs[at]) && OneTier(runs[i]);
    FlatMore(runs, at);
    FlatMore(runs, i);
    if at < i {
      FlatBetween(runs, at, i);
    }
  }

  lemma FlatBetween(runs: seq<TierRun>, at: nat, i: nat)
    requires at < i <= |runs|
    ensures |Flat(runs[..at])| + |runs[at].segs| <= |Flat(runs[..i])|
  {
    FlatMore(runs[..i], at);
    assert runs[..i][..at] == runs[..at];
  }

  /** The tiered half goes if and only if it drains. */
  lemma TieredExact(segs: seq<Seg>, n: nat, a: nat, tiers: map<string, Limits>, skip: set<string>, floor: Option<int>)
    requires InOrder(segs) && 0 < n <= |segs| && TiersMet(segs, n, a, tiers, skip, floor, true) && a <= n
    requires SparesFloor(segs, a, floor)
    ensures a == n <==> TieredGone(segs, n, tiers, skip, floor)
  {
    if NoTierLimits(tiers) {
      UnlimitedStays(segs, n, tiers, skip);
    } else {
      var runs, at, d :| TiersDone(segs, n, a, tiers, skip, floor, true, runs, at, d);
      if a == n {
        GoneDrains(runs, at, d, tiers, skip);
      }
      if TieredGone(segs, n, tiers, skip, floor) {
        var runs' :| RunsOf(segs[..n], runs') && AllDrain(runs', tiers, skip);
        RunsUnique(segs[..n], runs, runs');
        NoneStops(segs, n, a, tiers, skip, floor, runs, at, d);
      }
    }
  }

  lemma UnlimitedStays(segs: seq<Seg>, n: nat, tiers: map<string, Limits>, skip: set<string>)
    requires 0 < n <= |segs| && NoTierLimits(tiers)
    ensures !exists runs :: RunsOf(segs[..n], runs) && AllDrain(runs, tiers, skip)
  {
    forall runs: seq<TierRun> | RunsOf(segs[..n], runs)
      ensures !AllDrain(runs, tiers, skip)
    {
      NoRuns(runs);
      assert OneTier(runs[0]);
      var t := runs[0].tier;
      assert t.Some? && t.value in tiers ==> Meets(tiers[t.value], runs[0].segs, 0, 0);
    }
  }

  lemma NoneStops(segs: seq<Seg>, n: nat, a: nat, tiers: map<string, Limits>, skip: set<string>, floor: Option<int>,
                  runs: seq<TierRun>, at: nat, d: nat)
    requires InOrder(segs) && 0 < n <= |segs| && TiersDone(segs, n, a, tiers, skip, floor, true, runs, at, d)
    requires AllDrain(runs, tiers, skip) && (floor.Some? ==> n < |segs| && segs[n].base <= floor.value)
    ensures a == n
  {
    assert floor.Some? && a + 1 < n ==> Before(segs[a + 1], segs[n]);
    assert at < |runs| ==> Drains(runs[at], tiers, skip);
  }

  // ---- the whole log ----

  /** A clean without failures leaves one suffix of the log if and only if the log has no
      tiered half, its local half is left whole, or its tiered half is deleted altogether;
      each is decided by the segments, the limits and the floor before the clean. */
  lemma OneSuffix(segs: seq<Seg>, out: seq<Seg>, n: nat, a: nat, b: nat, limits: Limits, tiers: map<string, Limits>,
                  skip: set<string>, floor: Option<int>)
    requires InOrder(segs) && Ascending(segs) && CleanedTo(segs, out, n, a, b, limits, tiers, skip, floor, true)
    ensures IsSuffix(segs, out) <==>
              n == 0 || LocalWhole(limits, segs[n..], floor) || TieredGone(segs, n, tiers, skip, floor)
  {
    TwoEnds(segs, n, a, b);
    InOrderTail(segs, n);
    LocalExact(limits, segs[n..], b, floor);
    if n > 0 {
      TieredExact(segs, n, a, tiers, skip, floor);
    }
  }

  /** One tiered segment, in a tier without limits, and two local ones over a limit of one
      message: the only outcome without failures leaves a hole in the middle of the log. */
  lemma HoleInTheMiddle(out: seq<Seg>, n: nat, a: nat, b: nat)
    ensures var segs := [Seg(0, 1, 0, 1, 1, Some("cold")), Seg(1, 2, 0, 1, 1, None), Seg(2, 3, 0, 1, 1, None)];
            var tiers := map["cold" := Limits(None, 0, 0)];
            && InOrder(segs) && Ascending(segs) && !IsSuffix(segs, [segs[0], segs[2]])
            && (CleanedTo(segs, out, n, a, b, Limits(None, 1, 0), tiers, {}, None, true) <==>
                  n == 1 && a == 0 && b == 1 && out == [segs[0], segs[2]])
  {
    var segs := [Seg(0, 1, 0, 1, 1, Some("cold")), Seg(1, 2, 0, 1, 1, None), Seg(2, 3, 0, 1, 1, None)];
    var tiers := map["cold" := Limits(None, 0, 0)];
    assert NoTierLimits(tiers);
    LocalOverLimit(segs[1], segs[2], Limits(None, 1, 0));
    OnlyOutcome(segs, out, n, a, b, Limits(None, 1, 0), tiers);
    TwoEnds(segs, 1, 0, 1);
    assert segs[0..1] == [segs[0]] && segs[2..] == [segs[2]];
  }

  lemma OnlyOutcome(segs: seq<Seg>, out: seq<Seg>, n: nat, a: nat, b: nat, l: Limits, tiers: map<string, Limits>)
    requires |segs| == 3 && segs[0].tier.Some? && segs[1].tier.None? && NoTierLimits(tiers)
    requires !Meets(l, [segs[1], segs[2]], 1, 0) && Meets(l, [segs[1], segs[2]], 1, 1)
    ensures CleanedTo(segs, out, n, a, b, l, tiers, {}, None, true) <==>
            n == 1 && a == 0 && b == 1 && out == [segs[0], segs[2]]
  {
    assert segs[1..] == [segs[1], segs[2]];
    assert segs[0..1] == [segs[0]] && segs[2..] == [segs[2]];
    assert SplitAt(segs, n) <==> n == 1;
  }

  lemma LocalOverLimit(s: Seg, t: Seg, l: Limits)
    requires s.messages == 1 && t.messages == 1 && l == Limits(None, 1, 0)
    ensures !Meets(l, [s, t], 1, 0) && Meets(l, [s, t], 1, 1)
  {
    assert [s, t][0..] == [s, t] && [s, t][1..] == [t] && [t][1..] == [];
    assert Sum(Messages, [t]) == 1 + Sum(Messages, []);
  }
}
