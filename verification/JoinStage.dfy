/** Planning the runs to join, and the list of segments the stage leaves. */
module JoinStage {
  import opened Bytes
  import opened LogModel
  import opened Overlaps
  import opened Joins

  /** Adjacent segments to join, by first and last index. */
  datatype Run = Run(first: nat, last: nat)

  /** Size caps: for local segments, and for each tier that has one. A tier without an
      entry is never joined. */
  datatype Caps = Caps(local: int, tiers: map<string, int>)

  function CapFor(caps: Caps, tier: Option<string>): int {
    match tier
    case None => caps.local
    case Some(t) => if t in caps.tiers then caps.tiers[t] else 0
  }

  predicate Joinable(caps: Caps, p: Piece) {
    CapFor(caps, p.tier) > 0 && p.size < CapFor(caps, p.tier)
  }

  // ---- what a plan must be ----

  ghost predicate ValidRun(ps: seq<Piece>, caps: Caps, r: Run) {
    && r.first <= r.last < |ps| - 1
    && (forall i :: r.first <= i <= r.last ==> Joinable(caps, ps[i]) && ps[i].tier == ps[r.first].tier)
    && Size(ps[r.first..r.last + 1]) <= CapFor(caps, ps[r.first].tier)
  }

  ghost predicate Worth(ps: seq<Piece>, caps: Caps, r: Run) {
    ValidRun(ps, caps, r) && r.first < r.last
  }

  ghost predicate Apart(r: Run, q: Run) {
    r.last < q.first
  }

  ghost predicate Ordered(runs: seq<Run>) {
    forall j, k {:trigger Apart(runs[j], runs[k])} :: 0 <= j < k < |runs| ==> Apart(runs[j], runs[k])
  }

  ghost predicate Planned(ps: seq<Piece>, caps: Caps, runs: seq<Run>) {
    && (forall k {:trigger Worth(ps, caps, runs[k])} :: 0 <= k < |runs| ==> Worth(ps, caps, runs[k]))
    && Ordered(runs)
  }

  ghost predicate InRun(runs: seq<Run>, i: int) {
    exists k :: 0 <= k < |runs| && runs[k].first <= i <= runs[k].last
  }

  /** Two neighbours that could be joined by themselves. */
  ghost predicate CouldJoin(ps: seq<Piece>, caps: Caps, i: nat)
    requires i + 1 < |ps|
  {
    && Joinable(caps, ps[i]) && Joinable(caps, ps[i + 1]) && ps[i].tier == ps[i + 1].tier
    && ps[i].size + ps[i + 1].size <= CapFor(caps, ps[i].tier)
  }

  /** No such pair of sealed neighbours is left out of the plan altogether. */
  ghost predicate Thorough(ps: seq<Piece>, caps: Caps, runs: seq<Run>, n: nat)
    requires n <= |ps|
  {
    forall i :: 0 <= i && i + 1 < n && CouldJoin(ps, caps, i) ==> InRun(runs, i) || InRun(runs, i + 1)
  }

  /** Every run ends before an index. */
  ghost predicate Until(runs: seq<Run>, n: int) {
    forall k :: 0 <= k < |runs| ==> runs[k].last < n
  }

  lemma OrderedSnoc(runs: seq<Run>, r: Run)
    requires Ordered(runs) && Until(runs, r.first) && r.first <= r.last
    ensures Ordered(runs + [r]) && Until(runs + [r], r.last + 1)
  {
    forall j, k | 0 <= j < k < |runs + [r]|
      ensures Apart((runs + [r])[j], (runs + [r])[k])
    {
      assert k < |runs| ==> Apart(runs[j], runs[k]);
    }
  }

  // ---- the planner ----

  /** The run being grown over the segments before n, and what has been planned. */
  ghost predicate Growing(ps: seq<Piece>, caps: Caps, runs: seq<Run>, cur: Option<Run>, n: nat)
    requires n < |ps|
  {
    && Planned(ps, caps, runs)
    && Until(runs, if cur.Some? then cur.value.first else n)
    && (cur.Some? ==> ValidRun(ps, caps, cur.value) && cur.value.last == n - 1)
    && (n > 0 && Joinable(caps, ps[n - 1]) ==> cur.Some?)
  }

  /** Close the run being grown; a run of one is not a join. */
  function Flush(runs: seq<Run>, cur: Option<Run>): seq<Run> {
    if cur.Some? && cur.value.first < cur.value.last then runs + [cur.value] else runs
  }

  /** Planned through a segment, counting the run being grown. */
  ghost predicate Done(ps: seq<Piece>, caps: Caps, runs: seq<Run>, cur: Option<Run>, n: nat)
    requires n <= |ps|
  {
    Thorough(ps, caps, Flush(runs, cur), n)
  }

  lemma FlushPlanned(ps: seq<Piece>, caps: Caps, runs: seq<Run>, cur: Option<Run>, n: nat)
    requires n < |ps| && Growing(ps, caps, runs, cur, n)
    ensures Planned(ps, caps, Flush(runs, cur)) && Until(Flush(runs, cur), n)
  {
    if cur.Some? && cur.value.first < cur.value.last {
      OrderedSnoc(runs, cur.value);
      forall k | 0 <= k < |runs + [cur.value]|
        ensures Worth(ps, caps, (runs + [cur.value])[k])
      {
        assert k < |runs| ==> Worth(ps, caps, runs[k]);
      }
    }
  }

  lemma FlushStill(runs: seq<Run>, cur: Option<Run>, cur': Option<Run>, i: int)
    requires InRun(Flush(runs, cur), i)
    requires cur.Some? ==> cur'.Some? && cur'.value.first <= cur.value.first && cur.value.last <= cur'.value.last
    ensures InRun(Flush(runs, cur'), i)
  {
    var k :| 0 <= k < |Flush(runs, cur)| && Flush(runs, cur)[k].first <= i <= Flush(runs, cur)[k].last;
    assert Flush(runs, cur')[k].first <= i <= Flush(runs, cur')[k].last;
  }

  lemma FlushKeeps(runs: seq<Run>, cur: Option<Run>, cur': Option<Run>, i: int)
    requires InRun(Flush(runs, cur), i)
    ensures InRun(Flush(Flush(runs, cur), cur'), i)
  {
    var k :| 0 <= k < |Flush(runs, cur)| && Flush(runs, cur)[k].first <= i <= Flush(runs, cur)[k].last;
    assert Flush(Flush(runs, cur), cur')[k] == Flush(runs, cur)[k];
  }

  /** Growing the run by the next segment. */
  lemma Grow(ps: seq<Piece>, caps: Caps, runs: seq<Run>, cur: Run, n: nat)
    requires n + 1 < |ps| && Growing(ps, caps, runs, Some(cur), n) && Done(ps, caps, runs, Some(cur), n)
    requires Joinable(caps, ps[n]) && ps[n].tier == ps[cur.first].tier
    requires Size(ps[cur.first..cur.last + 1]) + ps[n].size <= CapFor(caps, ps[n].tier)
    ensures Growing(ps, caps, runs, Some(Run(cur.first, n)), n + 1) &&
            Done(ps, caps, runs, Some(Run(cur.first, n)), n + 1)
    ensures Size(ps[cur.first..n + 1]) == Size(ps[cur.first..cur.last + 1]) + ps[n].size
  {
    GrowRun(ps, caps, cur, n);
    GrowDone(ps, caps, runs, cur, n);
  }

  lemma GrowRun(ps: seq<Piece>, caps: Caps, cur: Run, n: nat)
    requires n + 1 < |ps| && ValidRun(ps, caps, cur) && cur.last == n - 1
    requires Joinable(caps, ps[n]) && ps[n].tier == ps[cur.first].tier
    requires Size(ps[cur.first..cur.last + 1]) + ps[n].size <= CapFor(caps, ps[n].tier)
    ensures ValidRun(ps, caps, Run(cur.first, n))
    ensures Size(ps[cur.first..n + 1]) == Size(ps[cur.first..cur.last + 1]) + ps[n].size
  {
    assert ps[cur.first..n + 1][..n - cur.first] == ps[cur.first..cur.last + 1];
  }

  lemma GrowDone(ps: seq<Piece>, caps: Caps, runs: seq<Run>, cur: Run, n: nat)
    requires n + 1 < |ps| && cur.first <= cur.last == n - 1 && Done(ps, caps, runs, Some(cur), n)
    ensures Done(ps, caps, runs, Some(Run(cur.first, n)), n + 1)
  {
    var grown := Run(cur.first, n);
    forall i | 0 <= i && i + 1 < n + 1 && CouldJoin(ps, caps, i)
      ensures InRun(Flush(runs, Some(grown)), i) || InRun(Flush(runs, Some(grown)), i + 1)
    {
      if i + 1 < n {
        if InRun(Flush(runs, Some(cur)), i) {
          FlushStill(runs, Some(cur), Some(grown), i);
        } else {
          FlushStill(runs, Some(cur), Some(grown), i + 1);
        }
      } else {
        assert Flush(runs, Some(grown))[|runs|] == grown;
      }
    }
  }

  /** Ending the run, and starting another unless the next segment cannot be joined. */
  lemma Restart(ps: seq<Piece>, caps: Caps, runs: seq<Run>, cur: Option<Run>, n: nat, next: Option<Run>)
    requires n + 1 < |ps| && Growing(ps, caps, runs, cur, n) && Done(ps, caps, runs, cur, n) && Full(ps, caps, cur, n)
    requires next == if Joinable(caps, ps[n]) then Some(Run(n, n)) else None
    ensures Growing(ps, caps, Flush(runs, cur), next, n + 1) && Done(ps, caps, Flush(runs, cur), next, n + 1)
    ensures Size(ps[n..n + 1]) == ps[n].size
  {
    FlushPlanned(ps, caps, runs, cur, n);
    SizeOfSlice(ps, n);
    forall i | 0 <= i && i + 1 < n + 1 && CouldJoin(ps, caps, i)
      ensures InRun(Flush(Flush(runs, cur), next), i) || InRun(Flush(Flush(runs, cur), next), i + 1)
    {
      if i + 1 == n {
        PairFits(ps, caps, cur, n);
        assert Flush(runs, cur)[|runs|] == cur.value;
      }
      if InRun(Flush(runs, cur), i) {
        FlushKeeps(runs, cur, next, i);
      } else {
        FlushKeeps(runs, cur, next, i + 1);
      }
    }
  }

  /** The run being grown cannot take the next segment. */
  ghost predicate Full(ps: seq<Piece>, caps: Caps, cur: Option<Run>, n: nat)
    requires n < |ps|
  {
    Joinable(caps, ps[n]) && cur.Some? && cur.value.first <= cur.value.last < n &&
      ps[n].tier == ps[cur.value.first].tier ==>
      Size(ps[cur.value.first..cur.value.last + 1]) + ps[n].size > CapFor(caps, ps[n].tier)
  }

  lemma SizeOfSlice(ps: seq<Piece>, n: nat)
    requires n < |ps|
    ensures Size(ps[n..n + 1]) == ps[n].size
  {
    assert ps[n..n + 1] == [ps[n]];
    assert [ps[n]][..0] == [];
  }

  /** A run that could not take the next segment, although its last one alone could have
      been joined with it, is longer than one. */
  lemma PairFits(ps: seq<Piece>, caps: Caps, cur: Option<Run>, n: nat)
    requires 0 < n && n + 1 < |ps| && CouldJoin(ps, caps, n - 1) && Full(ps, caps, cur, n)
    requires cur.Some? && ValidRun(ps, caps, cur.value) && cur.value.last == n - 1
    ensures cur.value.first < cur.value.last
  {
    SizeOfSlice(ps, n - 1);
  }

  /** One more sealed segment. */
  method PlanOne(ps: seq<Piece>, caps: Caps, runs: seq<Run>, cur: Option<Run>, bytes: nat, n: nat)
    returns (runs': seq<Run>, cur': Option<Run>, bytes': nat)
    requires n + 1 < |ps| && Growing(ps, caps, runs, cur, n) && Done(ps, caps, runs, cur, n)
    requires cur.Some? ==> bytes == Size(ps[cur.value.first..cur.value.last + 1])
    ensures Growing(ps, caps, runs', cur', n + 1) && Done(ps, caps, runs', cur', n + 1)
    ensures cur'.Some? ==> bytes' == Size(ps[cur'.value.first..cur'.value.last + 1])
  {
    var p := ps[n];
    var cap := CapFor(caps, p.tier);
    if cap <= 0 || p.size >= cap {
      Restart(ps, caps, runs, cur, n, None);
      return Flush(runs, cur), None, 0;
    }
    if cur.Some? && ps[cur.value.first].tier == p.tier && bytes + p.size <= cap {
      Grow(ps, caps, runs, cur.value, n);
      return runs, Some(Run(cur.value.first, n)), bytes + p.size;
    }
    Restart(ps, caps, runs, cur, n, Some(Run(n, n)));
    return Flush(runs, cur), Some(Run(n, n)), p.size;
  }

  /** Greedy, left to right, leaving the active segment alone. */
  method PlanJoins(ps: seq<Piece>, caps: Caps) returns (runs: seq<Run>)
    ensures Planned(ps, caps, runs)
    ensures |ps| > 0 ==> Thorough(ps, caps, runs, |ps| - 1)
  {
    runs := [];
    if |ps| < 3 {
      return;
    }
    var cur: Option<Run> := None;
    var bytes := 0;
    for n := 0 to |ps| - 1
      invariant Growing(ps, caps, runs, cur, n) && Done(ps, caps, runs, cur, n)
      invariant cur.Some? ==> bytes == Size(ps[cur.value.first..cur.value.last + 1])
    {
      runs, cur, bytes := PlanOne(ps, caps, runs, cur, bytes, n);
    }
    FlushPlanned(ps, caps, runs, cur, |ps| - 1);
    runs := Flush(runs, cur);
  }

  // ---- the stage ----

  /** What the pass is told about each planned run: whether the budget allows it,
      whether this log owns its tier, and whether carrying it out fails. */
  datatype Answers = Answers(allow: nat -> bool, owns: string -> bool, fails: nat -> bool)

  predicate Picks(ps: seq<Piece>, plan: seq<Run>, answers: Answers, k: nat) {
    && k < |plan| && plan[k].first <= plan[k].last < |ps|
    && (ps[plan[k].first].tier.Some? ==> answers.owns(ps[plan[k].first].tier.value))
    && answers.allow(k)
  }

  /** The first segment past the last run joined among the first n planned. */
  function After(ps: seq<Piece>, plan: seq<Run>, answers: Answers, n: nat): nat {
    if n == 0 then 0
    else if Picks(ps, plan, answers, n - 1) then plan[n - 1].last + 1
    else After(ps, plan, answers, n - 1)
  }

  function Slice(ps: seq<Piece>, lo: nat, hi: nat): seq<Piece> {
    if lo <= hi <= |ps| then ps[lo..hi] else []
  }

  /** The list up to there, each joined run replaced by its one segment. */
  function Through(ps: seq<Piece>, plan: seq<Run>, answers: Answers, n: nat): seq<Piece> {
    if n == 0 then []
    else if Picks(ps, plan, answers, n - 1) then
      var r := plan[n - 1];
      Through(ps, plan, answers, n - 1) + Slice(ps, After(ps, plan, answers, n - 1), r.first) +
        [Joined(ps[r.first..r.last + 1])]
    else Through(ps, plan, answers, n - 1)
  }

  /** The log with those runs collapsed and nothing else changed. */
  function Collapse(ps: seq<Piece>, plan: seq<Run>, answers: Answers, n: nat): seq<Piece> {
    Through(ps, plan, answers, n) + Slice(ps, After(ps, plan, answers, n), |ps|)
  }

  lemma OneMoreJoin(ps: seq<Piece>, out: seq<Piece>, next: nat, r: Run)
    requires next <= r.first <= r.last < |ps| && Log(out + Slice(ps, next, |ps|))
    ensures var ps' := out + Slice(ps, next, r.first) + [Joined(ps[r.first..r.last + 1])] + Slice(ps, r.last + 1, |ps|);
            Log(ps') && Records(ps') == Records(out + Slice(ps, next, |ps|))
  {
    var mid, inputs, rest := Slice(ps, next, r.first), ps[r.first..r.last + 1], Slice(ps, r.last + 1, |ps|);
    assert Slice(ps, next, |ps|) == mid + inputs + rest;
    assert out + (mid + inputs + rest) == out + mid + inputs + rest;
    JoinKeeps(out + mid, inputs, rest);
  }

  /** Runs are joined in order and never reach the active segment. */
  lemma {:induction false} AfterBound(ps: seq<Piece>, caps: Caps, plan: seq<Run>, answers: Answers, n: nat)
    requires Planned(ps, caps, plan) && n <= |plan| && ps != []
    ensures After(ps, plan, answers, n) <= if n < |plan| then plan[n].first else |ps| - 1
  {
    if n > 0 {
      AfterBound(ps, caps, plan, answers, n - 1);
      assert Worth(ps, caps, plan[n - 1]);
      if n < |plan| {
        assert Apart(plan[n - 1], plan[n]);
      }
    }
  }

  /** What is out, and what is still to come, are the log as it was. */
  ghost predicate Keeps(ps: seq<Piece>, out: seq<Piece>, next: nat) {
    Log(out + Slice(ps, next, |ps|)) && Records(out + Slice(ps, next, |ps|)) == Records(ps)
  }

  /** The list carried on to the run and the run's one segment after it. */
  ghost predicate JoinsNext(ps: seq<Piece>, out: seq<Piece>, next: nat, r: Run, out': seq<Piece>) {
    && next <= r.first <= r.last < |ps|
    && out' == out + Slice(ps, next, r.first) + [Joined(ps[r.first..r.last + 1])]
  }

  lemma KeepsJoin(ps: seq<Piece>, out: seq<Piece>, next: nat, r: Run, out': seq<Piece>)
    requires Keeps(ps, out, next) && JoinsNext(ps, out, next, r, out')
    ensures Keeps(ps, out', r.last + 1)
  {
    OneMoreJoin(ps, out, next, r);
  }

  lemma KeepsNothing(ps: seq<Piece>)
    requires Log(ps)
    ensures Keeps(ps, [], 0)
  {
    assert [] + ps[0..|ps|] == ps;
  }

  /** The join stage. Whichever runs the budget, tier ownership and failures leave out,
      the list it returns is the log with the others collapsed. */
  method JoinSegments(ps: seq<Piece>, caps: Caps, answers: Answers)
    returns (out: seq<Piece>, failed: bool, ghost plan: seq<Run>, ghost n: nat)
    requires Log(ps)
    ensures Planned(ps, caps, plan) && n <= |plan| && out == Collapse(ps, plan, answers, n)
    ensures if failed then Picks(ps, plan, answers, n) && answers.fails(n) else n == |plan|
    ensures Log(out) && Records(out) == Records(ps)
    ensures ps != [] ==> out != [] && out[|out| - 1] == ps[|ps| - 1]
  {
    var runs := PlanJoins(ps, caps);
    plan := runs;
    out, failed, n := JoinPlanned(ps, caps, runs, answers);
  }

  /** Carry out the plan. */
  method JoinPlanned(ps: seq<Piece>, ghost caps: Caps, runs: seq<Run>, answers: Answers)
    returns (out: seq<Piece>, failed: bool, ghost n: nat)
    requires Log(ps) && Planned(ps, caps, runs)
    ensures n <= |runs| && out == Collapse(ps, runs, answers, n)
    ensures if failed then Picks(ps, runs, answers, n) && answers.fails(n) else n == |runs|
    ensures Log(out) && Records(out) == Records(ps)
    ensures ps != [] ==> out != [] && out[|out| - 1] == ps[|ps| - 1]
  {
    out := [];
    var next: nat := 0;
    for k := 0 to |runs|
      invariant JoinedTo(ps, runs, answers, k, out, next)
    {
      if Picks(ps, runs, answers, k) {
        if answers.fails(k) {
          out := Finish(ps, caps, runs, answers, k, out, next);
          return out, true, k;
        }
        RunFits(ps, caps, runs, answers, k);
        var r := runs[k];
        var out' := out + Slice(ps, next, r.first) + [Joined(ps[r.first..r.last + 1])];
        JoinOne(ps, runs, answers, k, out, next, out');
        out, next := out', r.last + 1;
      } else {
        PassOver(ps, runs, answers, k, out, next);
      }
    }
    out := Finish(ps, caps, runs, answers, |runs|, out, next);
    return out, false, |runs|;
  }

  /** The first k planned runs are dealt with. */
  ghost predicate JoinedTo(ps: seq<Piece>, plan: seq<Run>, answers: Answers, k: nat, out: seq<Piece>, next: nat) {
    out == Through(ps, plan, answers, k) && next == After(ps, plan, answers, k)
  }

  lemma JoinOne(ps: seq<Piece>, plan: seq<Run>, answers: Answers, k: nat, out: seq<Piece>, next: nat,
                out': seq<Piece>)
    requires JoinedTo(ps, plan, answers, k, out, next) && Picks(ps, plan, answers, k)
    requires JoinsNext(ps, out, next, plan[k], out')
    ensures JoinedTo(ps, plan, answers, k + 1, out', plan[k].last + 1)
  {
  }

  lemma PassOver(ps: seq<Piece>, plan: seq<Run>, answers: Answers, k: nat, out: seq<Piece>, next: nat)
    requires JoinedTo(ps, plan, answers, k, out, next) && !Picks(ps, plan, answers, k)
    ensures JoinedTo(ps, plan, answers, k + 1, out, next)
  {
  }

  lemma {:induction false} KeepsThrough(ps: seq<Piece>, plan: seq<Run>, answers: Answers, n: nat, out: seq<Piece>,
                                        next: nat)
    requires Log(ps) && AllFit(ps, plan, answers) && n <= |plan| && JoinedTo(ps, plan, answers, n, out, next)
    ensures Keeps(ps, out, next)
    decreases n
  {
    if n == 0 {
      KeepsNothing(ps);
    } else {
      var out0, next0 := Through(ps, plan, answers, n - 1), After(ps, plan, answers, n - 1);
      KeepsThrough(ps, plan, answers, n - 1, out0, next0);
      var r := LastStep(ps, plan, answers, n, out0, next0, out, next);
      if r.Some? {
        KeepsJoin(ps, out0, next0, r.value, out);
      }
    }
  }

  lemma LastStep(ps: seq<Piece>, plan: seq<Run>, answers: Answers, n: nat, out: seq<Piece>, next: nat,
                 out': seq<Piece>, next': nat)
    returns (r: Option<Run>)
    requires AllFit(ps, plan, answers) && 0 < n <= |plan| && JoinedTo(ps, plan, answers, n - 1, out, next)
    requires JoinedTo(ps, plan, answers, n, out', next')
    ensures r.None? ==> out' == out && next' == next
    ensures r.Some? ==> JoinsNext(ps, out, next, r.value, out') && next' == r.value.last + 1
  {
    assert Fits(ps, plan, answers, n - 1);
    r := if Picks(ps, plan, answers, n - 1) then Some(plan[n - 1]) else None;
  }

  /** Carry over what no run was joined from. */
  method Finish(ps: seq<Piece>, ghost caps: Caps, ghost plan: seq<Run>, ghost answers: Answers, ghost n: nat,
                done: seq<Piece>, next: nat)
    returns (out: seq<Piece>)
    requires Log(ps) && Planned(ps, caps, plan) && n <= |plan| && JoinedTo(ps, plan, answers, n, done, next)
    ensures out == Collapse(ps, plan, answers, n) && Log(out) && Records(out) == Records(ps)
    ensures ps != [] ==> out != [] && out[|out| - 1] == ps[|ps| - 1]
  {
    PlanFits(ps, caps, plan, answers);
    KeepsThrough(ps, plan, answers, n, done, next);
    out := done + Slice(ps, next, |ps|);
    if ps != [] {
      BeforeActive(ps, caps, plan, answers, n);
      LastOfSlice(ps, next);
    }
  }

  /** The run lies in the log, past the runs joined before it. */
  ghost predicate Fits(ps: seq<Piece>, plan: seq<Run>, answers: Answers, k: nat)
    requires k < |plan|
  {
    After(ps, plan, answers, k) <= plan[k].first <= plan[k].last < |ps|
  }

  ghost predicate AllFit(ps: seq<Piece>, plan: seq<Run>, answers: Answers) {
    forall k {:trigger Fits(ps, plan, answers, k)} :: 0 <= k < |plan| ==> Fits(ps, plan, answers, k)
  }

  lemma RunFits(ps: seq<Piece>, caps: Caps, plan: seq<Run>, answers: Answers, k: nat)
    requires Planned(ps, caps, plan) && k < |plan|
    ensures Fits(ps, plan, answers, k)
  {
    assert Worth(ps, caps, plan[k]);
    AfterBound(ps, caps, plan, answers, k);
  }

  lemma PlanFits(ps: seq<Piece>, caps: Caps, plan: seq<Run>, answers: Answers)
    requires Planned(ps, caps, plan)
    ensures AllFit(ps, plan, answers)
  {
    forall k | 0 <= k < |plan|
      ensures Fits(ps, plan, answers, k)
    {
      RunFits(ps, caps, plan, answers, k);
    }
  }

  lemma BeforeActive(ps: seq<Piece>, caps: Caps, plan: seq<Run>, answers: Answers, n: nat)
    requires Planned(ps, caps, plan) && n <= |plan| && ps != []
    ensures After(ps, plan, answers, n) < |ps|
  {
    AfterBound(ps, caps, plan, answers, n);
    assert n < |plan| ==> Worth(ps, caps, plan[n]);
  }

  lemma LastOfSlice(ps: seq<Piece>, k: nat)
    requires k < |ps|
    ensures var s := Slice(ps, k, |ps|); s != [] && s[|s| - 1] == ps[|ps| - 1]
  {
  }
}
