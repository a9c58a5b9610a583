/** The group-commit barrier: appenders, rolls, Sync callers and SyncAll callers as steps
    of one state machine, every interleaving of them a run. */
module GroupCommit {
  import opened Bytes

  /** A segment's offsets run from `base` to `end`; those below `flushed` are durable.
      `dirty` asks the next flush for an fsync. */
  datatype Seg = Seg(base: int, end: int, flushed: int, dirty: bool)

  /** An fsync under way: of which segment, and the end it will make durable. */
  datatype Flush = Flush(seg: nat, captured: int)

  /** Where a Sync caller is. `asked` is the log's tail when it called; `target` the tail
      its flush claims; `n` the segments it listed and `i` the next of them. */
  datatype Pc =
    | Checking(offset: int, asked: int)
    | Waiting(offset: int, asked: int, round: nat)
    | Leading(offset: int, asked: int)
    | Snapped(offset: int, asked: int, target: int)
    | Flushing(offset: int, asked: int, target: int, n: nat, i: nat)
    | Fsyncing(offset: int, asked: int, target: int, n: nat, i: nat)
    | Flushed(offset: int, asked: int, target: int, ok: bool)
    | Returned(offset: int, asked: int, ok: bool)

  /** `flights` holds the fsyncs under way, of leaders and of SyncAll callers. */
  datatype State = State(
    segs: seq<Seg>, durable: int, flushing: bool, round: nat,
    callers: map<nat, Pc>, flights: map<nat, Flush>)

  datatype Event =
    | Append(last: int)
    | Roll
    | Call(t: nat, offset: int)
    | Check(t: nat)
    | Wake(t: nat)
    | Snap(t: nat)
    | List(t: nat)
    | Take(t: nat)
    | Synced(t: nat, ok: bool)
    | Publish(t: nat)
    | AllTake(t: nat, i: nat)
    | AllSynced(t: nat, ok: bool)

  const START := State([Seg(0, 0, 0, true)], -1, false, 0, map[], map[])

  function Tail(segs: seq<Seg>): int
    requires segs != []
  {
    segs[|segs| - 1].end - 1
  }

  // ---- the steps ----

  function At(s: State, t: nat, pc: Pc): State {
    s.(callers := s.callers[t := pc])
  }

  /** An fsync ends: what it captured is durable, or its segment asks again. */
  function EndFlush(s: State, t: nat, ok: bool): State
    requires t in s.flights && s.flights[t].seg < |s.segs|
  {
    var f := s.flights[t];
    var g := s.segs[f.seg];
    var g' := if ok then g.(flushed := if f.captured > g.flushed then f.captured else g.flushed) else g.(dirty := true);
    s.(segs := s.segs[f.seg := g'], flights := s.flights - {t})
  }

  /** Take a segment's dirty mark and start its fsync. */
  function StartFlush(s: State, t: nat, i: nat): State
    requires i < |s.segs|
  {
    s.(segs := s.segs[i := s.segs[i].(dirty := false)], flights := s.flights[t := Flush(i, s.segs[i].end)])
  }

  function Next(s: State, e: Event): Option<State>
    requires s.segs != []
  {
    var active := s.segs[|s.segs| - 1];
    match e
    case Append(last) =>
      if last < active.end then None
      else Some(s.(segs := s.segs[|s.segs| - 1 := active.(end := last + 1, dirty := true)]))
    case Roll =>
      if active.base == active.end then None
      else Some(s.(segs := s.segs + [Seg(active.end, active.end, active.end, true)]))
    case Call(t, offset) =>
      if t in s.callers || t in s.flights then None else Some(At(s, t, Checking(offset, Tail(s.segs))))
    case Check(t) =>
      if t !in s.callers || !s.callers[t].Checking? then None else
        var pc := s.callers[t];
        if pc.offset <= s.durable then Some(At(s, t, Returned(pc.offset, pc.asked, true)))
        else if s.flushing then Some(At(s, t, Waiting(pc.offset, pc.asked, s.round)))
        else Some(At(s, t, Leading(pc.offset, pc.asked)).(flushing := true))
    case Wake(t) =>
      if t !in s.callers || !s.callers[t].Waiting? || s.callers[t].round == s.round then None else
        Some(At(s, t, Checking(s.callers[t].offset, s.callers[t].asked)))
    case Snap(t) =>
      if t !in s.callers || !s.callers[t].Leading? then None else
        Some(At(s, t, Snapped(s.callers[t].offset, s.callers[t].asked, Tail(s.segs))))
    case List(t) =>
      if t !in s.callers || !s.callers[t].Snapped? then None else
        var pc := s.callers[t];
        Some(At(s, t, Flushing(pc.offset, pc.asked, pc.target, |s.segs|, 0)))
    case Take(t) =>
      if t !in s.callers || !s.callers[t].Flushing? then None else
        var pc := s.callers[t];
        if pc.i == pc.n then Some(At(s, t, Flushed(pc.offset, pc.asked, pc.target, true)))
        else if pc.i >= |s.segs| then None
        else if !s.segs[pc.i].dirty then Some(At(s, t, Flushing(pc.offset, pc.asked, pc.target, pc.n, pc.i + 1)))
        else Some(At(StartFlush(s, t, pc.i), t, Fsyncing(pc.offset, pc.asked, pc.target, pc.n, pc.i)))
    case Synced(t, ok) =>
      if t !in s.callers || !s.callers[t].Fsyncing? || t !in s.flights || s.flights[t].seg >= |s.segs| then None else
        var pc := s.callers[t];
        Some(At(EndFlush(s, t, ok), t,
                if ok then Flushing(pc.offset, pc.asked, pc.target, pc.n, pc.i + 1)
                else Flushed(pc.offset, pc.asked, pc.target, false)))
    case Publish(t) =>
      if t !in s.callers || !s.callers[t].Flushed? then None else
        var pc := s.callers[t];
        var d := if pc.ok && pc.target > s.durable then pc.target else s.durable;
        var pc' := if !pc.ok then Returned(pc.offset, pc.asked, false)
                   else if pc.target < pc.offset then Returned(pc.offset, pc.asked, true)
                   else Checking(pc.offset, pc.asked);
        Some(At(s, t, pc').(durable := d, flushing := false, round := s.round + 1))
    case AllTake(t, i) =>
      if t in s.callers || t in s.flights || i >= |s.segs| || !s.segs[i].dirty then None else Some(StartFlush(s, t, i))
    case AllSynced(t, ok) =>
      if t in s.callers || t !in s.flights || s.flights[t].seg >= |s.segs| then None else Some(EndFlush(s, t, ok))
  }

  // ---- what every step keeps ----

  ghost predicate Chain(segs: seq<Seg>) {
    && segs != [] && segs[0].base == 0
    && (forall i :: 0 <= i < |segs| ==> segs[i].base <= segs[i].flushed <= segs[i].end)
    && forall i, j :: 0 <= i < j < |segs| ==> segs[i].end <= segs[j].base
  }

  /** Every record this segment holds up to an offset is durable. */
  ghost predicate SegCovered(g: Seg, d: int) {
    g.flushed == g.end || d < g.flushed
  }

  /** Every record the log holds up to an offset is durable. */
  ghost predicate Covered(segs: seq<Seg>, d: int) {
    forall i :: 0 <= i < |segs| ==> SegCovered(segs[i], d)
  }

  ghost predicate Leader(pc: Pc) {
    pc.Leading? || pc.Snapped? || pc.Flushing? || pc.Fsyncing? || pc.Flushed?
  }

  function Least(a: int, b: int): int {
    if a <= b then a else b
  }

  /** The flush has covered what it claims in the segments before i, and no segment past
      the listed ones holds any of it. */
  ghost predicate Partly(segs: seq<Seg>, target: int, n: nat, i: nat)
    requires segs != []
  {
    && i <= n <= |segs| && target <= Tail(segs)
    && (forall j :: n <= j < |segs| ==> target < segs[j].base)
    && forall j :: 0 <= j < i ==> SegCovered(segs[j], target)
  }

  /** What is true of a caller, wherever it is. */
  ghost predicate Good(s: State, t: nat, pc: Pc)
    requires Chain(s.segs)
  {
    && pc.asked <= Tail(s.segs)
    && (pc.Snapped? || pc.Flushing? || pc.Fsyncing? || pc.Flushed? ==> pc.asked <= pc.target <= Tail(s.segs))
    && (pc.Flushing? ==> Partly(s.segs, pc.target, pc.n, pc.i))
    && (pc.Fsyncing? ==>
          && pc.i < pc.n && Partly(s.segs, pc.target, pc.n, pc.i)
          && t in s.flights && s.flights[t].seg == pc.i
          && (s.flights[t].captured == s.segs[pc.i].end || pc.target < s.flights[t].captured))
    && (pc.Flushed? && pc.ok ==> Covered(s.segs, pc.target))
    && (pc.Returned? && pc.ok ==> Covered(s.segs, Least(pc.offset, pc.asked)))
    && (t in s.flights ==> pc.Fsyncing?)
  }

  /** A flush captures no more than its segment holds. */
  ghost predicate Sane(s: State, t: nat)
    requires t in s.flights
  {
    s.flights[t].seg < |s.segs| && s.flights[t].captured <= s.segs[s.flights[t].seg].end
  }

  ghost predicate InFlight(s: State, i: nat)
    requires i < |s.segs|
  {
    exists t :: t in s.flights && s.flights[t] == Flush(i, s.segs[i].end)
  }

  /** No record is forgotten: a segment not wholly durable is marked, or an fsync that
      will make it so is under way. */
  ghost predicate Accounted(s: State, i: nat)
    requires i < |s.segs|
  {
    s.segs[i].flushed == s.segs[i].end || s.segs[i].dirty || InFlight(s, i)
  }

  ghost predicate Inv(s: State) {
    && Chain(s.segs)
    && s.durable <= Tail(s.segs) && Covered(s.segs, s.durable)
    && (forall t :: t in s.callers ==> Good(s, t, s.callers[t]))
    && (forall t :: t in s.callers && Leader(s.callers[t]) ==> s.flushing)
    && (forall t, u :: t in s.callers && u in s.callers && Leader(s.callers[t]) && Leader(s.callers[u]) ==> t == u)
    && (forall t :: t in s.flights ==> Sane(s, t))
    && forall i :: 0 <= i < |s.segs| ==> Accounted(s, i)
  }

  /** An fsync of a segment, still under way, is what will make durable a record at or
      below an offset. */
  ghost predicate CarriedBy(s: State, u: nat, i: nat, target: int)
    requires i < |s.segs|
  {
    && u in s.flights && s.flights[u] == Flush(i, s.segs[i].end)
    && s.segs[i].flushed < s.segs[i].end && s.segs[i].flushed <= target
  }

  /** The one thing Sync asks of SyncAll: that none of its fsyncs be carrying a record a
      Sync flush will claim when that flush finds the segment's mark taken. */
  ghost predicate Undisturbed(s: State, e: Event) {
    e.Take? && e.t in s.callers && s.callers[e.t].Flushing? ==>
      var pc := s.callers[e.t];
      pc.i < pc.n && pc.i < |s.segs| && !s.segs[pc.i].dirty ==>
        !exists u :: u !in s.callers && CarriedBy(s, u, pc.i, pc.target)
  }

  // ---- the log only grows ----

  /** Records are only added past the tail, and nothing durable is undone. */
  ghost predicate Grows(segs: seq<Seg>, segs': seq<Seg>) {
    && 0 < |segs| <= |segs'|
    && (forall i :: 0 <= i < |segs| ==>
          && segs'[i].base == segs[i].base && segs[i].flushed <= segs'[i].flushed && segs[i].end <= segs'[i].end
          && (i < |segs| - 1 ==> segs'[i].end == segs[i].end))
    && forall i :: |segs| <= i < |segs'| ==> Tail(segs) < segs'[i].base
  }

  lemma CoveredGrows(segs: seq<Seg>, segs': seq<Seg>, d: int)
    requires Chain(segs) && Chain(segs') && Grows(segs, segs') && d <= Tail(segs)
    ensures Covered(segs, d) ==> Covered(segs', d)
    ensures forall i :: 0 <= i < |segs| ==> SegCovered(segs[i], d) ==> SegCovered(segs'[i], d)
    ensures Tail(segs) <= Tail(segs')
  {
    forall i | 0 <= i < |segs| && SegCovered(segs[i], d)
      ensures SegCovered(segs'[i], d)
    {
    }
    if |segs'| > |segs| {
      assert segs'[|segs'| - 1].base <= segs'[|segs'| - 1].end;
    }
  }

  /** A caller's facts outlive growth, as long as its own fsync is left alone. */
  lemma GoodGrows(s: State, s': State, t: nat, pc: Pc)
    requires Chain(s.segs) && Chain(s'.segs) && Grows(s.segs, s'.segs) && Good(s, t, pc)
    requires t in s.flights <==> t in s'.flights
    requires t in s.flights ==> s.flights[t] == s'.flights[t]
    ensures Good(s', t, pc)
  {
    CoveredGrows(s.segs, s'.segs, pc.asked);
    if pc.Snapped? || pc.Flushing? || pc.Fsyncing? || pc.Flushed? {
      CoveredGrows(s.segs, s'.segs, pc.target);
    }
    if pc.Returned? {
      CoveredGrows(s.segs, s'.segs, Least(pc.offset, pc.asked));
    }
  }

  /** A step that moves one caller, or none, and lets the log grow, keeps the invariant
      when the moved caller's facts, the leadership and the accounts hold. */
  lemma StepKeeps(s: State, s': State, t: nat)
    requires Inv(s) && Chain(s'.segs) && Grows(s.segs, s'.segs)
    requires forall u :: u != t ==>
               (u in s'.callers <==> u in s.callers) && (u in s'.callers ==> s'.callers[u] == s.callers[u])
    requires forall u :: u != t ==>
               (u in s'.flights <==> u in s.flights) && (u in s'.flights ==> s'.flights[u] == s.flights[u])
    requires t in s'.callers ==> Good(s', t, s'.callers[t])
    requires t in s'.flights ==> Sane(s', t)
    requires s'.durable <= Tail(s'.segs) && Covered(s'.segs, s'.durable)
    requires forall i :: 0 <= i < |s'.segs| ==> Accounted(s', i)
    requires s'.flushing == s.flushing || (t in s.callers && Leader(s.callers[t])) || !s.flushing
    requires t in s'.callers && Leader(s'.callers[t]) ==>
               s'.flushing && (!s.flushing || (t in s.callers && Leader(s.callers[t])))
    requires !s.flushing ==> s'.flushing ==> t in s'.callers && Leader(s'.callers[t])
    ensures Inv(s')
  {
    forall u | u in s'.callers
      ensures Good(s', u, s'.callers[u])
    {
      if u != t {
        GoodGrows(s, s', u, s.callers[u]);
      }
    }
    forall u | u in s'.flights
      ensures Sane(s', u)
    {
      if u != t {
        assert Sane(s, u);
      }
    }
  }

  lemma SameGrows(s: State)
    requires Chain(s.segs)
    ensures Grows(s.segs, s.segs)
  {
  }

  // ---- each step ----

  lemma AppendKeeps(s: State, last: int)
    requires Inv(s) && Next(s, Append(last)).Some?
    ensures Inv(Next(s, Append(last)).value)
  {
    var s' := Next(s, Append(last)).value;
    CoveredGrows(s.segs, s'.segs, s.durable);
    AccountedStill(s, s', |s.segs| - 1);
    StepKeeps(s, s', Fresh(s));
  }

  lemma RollKeeps(s: State)
    requires Inv(s) && Next(s, Roll).Some?
    ensures Inv(Next(s, Roll).value)
  {
    var s' := Next(s, Roll).value;
    CoveredGrows(s.segs, s'.segs, s.durable);
    AccountedStill(s, s', |s.segs|);
    StepKeeps(s, s', Fresh(s));
  }

  /** Accounts of untouched segments stand while no fsync ends. */
  lemma AccountedStill(s: State, s': State, k: nat)
    requires k < |s'.segs| && |s'.segs| == if k < |s.segs| then |s.segs| else |s.segs| + 1
    requires forall i :: 0 <= i < |s.segs| ==> Accounted(s, i)
    requires forall i :: 0 <= i < |s.segs| && i != k ==> s'.segs[i] == s.segs[i]
    requires forall u :: u in s.flights ==> u in s'.flights && s'.flights[u] == s.flights[u]
    ensures forall i :: 0 <= i < |s'.segs| && i != k ==> Accounted(s', i)
  {
    forall i | 0 <= i < |s'.segs| && i != k
      ensures Accounted(s', i)
    {
      assert s'.segs[i] == s.segs[i];
      assert Accounted(s, i);
      if InFlight(s, i) {
        var u :| u in s.flights && s.flights[u] == Flush(i, s.segs[i].end);
        assert u in s'.flights && s'.flights[u] == Flush(i, s'.segs[i].end);
      }
    }
  }

  /** A caller that is in no table. */
  ghost function Fresh(s: State): (t: nat)
    ensures t !in s.callers && t !in s.flights
  {
    NotAll(s.callers.Keys + s.flights.Keys);
    var t: nat :| t !in s.callers.Keys + s.flights.Keys;
    t
  }

  lemma {:induction false} NotAll(ts: set<nat>)
    ensures exists t: nat :: t !in ts
  {
    var t := Above(ts);
    assert t !in ts;
  }

  lemma {:induction false} Above(ts: set<nat>) returns (t: nat)
    ensures forall u :: u in ts ==> u < t
    decreases ts
  {
    if ts == {} {
      t := 0;
    } else {
      var u: nat :| u in ts;
      t := Above(ts - {u});
      if t <= u {
        t := u + 1;
      }
      assert forall v :: v in ts ==> v == u || v in ts - {u};
    }
  }

  lemma CallerKeeps(s: State, e: Event)
    requires Inv(s) && (e.Call? || e.Check? || e.Wake? || e.Snap? || e.List?) && Next(s, e).Some?
    ensures Inv(Next(s, e).value)
  {
    var s' := Next(s, e).value;
    assert e.t in s.callers ==> Good(s, e.t, s.callers[e.t]);
    CallerMoves(s, s', e.t);
  }

  /** A step of one caller that touches neither the segments nor the published mark. */
  lemma CallerMoves(s: State, s': State, t: nat)
    requires Inv(s) && t in s'.callers && s' == At(s, t, s'.callers[t]).(flushing := s'.flushing)
    requires Good(s', t, s'.callers[t]) && (s.flushing ==> s'.flushing)
    requires Leader(s'.callers[t]) ==> s'.flushing && (!s.flushing || (t in s.callers && Leader(s.callers[t])))
    requires !s.flushing ==> s'.flushing ==> Leader(s'.callers[t])
    ensures Inv(s')
  {
    SameGrows(s);
    AccountedSame(s, s');
    StepKeeps(s, s', t);
  }

  lemma AccountedSame(s: State, s': State)
    requires s'.segs == s.segs && s'.flights == s.flights
    requires forall i :: 0 <= i < |s.segs| ==> Accounted(s, i)
    ensures forall i :: 0 <= i < |s'.segs| ==> Accounted(s', i)
  {
    forall i | 0 <= i < |s'.segs|
      ensures Accounted(s', i)
    {
      assert Accounted(s, i);
      if InFlight(s, i) {
        var u :| u in s.flights && s.flights[u] == Flush(i, s.segs[i].end);
        assert u in s'.flights;
      }
    }
  }

  lemma TakeKeeps(s: State, t: nat)
    requires Inv(s) && Next(s, Take(t)).Some?
    ensures Inv(Next(s, Take(t)).value) <==> Undisturbed(s, Take(t))
  {
    var pc := s.callers[t];
    assert Good(s, t, pc);
    if pc.i < pc.n && s.segs[pc.i].dirty {
      TakeStarts(s, t);
    } else {
      SkipExact(s, t);
    }
  }

  lemma TakeStarts(s: State, t: nat)
    requires Inv(s) && t in s.callers && s.callers[t].Flushing?
    requires s.callers[t].i < s.callers[t].n && s.callers[t].i < |s.segs| && s.segs[s.callers[t].i].dirty
    ensures Inv(Next(s, Take(t)).value)
  {
    var s', pc := Next(s, Take(t)).value, s.callers[t];
    assert Good(s, t, pc);
    StartKeeps(s, t, pc.i);
    assert forall j :: 0 <= j < |s.segs| && j != pc.i ==> s'.segs[j] == s.segs[j];
    assert Partly(s'.segs, pc.target, pc.n, pc.i);
    StartAccounted(s, s', t, pc.i);
    StepKeeps(s, s', t);
  }

  /** Skipping a segment whose mark is taken goes wrong if and only if an fsync of that
      segment by `SyncAll` is still carrying a record the flush will claim. */
  lemma SkipExact(s: State, t: nat)
    requires Inv(s) && t in s.callers && s.callers[t].Flushing?
    requires s.callers[t].i < s.callers[t].n ==> s.callers[t].i < |s.segs| && !s.segs[s.callers[t].i].dirty
    ensures var pc := s.callers[t];
            !Inv(Next(s, Take(t)).value) <==>
              pc.i < pc.n && exists u :: u !in s.callers && CarriedBy(s, u, pc.i, pc.target)
  {
    var s', pc := Next(s, Take(t)).value, s.callers[t];
    assert Good(s, t, pc);
    SameGrows(s);
    AccountedSame(s, s');
    if pc.i < pc.n {
      assert Accounted(s, pc.i);
      SkipCarried(s, t);
      if !SegCovered(s.segs[pc.i], pc.target) {
        assert !Good(s', t, s'.callers[t]);
      }
    }
    if pc.i < pc.n ==> SegCovered(s.segs[pc.i], pc.target) {
      StepKeeps(s, s', t);
    }
  }

  lemma SkipCarried(s: State, t: nat)
    requires Inv(s) && t in s.callers && s.callers[t].Flushing? && s.callers[t].i < s.callers[t].n
    requires s.callers[t].i < |s.segs| && !s.segs[s.callers[t].i].dirty
    ensures var pc := s.callers[t];
            !SegCovered(s.segs[pc.i], pc.target) <==> exists u :: u !in s.callers && CarriedBy(s, u, pc.i, pc.target)
  {
    var pc := s.callers[t];
    assert Accounted(s, pc.i);
    if !SegCovered(s.segs[pc.i], pc.target) {
      var u :| u in s.flights && s.flights[u] == Flush(pc.i, s.segs[pc.i].end);
      assert u in s.callers ==> Good(s, u, s.callers[u]);
      assert u !in s.callers && CarriedBy(s, u, pc.i, pc.target);
    }
  }

  lemma StartKeeps(s: State, t: nat, i: nat)
    requires Inv(s) && i < |s.segs|
    ensures var s' := StartFlush(s, t, i);
            && Chain(s'.segs) && Grows(s.segs, s'.segs) && Sane(s', t)
            && Tail(s'.segs) == Tail(s.segs) && Covered(s'.segs, s.durable)
  {
    var s' := StartFlush(s, t, i);
    OneGrows(s.segs, i, s'.segs[i], s.durable);
  }

  lemma StartAccounted(s: State, s': State, t: nat, i: nat)
    requires i < |s.segs| && t !in s.flights && s'.segs == StartFlush(s, t, i).segs &&
             s'.flights == StartFlush(s, t, i).flights
    requires forall k :: 0 <= k < |s.segs| ==> Accounted(s, k)
    ensures forall k :: 0 <= k < |s'.segs| ==> Accounted(s', k)
  {
    AccountedStill(s, s', i);
    assert s'.flights[t] == Flush(i, s'.segs[i].end);
    assert InFlight(s', i);
  }

  lemma SyncedKeeps(s: State, t: nat, ok: bool)
    requires Inv(s) && Next(s, Synced(t, ok)).Some?
    ensures Inv(Next(s, Synced(t, ok)).value)
  {
    var s', pc := Next(s, Synced(t, ok)).value, s.callers[t];
    assert Good(s, t, pc);
    EndKeeps(s, t, ok);
    EndAccounted(s, s', t, ok);
    GoodAfter(s, s', t, ok);
    StepKeeps(s, s', t);
  }

  lemma EndKeeps(s: State, t: nat, ok: bool)
    requires Inv(s) && t in s.flights
    ensures s.flights[t].seg < |s.segs|
    ensures var s' := EndFlush(s, t, ok);
            && Chain(s'.segs) && Grows(s.segs, s'.segs) && Tail(s'.segs) == Tail(s.segs) && Covered(s'.segs, s.durable)
  {
    assert Sane(s, t);
    var s', f := EndFlush(s, t, ok), s.flights[t];
    OneGrows(s.segs, f.seg, s'.segs[f.seg], s.durable);
  }

  /** One segment's mark or durable end moves. */
  lemma OneGrows(segs: seq<Seg>, i: nat, g: Seg, d: int)
    requires Chain(segs) && i < |segs| && d <= Tail(segs) && Covered(segs, d)
    requires g.base == segs[i].base && g.end == segs[i].end && segs[i].flushed <= g.flushed <= g.end
    ensures var segs' := segs[i := g];
            Chain(segs') && Grows(segs, segs') && Tail(segs') == Tail(segs) && Covered(segs', d)
  {
    CoveredGrows(segs, segs[i := g], d);
  }

  lemma EndAccounted(s: State, s': State, t: nat, ok: bool)
    requires Inv(s) && t in s.flights && s.flights[t].seg < |s.segs|
    requires s'.segs == EndFlush(s, t, ok).segs && s'.flights == EndFlush(s, t, ok).flights
    ensures forall k :: 0 <= k < |s'.segs| ==> Accounted(s', k)
  {
    forall k | 0 <= k < |s'.segs|
      ensures Accounted(s', k)
    {
      assert Accounted(s, k) && Sane(s, t);
      if InFlight(s, k) {
        var u :| u in s.flights && s.flights[u] == Flush(k, s.segs[k].end);
        assert u != t ==> u in s'.flights && s'.flights[u] == Flush(k, s'.segs[k].end);
      }
    }
  }

  /** The fsync covered its segment. */
  lemma GoodAfter(s: State, s': State, t: nat, ok: bool)
    requires Inv(s) && Next(s, Synced(t, ok)) == Some(s')
    requires Chain(s'.segs) && Grows(s.segs, s'.segs)
    ensures Good(s', t, s'.callers[t])
  {
    var pc := s.callers[t];
    assert Good(s, t, pc) && Sane(s, t);
    CoveredGrows(s.segs, s'.segs, pc.target);
    assert ok ==> SegCovered(s'.segs[pc.i], pc.target);
  }

  lemma PublishKeeps(s: State, t: nat)
    requires Inv(s) && Next(s, Publish(t)).Some?
    ensures Inv(Next(s, Publish(t)).value)
  {
    var s', pc := Next(s, Publish(t)).value, s.callers[t];
    assert Good(s, t, pc);
    SameGrows(s);
    AccountedSame(s, s');
    if pc.ok {
      assert forall i :: 0 <= i < |s.segs| && SegCovered(s.segs[i], pc.target) ==>
        SegCovered(s.segs[i], Least(pc.offset, pc.asked));
    }
    StepKeeps(s, s', t);
  }

  lemma AllTakeKeeps(s: State, t: nat, i: nat)
    requires Inv(s) && Next(s, AllTake(t, i)).Some?
    ensures Inv(Next(s, AllTake(t, i)).value)
  {
    var s' := Next(s, AllTake(t, i)).value;
    StartKeeps(s, t, i);
    StartAccounted(s, s', t, i);
    StepKeeps(s, s', t);
  }

  lemma AllSyncedKeeps(s: State, t: nat, ok: bool)
    requires Inv(s) && Next(s, AllSynced(t, ok)).Some?
    ensures Inv(Next(s, AllSynced(t, ok)).value)
  {
    var s' := Next(s, AllSynced(t, ok)).value;
    EndKeeps(s, t, ok);
    EndAccounted(s, s', t, ok);
    StepKeeps(s, s', t);
  }

  // ---- every run ----

  ghost predicate Run(states: seq<State>, events: seq<Event>) {
    && |states| == |events| + 1 && states[0] == START
    && forall k :: 0 <= k < |events| ==> states[k].segs != [] && Next(states[k], events[k]) == Some(states[k + 1])
  }

  ghost predicate Quiet(states: seq<State>, events: seq<Event>) {
    |states| == |events| + 1 && forall k :: 0 <= k < |events| ==> Undisturbed(states[k], events[k])
  }

  /** A step keeps what every step keeps if and only if it is undisturbed. */
  lemma Preserved(s: State, e: Event)
    requires Inv(s) && Next(s, e).Some?
    ensures Inv(Next(s, e).value) <==> Undisturbed(s, e)
  {
    match e
    case Append(last) => AppendKeeps(s, last);
    case Roll => RollKeeps(s);
    case Call(_, _) => CallerKeeps(s, e);
    case Check(_) => CallerKeeps(s, e);
    case Wake(_) => CallerKeeps(s, e);
    case Snap(_) => CallerKeeps(s, e);
    case List(_) => CallerKeeps(s, e);
    case Take(t) => TakeKeeps(s, t);
    case Synced(t, ok) => SyncedKeeps(s, t, ok);
    case Publish(t) => PublishKeeps(s, t);
    case AllTake(t, i) => AllTakeKeeps(s, t, i);
    case AllSynced(t, ok) => AllSyncedKeeps(s, t, ok);
  }

  /** In every interleaving: one flush at a time, and the published mark never ahead of
      what is durable. */
  lemma {:induction false} EveryRun(states: seq<State>, events: seq<Event>, k: nat)
    requires Run(states, events) && Quiet(states, events) && k < |states|
    ensures Inv(states[k])
  {
    if k > 0 {
      EveryRun(states, events, k - 1);
      assert Undisturbed(states[k - 1], events[k - 1]);
      Preserved(states[k - 1], events[k - 1]);
    }
  }

  /** The fsyncs under way are Sync callers' own. */
  ghost predicate OwnFlights(s: State) {
    forall u :: u in s.flights ==> u in s.callers
  }

  /** Then none is in anyone's way. */
  lemma OwnUndisturbed(s: State, e: Event)
    requires Inv(s) && OwnFlights(s)
    ensures Undisturbed(s, e)
  {
  }

  lemma OwnStill(s: State, e: Event)
    requires s.segs != [] && OwnFlights(s) && !e.AllTake? && Next(s, e).Some?
    ensures OwnFlights(Next(s, e).value)
  {
  }

  lemma {:induction false} SyncOnly(states: seq<State>, events: seq<Event>, k: nat)
    requires Run(states, events) && k < |states| && forall j :: 0 <= j < |events| ==> !events[j].AllTake?
    ensures Inv(states[k]) && OwnFlights(states[k])
  {
    if k > 0 {
      var s, e := states[k - 1], events[k - 1];
      SyncOnly(states, events, k - 1);
      OwnUndisturbed(s, e);
      Preserved(s, e);
      OwnStill(s, e);
    }
  }

  /** In particular every interleaving of appenders, rolls and Sync callers is quiet. */
  lemma QuietWithoutSyncAll(states: seq<State>, events: seq<Event>)
    requires Run(states, events) && forall j :: 0 <= j < |events| ==> !events[j].AllTake?
    ensures Quiet(states, events)
  {
    forall k | 0 <= k < |events|
      ensures Undisturbed(states[k], events[k])
    {
      SyncOnly(states, events, k);
      OwnUndisturbed(states[k], events[k]);
    }
  }

  /** Sync returning nil: every record up to the offset, and up to the tail the log had
      when Sync was called, is durable, then and ever after. */
  lemma SyncGuarantee(states: seq<State>, events: seq<Event>, k: nat, t: nat, i: nat, o: int)
    requires Run(states, events) && Quiet(states, events) && k < |states|
    requires t in states[k].callers && states[k].callers[t].Returned? && states[k].callers[t].ok
    requires i < |states[k].segs| && states[k].segs[i].base <= o < states[k].segs[i].end
    requires o <= states[k].callers[t].offset && o <= states[k].callers[t].asked
    ensures o < states[k].segs[i].flushed
  {
    EveryRun(states, events, k);
    assert Good(states[k], t, states[k].callers[t]);
    assert SegCovered(states[k].segs[i], Least(states[k].callers[t].offset, states[k].callers[t].asked));
  }

  /** The published mark only rises. */
  lemma {:induction false} DurableRises(states: seq<State>, events: seq<Event>, j: nat, k: nat)
    requires Run(states, events) && j <= k < |states|
    ensures states[j].durable <= states[k].durable
  {
    if j < k {
      DurableRises(states, events, j, k - 1);
      assert Next(states[k - 1], events[k - 1]) == Some(states[k]);
    }
  }

  function Last(states: seq<State>): State
    requires states != []
  {
    states[|states| - 1]
  }

  lemma Extend(states: seq<State>, events: seq<Event>, e: Event) returns (states': seq<State>, events': seq<Event>)
    requires Run(states, events) && Last(states).segs != [] && Next(Last(states), e).Some?
    ensures Run(states', events') && Last(states') == Next(Last(states), e).value
  {
    states', events' := states + [Next(Last(states), e).value], events + [e];
    forall k | 0 <= k < |events'|
      ensures states'[k].segs != [] && Next(states'[k], events'[k]) == Some(states'[k + 1])
    {
      if k < |events| {
        assert states'[k] == states[k] && states'[k + 1] == states[k + 1] && events'[k] == events[k];
      }
    }
  }

  /** SyncAll has taken the mark of a segment holding one record, and has not finished. */
  lemma MarkTaken(o: int, u: nat) returns (states: seq<State>, events: seq<Event>)
    requires 0 <= o
    ensures Run(states, events)
    ensures Last(states) == State([Seg(0, o + 1, 0, false)], -1, false, 0, map[], map[u := Flush(0, o + 1)])
  {
    states, events := [START], [];
    states, events := Extend(states, events, Append(o));
    assert Last(states).segs == [Seg(0, o + 1, 0, true)];
    states, events := Extend(states, events, AllTake(u, 0));
    assert Last(states).segs == [Seg(0, o + 1, 0, false)];
  }

  /** Without that condition the guarantee fails: SyncAll takes the mark of a segment
      holding record o, a Sync of o finds nothing to flush, and returns nil while
      SyncAll's fsync has not finished. */
  lemma SyncAllRace(o: int, t: nat, u: nat) returns (states: seq<State>, events: seq<Event>)
    requires 0 <= o && t != u
    ensures Run(states, events)
    ensures var s := Last(states);
            && t in s.callers && s.callers[t] == Returned(o, o, true)
            && |s.segs| == 1 && s.segs[0].base <= o < s.segs[0].end && s.segs[0].flushed <= o
  {
    states, events := MarkTaken(o, u);
    states, events := Extend(states, events, Call(t, o));
    states, events := Extend(states, events, Check(t));
    states, events := Extend(states, events, Snap(t));
    states, events := Extend(states, events, List(t));
    states, events := Extend(states, events, Take(t));
    states, events := Extend(states, events, Take(t));
    states, events := Extend(states, events, Publish(t));
    states, events := Extend(states, events, Check(t));
  }
}
