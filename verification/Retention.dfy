/** Retention: deleting the oldest segments of each half of the log, by age, messages and
    bytes, never past a floor and never the active segment. */
module Retention {
  import opened Bytes

  /** A segment: its base and exclusive end, when it was last written, and what it holds. */
  datatype Seg = Seg(base: int, end: int, lastWrite: int, messages: nat, bytes: nat, tier: Option<string>)

  /** Limits of 0 or less are none; an age limit is the oldest write time to keep. */
  datatype Limits = Limits(oldest: Option<int>, messages: int, bytes: int)

  datatype Measure = Messages | Physical

  function Of(m: Measure, s: Seg): nat {
    match m
    case Messages => s.messages
    case Physical => s.bytes
  }

  function Sum(m: Measure, segs: seq<Seg>): nat {
    if segs == [] then 0 else Of(m, segs[0]) + Sum(m, segs[1..])
  }

  /** Segments in order, none reaching past the next one's base. */
  ghost predicate InOrder(segs: seq<Seg>) {
    forall i, j {:trigger Before(segs[i], segs[j])} :: 0 <= i < j < |segs| ==> Before(segs[i], segs[j])
  }

  ghost predicate Before(a: Seg, b: Seg) {
    a.base <= b.base && a.end <= b.base
  }

  lemma InOrderTail(segs: seq<Seg>, k: nat)
    requires InOrder(segs) && k <= |segs|
    ensures InOrder(segs[k..])
  {
    forall i, j | 0 <= i < j < |segs[k..]|
      ensures Before(segs[k..][i], segs[k..][j])
    {
      assert Before(segs[k + i], segs[k + j]);
    }
  }

  // ---- deleting a prefix ----

  /** What is left after deleting the oldest k segments. */
  ghost predicate Dropped(segs: seq<Seg>, out: seq<Seg>, k: int) {
    0 <= k <= |segs| && out == segs[k..]
  }

  /** Delete the oldest segments, no more than allowed, stopping at the first failure:
      what is left is always a suffix. */
  method DropOldestPrefix(segs: seq<Seg>, idx: nat, maxDrop: nat, fails: int -> bool)
    returns (out: seq<Seg>, ok: bool)
    requires idx <= |segs|
    ensures var k := |segs| - |out|;
            && Dropped(segs, out, k) && k <= idx && k <= maxDrop
            && (ok ==> k == if idx <= maxDrop then idx else maxDrop)
            && (!ok ==> k < |segs| && fails(segs[k].base))
  {
    var n := if idx > maxDrop then maxDrop else idx;
    for j := 0 to n
    {
      if fails(segs[j].base) {
        return segs[j..], false;
      }
    }
    return segs[n..], true;
  }

  /** How many of the oldest segments hold nothing at or above the floor. */
  method DeletablePrefix(segs: seq<Seg>, floor: Option<int>) returns (n: nat)
    requires InOrder(segs)
    ensures n <= |segs|
    ensures floor.None? ==> n == |segs|
    ensures floor.Some? ==> forall i :: 0 < i < |segs| ==> (segs[i].base <= floor.value <==> i <= n)
    ensures floor.Some? ==> forall i :: 0 <= i < n ==> segs[i].end <= floor.value
    ensures floor.Some? && segs != [] ==> n < |segs|
  {
    if floor.None? {
      return |segs|;
    }
    n := 0;
    var i := 1;
    while i < |segs|
      invariant 1 <= i && (segs == [] ==> n == 0) && (segs != [] ==> n == i - 1 < |segs|)
      invariant forall j :: 0 < j <= n ==> segs[j].base <= floor.value
    {
      if segs[i].base > floor.value {
        break;
      }
      n := i;
      i := i + 1;
    }
    Deletable(segs, floor.value, n);
  }

  lemma Deletable(segs: seq<Seg>, floor: int, n: nat)
    requires InOrder(segs) && (segs == [] ==> n == 0) && (segs != [] ==> n < |segs|)
    requires forall j :: 0 < j <= n ==> segs[j].base <= floor
    requires n + 1 < |segs| ==> segs[n + 1].base > floor
    ensures forall i :: 0 < i < |segs| ==> (segs[i].base <= floor <==> i <= n)
    ensures forall i :: 0 <= i < n ==> segs[i].end <= floor
  {
    forall i | 0 < i < |segs|
      ensures segs[i].base <= floor <==> i <= n
    {
      assert i > n + 1 ==> Before(segs[n + 1], segs[i]);
    }
    forall i | 0 <= i < n
      ensures segs[i].end <= floor
    {
      assert Before(segs[i], segs[n]);
    }
  }

  // ---- limits ----

  /** A suffix a total limit accepts: it fits, or is within what must be kept. */
  predicate Accepts(m: Measure, segs: seq<Seg>, limit: int, keepNewest: nat, j: nat)
    requires j <= |segs|
  {
    Sum(m, segs[j..]) <= limit || |segs| - j <= keepNewest
  }

  lemma {:induction false} SumFrom(m: Measure, segs: seq<Seg>, i: nat, j: nat)
    requires i <= j <= |segs|
    ensures Sum(m, segs[j..]) <= Sum(m, segs[i..])
    decreases j - i
  {
    if i < j {
      SumFrom(m, segs, i + 1, j);
      assert segs[i..][1..] == segs[i + 1..];
    }
  }

  /** Walk back from the newest while the total fits, and drop what is older. Unclamped
      and without failure this keeps the longest suffix the limit accepts; clamped or
      failing, it deletes nothing the limit would have kept. */
  method ApplyTotalLimit(segs: seq<Seg>, limit: int, m: Measure, keepNewest: nat, maxDrop: nat, fails: int -> bool)
    returns (out: seq<Seg>, ok: bool)
    requires limit > 0
    ensures var k := |segs| - |out|;
            && Dropped(segs, out, k) && k <= maxDrop && (|out| >= keepNewest || k == 0)
            && (!ok ==> k < |segs| && fails(segs[k].base))
            && (forall j :: 0 <= j < k ==> !Accepts(m, segs, limit, keepNewest, j))
            && (ok && k < maxDrop ==> forall j :: k <= j <= |segs| ==> Accepts(m, segs, limit, keepNewest, j))
  {
    var total, i := 0, |segs|;
    assert segs[i..] == [];
    while i > 0
      invariant 0 <= i <= |segs| && total == Sum(m, segs[i..])
      invariant forall j :: i <= j <= |segs| ==> Accepts(m, segs, limit, keepNewest, j)
    {
      i := i - 1;
      assert segs[i..][1..] == segs[i + 1..];
      total := total + Of(m, segs[i]);
      if total > limit && i < |segs| - keepNewest {
        RejectsOlder(m, segs, limit, keepNewest, i);
        out, ok := DropOldestPrefix(segs, i + 1, maxDrop, fails);
        return;
      }
    }
    assert segs[0..] == segs;
    return segs, true;
  }

  lemma RejectsOlder(m: Measure, segs: seq<Seg>, limit: int, keepNewest: nat, i: nat)
    requires i < |segs| && !Accepts(m, segs, limit, keepNewest, i)
    ensures forall j :: 0 <= j <= i ==> !Accepts(m, segs, limit, keepNewest, j)
  {
    forall j | 0 <= j <= i
      ensures !Accepts(m, segs, limit, keepNewest, j)
    {
      SumFrom(m, segs, j, i);
    }
  }

  /** The oldest segments last written before the limit. */
  ghost predicate AgedOut(segs: seq<Seg>, oldest: int, idx: nat) {
    && idx <= |segs| && (forall i :: 0 <= i < idx ==> segs[i].lastWrite < oldest)
    && (idx < |segs| ==> segs[idx].lastWrite >= oldest)
  }

  /** A suffix the age limit accepts: it begins no earlier than the oldest segment young
      enough, or is within what must be kept. */
  ghost predicate AgeMet(segs: seq<Seg>, oldest: int, keepNewest: nat, j: nat)
    requires j <= |segs|
  {
    |segs| - j <= keepNewest || exists i :: 0 <= i <= j && i < |segs| && segs[i].lastWrite >= oldest
  }

  /** A suffix all the limits accept. */
  ghost predicate Meets(l: Limits, segs: seq<Seg>, keepNewest: nat, j: nat)
    requires j <= |segs|
  {
    && (l.oldest.Some? ==> AgeMet(segs, l.oldest.value, keepNewest, j))
    && (l.messages > 0 ==> Accepts(Messages, segs, l.messages, keepNewest, j))
    && (l.bytes > 0 ==> Accepts(Physical, segs, l.bytes, keepNewest, j))
  }

  /** Being accepted is kept by every shorter suffix. */
  lemma MeetsShorter(l: Limits, segs: seq<Seg>, keepNewest: nat, i: nat, j: nat)
    requires i <= j <= |segs|
    ensures l.oldest.Some? && AgeMet(segs, l.oldest.value, keepNewest, i) ==>
              AgeMet(segs, l.oldest.value, keepNewest, j)
    ensures forall m, limit :: Accepts(m, segs, limit, keepNewest, i) ==> Accepts(m, segs, limit, keepNewest, j)
  {
    SumFrom(Messages, segs, i, j);
    SumFrom(Physical, segs, i, j);
  }

  lemma AcceptsTail(m: Measure, segs: seq<Seg>, limit: int, keepNewest: nat, from: nat, j: nat)
    requires from + j <= |segs|
    ensures Accepts(m, segs[from..], limit, keepNewest, j) <==> Accepts(m, segs, limit, keepNewest, from + j)
  {
    assert segs[from..][j..] == segs[from + j..];
  }

  /** A total limit applied to what is left speaks of the whole. */
  lemma AcceptsWhole(m: Measure, segs: seq<Seg>, limit: int, keepNewest: nat, from: nat, d: nat)
    requires from + d <= |segs|
    requires forall j :: 0 <= j < d ==> !Accepts(m, segs[from..], limit, keepNewest, j)
    ensures d > 0 ==> forall j :: 0 <= j < from + d ==> !Accepts(m, segs, limit, keepNewest, j)
    ensures Accepts(m, segs[from..], limit, keepNewest, d) ==> Accepts(m, segs, limit, keepNewest, from + d)
  {
    AcceptsTail(m, segs, limit, keepNewest, from, d);
    if d > 0 {
      AcceptsTail(m, segs, limit, keepNewest, from, d - 1);
      RejectsOlder(m, segs, limit, keepNewest, from + d - 1);
    }
  }

  function LimitOf(l: Limits, m: Measure): int {
    match m
    case Messages => l.messages
    case Physical => l.bytes
  }

  /** Age is applied first, then messages, then bytes. */
  function Stage(m: Measure): nat {
    match m
    case Messages => 2
    case Physical => 3
  }

  /** A suffix the limits of the first stages accept. */
  ghost predicate MetThrough(l: Limits, segs: seq<Seg>, keepNewest: nat, k: nat, stage: nat)
    requires k <= |segs|
  {
    && (stage >= 1 && l.oldest.Some? ==> AgeMet(segs, l.oldest.value, keepNewest, k))
    && (stage >= 2 && l.messages > 0 ==> Accepts(Messages, segs, l.messages, keepNewest, k))
    && (stage >= 3 && l.bytes > 0 ==> Accepts(Physical, segs, l.bytes, keepNewest, k))
  }

  /** No longer suffix is one all the limits accept. */
  ghost predicate NoneMeets(l: Limits, segs: seq<Seg>, keepNewest: nat, k: nat) {
    k <= |segs| && forall j :: 0 <= j < k ==> !Meets(l, segs, keepNewest, j)
  }

  /** One total limit on what the stages before left. */
  lemma LimitStage(l: Limits, segs: seq<Seg>, keepNewest: nat, from: nat, d: nat, m: Measure)
    requires from + d <= |segs| && NoneMeets(l, segs, keepNewest, from) && LimitOf(l, m) > 0
    requires forall j :: 0 <= j < d ==> !Accepts(m, segs[from..], LimitOf(l, m), keepNewest, j)
    ensures NoneMeets(l, segs, keepNewest, from + d)
    ensures MetThrough(l, segs, keepNewest, from, Stage(m) - 1) &&
            Accepts(m, segs[from..], LimitOf(l, m), keepNewest, d) ==>
              MetThrough(l, segs, keepNewest, from + d, Stage(m))
  {
    AcceptsWhole(m, segs, LimitOf(l, m), keepNewest, from, d);
    MeetsShorter(l, segs, keepNewest, from, from + d);
  }

  method FirstLive(segs: seq<Seg>, oldest: int) returns (idx: nat)
    ensures AgedOut(segs, oldest, idx)
  {
    idx := 0;
    while idx < |segs| && segs[idx].lastWrite < oldest
      invariant 0 <= idx <= |segs| && forall i :: 0 <= i < idx ==> segs[i].lastWrite < oldest
    {
      idx := idx + 1;
    }
  }

  /** Drop what is too old, always retaining the active segment. */
  method ApplyAgeLimit(segs: seq<Seg>, oldest: int, maxDrop: nat, fails: int -> bool)
    returns (out: seq<Seg>, ok: bool)
    ensures segs != [] ==> out != []
    ensures var k := |segs| - |out|;
            && Dropped(segs, out, k) && k <= maxDrop && (!ok ==> k < |segs| && fails(segs[k].base))
            && (forall j :: 0 <= j < k ==> !AgeMet(segs, oldest, 1, j))
            && (ok && k < maxDrop ==> AgeMet(segs, oldest, 1, k))
  {
    if |segs| <= 1 {
      assert segs[0..] == segs;
      return segs, true;
    }
    var idx := FirstLive(segs, oldest);
    if idx > |segs| - 1 {
      idx := |segs| - 1;
    }
    out, ok := DropOldestPrefix(segs, idx, maxDrop, fails);
  }

  // ---- the tiered half ----

  /** Adjacent segments of one tier. */
  datatype TierRun = TierRun(tier: Option<string>, segs: seq<Seg>)

  function Flat(runs: seq<TierRun>): seq<Seg> {
    if runs == [] then [] else Flat(runs[..|runs| - 1]) + runs[|runs| - 1].segs
  }

  ghost predicate OneTier(r: TierRun) {
    r.segs != [] && forall i :: 0 <= i < |r.segs| ==> r.segs[i].tier == r.tier
  }

  /** The maximal one-tier runs of the segments. */
  ghost predicate RunsOf(segs: seq<Seg>, runs: seq<TierRun>) {
    && Flat(runs) == segs && (forall n :: 0 <= n < |runs| ==> OneTier(runs[n]))
    && forall n :: 0 < n < |runs| ==> runs[n].tier != runs[n - 1].tier
  }

  method TierRuns(segs: seq<Seg>) returns (runs: seq<TierRun>)
    ensures RunsOf(segs, runs)
  {
    runs := [];
    for i := 0 to |segs|
      invariant Flat(runs) == segs[..i] && forall n :: 0 <= n < |runs| ==> OneTier(runs[n])
      invariant forall n :: 0 < n < |runs| ==> runs[n].tier != runs[n - 1].tier
    {
      var s, n := segs[i], |runs|;
      assert segs[..i + 1] == segs[..i] + [s];
      if n > 0 && runs[n - 1].tier == s.tier {
        var last := TierRun(s.tier, runs[n - 1].segs + [s]);
        assert OneTier(runs[n - 1]);
        ghost var before := runs;
        runs := runs[n - 1 := last];
        assert runs[..n - 1] == before[..n - 1];
      } else {
        assert (runs + [TierRun(s.tier, [s])])[..n] == runs;
        runs := runs + [TierRun(s.tier, [s])];
      }
    }
    assert segs[..|segs|] == segs;
  }

  /** A deletion of k that the limits ask for and, unless it was cut short, that meets
      them all. */
  ghost predicate Enforced(l: Limits, segs: seq<Seg>, keepNewest: nat, k: nat, complete: bool) {
    && k <= |segs| && (forall j :: 0 <= j < k ==> !Meets(l, segs, keepNewest, j))
    && (complete ==> Meets(l, segs, keepNewest, k))
  }

  /** One tier's limits on its own run, each on what the one before left. */
  method CleanTier(segs: seq<Seg>, limits: Limits, maxDrop: nat, fails: int -> bool)
    returns (out: seq<Seg>, ok: bool)
    ensures var k := |segs| - |out|;
            Dropped(segs, out, k) && k <= maxDrop && Enforced(limits, segs, 0, k, ok && k < maxDrop)
  {
    ghost var k;
    out, ok, k := AgeTier(segs, limits, maxDrop, fails);
    if !ok {
      return;
    }
    out, ok, k := LimitTier(segs, k, out, Messages, limits, maxDrop - (|segs| - |out|), fails);
    if !ok {
      return;
    }
    out, ok, k := LimitTier(segs, k, out, Physical, limits, maxDrop - (|segs| - |out|), fails);
  }

  /** A tier's age limit on its run. */
  method AgeTier(segs: seq<Seg>, l: Limits, maxDrop: nat, fails: int -> bool)
    returns (out: seq<Seg>, ok: bool, ghost k: nat)
    ensures k <= maxDrop && Dropped(segs, out, k) && NoneMeets(l, segs, 0, k)
    ensures ok && k < maxDrop ==> MetThrough(l, segs, 0, k, 1)
  {
    out, ok, k := segs, true, 0;
    if l.oldest.Some? {
      var idx := FirstLive(segs, l.oldest.value);
      out, ok := DropOldestPrefix(segs, idx, maxDrop, fails);
      k := |segs| - |out|;
    }
  }

  /** One total limit on what is left of a run. */
  method LimitTier(ghost segs: seq<Seg>, ghost from: nat, rest: seq<Seg>, m: Measure, l: Limits, left: nat,
                   fails: int -> bool)
    returns (out: seq<Seg>, ok: bool, ghost k: nat)
    requires Dropped(segs, rest, from) && NoneMeets(l, segs, 0, from)
    ensures from <= k <= from + left && Dropped(segs, out, k) && NoneMeets(l, segs, 0, k)
    ensures ok && k < from + left && MetThrough(l, segs, 0, from, Stage(m) - 1) ==> MetThrough(l, segs, 0, k, Stage(m))
  {
    if LimitOf(l, m) <= 0 {
      return rest, true, from;
    }
    out, ok := ApplyTotalLimit(rest, LimitOf(l, m), m, 0, left, fails);
    k := from + (|rest| - |out|);
    LimitStage(l, segs, 0, from, |rest| - |out|, m);
  }

  /** No deleted segment is in a tier this log may not write to. */
  ghost predicate SparesTiers(segs: seq<Seg>, k: nat, skip: set<string>)
    requires k <= |segs|
  {
    forall i :: 0 <= i < k ==> segs[i].tier.Some? ==> segs[i].tier.value !in skip
  }

  /** A deletion of the oldest d segments of a run that its tier's limits ask for. */
  ghost predicate Demanded(r: TierRun, d: nat, tiers: map<string, Limits>, skip: set<string>) {
    && r.tier.Some? && r.tier.value !in skip && r.tier.value in tiers
    && Enforced(tiers[r.tier.value], r.segs, 0, d, false)
  }

  /** The runs before `at` are gone, and d segments of that one, because their tiers'
      limits asked for it. */
  ghost predicate Drained(runs: seq<TierRun>, at: nat, d: nat, tiers: map<string, Limits>, skip: set<string>) {
    && at <= |runs| && (at == |runs| ==> d == 0)
    && (forall n {:trigger Demanded(runs[n], |runs[n].segs|, tiers, skip)} :: 0 <= n < at ==>
        Demanded(runs[n], |runs[n].segs|, tiers, skip))
    && (at < |runs| && d > 0 ==> Demanded(runs[at], d, tiers, skip))
  }

  /** Nothing more of this run is to be deleted: its tier may not be written to, or its
      limits are met. */
  ghost predicate Stops(r: TierRun, d: nat, tiers: map<string, Limits>, skip: set<string>) {
    && r.tier.Some? && d < |r.segs|
    && (r.tier.value in skip || (r.tier.value in tiers && Meets(tiers[r.tier.value], r.segs, 0, d)))
  }

  /** The segments' runs, and how far into them the deletion got: unless the allowance
      ran out or a deletion failed, it stopped where it had to. */
  ghost predicate DrainedTo(segs: seq<Seg>, out: seq<Seg>, runs: seq<TierRun>, at: nat, d: nat,
                            tiers: map<string, Limits>, skip: set<string>, maxDrop: nat, ok: bool) {
    && RunsOf(segs, runs) && Drained(runs, at, d, tiers, skip) && |segs| - |out| == |Flat(runs[..at])| + d
    && (ok && |segs| - |out| < maxDrop && at < |runs| ==> Stops(runs[at], d, tiers, skip))
  }

  /** Each run by its own tier's limits, oldest first; a run that keeps anything, or is
      in a tier this log may not write to, stops every newer one. What survives is
      therefore a suffix, and where it starts is decided by one run's limits. */
  method CleanTiers(segs: seq<Seg>, tiers: map<string, Limits>, skip: set<string>, maxDrop: nat, fails: int -> bool)
    returns (out: seq<Seg>, ok: bool)
    requires forall i :: 0 <= i < |segs| ==> segs[i].tier.Some?
    ensures var k := |segs| - |out|; Dropped(segs, out, k) && k <= maxDrop && SparesTiers(segs, k, skip)
    ensures exists runs, at, d :: DrainedTo(segs, out, runs, at, d, tiers, skip, maxDrop, ok)
  {
    var runs := TierRuns(segs);
    ghost var k, at, d;
    forall n | 0 <= n < |runs|
      ensures InTier(runs[n])
    {
      RunInTier(runs, n, segs);
    }
    out, ok, k, at, d := CleanRuns(segs, runs, tiers, skip, maxDrop, fails);
    assert DrainedTo(segs, out, runs, at, d, tiers, skip, maxDrop, ok);
  }

  method CleanRuns(segs: seq<Seg>, rs: seq<TierRun>, tiers: map<string, Limits>, skip: set<string>, maxDrop: nat,
                   fails: int -> bool)
    returns (out: seq<Seg>, ok: bool, ghost k: nat, ghost at: nat, ghost d: nat)
    requires Flat(rs) == segs && forall n :: 0 <= n < |rs| ==> InTier(rs[n])
    ensures RunsCleaned(segs, rs, out, ok, k, at, d, tiers, skip, maxDrop)
  {
    var left: nat, blocked := maxDrop, false;
    out, ok, k, at, d := [], true, 0, 0, 0;
    for n := 0 to |rs|
      invariant ok && k + left == maxDrop && Reached(segs, rs, n, out, k, at, d, blocked, tiers, skip, maxDrop)
    {
      assert InTier(rs[n]);
      if blocked || rs[n].tier.value in skip {
        KeepRun(rs, n, segs, out, k, at, d, blocked, tiers, skip, maxDrop);
        out := out + rs[n].segs;
        blocked := true;
      } else if rs[n].tier.value !in tiers {
        Failed(rs, n, segs, out, k, at, d, blocked, tiers, skip, maxDrop);
        return out + segs[|segs| - Count(rs, n)..], false, k, at, d;
      } else {
        ghost var gone;
        out, ok, gone, at, d := CleanRun(rs, n, segs, tiers, skip, maxDrop, left, fails, k, at);
        k := k + gone;
        if !ok {
          return;
        }
        left := left - (|rs[n].segs| - |out|);
        blocked := |out| > 0;
      }
    }
    Finished(rs, segs, out, k, at, d, blocked, tiers, skip, maxDrop);
  }

  /** A run of a tier. */
  ghost predicate InTier(r: TierRun) {
    OneTier(r) && r.tier.Some?
  }

  /** The first n runs are dealt with. */
  ghost predicate Reached(segs: seq<Seg>, rs: seq<TierRun>, n: nat, out: seq<Seg>, k: nat, at: nat, d: nat,
                          blocked: bool, tiers: map<string, Limits>, skip: set<string>, maxDrop: nat) {
    && Cleaned(rs, n, segs, out, k, blocked, skip) && Progress(rs, n, tiers, skip, maxDrop, k, at, d, blocked)
    && (!blocked ==> out == [] && d == 0)
  }

  ghost predicate RunsCleaned(segs: seq<Seg>, rs: seq<TierRun>, out: seq<Seg>, ok: bool, k: nat, at: nat, d: nat,
                              tiers: map<string, Limits>, skip: set<string>, maxDrop: nat) {
    && k <= maxDrop && Dropped(segs, out, k) && SparesTiers(segs, k, skip)
    && Drained(rs, at, d, tiers, skip) && k == |Flat(rs[..at])| + d
    && (ok && k < maxDrop && at < |rs| ==> Stops(rs[at], d, tiers, skip))
  }

  /** A failure leaves every run not yet reached. */
  lemma Failed(rs: seq<TierRun>, n: nat, segs: seq<Seg>, out: seq<Seg>, k: nat, at: nat, d: nat, blocked: bool,
               tiers: map<string, Limits>, skip: set<string>, maxDrop: nat)
    requires n <= |rs| && Flat(rs) == segs && Cleaned(rs, n, segs, out, k, blocked, skip) && k <= maxDrop
    requires Drained(rs, at, d, tiers, skip) && k == |Flat(rs[..at])| + d
    ensures Count(rs, n) <= |segs| &&
            RunsCleaned(segs, rs, out + segs[|segs| - Count(rs, n)..], false, k, at, d, tiers, skip, maxDrop)
  {
    RestOf(rs, n, segs, out, k, blocked, skip);
  }

  lemma Finished(rs: seq<TierRun>, segs: seq<Seg>, out: seq<Seg>, k: nat, at: nat, d: nat, blocked: bool,
                 tiers: map<string, Limits>, skip: set<string>, maxDrop: nat)
    requires Flat(rs) == segs && Cleaned(rs, |rs|, segs, out, k, blocked, skip) && k <= maxDrop
    requires Progress(rs, |rs|, tiers, skip, maxDrop, k, at, d, blocked)
    ensures RunsCleaned(segs, rs, out, true, k, at, d, tiers, skip, maxDrop)
  {
    assert rs[..|rs|] == rs;
  }

  /** One run whose turn has come: everything older is gone. */
  method CleanRun(rs: seq<TierRun>, n: nat, segs: seq<Seg>, tiers: map<string, Limits>, ghost skip: set<string>,
                  ghost maxDrop: nat, left: nat, fails: int -> bool, ghost k: nat, ghost at0: nat)
    returns (out: seq<Seg>, ok: bool, ghost gone: nat, ghost at: nat, ghost d: nat)
    requires n < |rs| && Flat(rs) == segs && InTier(rs[n]) && k + left == maxDrop
    requires Reached(segs, rs, n, [], k, at0, 0, false, tiers, skip, maxDrop)
    requires rs[n].tier.value !in skip && rs[n].tier.value in tiers
    ensures gone <= left && gone <= |rs[n].segs|
    ensures !ok ==> RunsCleaned(segs, rs, out, false, k + gone, at, d, tiers, skip, maxDrop)
    ensures ok ==> |out| == |rs[n].segs| - gone
    ensures ok ==> Reached(segs, rs, n + 1, out, k + gone, at, d, out != [], tiers, skip, maxDrop)
  {
    out, ok := CleanTier(rs[n].segs, tiers[rs[n].tier.value], left, fails);
    gone := |rs[n].segs| - |out|;
    AfterRun(rs, n, segs, k, at0, gone, ok, tiers, skip, maxDrop);
    at, d := if ok && out == [] then n + 1 else at0, if ok && out == [] then 0 else gone;
    if !ok {
      out := out + segs[|segs| - Count(rs, n + 1)..];
    }
  }

  /** What is known once a run's own limits were applied. */
  lemma AfterRun(rs: seq<TierRun>, n: nat, segs: seq<Seg>, k: nat, at: nat, gone: nat, ok: bool,
                 tiers: map<string, Limits>, skip: set<string>, maxDrop: nat)
    requires n < |rs| && Flat(rs) == segs && InTier(rs[n]) && k + gone <= maxDrop
    requires Reached(segs, rs, n, [], k, at, 0, false, tiers, skip, maxDrop)
    requires rs[n].tier.value !in skip && rs[n].tier.value in tiers
    requires Enforced(tiers[rs[n].tier.value], rs[n].segs, 0, gone, ok && k + gone < maxDrop)
    ensures var out := rs[n].segs[gone..];
            && Count(rs, n + 1) <= |segs|
            && (!ok ==> RunsCleaned(segs, rs, out + segs[|segs| - Count(rs, n + 1)..], false, k + gone, at, gone,
                                    tiers, skip, maxDrop))
            && (ok && out != [] ==> Reached(segs, rs, n + 1, out, k + gone, at, gone, true, tiers, skip, maxDrop))
            && (ok && out == [] ==> Reached(segs, rs, n + 1, [], k + gone, n + 1, 0, false, tiers, skip, maxDrop))
  {
    DrainRun(rs, n, segs, k, gone, skip);
    DrainProgress(rs, n, tiers, skip, maxDrop, k, at, gone, ok);
    Failed(rs, n + 1, segs, rs[n].segs[gone..], k + gone, at, gone, true, tiers, skip, maxDrop);
  }

  /** How far the deletion has come after the first n runs. */
  ghost predicate Progress(runs: seq<TierRun>, n: nat, tiers: map<string, Limits>, skip: set<string>, maxDrop: nat,
                           k: nat, at: nat, d: nat, blocked: bool) {
    && Drained(runs, at, d, tiers, skip) && k == |Flat(runs[..at])| + d
    && (!blocked ==> at == n && d == 0)
    && (blocked && k < maxDrop ==> at < |runs| && Stops(runs[at], d, tiers, skip))
  }

  lemma KeepProgress(runs: seq<TierRun>, n: nat, tiers: map<string, Limits>, skip: set<string>, maxDrop: nat,
                     k: nat, at: nat, d: nat, blocked: bool)
    requires Progress(runs, n, tiers, skip, maxDrop, k, at, d, blocked) && n < |runs| && OneTier(runs[n])
    requires blocked || (runs[n].tier.Some? && runs[n].tier.value in skip)
    ensures Progress(runs, n + 1, tiers, skip, maxDrop, k, at, d, true)
  {
  }

  lemma DrainProgress(runs: seq<TierRun>, n: nat, tiers: map<string, Limits>, skip: set<string>, maxDrop: nat,
                      k: nat, at: nat, d: nat, ok: bool)
    requires Progress(runs, n, tiers, skip, maxDrop, k, at, 0, false) && n < |runs|
    requires runs[n].tier.Some? && runs[n].tier.value !in skip && runs[n].tier.value in tiers && k <= maxDrop
    requires Enforced(tiers[runs[n].tier.value], runs[n].segs, 0, d, ok && k + d < maxDrop)
    ensures Drained(runs, at, d, tiers, skip) && k + d == |Flat(runs[..at])| + d
    ensures ok && d < |runs[n].segs| ==> Progress(runs, n + 1, tiers, skip, maxDrop, k + d, at, d, true)
    ensures ok && d == |runs[n].segs| ==> Progress(runs, n + 1, tiers, skip, maxDrop, k + d, n + 1, 0, false)
  {
    assert Demanded(runs[n], d, tiers, skip);
    assert runs[..n + 1][..n] == runs[..n];
  }

  lemma RunInTier(runs: seq<TierRun>, n: nat, segs: seq<Seg>)
    requires n < |runs| && Flat(runs) == segs && OneTier(runs[n]) && forall i :: 0 <= i < |segs| ==> segs[i].tier.Some?
    ensures runs[n].tier.Some?
  {
    NextRun(runs, n, segs);
    var k := |Flat(runs[..n])|;
    assert segs[..|Flat(runs[..n + 1])|][k] == runs[n].segs[0];
  }

  /** The first n runs, after k segments of them were deleted. */
  ghost predicate Cleaned(runs: seq<TierRun>, n: nat, segs: seq<Seg>, out: seq<Seg>, k: nat, blocked: bool,
                          skip: set<string>) {
    && FlatPrefix(runs, n, segs) && k <= |Flat(runs[..n])| && out == Flat(runs[..n])[k..]
    && SparesTiers(segs, k, skip) && (!blocked ==> out == [])
  }

  lemma KeepRun(rs: seq<TierRun>, n: nat, segs: seq<Seg>, out: seq<Seg>, k: nat, at: nat, d: nat, blocked: bool,
                tiers: map<string, Limits>, skip: set<string>, maxDrop: nat)
    requires n < |rs| && Flat(rs) == segs && Reached(segs, rs, n, out, k, at, d, blocked, tiers, skip, maxDrop)
    requires InTier(rs[n]) && (blocked || rs[n].tier.value in skip)
    ensures Reached(segs, rs, n + 1, out + rs[n].segs, k, at, d, true, tiers, skip, maxDrop)
  {
    NextRun(rs, n, segs);
    TailConcat(Flat(rs[..n]), rs[n].segs, k);
    KeepProgress(rs, n, tiers, skip, maxDrop, k, at, d, blocked);
  }

  lemma TailConcat(a: seq<Seg>, b: seq<Seg>, k: nat)
    requires k <= |a|
    ensures (a + b)[k..] == a[k..] + b
  {
  }

  /** Everything older was deleted, and d segments of this run. */
  lemma DrainRun(runs: seq<TierRun>, n: nat, segs: seq<Seg>, k: nat, d: nat, skip: set<string>)
    requires n < |runs| && Flat(runs) == segs && Cleaned(runs, n, segs, [], k, false, skip) && d <= |runs[n].segs|
    requires OneTier(runs[n]) && (runs[n].tier.Some? ==> runs[n].tier.value !in skip)
    ensures Cleaned(runs, n + 1, segs, runs[n].segs[d..], k + d, d < |runs[n].segs|, skip)
    ensures Cleaned(runs, n + 1, segs, runs[n].segs[d..], k + d, true, skip)
  {
    NextRun(runs, n, segs);
    var done := Flat(runs[..n]);
    assert k == |done|;
    SparesMore(segs, done, runs[n], k, d, skip);
    assert (done + runs[n].segs)[k + d..] == runs[n].segs[d..];
  }

  ghost predicate FlatPrefix(runs: seq<TierRun>, n: nat, segs: seq<Seg>) {
    n <= |runs| && |Flat(runs[..n])| <= |segs| && segs[..|Flat(runs[..n])|] == Flat(runs[..n])
  }

  lemma {:induction false} FlatLonger(runs: seq<TierRun>, n: nat)
    requires n <= |runs|
    ensures FlatPrefix(runs, n, Flat(runs))
    decreases |runs| - n
  {
    if n == |runs| {
      assert runs[..n] == runs;
    } else {
      FlatLonger(runs, n + 1);
      assert runs[..n + 1][..n] == runs[..n];
    }
  }

  lemma NextRun(runs: seq<TierRun>, n: nat, segs: seq<Seg>)
    requires n < |runs| && Flat(runs) == segs
    ensures Flat(runs[..n + 1]) == Flat(runs[..n]) + runs[n].segs && FlatPrefix(runs, n + 1, segs)
  {
    assert runs[..n + 1][..n] == runs[..n];
    FlatLonger(runs, n + 1);
  }

  /** How many segments the runs from n on hold. */
  function Count(runs: seq<TierRun>, n: nat): nat
    decreases |runs| - n
  {
    if n >= |runs| then 0 else |runs[n].segs| + Count(runs, n + 1)
  }

  /** What the runs not reached hold, after what is left of the others. */
  lemma RestOf(runs: seq<TierRun>, n: nat, segs: seq<Seg>, out: seq<Seg>, k: nat, blocked: bool, skip: set<string>)
    requires n <= |runs| && Flat(runs) == segs && Cleaned(runs, n, segs, out, k, blocked, skip)
    ensures Count(runs, n) <= |segs| && out + segs[|segs| - Count(runs, n)..] == segs[k..]
  {
    CountIs(runs, n, segs);
    var done := Flat(runs[..n]);
    assert segs == done + segs[|done|..];
  }

  lemma {:induction false} CountIs(runs: seq<TierRun>, n: nat, segs: seq<Seg>)
    requires n <= |runs| && Flat(runs) == segs
    ensures FlatPrefix(runs, n, segs) && |segs| == |Flat(runs[..n])| + Count(runs, n)
    decreases |runs| - n
  {
    FlatLonger(runs, n);
    if n == |runs| {
      assert runs[..n] == runs;
    } else {
      CountIs(runs, n + 1, segs);
      NextRun(runs, n, segs);
    }
  }

  lemma SparesMore(segs: seq<Seg>, done: seq<Seg>, r: TierRun, k: nat, d: nat, skip: set<string>)
    requires |done| + |r.segs| <= |segs| && segs[..|done| + |r.segs|] == done + r.segs && k == |done| && d <= |r.segs|
    requires SparesTiers(segs, k, skip) && OneTier(r) && (r.tier.Some? ==> r.tier.value !in skip)
    ensures SparesTiers(segs, k + d, skip)
  {
    forall i | 0 <= i < k + d && segs[i].tier.Some?
      ensures segs[i].tier.value !in skip
    {
      assert segs[i] == segs[..|done| + |r.segs|][i];
    }
  }

  // ---- the local half ----

  /** Nothing deleted reaches the floor, and the oldest one kept starts at or below it. */
  ghost predicate SparesFloor(segs: seq<Seg>, k: int, floor: Option<int>)
    requires k <= |segs|
  {
    && (floor.Some? ==> forall i :: 0 <= i < k ==> segs[i].end <= floor.value)
    && (floor.Some? && k > 0 ==> k < |segs| && segs[k].base <= floor.value)
  }

  /** The floor lets no more be deleted. */
  ghost predicate Floored(segs: seq<Seg>, k: nat, floor: Option<int>) {
    floor.Some? && (k + 1 >= |segs| || segs[k + 1].base > floor.value)
  }

  /** The local limits, in turn, each allowed what the floor permits of what is left: the
      active segment always stays, nothing is deleted that the limits accept, and without
      failure all of them are met unless the floor forbids it. */
  method CleanLocal(segs: seq<Seg>, limits: Limits, floor: Option<int>, fails: int -> bool)
    returns (out: seq<Seg>, ok: bool)
    requires InOrder(segs)
    ensures segs != [] ==> out != []
    ensures var k := |segs| - |out|;
            && Dropped(segs, out, k) && SparesFloor(segs, k, floor)
            && Enforced(limits, segs, 1, k, ok && !Floored(segs, k, floor))
  {
    if |segs| == 0 {
      EmptyMeets(limits);
      return segs, true;
    }
    ghost var k;
    out, ok, k := AgeLocal(segs, limits, floor, fails);
    if !ok {
      return;
    }
    out, ok, k := LimitLocal(segs, k, out, Messages, limits, floor, fails);
    if !ok {
      return;
    }
    out, ok, k := LimitLocal(segs, k, out, Physical, limits, floor, fails);
  }

  /** What the floor permitted of the local half, and whether the stages so far are met. */
  ghost predicate LocalStage(l: Limits, segs: seq<Seg>, k: nat, floor: Option<int>, ok: bool, stage: nat) {
    && k < |segs| && SparesFloor(segs, k, floor) && NoneMeets(l, segs, 1, k)
    && (ok ==> Floored(segs, k, floor) || MetThrough(l, segs, 1, k, stage))
  }

  /** The local age limit. */
  method AgeLocal(segs: seq<Seg>, l: Limits, floor: Option<int>, fails: int -> bool)
    returns (out: seq<Seg>, ok: bool, ghost k: nat)
    requires InOrder(segs) && segs != []
    ensures Dropped(segs, out, k) && LocalStage(l, segs, k, floor, ok, 1)
  {
    out, ok, k := segs, true, 0;
    if l.oldest.Some? {
      var n := DeletablePrefix(segs, floor);
      out, ok := ApplyAgeLimit(segs, l.oldest.value, n, fails);
      k := |segs| - |out|;
    }
  }

  lemma EmptyMeets(l: Limits)
    ensures Enforced(l, [], 1, 0, true)
  {
  }

  /** One total limit on what is left of the local half. */
  method LimitLocal(ghost segs: seq<Seg>, ghost from: nat, rest: seq<Seg>, m: Measure, l: Limits, floor: Option<int>,
                    fails: int -> bool)
    returns (out: seq<Seg>, ok: bool, ghost k: nat)
    requires InOrder(segs) && Dropped(segs, rest, from) && LocalStage(l, segs, from, floor, true, Stage(m) - 1)
    ensures Dropped(segs, out, k) && LocalStage(l, segs, k, floor, ok, Stage(m))
  {
    if LimitOf(l, m) <= 0 {
      return rest, true, from;
    }
    InOrderTail(segs, from);
    var n := DeletablePrefix(rest, floor);
    out, ok := ApplyTotalLimit(rest, LimitOf(l, m), m, 1, n, fails);
    ghost var d := |rest| - |out|;
    k := from + d;
    LimitStage(l, segs, 1, from, d, m);
    FlooredTail(segs, from, rest, n, d, floor);
  }

  /** The floor's allowance, in terms of the whole half. */
  lemma FlooredTail(segs: seq<Seg>, from: nat, rest: seq<Seg>, n: nat, d: nat, floor: Option<int>)
    requires from < |segs| && rest == segs[from..] && d <= n <= |rest| && SparesFloor(segs, from, floor)
    requires floor.None? ==> n == |rest|
    requires floor.Some? ==> n < |rest| && forall i :: 0 < i < |rest| ==> (rest[i].base <= floor.value <==> i <= n)
    requires floor.Some? ==> forall i :: 0 <= i < n ==> rest[i].end <= floor.value
    ensures floor.Some? ==> Floored(segs, from + n, floor)
    ensures Floored(segs, from, floor) ==> n == 0
    ensures SparesFloor(segs, from + d, floor)
  {
    if floor.Some? && n + 1 < |rest| {
      assert rest[n + 1] == segs[from + n + 1];
    }
    if Floored(segs, from, floor) && |rest| > 1 {
      assert rest[1] == segs[from + 1];
    }
    forall i | floor.Some? && 0 <= i < from + d
      ensures segs[i].end <= floor.value
    {
      assert i >= from ==> segs[i] == rest[i - from];
    }
    assert floor.Some? && d > 0 ==> segs[from + d] == rest[d];
  }

  // ---- both halves ----

  /** The offloaded prefix and the rest. */
  method SplitOffloadedPrefix(segs: seq<Seg>) returns (n: nat)
    ensures SplitAt(segs, n)
  {
    n := 0;
    while n < |segs| && segs[n].tier.Some?
      invariant 0 <= n <= |segs| && forall i :: 0 <= i < n ==> segs[i].tier.Some?
    {
      n := n + 1;
    }
  }

  predicate NoLimits(l: Limits) {
    l.oldest.None? && l.messages <= 0 && l.bytes <= 0
  }

  predicate NoTierLimits(tiers: map<string, Limits>) {
    forall t :: t in tiers ==> tiers[t].oldest.None? && tiers[t].messages == 0 && tiers[t].bytes == 0
  }

  /** A deletion of a segments from the tiered half and b from the local half: the active
      segment stays, nothing at or above the floor goes, and no tier this log may not
      write to is touched. */
  ghost predicate Retained(segs: seq<Seg>, n: nat, a: nat, b: nat, floor: Option<int>, skip: set<string>) {
    && a <= n <= |segs| && b <= |segs| - n && (n < |segs| ==> n + b < |segs|)
    && SparesTiers(segs, a, skip)
    && (floor.Some? ==> forall i :: 0 <= i < |segs| && (i < a || n <= i < n + b) ==> segs[i].end <= floor.value)
  }

  /** The offloaded prefix ends at n. */
  ghost predicate SplitAt(segs: seq<Seg>, n: nat) {
    n <= |segs| && (forall i :: 0 <= i < n ==> segs[i].tier.Some?) && (n < |segs| ==> segs[n].tier.None?)
  }

  /** The halves without their oldest a and b segments, each half's limits enforced. */
  ghost predicate CleanedTo(segs: seq<Seg>, out: seq<Seg>, n: nat, a: nat, b: nat, limits: Limits,
                            tiers: map<string, Limits>, skip: set<string>, floor: Option<int>, ok: bool) {
    && SplitAt(segs, n) && Retained(segs, n, a, b, floor, skip) && out == segs[a..n] + segs[n + b..]
    && Enforced(limits, segs[n..], 1, b, ok && !Floored(segs[n..], b, floor))
    && TiersMet(segs, n, a, tiers, skip, floor, ok) && SparesFloor(segs, a, floor) && SparesFloor(segs[n..], b, floor)
    && (n < |segs| ==> out != [] && out[|out| - 1] == segs[|segs| - 1])
  }

  /** Enforce the retention policy. Whatever fails, the survivors of each half are a
      suffix of that half. */
  method Clean(segs: seq<Seg>, limits: Limits, tiers: map<string, Limits>, skip: set<string>, floor: Option<int>,
               fails: int -> bool)
    returns (out: seq<Seg>, ok: bool)
    requires InOrder(segs)
    ensures exists n, a, b :: CleanedTo(segs, out, n, a, b, limits, tiers, skip, floor, ok)
  {
    var cut := SplitOffloadedPrefix(segs);
    if |segs| == 0 || (NoLimits(limits) && NoTierLimits(tiers)) {
      Untouched(segs, cut, limits, tiers, floor, skip);
      return segs, true;
    }
    ghost var a, b;
    out, ok, a, b := CleanHalves(segs, cut, limits, tiers, skip, floor, fails);
  }

  method CleanHalves(segs: seq<Seg>, cut: nat, limits: Limits, tiers: map<string, Limits>, skip: set<string>,
                     floor: Option<int>, fails: int -> bool)
    returns (out: seq<Seg>, ok: bool, ghost a: nat, ghost b: nat)
    requires InOrder(segs) && SplitAt(segs, cut)
    ensures CleanedTo(segs, out, cut, a, b, limits, tiers, skip, floor, ok)
  {
    var tiered, local;
    tiered, ok, a := CleanTieredHalf(segs, cut, tiers, skip, floor, fails);
    if !ok {
      LocalUntouched(segs, cut, limits, floor);
      BothHalves(segs, cut, a, 0, limits, tiers, skip, floor, false, false);
      return tiered + segs[cut..], false, a, 0;
    }
    local, ok, b := CleanLocalHalf(segs, cut, limits, floor, fails);
    BothHalves(segs, cut, a, b, limits, tiers, skip, floor, true, ok);
    out := tiered + local;
  }

  /** What is left of the tiered half. */
  ghost predicate TieredTo(segs: seq<Seg>, n: nat, a: nat, tiers: map<string, Limits>, skip: set<string>,
                           floor: Option<int>, ok: bool) {
    && a <= n <= |segs| && SparesTiers(segs, a, skip) && SparesFloor(segs, a, floor)
    && TiersMet(segs, n, a, tiers, skip, floor, ok)
  }

  /** What is left of the local half. */
  ghost predicate LocalTo(segs: seq<Seg>, n: nat, b: nat, limits: Limits, floor: Option<int>, ok: bool) {
    && n + b <= |segs| && (n < |segs| ==> n + b < |segs|) && SparesFloor(segs[n..], b, floor)
    && Enforced(limits, segs[n..], 1, b, ok && !Floored(segs[n..], b, floor))
  }

  lemma LocalUntouched(segs: seq<Seg>, n: nat, limits: Limits, floor: Option<int>)
    requires n <= |segs|
    ensures LocalTo(segs, n, 0, limits, floor, false) && segs[n + 0..] == segs[n..]
  {
  }

  lemma BothHalves(segs: seq<Seg>, n: nat, a: nat, b: nat, limits: Limits, tiers: map<string, Limits>,
                   skip: set<string>, floor: Option<int>, tiersOk: bool, ok: bool)
    requires SplitAt(segs, n) && TieredTo(segs, n, a, tiers, skip, floor, tiersOk) && (ok ==> tiersOk)
    requires LocalTo(segs, n, b, limits, floor, ok)
    ensures CleanedTo(segs, segs[a..n] + segs[n + b..], n, a, b, limits, tiers, skip, floor, ok)
  {
    TiersMetStill(segs, n, a, tiers, skip, floor, tiersOk, ok);
    LastKept(segs, n, a, b);
    FloorKept(segs, n, b, floor);
  }

  lemma Untouched(segs: seq<Seg>, n: nat, limits: Limits, tiers: map<string, Limits>, floor: Option<int>,
                  skip: set<string>)
    requires SplitAt(segs, n) && (segs == [] || (NoLimits(limits) && NoTierLimits(tiers)))
    ensures CleanedTo(segs, segs, n, 0, 0, limits, tiers, skip, floor, true)
  {
    assert segs == segs[0..n] + segs[n + 0..];
    assert segs == [] ==> segs[n..] == [];
    EmptyMeets(limits);
    NoneEnforced(limits, segs[n..], NoLimits(limits));
  }

  method CleanLocalHalf(segs: seq<Seg>, cut: nat, limits: Limits, floor: Option<int>, fails: int -> bool)
    returns (out: seq<Seg>, ok: bool, ghost b: nat)
    requires InOrder(segs) && cut <= |segs|
    ensures LocalTo(segs, cut, b, limits, floor, ok) && out == segs[cut + b..]
  {
    if NoLimits(limits) {
      NoneEnforced(limits, segs[cut..], true);
      return segs[cut..], true, 0;
    }
    InOrderTail(segs, cut);
    out, ok := CleanLocal(segs[cut..], limits, floor, fails);
    b := |segs| - cut - |out|;
    assert segs[cut..][b..] == segs[cut + b..];
  }

  lemma NoneEnforced(l: Limits, segs: seq<Seg>, complete: bool)
    requires complete ==> NoLimits(l)
    ensures Enforced(l, segs, 1, 0, complete)
  {
  }

  lemma LastKept(segs: seq<Seg>, n: nat, a: nat, b: nat)
    requires a <= n && n + b <= |segs|
    ensures n + b < |segs| ==> var out := segs[a..n] + segs[n + b..]; out != [] && out[|out| - 1] == segs[|segs| - 1]
  {
  }

  /** The tiered half's runs, deleted as far as their tiers' limits ask; unless a deletion
      failed or the floor forbids more, it stopped at a run that may not be touched or
      whose limits are met. */
  ghost predicate TiersDone(segs: seq<Seg>, n: nat, a: nat, tiers: map<string, Limits>, skip: set<string>,
                            floor: Option<int>, ok: bool, runs: seq<TierRun>, at: nat, d: nat) {
    && a <= n <= |segs| && RunsOf(segs[..n], runs) && Drained(runs, at, d, tiers, skip) && a == |Flat(runs[..at])| + d
    && (ok && a < n && !Floored(segs, a, floor) ==> at < |runs| && Stops(runs[at], d, tiers, skip))
  }

  ghost predicate TiersMet(segs: seq<Seg>, n: nat, a: nat, tiers: map<string, Limits>, skip: set<string>,
                           floor: Option<int>, ok: bool) {
    if n == 0 || NoTierLimits(tiers) then a == 0
    else exists runs, at, d :: TiersDone(segs, n, a, tiers, skip, floor, ok, runs, at, d)
  }

  lemma TiersMetStill(segs: seq<Seg>, n: nat, a: nat, tiers: map<string, Limits>, skip: set<string>,
                      floor: Option<int>, tiersOk: bool, ok: bool)
    requires TiersMet(segs, n, a, tiers, skip, floor, tiersOk) && (ok ==> tiersOk)
    ensures TiersMet(segs, n, a, tiers, skip, floor, ok)
  {
    if n > 0 && !NoTierLimits(tiers) {
      var runs, at, d :| TiersDone(segs, n, a, tiers, skip, floor, tiersOk, runs, at, d);
      assert TiersDone(segs, n, a, tiers, skip, floor, ok, runs, at, d);
    }
  }

  /** Where the allowance runs out, the floor forbids more. */
  lemma AllowanceMet(segs: seq<Seg>, n: nat, a: nat, out: seq<Seg>, tiers: map<string, Limits>, skip: set<string>,
                     floor: Option<int>, most: nat, allowed: nat, ok: bool)
    requires a <= n <= |segs| && |out| == n - a && (floor.None? ==> most == |segs|)
    requires n > 0 && !NoTierLimits(tiers) && a <= allowed == if most < n then most else n
    requires floor.Some? ==> forall i :: 0 < i < |segs| ==> (segs[i].base <= floor.value <==> i <= most)
    requires exists runs, at, d :: DrainedTo(segs[..n], out, runs, at, d, tiers, skip, allowed, ok)
    ensures TiersMet(segs, n, a, tiers, skip, floor, ok)
  {
    var runs, at, d :| DrainedTo(segs[..n], out, runs, at, d, tiers, skip, allowed, ok);
    assert at == |runs| ==> runs[..at] == runs;
    assert TiersDone(segs, n, a, tiers, skip, floor, ok, runs, at, d);
  }

  /** The tiered half, allowed what the floor permits of the whole log. */
  method CleanTieredHalf(segs: seq<Seg>, cut: nat, tiers: map<string, Limits>, skip: set<string>, floor: Option<int>,
                         fails: int -> bool)
    returns (out: seq<Seg>, ok: bool, ghost a: nat)
    requires InOrder(segs) && cut <= |segs| && forall i :: 0 <= i < cut ==> segs[i].tier.Some?
    ensures TieredTo(segs, cut, a, tiers, skip, floor, ok) && out == segs[a..cut]
  {
    if cut == 0 || NoTierLimits(tiers) {
      return segs[..cut], true, 0;
    }
    var most := DeletablePrefix(segs, floor);
    var allowed: nat := if most < cut then most else cut;
    out, ok := CleanTiers(segs[..cut], tiers, skip, allowed, fails);
    a := cut - |out|;
    AllowanceMet(segs, cut, a, out, tiers, skip, floor, most, allowed, ok);
    TieredHalf(segs, cut, a, skip);
  }

  lemma TieredHalf(segs: seq<Seg>, n: nat, a: nat, skip: set<string>)
    requires a <= n <= |segs| && SparesTiers(segs[..n], a, skip)
    ensures SparesTiers(segs, a, skip) && segs[..n][a..] == segs[a..n]
  {
    forall i | 0 <= i < a && segs[i].tier.Some?
      ensures segs[i].tier.value !in skip
    {
      assert segs[i] == segs[..n][i];
    }
  }

  lemma FloorKept(segs: seq<Seg>, n: nat, b: nat, floor: Option<int>)
    requires n + b <= |segs| && SparesFloor(segs[n..], b, floor)
    ensures floor.Some? ==> forall i :: n <= i < n + b ==> segs[i].end <= floor.value
  {
    forall i | floor.Some? && n <= i < n + b
      ensures segs[i].end <= floor.value
    {
      assert segs[i] == segs[n..][i - n];
    }
  }
}
