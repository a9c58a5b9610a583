/** Whole runs: appends, rolls and passes in any order, under one abort oracle. */
module CompactRuns {
  import opened Bytes
  import opened LogModel
  import opened CleanRules
  import opened CleanSegments
  import opened CompactPass
  import opened CompactSafety
  import opened CompactFloor

  /** `history` is every record ever appended, as it was appended; `ceiling` the
      highest a pass has used; `trusted` says every strip stamp written so far was
      true; `claims` are the floors reported for the headers they were reported for. */
  datatype State = State(
    log: seq<Segment>, history: seq<Record>, ceiling: int,
    trusted: bool, claims: set<(seq<string>, int)>)

  datatype Event =
    | Append(b: Block)
    | Roll
    | Clean(p: Pass, did: seq<bool>, refreshed: seq<bool>)

  function End(L: seq<Segment>): int
    requires L != []
  {
    L[|L| - 1].Next()
  }

  function WithBlock(L: seq<Segment>, b: Block): seq<Segment>
    requires L != []
  {
    var s := L[|L| - 1];
    L[|L| - 1 := s.(blocks := s.blocks + [b], stamp := -1, stampHeaders := [])]
  }

  /** A batch that extends the log: its offsets ascend from the log's end. */
  ghost predicate Extends(L: seq<Segment>, b: Block)
    requires L != []
  {
    b.records != [] && Ascending(b.records) && b.records[0].offset >= End(L)
  }

  ghost predicate Init(s: State) {
    s == State([Segment(0, [], None, -1, [], false)], [], -1, true, {})
  }

  /** A floor a pass may be believed about: earned on true stamps, with a strip that
      stays at or below the ceiling. */
  ghost function Claims(s: State, p: Pass, did: seq<bool>): set<(seq<string>, int)>
    requires s.log != []
  {
    if s.trusted && p.spec.stripHeaders != [] && p.spec.stripBelow <= p.spec.ceiling
    then {(p.spec.stripHeaders, Floor(s.log, p, did))} else {}
  }

  ghost predicate AllStampsHold(L: seq<Segment>, p: Pass, did: seq<bool>, refreshed: seq<bool>)
    requires |refreshed| == |L|
  {
    forall i :: 0 <= i < |L| ==> StampsHold(L, p, did, refreshed, i)
  }

  ghost predicate Step(aborted: int -> bool, s: State, e: Event, s': State) {
    s.log != [] &&
    match e
    case Append(b) =>
      Extends(s.log, b) && s' == s.(log := WithBlock(s.log, b), history := s.history + b.records)
    case Roll =>
      s' == s.(log := s.log + [Segment(End(s.log), [], None, -1, [], false)])
    case Clean(p, did, refreshed) =>
      && p.spec.aborted == aborted && p.spec.stripBelow <= MAX_OFFSET
      && HorizonSafe(s.log, p) && PassStep(s.log, p, did, refreshed, s'.log)
      && s' == s.(log := s'.log, ceiling := if p.spec.ceiling > s.ceiling then p.spec.ceiling else s.ceiling,
                  trusted := s.trusted && AllStampsHold(s.log, p, did, refreshed),
                  claims := s.claims + Claims(s, p, did))
  }

  ghost predicate Run(aborted: int -> bool, states: seq<State>, events: seq<Event>) {
    && |states| == |events| + 1 && Init(states[0])
    && forall i :: 0 <= i < |events| ==> Step(aborted, states[i], events[i], states[i + 1])
  }

  // ---- the history's own answer ----

  ghost predicate NewestEver(history: seq<Record>, aborted: int -> bool, k: Key, bound: int, h: Record) {
    && h in history && Visible(aborted, k, bound, h)
    && forall q :: q in history && Visible(aborted, k, bound, q) ==> q.offset <= h.offset
  }

  ghost predicate NeverSeen(history: seq<Record>, aborted: int -> bool, k: Key, bound: int) {
    forall q :: q in history ==> !Visible(aborted, k, bound, q)
  }

  /** The log still gives the history's answer, or nothing where that is a tombstone. */
  ghost predicate Answers(s: State, aborted: int -> bool, k: Key, bound: int) {
    && (forall h :: NewestEver(s.history, aborted, k, bound, h) ==>
          || (exists x :: LatestIs(s.log, aborted, k, bound, x) && SameRecord(h, x))
          || (Absent(s.log, aborted, k, bound) && h.tombstone))
    && (NeverSeen(s.history, aborted, k, bound) ==> Absent(s.log, aborted, k, bound))
  }

  ghost predicate AnswersAll(aborted: int -> bool, s: State) {
    forall k, bound :: bound >= s.ceiling ==> Answers(s, aborted, k, bound)
  }

  ghost predicate ClaimsStand(aborted: int -> bool, L: seq<Segment>, claims: set<(seq<string>, int)>)
    requires L != []
  {
    forall c :: c in claims ==> c.1 < End(L) && Settled(L, aborted, c.0, c.1)
  }

  ghost predicate Inv(aborted: int -> bool, s: State) {
    && ValidLog(s.log) && s.log != []
    && (forall h :: h in s.history ==> h.offset < End(s.log))
    && AnswersAll(aborted, s)
    && (s.trusted ==> AllTruthful(s.log))
    && ClaimsStand(aborted, s.log, s.claims)
  }

  // ---- one step at a time ----

  lemma SegmentWith(s: Segment, b: Block)
    requires ValidSegment(s) && b.records != [] && Ascending(b.records) && b.records[0].offset >= s.Next()
    ensures var t := s.(blocks := s.blocks + [b], stamp := -1, stampHeaders := []);
            ValidSegment(t) && t.Records() == s.Records() + b.records &&
              t.Next() == b.records[|b.records| - 1].offset + 1
  {
    var t := s.(blocks := s.blocks + [b], stamp := -1, stampHeaders := []);
    FlattenConcat(s.blocks, [b]);
    assert Flatten([b]) == b.records;
    NextAtLeastBase(s);
    AscendingConcat(s, b.records);
    ValidWith(t, s.base, s.Records(), b.records);
  }

  lemma ValidWith(t: Segment, base: int, before: seq<Record>, rs: seq<Record>)
    requires t.Records() == before + rs && t.base == base && 0 <= base && Ascending(before + rs) && rs != []
    requires forall i :: 0 <= i < |before| ==> base <= before[i].offset
    requires forall i :: 0 <= i < |rs| ==> base <= rs[i].offset
    ensures ValidSegment(t) && t.Next() == rs[|rs| - 1].offset + 1
  {
    forall i | 0 <= i < |before + rs|
      ensures base <= (before + rs)[i].offset
    {
    }
  }

  lemma AscendingConcat(s: Segment, rs: seq<Record>)
    requires ValidSegment(s) && rs != [] && Ascending(rs) && rs[0].offset >= s.Next()
    ensures Ascending(s.Records() + rs) && forall k :: 0 <= k < |rs| ==> rs[k].offset >= rs[0].offset
  {
    assert forall k :: 0 < k < |rs| ==> rs[0].offset < rs[k].offset;
    forall q | q in s.Records()
      ensures q.offset < s.Next()
    {
      RecordBounds([s], 0, q);
    }
    var before, all := s.Records(), s.Records() + rs;
    forall i, j | 0 <= i < j < |all|
      ensures all[i].offset < all[j].offset
    {
      assert i < |before| ==> all[i] in before;
    }
  }

  lemma RecordsWith(L: seq<Segment>, b: Block)
    requires ValidLog(L) && L != [] && Extends(L, b)
    ensures var L' := WithBlock(L, b);
            ValidLog(L') && End(L') == b.records[|b.records| - 1].offset + 1 &&
              L'[|L| - 1].Records() == L[|L| - 1].Records() + b.records
  {
    SegmentWith(L[|L| - 1], b);
  }

  lemma HoldsWith(L: seq<Segment>, b: Block, x: Record)
    requires ValidLog(L) && L != [] && Extends(L, b)
    ensures Holds(WithBlock(L, b), x) <==> Holds(L, x) || x in b.records
  {
    RecordsWith(L, b);
    var L' := WithBlock(L, b);
    forall i
      ensures HeldBy(L', i, x) <==> HeldBy(L, i, x) || (i == |L| - 1 && x in b.records)
    {
    }
    assert x in b.records ==> HeldBy(L', |L| - 1, x);
  }

  lemma FromEnd(L: seq<Segment>, b: Block)
    requires L != [] && Extends(L, b)
    ensures forall x :: x in b.records ==> End(L) <= x.offset <= b.records[|b.records| - 1].offset
  {
    forall x | x in b.records
      ensures End(L) <= x.offset <= b.records[|b.records| - 1].offset
    {
      var k :| 0 <= k < |b.records| && b.records[k] == x;
      assert k > 0 ==> b.records[0].offset < b.records[k].offset;
      assert k < |b.records| - 1 ==> b.records[k].offset < b.records[|b.records| - 1].offset;
    }
  }

  lemma RecordsBelowEnd(L: seq<Segment>, r: Record)
    requires ValidLog(L) && L != [] && Holds(L, r)
    ensures r.offset < End(L)
  {
    var i :| HeldBy(L, i, r);
    RecordBounds(L, i, r);
    NextAtLeastBase(L[|L| - 1]);
  }

  lemma AppendAnswers(aborted: int -> bool, s: State, b: Block, s': State, k: Key, bound: int)
    requires Inv(aborted, s) && Step(aborted, s, Append(b), s') && bound >= s.ceiling
    ensures Answers(s', aborted, k, bound)
  {
    assert Answers(s, aborted, k, bound);
    forall x {
      HoldsWith(s.log, b, x);
    }
    FromEnd(s.log, b);
    forall x | Holds(s.log, x)
      ensures x.offset < End(s.log)
    {
      RecordsBelowEnd(s.log, x);
    }
    assert forall q :: q in s'.history <==> q in s.history || q in b.records;
    forall h | NewestEver(s'.history, aborted, k, bound, h)
      ensures (exists x :: LatestIs(s'.log, aborted, k, bound, x) && SameRecord(h, x))
              || (Absent(s'.log, aborted, k, bound) && h.tombstone)
    {
      if h in b.records {
        assert LatestIs(s'.log, aborted, k, bound, h);
      } else {
        assert forall q :: q in b.records ==> !Visible(aborted, k, bound, q);
        assert NewestEver(s.history, aborted, k, bound, h);
        if x :| LatestIs(s.log, aborted, k, bound, x) && SameRecord(h, x) {
          assert LatestIs(s'.log, aborted, k, bound, x);
        }
      }
    }
  }

  lemma CleanAnswers(aborted: int -> bool, s: State, e: Event, s': State, k: Key, bound: int)
    requires Inv(aborted, s) && e.Clean? && Step(aborted, s, e, s') && bound >= s'.ceiling
    ensures Answers(s', aborted, k, bound)
  {
    assert Answers(s, aborted, k, bound);
    if NeverSeen(s.history, aborted, k, bound) {
      AbsentStays(s.log, e.p, e.did, e.refreshed, s'.log, k, bound);
    }
    forall h | NewestEver(s'.history, aborted, k, bound, h)
      ensures (exists x :: LatestIs(s'.log, aborted, k, bound, x) && SameRecord(h, x))
              || (Absent(s'.log, aborted, k, bound) && h.tombstone)
    {
      if x :| LatestIs(s.log, aborted, k, bound, x) && SameRecord(h, x) {
        NoResurrection(s.log, e.p, e.did, e.refreshed, s'.log, k, bound, x);
      } else {
        AbsentStays(s.log, e.p, e.did, e.refreshed, s'.log, k, bound);
      }
    }
  }

  lemma RollValid(L: seq<Segment>)
    requires ValidLog(L) && L != []
    ensures var L' := L + [Segment(End(L), [], None, -1, [], false)]; ValidLog(L') && End(L') == End(L)
  {
    var s := Segment(End(L), [], None, -1, [], false);
    assert s.Records() == [];
    NextAtLeastBase(L[|L| - 1]);
    ValidAppend(L, s);
  }

  lemma RollHolds(L: seq<Segment>, x: Record)
    requires L != []
    ensures Holds(L + [Segment(End(L), [], None, -1, [], false)], x) <==> Holds(L, x)
  {
    var s := Segment(End(L), [], None, -1, [], false);
    assert s.Records() == [];
    HoldsSnoc(L, s, x);
  }

  lemma AppendKeeps(aborted: int -> bool, s: State, b: Block, s': State)
    requires Inv(aborted, s) && Step(aborted, s, Append(b), s')
    ensures Inv(aborted, s')
  {
    RecordsWith(s.log, b);
    FromEnd(s.log, b);
    forall k, bound | bound >= s'.ceiling
      ensures Answers(s', aborted, k, bound)
    {
      AppendAnswers(aborted, s, b, s', k, bound);
    }
    forall x {
      HoldsWith(s.log, b, x);
    }
  }

  lemma RollKeeps(aborted: int -> bool, s: State, s': State)
    requires Inv(aborted, s) && Step(aborted, s, Roll, s')
    ensures Inv(aborted, s')
  {
    RollValid(s.log);
    forall x
      ensures Holds(s'.log, x) <==> Holds(s.log, x)
    {
      RollHolds(s.log, x);
    }
    forall k, bound | bound >= s'.ceiling
      ensures Answers(s', aborted, k, bound)
    {
      SameAnswers(aborted, s, s', k, bound);
    }
  }

  /** Two logs holding the same records answer alike. */
  lemma SameAnswers(aborted: int -> bool, s: State, s': State, k: Key, bound: int)
    requires Answers(s, aborted, k, bound) && s'.history == s.history
    requires forall x :: Holds(s'.log, x) <==> Holds(s.log, x)
    ensures Answers(s', aborted, k, bound)
  {
    forall x
      ensures LatestIs(s.log, aborted, k, bound, x) ==> LatestIs(s'.log, aborted, k, bound, x)
    {
    }
  }

  lemma CleanAnswersAll(aborted: int -> bool, s: State, e: Event, s': State)
    requires Inv(aborted, s) && e.Clean? && Step(aborted, s, e, s')
    ensures AnswersAll(aborted, s')
  {
    forall k, bound | bound >= s'.ceiling
      ensures Answers(s', aborted, k, bound)
    {
      CleanAnswers(aborted, s, e, s', k, bound);
    }
  }

  lemma ClaimsStay(L: seq<Segment>, p: Pass, did: seq<bool>, refreshed: seq<bool>, L': seq<Segment>,
                   claims: set<(seq<string>, int)>)
    requires PassStep(L, p, did, refreshed, L') && ClaimsStand(p.spec.aborted, L, claims)
    ensures L' != [] && ClaimsStand(p.spec.aborted, L', claims)
  {
    PassValid(L, p, did, refreshed, L');
    forall c | c in claims
      ensures Settled(L', p.spec.aborted, c.0, c.1)
    {
      SettledStays(L, p, did, refreshed, L', c.0, c.1);
    }
  }

  lemma CleanKeeps(aborted: int -> bool, s: State, e: Event, s': State)
    requires Inv(aborted, s) && e.Clean? && Step(aborted, s, e, s')
    ensures Inv(aborted, s')
  {
    PassValid(s.log, e.p, e.did, e.refreshed, s'.log);
    CleanAnswersAll(aborted, s, e, s');
    if s.trusted {
      StampsAcrossPass(s.log, e.p, e.did, e.refreshed, s'.log);
    }
    ClaimsAfter(aborted, s, e, s');
  }

  lemma ClaimsAfter(aborted: int -> bool, s: State, e: Event, s': State)
    requires Inv(aborted, s) && e.Clean? && Step(aborted, s, e, s')
    ensures s'.log != [] && ClaimsStand(aborted, s'.log, s'.claims)
  {
    ClaimsStay(s.log, e.p, e.did, e.refreshed, s'.log, s.claims);
    if Claims(s, e.p, e.did) != {} {
      NewClaim(s.log, e.p, e.did, e.refreshed, s'.log);
    }
  }

  lemma NewClaim(L: seq<Segment>, p: Pass, did: seq<bool>, refreshed: seq<bool>, L': seq<Segment>)
    requires PassStep(L, p, did, refreshed, L') && AllTruthful(L)
    requires p.spec.stripHeaders != [] && p.spec.stripBelow <= p.spec.ceiling
    ensures L' != [] && Floor(L, p, did) < End(L')
    ensures Settled(L', p.spec.aborted, p.spec.stripHeaders, Floor(L, p, did))
  {
    PassValid(L, p, did, refreshed, L');
    FloorSound(L, p, did, refreshed, L');
    NextsBelowEnd(L);
    FloorBelow(L, p, did, |L| - 1, End(L));
  }

  lemma NextsBelowEnd(L: seq<Segment>)
    requires ValidLog(L) && L != []
    ensures 0 <= End(L) && forall i :: 0 <= i < |L| ==> L[i].Next() <= End(L)
  {
    var last := L[|L| - 1];
    NextAtLeastBase(last);
    forall i | 0 <= i < |L|
      ensures L[i].Next() <= End(L)
    {
      assert i < |L| - 1 ==> L[i].Next() <= last.base;
    }
  }

  lemma {:induction false} FloorBelow(L: seq<Segment>, p: Pass, did: seq<bool>, n: nat, end: int)
    requires n < |L| && 0 <= end && forall i :: 0 <= i < |L| ==> L[i].Next() <= end
    ensures VerifiedThrough(L, p, did, n) < end
  {
    if n > 0 {
      FloorBelow(L, p, did, n - 1, end);
    }
  }

  /** Over every run, at every point of it: each key reads as the newest record ever
      appended for it, or as nothing where that record is a tombstone; and every
      floor reported on trusted stamps still stands. */
  lemma {:induction false} EveryRun(aborted: int -> bool, states: seq<State>, events: seq<Event>, n: nat)
    requires Run(aborted, states, events) && n < |states|
    ensures Inv(aborted, states[n])
  {
    if n == 0 {
      EmptyLog(aborted, states[0]);
    } else {
      EveryRun(aborted, states, events, n - 1);
      var s, e, s' := states[n - 1], events[n - 1], states[n];
      match e {
        case Append(b) => AppendKeeps(aborted, s, b, s');
        case Roll => RollKeeps(aborted, s, s');
        case Clean(_, _, _) => CleanKeeps(aborted, s, e, s');
      }
    }
  }

  lemma EmptyLog(aborted: int -> bool, s: State)
    requires Init(s)
    ensures Inv(aborted, s)
  {
    assert s.log[0].Records() == [];
    assert forall x :: !Holds(s.log, x);
  }

  // ---- runs whose stamps, and so whose floors, are always true ----

  ghost predicate AllMergeable(blocks: seq<Block>) {
    forall i :: 0 <= i < |blocks| ==> blocks[i].mergeable
  }

  ghost predicate MergeableLog(L: seq<Segment>) {
    forall i :: 0 <= i < |L| ==> AllMergeable(L[i].blocks)
  }

  /** What the caller must see to: no block a rewrite has to carry whole, and no strip
      boundary above the ceiling. */
  ghost predicate Careful(e: Event) {
    match e
    case Append(b) => b.mergeable
    case Roll => true
    case Clean(p, _, _) => p.spec.StripActive() ==> p.spec.stripBelow <= p.spec.ceiling
  }

  lemma {:induction false} RewrittenMergeable(spec: CleanSpec, drops: set<int>, blocks: seq<Block>)
    requires AllMergeable(blocks)
    ensures AllMergeable(RewrittenBlocks(spec, drops, blocks))
  {
    if blocks != [] {
      RewrittenMergeable(spec, drops, blocks[..|blocks| - 1]);
    }
  }

  lemma {:induction false} KeptMergeable(parts: seq<Option<Segment>>)
    requires forall i :: 0 <= i < |parts| && parts[i].Some? ==> AllMergeable(parts[i].value.blocks)
    ensures MergeableLog(Kept(parts))
  {
    if parts != [] {
      KeptMergeable(parts[..|parts| - 1]);
    }
  }

  lemma PassMergeable(L: seq<Segment>, p: Pass, did: seq<bool>, refreshed: seq<bool>, L': seq<Segment>)
    requires PassStep(L, p, did, refreshed, L') && MergeableLog(L)
    ensures MergeableLog(L')
  {
    var parts := Parts(L, p, did, refreshed);
    forall i | 0 <= i < |parts| && parts[i].Some?
      ensures AllMergeable(parts[i].value.blocks)
    {
      if Rewrites(did, i) {
        RewrittenMergeable(p.spec, PassDrops(L, p, i), L[i].blocks);
      }
    }
    KeptMergeable(parts);
  }

  lemma CarefulStamps(L: seq<Segment>, p: Pass, did: seq<bool>, refreshed: seq<bool>)
    requires MergeableLog(L) && |refreshed| == |L| && p.spec.stripBelow <= MAX_OFFSET
    requires p.spec.StripActive() ==> p.spec.stripBelow <= p.spec.ceiling
    ensures AllStampsHold(L, p, did, refreshed)
  {
    forall i | 0 <= i < |L|
      ensures StampsHold(L, p, did, refreshed, i)
    {
      if p.spec.StripActive() {
        StampTruthful(p.spec, PassDrops(L, p, i), L[i].blocks);
        StampTruth(p.spec, PassDrops(L, p, i), L[i].blocks);
      }
    }
  }

  /** In every run of such steps every strip stamp ever written was true. */
  lemma {:induction false} CarefulRun(aborted: int -> bool, states: seq<State>, events: seq<Event>, n: nat)
    requires Run(aborted, states, events) && n < |states| && forall i :: 0 <= i < |events| ==> Careful(events[i])
    ensures states[n].trusted && MergeableLog(states[n].log)
  {
    if n > 0 {
      CarefulRun(aborted, states, events, n - 1);
      var s, e, s' := states[n - 1], events[n - 1], states[n];
      assert Careful(e);
      if e.Clean? {
        CarefulStamps(s.log, e.p, e.did, e.refreshed);
        PassMergeable(s.log, e.p, e.did, e.refreshed, s'.log);
      }
    }
  }

  /** So every floor a pass of such a run reports for its strip headers stands at every
      later point of the run. */
  lemma FloorsStand(aborted: int -> bool, states: seq<State>, events: seq<Event>, i: nat, n: nat)
    requires Run(aborted, states, events) && i < n < |states| && forall k :: 0 <= k < |events| ==> Careful(events[k])
    requires events[i].Clean? && events[i].p.spec.stripHeaders != []
    ensures states[i].log != []
    ensures Settled(states[n].log, aborted, events[i].p.spec.stripHeaders,
                    Floor(states[i].log, events[i].p, events[i].did))
  {
    var p := events[i].p;
    assert Step(aborted, states[i], events[i], states[i + 1]) && Careful(events[i]);
    EveryRun(aborted, states, events, n);
    CarefulRun(aborted, states, events, i);
    if p.spec.stripBelow <= p.spec.ceiling {
      var c := (p.spec.stripHeaders, Floor(states[i].log, p, events[i].did));
      assert c in states[i + 1].claims;
      ClaimsGrow(aborted, states, events, i + 1, n);
    } else {
      NoneBelowZero(states[n].log, aborted, p.spec.stripHeaders, Floor(states[i].log, p, events[i].did));
    }
  }

  lemma {:induction false} ClaimsGrow(aborted: int -> bool, states: seq<State>, events: seq<Event>, i: nat, n: nat)
    requires Run(aborted, states, events) && i <= n < |states|
    ensures states[i].claims <= states[n].claims
    decreases n
  {
    if i < n {
      ClaimsGrow(aborted, states, events, i, n - 1);
      assert Step(aborted, states[n - 1], events[n - 1], states[n]);
    }
  }

  lemma NoneBelowZero(L: seq<Segment>, aborted: int -> bool, headers: seq<string>, f: int)
    requires ValidLog(L) && f < 0
    ensures Settled(L, aborted, headers, f)
  {
    forall r | Holds(L, r)
      ensures r.offset >= 0
    {
      var i :| HeldBy(L, i, r);
      RecordBounds(L, i, r);
    }
  }

  // ---- timestamps that follow offsets keep the horizon safe ----

  ghost predicate TimeOrdered(L: seq<Segment>) {
    forall r, q :: Holds(L, r) && Holds(L, q) && r.offset <= q.offset ==> r.ts <= q.ts
  }

  lemma TimeOrderedSafe(L: seq<Segment>, p: Pass)
    requires ValidLog(L) && TimeOrdered(L)
    ensures HorizonSafe(L, p)
  {
    forall i, j | 0 <= i < j < |L| && L[i].Records() != [] && L[j].Records() != []
      ensures L[i].LastWrite() <= L[j].LastWrite()
    {
      TimesFollow(L, i, j);
    }
  }

  lemma TimesFollow(L: seq<Segment>, i: int, j: int)
    requires ValidLog(L) && TimeOrdered(L) && 0 <= i < j < |L| && L[i].Records() != [] && L[j].Records() != []
    ensures L[i].LastWrite() <= L[j].LastWrite()
  {
    var r, q := L[i].Records()[|L[i].Records()| - 1], L[j].Records()[|L[j].Records()| - 1];
    assert HeldBy(L, i, r) && HeldBy(L, j, q);
    OffsetOrder(L, i, r, j, q);
  }

  /** A pass does not disturb timestamps, so the horizon stays safe for the next. */
  lemma TimeOrderedStays(L: seq<Segment>, p: Pass, did: seq<bool>, refreshed: seq<bool>, L': seq<Segment>)
    requires PassStep(L, p, did, refreshed, L') && TimeOrdered(L)
    ensures TimeOrdered(L')
  {
    forall x, y | Holds(L', x) && Holds(L', y) && x.offset <= y.offset
      ensures x.ts <= y.ts
    {
      var i, r := Origin(L, p, did, refreshed, L', x);
      var j, q := Origin(L, p, did, refreshed, L', y);
      assert Holds(L, r) && Holds(L, q);
    }
  }
}
