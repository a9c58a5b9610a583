/** The compaction pass as it runs: load the digests, merge them, classify and
    order the segments, rewrite until a budget, a tier or a failure says stop, and
    assemble what is left. */
module Compactor {
  import opened Bytes
  import opened LogModel
  import opened CleanRules
  import opened KeyDigests
  import opened DropSets
  import opened MergeDigests
  import opened CleanSegments
  import opened CompactPass
  import opened CompactFloor

  /** What lies outside the pass: the tiers it may not write to, every budget's
      answers, every rewrite's failure, and every digest refresh. Indexed by segment;
      `allowLate` answers the extra question put for a governing segment. */
  datatype Oracle = Oracle(
    skipTiers: set<string>, allowLate: seq<bool>, allow: seq<bool>, fails: seq<bool>, refreshed: seq<bool>)

  ghost predicate Answers(o: Oracle, n: nat) {
    |o.allowLate| == |o.allow| == |o.fails| == |o.refreshed| == n
  }

  // ---- what a digest says of its segment ----

  ghost predicate DigestOf(d: KeyDigest, s: Segment) {
    Accurate(d, s.Records()) && d.stamp == s.stamp && d.stampHeaders == s.stampHeaders
  }

  lemma MarkersInDigest(d: KeyDigest, L: seq<Segment>, i: int, spec: CleanSpec)
    requires 0 <= i < |L| && DigestOf(d, L[i])
    ensures (exists off :: off in d.control && off < spec.stripBelow) <==>
            exists r :: HeldBy(L, i, r) && MarkerBelow(spec, r)
  {
    forall r
      ensures SectionOf(r) == Control <==> r.control
    {
    }
    if exists off :: off in d.control && off < spec.stripBelow {
      var n :| 0 <= n < |d.control| && d.control[n] < spec.stripBelow;
      var e := Select(L[i].Records(), Control)[n];
      Selected(L[i].Records(), Control, e);
      var r :| r in L[i].Records() && SectionOf(r) == Control && EntryOf(r) == e;
      assert HeldBy(L, i, r) && MarkerBelow(spec, r);
    }
    if r :| HeldBy(L, i, r) && MarkerBelow(spec, r) {
      Selected(L[i].Records(), Control, EntryOf(r));
      var n :| 0 <= n < |d.control| && Select(L[i].Records(), Control)[n] == EntryOf(r);
      assert d.control[n] in d.control;
    }
  }

  lemma UnkeyedInDigest(d: KeyDigest, L: seq<Segment>, i: int, e: DigestRec)
    requires 0 <= i < |L| && DigestOf(d, L[i])
    ensures e in d.unkeyed <==> exists r :: HeldBy(L, i, r) && !r.control && r.key.None? && EntryOf(r) == e
  {
    Selected(L[i].Records(), Unkeyed, e);
    forall r
      ensures SectionOf(r) == Unkeyed <==> !r.control && r.key.None?
    {
    }
  }

  predicate UnkeyedEntryStrip(spec: CleanSpec, e: DigestRec) {
    e.offset < spec.stripBelow && e.hasHeaders
  }

  predicate UnkeyedEntryAborted(spec: CleanSpec, e: DigestRec) {
    e.offset < spec.ceiling && spec.aborted(e.offset)
  }

  /** The skip decision as the digest states it. */
  ghost predicate DigestSkips(spec: CleanSpec, d: KeyDigest, drops: set<int>, aborted: bool, strip: bool) {
    var covered := StampCovers(d.stamp, d.stampHeaders, spec.stripBelow, spec.stripHeaders);
    && drops == {} && !aborted
    && (spec.StripActive() ==>
          && !(exists off :: off in d.control && off < spec.stripBelow)
          && (strip ==> covered)
          && (forall e :: e in d.unkeyed && UnkeyedEntryStrip(spec, e) ==> covered))
    && (forall e :: e in d.unkeyed ==> !UnkeyedEntryAborted(spec, e))
  }

  /** On an accurate digest it is the decision about the segment. */
  lemma DigestSkipsSegment(L: seq<Segment>, p: Pass, i: int, d: KeyDigest, aborted: bool, strip: bool)
    requires 0 <= i < |L| && DigestOf(d, L[i])
    requires aborted <==> HasAborted(L, p.spec, i)
    requires strip <==> HasStrip(L, p.spec, i)
    ensures DigestSkips(p.spec, d, PassDrops(L, p, i), aborted, strip) <==> Skippable(L, p, i)
  {
    MarkersInDigest(d, L, i, p.spec);
    forall e {
      UnkeyedInDigest(d, L, i, e);
    }
    forall r | HeldBy(L, i, r) && !r.control && r.key.None?
      ensures EntryOf(r) in d.unkeyed
      ensures UnkeyedEntryStrip(p.spec, EntryOf(r)) <==> UnkeyedStrip(p.spec, r)
      ensures UnkeyedEntryAborted(p.spec, EntryOf(r)) <==> UnkeyedAborted(p.spec, r)
    {
      UnkeyedInDigest(d, L, i, EntryOf(r));
    }
  }

  method AnyMarkerBelow(d: KeyDigest, boundary: int) returns (found: bool)
    ensures found <==> exists off :: off in d.control && off < boundary
  {
    for n := 0 to |d.control|
      invariant forall m :: 0 <= m < n ==> d.control[m] >= boundary
    {
      if d.control[n] < boundary {
        assert d.control[n] in d.control;
        return true;
      }
    }
    return false;
  }

  method CanSkip(spec: CleanSpec, d: KeyDigest, drops: DropSet?, aborted: bool, strip: bool) returns (skip: bool)
    requires drops != null ==> drops.Valid()
    ensures skip <==> DigestSkips(spec, d, MarksOf(drops), aborted, strip)
  {
    if drops != null && drops.count > 0 {
      return false;
    }
    if aborted {
      return false;
    }
    var covered := StampCovers(d.stamp, d.stampHeaders, spec.stripBelow, spec.stripHeaders);
    if spec.StripActive() {
      var marker := AnyMarkerBelow(d, spec.stripBelow);
      if marker || (strip && !covered) {
        return false;
      }
      for n := 0 to |d.unkeyed|
        invariant forall e :: e in d.unkeyed[..n] && UnkeyedEntryStrip(spec, e) ==> covered
      {
        if UnkeyedEntryStrip(spec, d.unkeyed[n]) && !covered {
          return false;
        }
      }
    }
    assert d.unkeyed[..|d.unkeyed|] == d.unkeyed;
    for n := 0 to |d.unkeyed|
      invariant forall e :: e in d.unkeyed[..n] ==> !UnkeyedEntryAborted(spec, e)
    {
      if UnkeyedEntryAborted(spec, d.unkeyed[n]) {
        return false;
      }
    }
    return true;
  }

  // ---- the order of rewrites ----

  /** The sort's comparison: governing segments last and in log order, the rest by
      how much they drop. */
  predicate Precedes(late: seq<bool>, counts: seq<nat>, a: int, b: int)
    requires 0 <= a < |late| == |counts| && 0 <= b < |late|
  {
    if late[a] != late[b] then !late[a]
    else if late[a] then a < b
    else counts[a] > counts[b]
  }

  ghost predicate InRange(order: seq<int>, n: nat) {
    forall m :: 0 <= m < |order| ==> 0 <= order[m] < n
  }

  ghost predicate Ordered(late: seq<bool>, counts: seq<nat>, order: seq<int>) {
    && |late| == |counts| && InRange(order, |late|)
    && (forall a, b :: 0 <= a < b < |order| ==> order[a] != order[b])
    && (forall a, b :: 0 <= a < b < |order| ==> !Precedes(late, counts, order[b], order[a]))
  }

  /** The segments wanted, each once, in rewrite order. */
  method RewriteOrder(wants: seq<bool>, late: seq<bool>, counts: seq<nat>) returns (order: seq<int>)
    requires |wants| == |late| == |counts|
    ensures Ordered(late, counts, order)
    ensures forall i :: i in order <==> 0 <= i < |wants| && wants[i]
  {
    order := [];
    for i := 0 to |wants|
      invariant Ordered(late, counts, order)
      invariant forall j :: j in order <==> 0 <= j < i && wants[j]
    {
      if wants[i] {
        order := InsertStable(late, counts, order, i);
      }
    }
  }

  method InsertStable(late: seq<bool>, counts: seq<nat>, order: seq<int>, i: int) returns (r: seq<int>)
    requires Ordered(late, counts, order) && 0 <= i < |late| && i !in order
    ensures Ordered(late, counts, r)
    ensures forall j :: j in r <==> j in order || j == i
  {
    var at := |order|;
    while at > 0 && Precedes(late, counts, i, order[at - 1])
      invariant 0 <= at <= |order|
      invariant forall m :: at <= m < |order| ==> Precedes(late, counts, i, order[m])
    {
      at := at - 1;
    }
    r := order[..at] + [i] + order[at..];
    InsertedOrder(late, counts, order, i, at);
    assert order == order[..at] + order[at..];
  }

  lemma InsertedOrder(late: seq<bool>, counts: seq<nat>, order: seq<int>, i: int, at: nat)
    requires Ordered(late, counts, order) && 0 <= i < |late| && i !in order && at <= |order|
    requires forall m :: at <= m < |order| ==> Precedes(late, counts, i, order[m])
    requires at > 0 ==> !Precedes(late, counts, i, order[at - 1])
    ensures Ordered(late, counts, order[..at] + [i] + order[at..])
  {
    var r := order[..at] + [i] + order[at..];
    forall a, b | 0 <= a < b < |r|
      ensures r[a] != r[b] && !Precedes(late, counts, r[b], r[a])
    {
      if b == at {
        BeforePlace(late, counts, order, i, at, a);
      }
    }
  }

  lemma BeforePlace(late: seq<bool>, counts: seq<nat>, order: seq<int>, i: int, at: nat, m: nat)
    requires Ordered(late, counts, order) && 0 <= i < |late| && m < at <= |order|
    requires !Precedes(late, counts, i, order[at - 1])
    ensures !Precedes(late, counts, i, order[m])
  {
    assert m < at - 1 ==> !Precedes(late, counts, order[at - 1], order[m]);
  }

  // ---- the rewrite phase ----

  /** A governing segment is only rewritten when everything before it was. */
  ghost predicate InOrder(late: seq<bool>, order: seq<int>, did: seq<bool>) {
    && |did| == |late| && InRange(order, |late|)
    && (forall i :: 0 <= i < |did| && did[i] ==> i in order)
    && Governs(late, order, did, |order|)
  }

  /** Of the first n in order. */
  ghost predicate Governs(late: seq<bool>, order: seq<int>, did: seq<bool>, n: nat)
    requires |did| == |late| && InRange(order, |late|) && n <= |order|
  {
    forall a, b {:trigger Waits(late, order, did, a, b)} :: 0 <= a < b < n ==> Waits(late, order, did, a, b)
  }

  ghost predicate Waits(late: seq<bool>, order: seq<int>, did: seq<bool>, a: nat, b: nat)
    requires |did| == |late| && InRange(order, |late|) && a < |order| && b < |order|
  {
    did[order[b]] && late[order[b]] ==> did[order[a]]
  }

  /** Rewrite in order until something says stop. A segment of a read-only tier and
      one whose budget is spent are passed over; a governing segment reached after
      anything was passed over, or with no budget, ends the phase; so does a failure. */
  method RewritePhase(L: seq<Segment>, spec: CleanSpec, drops: Drops, late: seq<bool>, counts: seq<nat>,
                      order: seq<int>, o: Oracle)
    returns (did: seq<bool>, rewritten: seq<Option<Segment>>, failed: bool)
    requires ValidDrops(L, drops) && |late| <= |L| && Answers(o, |L|) && Ordered(late, counts, order)
    ensures InOrder(late, order, did) && |rewritten| == |late|
    ensures forall i :: 0 <= i < |late| && did[i] ==>
              rewritten[i] == Rewritten(spec, MarksOf(drops[i]), L[i], o.refreshed[i])
    ensures !failed && o.skipTiers == {} && (forall i :: 0 <= i < |late| ==> o.allowLate[i] && o.allow[i]) ==>
              forall i :: i in order ==> did[i]
  {
    did, rewritten, failed := seq(|late|, _ => false), seq(|late|, _ => None), false;
    var skipped := false;
    for n := 0 to |order|
      invariant |did| == |rewritten| == |late|
      invariant forall i :: 0 <= i < |late| && did[i] ==>
                  rewritten[i] == Rewritten(spec, MarksOf(drops[i]), L[i], o.refreshed[i])
      invariant Phase(late, order, did, n, skipped)
      invariant skipped ==> o.skipTiers != {} || exists i :: 0 <= i < |late| && !o.allow[i]
    {
      var i := order[n];
      var readOnly := L[i].tier.Some? && L[i].tier.value in o.skipTiers;
      if !readOnly && late[i] && (skipped || !o.allowLate[i]) {
        InOrderWhenStopped(late, counts, order, did, n);
        return;
      }
      if readOnly || !o.allow[i] {
        PhaseSkips(late, order, did, n, skipped);
        skipped := true;
      } else if o.fails[i] {
        failed := true;
        InOrderWhenStopped(late, counts, order, did, n);
        return;
      } else {
        var cleaned := CleanSegment(spec, L[i], drops[i], o.refreshed[i]);
        PhaseDoes(late, counts, order, did, n, skipped);
        did, rewritten := did[i := true], rewritten[i := cleaned];
      }
    }
    assert order[..|order|] == order;
  }

  /** After the first n in order: nothing later was rewritten, nothing was passed over
      without notice, and no governing segment was rewritten out of turn. */
  ghost predicate Phase(late: seq<bool>, order: seq<int>, did: seq<bool>, n: nat, skipped: bool) {
    && |did| == |late| && InRange(order, |late|) && n <= |order|
    && (forall i :: 0 <= i < |did| && did[i] ==> i in order[..n])
    && (forall a :: 0 <= a < n ==> did[order[a]] || skipped)
    && Governs(late, order, did, n)
  }

  lemma PhaseSkips(late: seq<bool>, order: seq<int>, did: seq<bool>, n: nat, skipped: bool)
    requires Phase(late, order, did, n, skipped) && n < |order| && !did[order[n]]
    ensures Phase(late, order, did, n + 1, true)
  {
    assert order[..n + 1] == order[..n] + [order[n]];
    forall a, b | 0 <= a < b < n + 1
      ensures Waits(late, order, did, a, b)
    {
    }
  }

  lemma PhaseDoes(late: seq<bool>, counts: seq<nat>, order: seq<int>, did: seq<bool>, n: nat, skipped: bool)
    requires Ordered(late, counts, order) && Phase(late, order, did, n, skipped) && n < |order|
    requires late[order[n]] ==> !skipped
    ensures Phase(late, order, did[order[n] := true], n + 1, skipped)
  {
    var did' := did[order[n] := true];
    assert order[..n + 1] == order[..n] + [order[n]];
    forall a, b | 0 <= a < b < n + 1
      ensures Waits(late, order, did', a, b)
    {
      assert b < n ==> Waits(late, order, did, a, b);
    }
  }

  /** Stopping after n leaves nothing later rewritten. */
  lemma InOrderWhenStopped(late: seq<bool>, counts: seq<nat>, order: seq<int>, did: seq<bool>, n: nat)
    requires Ordered(late, counts, order) && |did| == |late| && n <= |order|
    requires forall i :: 0 <= i < |did| && did[i] ==> i in order[..n]
    requires Governs(late, order, did, n)
    ensures InOrder(late, order, did)
  {
    forall b | 0 <= b < |order| && did[order[b]]
      ensures b < n
    {
      var m :| 0 <= m < |order[..n]| && order[..n][m] == order[b];
      assert order[m] == order[b];
    }
  }

  /** Rewriting in order is rewriting what is governed first. */
  lemma OrderGoverns(L: seq<Segment>, p: Pass, wants: seq<bool>, late: seq<bool>, counts: seq<nat>, order: seq<int>,
                     did: seq<bool>)
    requires |wants| == |late| == |counts| && |late| + 1 == |L|
    requires forall i :: 0 <= i < |late| ==> (wants[i] <==> Wants(L, p, i)) && (late[i] <==> Late(L, p, i))
    requires Ordered(late, counts, order) && (forall i :: i in order <==> 0 <= i < |wants| && wants[i])
    requires InOrder(late, order, did)
    ensures Governed(L, p, did)
  {
    forall i, j | 0 <= i < |did| && 0 <= j < |did| && did[i] && Late(L, p, i) && Wants(L, p, j) &&
      (!Late(L, p, j) || j < i)
      ensures did[j]
    {
      assert i in order && j in order;
      var b :| 0 <= b < |order| && order[b] == i;
      var a :| 0 <= a < |order| && order[a] == j;
      assert a == b || Precedes(late, counts, order[a], order[b]);
      assert a < b ==> Waits(late, order, did, a, b);
    }
  }

  // ---- the pass ----

  /** The segment's digest: its records summarised, with the stamp it carries. */
  method LoadDigest(s: Segment) returns (d: KeyDigest)
    ensures DigestOf(d, s)
  {
    d := BuildKeyDigest(s.Records());
    d := d.(stamp := s.stamp, stampHeaders := s.stampHeaders);
  }

  method LoadDigests(L: seq<Segment>) returns (digests: seq<KeyDigest>)
    ensures |digests| == |L| && forall i :: 0 <= i < |L| ==> DigestOf(digests[i], L[i])
  {
    digests := [];
    for i := 0 to |L|
      invariant |digests| == i && forall j :: 0 <= j < i ==> DigestOf(digests[j], L[j])
    {
      var d := LoadDigest(L[i]);
      digests := digests + [d];
    }
  }

  /** What the merge found, less the key removals a strip-only pass does not make. */
  method PlannedDrops(L: seq<Segment>, p: Pass, digests: seq<KeyDigest>)
    returns (drops: Drops, aborted: seq<bool>, strip: seq<bool>, gc: seq<bool>)
    requires ValidLog(L) && |digests| == |L| && forall i :: 0 <= i < |L| ==> DigestOf(digests[i], L[i])
    ensures ValidDrops(L, drops) && |aborted| == |strip| == |gc| == |L|
    ensures forall i :: 0 <= i < |L| ==>
              && MarksOf(drops[i]) == PassDrops(L, p, i)
              && (aborted[i] <==> HasAborted(L, p.spec, i)) && (strip[i] <==> HasStrip(L, p.spec, i))
              && (gc[i] <==> !p.spec.stripOnly && HasCollectable(L, p.spec, p.now, i))
  {
    drops, aborted, strip, gc := Merge(L, p.spec, p.now, digests);
    assert forall i :: 0 <= i < |L| ==> AllMarks(drops)[i] == MarksOf(drops[i]);
    if p.spec.stripOnly {
      drops, gc := seq(|L|, _ => null), seq(|L|, _ => false);
    }
  }

  /** Every sealed segment's disposition, whether it governs, and what it drops. */
  method ClassifySegments(L: seq<Segment>, p: Pass, digests: seq<KeyDigest>, drops: Drops,
                          aborted: seq<bool>, strip: seq<bool>, gc: seq<bool>, n: nat)
    returns (wants: seq<bool>, converged: seq<bool>, late: seq<bool>, counts: seq<nat>)
    requires n <= |L| == |digests| == |aborted| == |strip| == |gc| && ValidDrops(L, drops)
    requires forall i :: 0 <= i < |L| ==>
               Merged(L, p, i, digests[i], MarksOf(drops[i]), aborted[i], strip[i], gc[i])
    ensures |wants| == n && AllClassified(L, p, wants, converged, late, counts)
  {
    wants, converged, late, counts := [], [], [], [];
    for i := 0 to n
      invariant |wants| == i && AllClassified(L, p, wants, converged, late, counts)
    {
      assert Merged(L, p, i, digests[i], MarksOf(drops[i]), aborted[i], strip[i], gc[i]);
      var w, c, l, k := ClassifySegment(L, p, i, digests[i], drops[i], aborted[i], strip[i], gc[i]);
      OneMoreClassified(L, p, wants, converged, late, counts, w, c, l, k);
      wants, converged, late, counts := wants + [w], converged + [c], late + [l], counts + [k];
    }
  }

  ghost predicate AllClassified(L: seq<Segment>, p: Pass, wants: seq<bool>, converged: seq<bool>, late: seq<bool>,
                                counts: seq<nat>) {
    && |wants| == |converged| == |late| == |counts| <= |L|
    && forall i {:trigger Classified(L, p, i, wants[i], converged[i], late[i], counts[i])} :: 0 <= i < |wants| ==>
         Classified(L, p, i, wants[i], converged[i], late[i], counts[i])
  }

  lemma OneMoreClassified(L: seq<Segment>, p: Pass, wants: seq<bool>, converged: seq<bool>, late: seq<bool>,
                          counts: seq<nat>, w: bool, c: bool, l: bool, k: nat)
    requires AllClassified(L, p, wants, converged, late, counts) && |wants| < |L| &&
             Classified(L, p, |wants|, w, c, l, k)
    ensures AllClassified(L, p, wants + [w], converged + [c], late + [l], counts + [k])
  {
    var ws, cs, ls, ks := wants + [w], converged + [c], late + [l], counts + [k];
    forall i | 0 <= i < |ws|
      ensures Classified(L, p, i, ws[i], cs[i], ls[i], ks[i])
    {
      assert i < |wants| ==> Classified(L, p, i, wants[i], converged[i], late[i], counts[i]);
    }
  }

  /** What the merge says of a segment. */
  ghost predicate Merged(L: seq<Segment>, p: Pass, i: int, d: KeyDigest, marks: set<int>, aborted: bool, strip: bool,
                         gc: bool)
    requires 0 <= i < |L|
  {
    && DigestOf(d, L[i]) && marks == PassDrops(L, p, i)
    && (aborted <==> HasAborted(L, p.spec, i)) && (strip <==> HasStrip(L, p.spec, i))
    && (gc <==> !p.spec.stripOnly && HasCollectable(L, p.spec, p.now, i))
  }

  /** What the pass decides about it. */
  ghost predicate Classified(L: seq<Segment>, p: Pass, i: int, wants: bool, converged: bool, late: bool, count: nat)
    requires 0 <= i < |L|
  {
    && (wants <==> Wants(L, p, i)) && (converged <==> Converged(L, p, i)) && (late <==> Late(L, p, i))
    && count == |PassDrops(L, p, i)|
  }

  method ClassifySegment(L: seq<Segment>, p: Pass, i: int, d: KeyDigest, drops: DropSet?, aborted: bool, strip: bool,
                         gc: bool)
    returns (wants: bool, converged: bool, late: bool, count: nat)
    requires 0 <= i < |L| && (drops != null ==> drops.Valid())
    requires Merged(L, p, i, d, MarksOf(drops), aborted, strip, gc)
    ensures Classified(L, p, i, wants, converged, late, count)
  {
    var skip := CanSkip(p.spec, d, drops, aborted, strip);
    DigestSkipsSegment(L, p, i, d, aborted, strip);
    var young := Protected(L[i], p.horizon);
    wants, converged := !young && !(skip && !L[i].fragmented), !young && skip && !L[i].fragmented;
    var marker := AnyMarkerBelow(d, p.spec.stripBelow);
    MarkersInDigest(d, L, i, p.spec);
    late := gc || (p.spec.StripActive() && marker);
    count := if drops == null then 0 else drops.count;
  }

  /** The surviving list in offset order, and the end of its unbroken verified prefix. */
  method Assemble(L: seq<Segment>, p: Pass, did: seq<bool>, rewritten: seq<Option<Segment>>, converged: seq<bool>,
                  refreshed: seq<bool>)
    returns (out: seq<Segment>, verified: int)
    requires |did| == |rewritten| == |converged| && |did| + 1 == |L| == |refreshed|
    requires forall i :: 0 <= i < |did| && did[i] ==> rewritten[i] == After(L, p, did, refreshed, i)
    requires forall i :: 0 <= i < |did| ==> (converged[i] <==> Converged(L, p, i))
    ensures out == Kept(Parts(L, p, did, refreshed))
    ensures verified == VerifiedThrough(L, p, did, |L| - 1)
  {
    out, verified := [], -1;
    var chain := true;
    for i := 0 to |did|
      invariant Assembled(L, p, did, refreshed, i, out, verified, chain)
    {
      out, verified, chain :=
        AssembleSegment(L, p, did, rewritten[i], converged[i], refreshed, i, out, verified, chain);
    }
    AssembleLast(L, p, did, refreshed, out, verified, chain);
    out := out + [L[|L| - 1]];
  }

  /** One sealed segment: what it became, and whether the verified prefix goes on. */
  method AssembleSegment(L: seq<Segment>, ghost p: Pass, did: seq<bool>, rewritten: Option<Segment>, converged: bool,
                         ghost refreshed: seq<bool>, i: nat, out0: seq<Segment>, verified0: int, chain0: bool)
    returns (out: seq<Segment>, verified: int, chain: bool)
    requires i < |did| && |did| + 1 == |L| && Assembled(L, p, did, refreshed, i, out0, verified0, chain0)
    requires did[i] ==> rewritten == After(L, p, did, refreshed, i)
    requires converged <==> Converged(L, p, i)
    ensures Assembled(L, p, did, refreshed, i + 1, out, verified, chain)
  {
    AssembleOne(L, p, did, refreshed, i, out0, verified0, chain0);
    var part := if did[i] then rewritten else Some(L[i]);
    out := out0 + if part.Some? then [part.value] else [];
    chain := chain0 && (did[i] || converged);
    verified := if chain then L[i].Next() - 1 else verified0;
  }

  /** The list and the floor after the first i segments. */
  ghost predicate Assembled(L: seq<Segment>, p: Pass, did: seq<bool>, refreshed: seq<bool>, i: nat,
                            out: seq<Segment>, verified: int, chain: bool) {
    && i <= |L| == |refreshed| && out == Kept(Parts(L, p, did, refreshed)[..i])
    && verified == VerifiedThrough(L, p, did, i) && (chain <==> ChainTo(L, p, did, i))
  }

  lemma AssembleOne(L: seq<Segment>, p: Pass, did: seq<bool>, refreshed: seq<bool>, i: nat,
                    out: seq<Segment>, verified: int, chain: bool)
    requires i < |L| && Assembled(L, p, did, refreshed, i, out, verified, chain)
    ensures var part, chain' := After(L, p, did, refreshed, i), chain && Verified(L, p, did, i);
            Assembled(L, p, did, refreshed, i + 1, out + (if part.Some? then [part.value] else []),
                      if chain' then L[i].Next() - 1 else verified, chain')
  {
    KeptStep(Parts(L, p, did, refreshed), i);
    ChainStep(L, p, did, i);
  }

  lemma AssembleLast(L: seq<Segment>, p: Pass, did: seq<bool>, refreshed: seq<bool>,
                     out: seq<Segment>, verified: int, chain: bool)
    requires |did| + 1 == |L| && Assembled(L, p, did, refreshed, |did|, out, verified, chain)
    ensures out + [L[|L| - 1]] == Kept(Parts(L, p, did, refreshed)) && verified == VerifiedThrough(L, p, did, |L| - 1)
  {
    var parts := Parts(L, p, did, refreshed);
    KeptStep(parts, |did|);
    assert parts[..|L|] == parts;
  }

  lemma KeptStep(parts: seq<Option<Segment>>, i: nat)
    requires i < |parts|
    ensures Kept(parts[..i + 1]) == Kept(parts[..i]) + if parts[i].Some? then [parts[i].value] else []
  {
    assert parts[..i + 1][..i] == parts[..i];
  }

  lemma ChainStep(L: seq<Segment>, p: Pass, did: seq<bool>, i: nat)
    requires i < |L|
    ensures ChainTo(L, p, did, i + 1) <==> ChainTo(L, p, did, i) && Verified(L, p, did, i)
  {
  }

  /** The plan agrees with the log: dispositions, governors and drops. */
  ghost predicate Planned(L: seq<Segment>, p: Pass, drops: Drops, wants: seq<bool>, converged: seq<bool>,
                          late: seq<bool>, counts: seq<nat>)
    reads drops
  {
    && ValidDrops(L, drops) && |wants| == |converged| == |late| == |counts| && |wants| + 1 == |L|
    && forall i :: 0 <= i < |wants| ==>
         && MarksOf(drops[i]) == PassDrops(L, p, i) && counts[i] == |PassDrops(L, p, i)|
         && (wants[i] <==> Wants(L, p, i)) && (converged[i] <==> Converged(L, p, i)) && (late[i] <==> Late(L, p, i))
  }

  method PlanPass(L: seq<Segment>, p: Pass)
    returns (drops: Drops, wants: seq<bool>, converged: seq<bool>, late: seq<bool>, counts: seq<nat>)
    requires ValidLog(L) && L != []
    ensures Planned(L, p, drops, wants, converged, late, counts)
  {
    var digests := LoadDigests(L);
    var aborted, strip, gc;
    drops, aborted, strip, gc := PlannedDrops(L, p, digests);
    wants, converged, late, counts := ClassifySegments(L, p, digests, drops, aborted, strip, gc, |L| - 1);
    forall i | 0 <= i < |wants|
      ensures Classified(L, p, i, wants[i], converged[i], late[i], counts[i])
    {
    }
  }

  /** The rewrites of a planned pass, done in order. */
  method RewritePlanned(L: seq<Segment>, p: Pass, o: Oracle, drops: Drops, wants: seq<bool>, converged: seq<bool>,
                        late: seq<bool>, counts: seq<nat>)
    returns (did: seq<bool>, rewritten: seq<Option<Segment>>, failed: bool)
    requires ValidLog(L) && Answers(o, |L|) && Planned(L, p, drops, wants, converged, late, counts)
    ensures Governed(L, p, did) && |rewritten| == |did|
    ensures forall i :: 0 <= i < |did| && did[i] ==> rewritten[i] == After(L, p, did, o.refreshed, i)
    ensures !failed && o.skipTiers == {} && (forall i :: 0 <= i < |L| ==> o.allowLate[i] && o.allow[i]) ==>
              Complete(L, p, did)
  {
    var order := RewriteOrder(wants, late, counts);
    did, rewritten, failed := RewritePhase(L, p.spec, drops, late, counts, order, o);
    OrderGoverns(L, p, wants, late, counts, order, did);
  }

  /** A compaction pass. The active segment is never rewritten, a failed pass
      reports no floor, and an unbudgeted one that met no read-only tier and no
      failure rewrote everything it wanted to. */
  method Compact(L: seq<Segment>, p: Pass, o: Oracle)
    returns (out: seq<Segment>, floor: int, failed: bool, ghost did: seq<bool>)
    requires ValidLog(L) && Answers(o, |L|)
    ensures |L| <= 1 ==> out == L && floor == -1 && !failed
    ensures |L| > 1 ==> PassStep(L, p, did, o.refreshed, out) && floor == (if failed then -1 else Floor(L, p, did))
    ensures |L| > 1 && !failed && o.skipTiers == {} && (forall i :: 0 <= i < |L| ==> o.allowLate[i] && o.allow[i]) ==>
              Complete(L, p, did)
  {
    did := [];
    if |L| <= 1 {
      return L, -1, false, [];
    }
    var drops, wants, converged, late, counts := PlanPass(L, p);
    var rewrote, rewritten;
    rewrote, rewritten, failed := RewritePlanned(L, p, o, drops, wants, converged, late, counts);
    did := rewrote;
    out, floor := Assemble(L, p, rewrote, rewritten, converged, o.refreshed);
    if failed {
      floor := -1;
    } else if floor > p.spec.stripBelow - 1 {
      floor := p.spec.stripBelow - 1;
    }
  }
}
