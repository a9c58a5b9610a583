/** Fetching planned offsets in runs, and serving one segment by either route. */
module PrefixFetch {
  import opened Bytes
  import opened LogModel
  import opened KeyDigests
  import opened PrefixSpec
  import opened PrefixScan
  import opened PrefixDigest

  /** Wanted offsets read in one pass, from the record at `start`. */
  datatype Run = Run(start: nat, offs: seq<int>)

  ghost predicate Holds(rs: seq<Record>, o: int) {
    exists i :: 0 <= i < |rs| && rs[i].offset == o
  }

  method FindEntry(rs: seq<Record>, o: int) returns (r: Option<nat>)
    ensures r.Some? ==> r.value < |rs| && rs[r.value].offset == o
    ensures r.None? ==> !Holds(rs, o)
  {
    for i := 0 to |rs|
      invariant forall j :: 0 <= j < i ==> rs[j].offset != o
    {
      if rs[i].offset == o {
        return Some(i);
      }
    }
    return None;
  }

  // ---- planning ----

  function Joined(runs: seq<Run>): seq<int> {
    if runs == [] then [] else Joined(runs[..|runs| - 1]) + runs[|runs| - 1].offs
  }

  /** A run starts at its first record. */
  ghost predicate ValidRun(rs: seq<Record>, r: Run) {
    r.offs != [] && r.start < |rs| && rs[r.start].offset == r.offs[0]
  }

  ghost predicate ValidRuns(rs: seq<Record>, runs: seq<Run>) {
    forall k {:trigger ValidRun(rs, runs[k])} :: 0 <= k < |runs| ==> ValidRun(rs, runs[k])
  }

  /** No gap inside a run is too wide. */
  ghost predicate Tight(rs: seq<Record>, r: Run, wide: (nat, nat) -> bool) {
    forall j, a, b :: 0 <= j && j + 1 < |r.offs| && 0 <= a < |rs| && 0 <= b < |rs| ==>
      rs[a].offset == r.offs[j] && rs[b].offset == r.offs[j + 1] ==> !wide(a, b)
  }

  /** The gap between two runs is. */
  ghost predicate Parted(rs: seq<Record>, r: Run, s: Run, wide: (nat, nat) -> bool) {
    r.offs != [] && s.offs != [] &&
    forall a, b :: 0 <= a < |rs| && 0 <= b < |rs| ==>
      rs[a].offset == r.offs[|r.offs| - 1] && rs[b].offset == s.offs[0] ==> wide(a, b)
  }

  ghost predicate Coalesced(rs: seq<Record>, runs: seq<Run>, wide: (nat, nat) -> bool) {
    && (forall k {:trigger Tight(rs, runs[k], wide)} :: 0 <= k < |runs| ==> Tight(rs, runs[k], wide))
    && forall j, k {:trigger Parted(rs, runs[j], runs[k], wide)} :: 0 <= j && k == j + 1 < |runs| ==>
         Parted(rs, runs[j], runs[k], wide)
  }

  /** The run being built is tight, and parted from the one before it. */
  ghost predicate Building(rs: seq<Record>, done: seq<Run>, cur: Run, prev: nat, wide: (nat, nat) -> bool) {
    && Coalesced(rs, done, wide) && (cur.offs == [] ==> done == [])
    && (cur.offs != [] ==> Tight(rs, cur, wide) && prev < |rs| && rs[prev].offset == cur.offs[|cur.offs| - 1])
    && (done != [] ==> Parted(rs, done[|done| - 1], cur, wide))
  }

  lemma CoalescedAdded(rs: seq<Record>, runs: seq<Run>, r: Run, wide: (nat, nat) -> bool)
    requires Coalesced(rs, runs, wide) && Tight(rs, r, wide) && (runs != [] ==> Parted(rs, runs[|runs| - 1], r, wide))
    ensures Coalesced(rs, runs + [r], wide)
  {
    var runs' := runs + [r];
    forall k | 0 <= k < |runs'|
      ensures Tight(rs, runs'[k], wide)
    {
      assert k < |runs| ==> Tight(rs, runs[k], wide);
    }
    forall j, k | 0 <= j && k == j + 1 < |runs'|
      ensures Parted(rs, runs'[j], runs'[k], wide)
    {
      assert k < |runs| ==> Parted(rs, runs[j], runs[k], wide);
    }
  }

  /** One more offset, in the run or in a new one. */
  lemma Built(rs: seq<Record>, done: seq<Run>, cur: Run, prev: nat, e: nat, wide: (nat, nat) -> bool)
    requires Ascending(rs) && Building(rs, done, cur, prev, wide) && e < |rs|
    ensures cur.offs == [] ==> Building(rs, done, Run(e, [rs[e].offset]), e, wide)
    ensures cur.offs != [] && wide(prev, e) ==> Building(rs, done + [cur], Run(e, [rs[e].offset]), e, wide)
    ensures cur.offs != [] && !wide(prev, e) ==> Building(rs, done, cur.(offs := cur.offs + [rs[e].offset]), e, wide)
  {
    if cur.offs != [] {
      CoalescedAdded(rs, done, cur, wide);
      AtMostOnce(rs, prev);
      AtMostOnce(rs, e);
    }
  }

  lemma AtMostOnce(rs: seq<Record>, i: nat)
    requires Ascending(rs) && i < |rs|
    ensures forall a :: 0 <= a < |rs| && rs[a].offset == rs[i].offset ==> a == i
  {
  }

  /** Group ascending offsets into runs, splitting exactly where the gap to the next
      record is too wide. */
  method PlanRuns(rs: seq<Record>, offs: seq<int>, wide: (nat, nat) -> bool) returns (runs: Option<seq<Run>>)
    requires Ascending(rs)
    ensures runs.Some? <==> forall i :: 0 <= i < |offs| ==> Holds(rs, offs[i])
    ensures runs.Some? ==> Joined(runs.value) == offs && ValidRuns(rs, runs.value) && Coalesced(rs, runs.value, wide)
  {
    var done: seq<Run>, cur, prev := [], Run(0, []), 0;
    for n := 0 to |offs|
      invariant Joined(done) + cur.offs == offs[..n] && Building(rs, done, cur, prev, wide)
      invariant ValidRuns(rs, done) && (cur.offs != [] ==> ValidRun(rs, cur))
      invariant forall i :: 0 <= i < n ==> Holds(rs, offs[i])
    {
      var e := FindEntry(rs, offs[n]);
      if e.None? {
        return None;
      }
      Built(rs, done, cur, prev, e.value, wide);
      assert offs[..n + 1] == offs[..n] + [offs[n]];
      if |cur.offs| == 0 || wide(prev, e.value) {
        if |cur.offs| > 0 {
          RunAdded(rs, done, cur);
          done := done + [cur];
        }
        cur := Run(e.value, [offs[n]]);
      } else {
        assert Joined(done) + (cur.offs + [offs[n]]) == offs[..n + 1];
        cur := cur.(offs := cur.offs + [offs[n]]);
      }
      prev := e.value;
    }
    assert offs[..|offs|] == offs;
    if |cur.offs| > 0 {
      RunAdded(rs, done, cur);
      CoalescedAdded(rs, done, cur, wide);
      done := done + [cur];
    }
    return Some(done);
  }

  lemma RunAdded(rs: seq<Record>, runs: seq<Run>, r: Run)
    requires ValidRuns(rs, runs) && ValidRun(rs, r)
    ensures ValidRuns(rs, runs + [r]) && Joined(runs + [r]) == Joined(runs) + r.offs
  {
    assert (runs + [r])[..|runs|] == runs;
    forall k | 0 <= k < |runs + [r]|
      ensures ValidRun(rs, (runs + [r])[k])
    {
      assert k < |runs| ==> ValidRun(rs, runs[k]);
    }
  }

  // ---- fetching ----

  ghost predicate SoundAt(rs: seq<Record>, o: int) {
    exists i :: 0 <= i < |rs| && rs[i].offset == o && rs[i].sound
  }

  /** The records at these offsets. */
  ghost predicate Fetched(rs: seq<Record>, offs: seq<int>, got: map<int, Record>) {
    && (forall o :: o in got <==> o in offs)
    && forall o :: o in got ==> got[o] in rs && got[o].offset == o && got[o].sound
  }

  /** One forward pass, keeping the wanted records and passing over the others; a record
      that is missing or fails its checksum fails the run. */
  method CollectRun(rs: seq<Record>, run: Run) returns (r: Option<map<int, Record>>)
    requires Ascending(rs) && Increasing(run.offs) && ValidRun(rs, run)
    ensures r.Some? <==> forall i :: 0 <= i < |run.offs| ==> SoundAt(rs, run.offs[i])
    ensures r.Some? ==> Fetched(rs, run.offs, r.value)
  {
    var offs, i, pos := run.offs, 0, run.start;
    var got: map<int, Record> := map[];
    while i < |offs|
      invariant 0 <= i <= |offs| && pos <= |rs| && Fetched(rs, offs[..i], got)
      invariant i < |offs| ==> forall k :: 0 <= k < pos ==> rs[k].offset < offs[i]
      invariant forall j :: 0 <= j < i ==> SoundAt(rs, offs[j])
      decreases |rs| - pos, |offs| - i
    {
      if pos == |rs| {
        return None;
      }
      var rec := rs[pos];
      pos := pos + 1;
      if rec.offset < offs[i] {
        continue;
      }
      if rec.offset > offs[i] {
        Overshot(rs, pos - 1, offs[i]);
        return None;
      }
      if !rec.sound {
        OnlyOne(rs, pos - 1, offs[i]);
        return None;
      }
      assert rec in rs;
      assert offs[..i + 1] == offs[..i] + [offs[i]];
      got := got[rec.offset := rec];
      i := i + 1;
    }
    assert offs[..|offs|] == offs;
    return Some(got);
  }

  lemma Overshot(rs: seq<Record>, p: nat, o: int)
    requires Ascending(rs) && p < |rs| && rs[p].offset > o && forall k :: 0 <= k < p ==> rs[k].offset < o
    ensures !SoundAt(rs, o)
  {
  }

  lemma OnlyOne(rs: seq<Record>, p: nat, o: int)
    requires Ascending(rs) && p < |rs| && rs[p].offset == o && !rs[p].sound
    ensures !SoundAt(rs, o)
  {
  }

  lemma {:induction false} RunOffsets(runs: seq<Run>, k: nat, o: int)
    requires k < |runs| && o in runs[k].offs
    ensures o in Joined(runs)
    decreases |runs|
  {
    if k < |runs| - 1 {
      RunOffsets(runs[..|runs| - 1], k, o);
    }
  }

  lemma {:induction false} RunIncreasing(runs: seq<Run>, k: nat)
    requires Increasing(Joined(runs)) && k < |runs|
    ensures Increasing(runs[k].offs)
    decreases |runs|
  {
    var front := Joined(runs[..|runs| - 1]);
    if k < |runs| - 1 {
      assert forall i :: 0 <= i < |front| ==> front[i] == Joined(runs)[i];
      RunIncreasing(runs[..|runs| - 1], k);
    } else {
      assert forall i :: 0 <= i < |runs[k].offs| ==> runs[k].offs[i] == Joined(runs)[|front| + i];
    }
  }

  /** Every run's records, together. */
  method FetchRuns(rs: seq<Record>, runs: seq<Run>) returns (r: Option<map<int, Record>>)
    requires Ascending(rs) && Increasing(Joined(runs)) && ValidRuns(rs, runs)
    ensures r.Some? <==> forall i :: 0 <= i < |Joined(runs)| ==> SoundAt(rs, Joined(runs)[i])
    ensures r.Some? ==> Fetched(rs, Joined(runs), r.value)
  {
    var got: map<int, Record> := map[];
    for k := 0 to |runs|
      invariant Fetched(rs, Joined(runs[..k]), got)
      invariant forall i :: 0 <= i < |Joined(runs[..k])| ==> SoundAt(rs, Joined(runs[..k])[i])
    {
      RunIncreasing(runs, k);
      assert ValidRun(rs, runs[k]);
      var one := CollectRun(rs, runs[k]);
      assert runs[..k + 1][..k] == runs[..k];
      if one.None? {
        ghost var i :| 0 <= i < |runs[k].offs| && !SoundAt(rs, runs[k].offs[i]);
        RunOffsets(runs, k, runs[k].offs[i]);
        return None;
      }
      got := got + one.value;
    }
    assert runs[..|runs|] == runs;
    return Some(got);
  }

  /** The planned records, in offset order. */
  method Fetch(rs: seq<Record>, hits: seq<int>, wide: (nat, nat) -> bool) returns (r: Option<seq<Record>>)
    requires Ascending(rs) && Increasing(hits)
    ensures r.Some? <==> forall i :: 0 <= i < |hits| ==> SoundAt(rs, hits[i])
    ensures r.Some? ==> |r.value| == |hits| && forall i :: 0 <= i < |hits| ==>
              r.value[i] in rs && r.value[i].offset == hits[i]
  {
    var runs := PlanRuns(rs, hits, wide);
    if runs.None? {
      return None;
    }
    var got := FetchRuns(rs, runs.value);
    if got.None? {
      return None;
    }
    var out: seq<Record> := [];
    for i := 0 to |hits|
      invariant |out| == i && forall j :: 0 <= j < i ==> out[j] in rs && out[j].offset == hits[j]
    {
      assert hits[i] in hits;
      out := out + [got.value[hits[i]]];
    }
    return Some(out);
  }

  // ---- one segment ----

  ghost predicate ChosenSound(q: Query, w: Window, rs: seq<Record>) {
    forall r :: r in rs && Chosen(q, w, rs, r) ==> r.sound
  }

  /** What was fetched at the hits is what the read wants. */
  lemma FetchedIsWanted(q: Query, w: Window, rs: seq<Record>, hits: seq<int>, out: seq<Record>)
    requires Held(rs) && Increasing(hits) && (forall o :: o in hits <==> Hit(q, w, rs, o))
    requires |out| == |hits| && forall i :: 0 <= i < |hits| ==> out[i] in rs && out[i].offset == hits[i]
    ensures out == Wanted(q, w, rs)
  {
    var chosen := (r: Record) => Chosen(q, w, rs, r);
    FilterAscending(rs, chosen);
    forall r
      ensures r in out <==> r in Wanted(q, w, rs)
    {
      FilterIn(rs, chosen, r);
      if r in out {
        var i :| 0 <= i < |out| && out[i] == r;
        assert hits[i] in hits;
        var s :| s in rs && s.offset == hits[i] && Chosen(q, w, rs, s);
        OneAtOffset(rs, r, s);
      }
      if r in rs && Chosen(q, w, rs, r) {
        assert r.offset in hits;
        var i :| 0 <= i < |hits| && hits[i] == r.offset;
        OneAtOffset(rs, r, out[i]);
      }
    }
    AscendingUnique(out, Wanted(q, w, rs));
  }

  lemma SoundHits(q: Query, w: Window, rs: seq<Record>, hits: seq<int>)
    requires Held(rs) && forall o :: o in hits <==> Hit(q, w, rs, o)
    ensures (forall i :: 0 <= i < |hits| ==> SoundAt(rs, hits[i])) <==> ChosenSound(q, w, rs)
  {
    if forall i :: 0 <= i < |hits| ==> SoundAt(rs, hits[i]) {
      forall r | r in rs && Chosen(q, w, rs, r)
        ensures r.sound
      {
        assert r.offset in hits;
        var i :| 0 <= i < |hits| && hits[i] == r.offset;
        var j :| 0 <= j < |rs| && rs[j].offset == hits[i] && rs[j].sound;
        OneAtOffset(rs, r, rs[j]);
      }
    }
    if ChosenSound(q, w, rs) {
      forall i | 0 <= i < |hits|
        ensures SoundAt(rs, hits[i])
      {
        assert hits[i] in hits;
        var r :| r in rs && r.offset == hits[i] && Chosen(q, w, rs, r);
        var j :| 0 <= j < |rs| && rs[j] == r;
      }
    }
  }

  /** One segment's matching records, planned from its digest when there is one and
      scanned otherwise. Whatever is returned is the same by either route; the routes
      differ only in which failed checksums they notice. */
  method ServeSegment(d: Option<KeyDigest>, q: Query, w: Window, rs: seq<Record>, wide: (nat, nat) -> bool)
    returns (r: Option<seq<Record>>)
    requires Held(rs) && (d.Some? ==> Accurate(d.value, rs))
    ensures r.Some? ==> r.value == Wanted(q, w, rs)
    ensures r.Some? <==> if d.Some? then ChosenSound(q, w, rs) else AllSound(q, w, rs)
  {
    if d.None? {
      r := ScanSegmentFiltered(q, w, rs);
      return;
    }
    var hits := DigestHits(d.value, q, w, rs);
    SoundHits(q, w, rs, hits);
    if |hits| == 0 {
      FetchedIsWanted(q, w, rs, hits, []);
      return Some([]);
    }
    r := Fetch(rs, hits, wide);
    if r.Some? {
      FetchedIsWanted(q, w, rs, hits, r.value);
    }
  }

  /** A later candidate of the same key replaces this one. */
  ghost predicate Superseded(q: Query, w: Window, rs: seq<Record>, r: Record) {
    exists s :: s in rs && Candidate(q, w, s) && SameKey(r, s) && s.offset > r.offset
  }

  /** The routes answer alike on every read that wants superseded records too. On one that
      does not, the plan serves what the scan refuses exactly when some superseded
      candidate fails its checksum and no other candidate does; it never refuses what
      the scan serves. */
  lemma RoutesAgree(q: Query, w: Window, rs: seq<Record>)
    requires Held(rs)
    ensures AllSound(q, w, rs) ==> ChosenSound(q, w, rs)
    ensures !q.skipSuperseded ==> (ChosenSound(q, w, rs) <==> AllSound(q, w, rs))
    ensures q.skipSuperseded ==>
              ((ChosenSound(q, w, rs) && !AllSound(q, w, rs)) <==>
               && (exists r :: r in rs && Candidate(q, w, r) && Superseded(q, w, rs, r) && !r.sound)
               && (forall r :: r in rs && Candidate(q, w, r) && !Superseded(q, w, rs, r) ==> r.sound))
  {
    if q.skipSuperseded {
      forall r | r in rs && Candidate(q, w, r)
        ensures Chosen(q, w, rs, r) <==> !Superseded(q, w, rs, r)
      {
        if Superseded(q, w, rs, r) {
          var s :| s in rs && Candidate(q, w, s) && SameKey(r, s) && s.offset > r.offset;
        }
      }
    }
  }

  /** Two records of one key, the earlier one damaged. */
  lemma RoutesDiffer()
    ensures var first := Record(0, 0, 0, Some([1]), None, map[], false, false, false);
            var q, w, rs := Query([], true, false), Window(0, -1), [first, first.(offset := 1, sound := true)];
            Held(rs) && ChosenSound(q, w, rs) && !AllSound(q, w, rs)
  {
    var first := Record(0, 0, 0, Some([1]), None, map[], false, false, false);
    var second := first.(offset := 1, sound := true);
    var q, w, rs := Query([], true, false), Window(0, -1), [first, second];
    assert first in rs && second in rs && Candidate(q, w, first) && Candidate(q, w, second) && SameKey(first, second);
  }
}
