/** Serving the sealed part of a prefix read, one segment at a time. */
module PrefixSources {
  import opened Bytes
  import opened LogModel
  import opened KeyDigests
  import opened PrefixSpec
  import opened PrefixScan
  import PD = PrefixDigest
  import PF = PrefixFetch

  datatype Popped = Served(rec: Record) | Exhausted | Failed

  /** What the read returns of the segments from i on. */
  ghost function From(q: Query, w: Window, segs: seq<Segment>, i: nat): seq<Record>
    decreases |segs| - i
  {
    if i >= |segs| then [] else Wanted(q, w, segs[i].Records()) + From(q, w, segs, i + 1)
  }

  /** A segment as the read meets it: its records in order and in its range, and its
      digest, if any, accurate. */
  ghost predicate Usable(s: Segment, d: Option<KeyDigest>) {
    && PD.Held(s.Records()) && s.base <= s.Next()
    && (forall r :: r in s.Records() ==> s.base <= r.offset < s.Next())
    && (d.Some? ==> Accurate(d.value, s.Records()))
  }

  ghost predicate Follows(a: Segment, b: Segment) {
    a.Next() <= b.base
  }

  ghost predicate Digested(segs: seq<Segment>, digests: seq<Option<KeyDigest>>) {
    && |digests| == |segs|
    && (forall i {:trigger Usable(segs[i], digests[i])} :: 0 <= i < |segs| ==> Usable(segs[i], digests[i]))
    && forall i, j {:trigger Follows(segs[i], segs[j])} :: 0 <= i < j < |segs| ==> Follows(segs[i], segs[j])
  }

  lemma DigestedLog(segs: seq<Segment>, digests: seq<Option<KeyDigest>>)
    requires ValidLog(segs) && |digests| == |segs|
    requires forall i :: 0 <= i < |segs| && digests[i].Some? ==> Accurate(digests[i].value, segs[i].Records())
    ensures Digested(segs, digests)
  {
    forall i | 0 <= i < |segs|
      ensures Usable(segs[i], digests[i])
    {
      NextAtLeastBase(segs[i]);
      forall r | r in segs[i].Records()
        ensures 0 <= segs[i].base <= r.offset < segs[i].Next()
      {
        assert HeldBy(segs, i, r);
        RecordBounds(segs, i, r);
      }
    }
  }

  /** What is served is in the log, in its window. */
  lemma {:induction false} FromHeld(q: Query, w: Window, segs: seq<Segment>, i: nat, r: Record)
    requires r in From(q, w, segs, i)
    ensures exists j :: i <= j < |segs| && r in segs[j].Records() && Chosen(q, w, segs[j].Records(), r)
    decreases |segs| - i
  {
    var rs := segs[i].Records();
    FilterIn(rs, x => Chosen(q, w, rs, x), r);
    if r !in Wanted(q, w, rs) {
      FromHeld(q, w, segs, i + 1, r);
    }
  }

  /** Nothing wanted is missing. */
  lemma {:induction false} FromAll(q: Query, w: Window, segs: seq<Segment>, i: nat, j: nat, r: Record)
    requires i <= j < |segs| && r in segs[j].Records() && Chosen(q, w, segs[j].Records(), r)
    ensures r in From(q, w, segs, i)
    decreases |segs| - i
  {
    if i == j {
      var rs := segs[i].Records();
      FilterIn(rs, x => Chosen(q, w, rs, x), r);
    } else {
      FromAll(q, w, segs, i + 1, j, r);
    }
  }

  /** Each record once, in offset order. */
  lemma {:induction false} FromAscends(q: Query, w: Window, segs: seq<Segment>, i: nat)
    requires ValidLog(segs)
    ensures Ascending(From(q, w, segs, i))
    decreases |segs| - i
  {
    if i < |segs| {
      var rs, rest := segs[i].Records(), From(q, w, segs, i + 1);
      var mine := Wanted(q, w, rs);
      FilterAscending(rs, x => Chosen(q, w, rs, x));
      FromAscends(q, w, segs, i + 1);
      forall m, n | 0 <= m < |mine| && 0 <= n < |rest|
        ensures mine[m].offset < rest[n].offset
      {
        assert mine[m] in mine && rest[n] in rest;
        FilterIn(rs, x => Chosen(q, w, rs, x), mine[m]);
        FromHeld(q, w, segs, i + 1, rest[n]);
        var j :| i + 1 <= j < |segs| && rest[n] in segs[j].Records();
        OffsetOrder(segs, i, mine[m], j, rest[n]);
      }
      Joined(mine, rest);
    }
  }

  lemma Joined(a: seq<Record>, b: seq<Record>)
    requires Ascending(a) && Ascending(b)
    requires forall m, n :: 0 <= m < |a| && 0 <= n < |b| ==> a[m].offset < b[n].offset
    ensures Ascending(a + b)
  {
  }

  /** A segment with no candidate gives nothing. */
  lemma NothingWanted(q: Query, w: Window, rs: seq<Record>)
    requires forall r :: r in rs ==> !InWindow(w, r.offset)
    ensures Wanted(q, w, rs) == []
  {
    var chosen := (r: Record) => Chosen(q, w, rs, r);
    Inhabited(Wanted(q, w, rs));
    forall r
      ensures r !in Wanted(q, w, rs)
    {
      FilterIn(rs, chosen, r);
    }
  }

  /** Windows that agree on the records want the same of them. */
  lemma SameWindow(q: Query, w: Window, w': Window, rs: seq<Record>)
    requires forall r :: r in rs ==> (InWindow(w, r.offset) <==> InWindow(w', r.offset))
    ensures Wanted(q, w, rs) == Wanted(q, w', rs)
    ensures AllSound(q, w, rs) <==> AllSound(q, w', rs)
  {
    forall i | 0 <= i < |rs|
      ensures Chosen(q, w, rs, rs[i]) <==> Chosen(q, w', rs, rs[i])
    {
      assert rs[i] in rs;
    }
    FilterSame(rs, r => Chosen(q, w, rs, r), r => Chosen(q, w', rs, r));
  }

  /** Past the bound there is nothing. */
  lemma {:induction false} PastBound(q: Query, w: Window, segs: seq<Segment>, digests: seq<Option<KeyDigest>>, i: nat)
    requires Digested(segs, digests) && i < |segs| && 0 <= w.bound < segs[i].base
    ensures From(q, w, segs, i) == []
    decreases |segs| - i
  {
    assert Usable(segs[i], digests[i]);
    NothingWanted(q, w, segs[i].Records());
    if i + 1 < |segs| {
      assert Follows(segs[i], segs[i + 1]);
      PastBound(q, w, segs, digests, i + 1);
    }
  }

  /** What of a segment the read's start admits is still ahead. */
  ghost predicate Ahead(s: Segment, from: int, reached: int) {
    reached <= from || reached <= s.base || reached <= 0
  }

  ghost predicate Passed(s: Segment, reached: int) {
    s.Next() <= reached
  }

  /** The segments before `at` are behind what has been reached, the rest ahead. */
  ghost predicate Position(segs: seq<Segment>, at: nat, from: int, reached: int) {
    && at <= |segs| && from <= reached
    && (forall i {:trigger Passed(segs[i], reached)} :: 0 <= i < at ==> Passed(segs[i], reached))
    && forall i {:trigger Ahead(segs[i], from, reached)} :: at <= i < |segs| ==> Ahead(segs[i], from, reached)
  }

  lemma PositionSkip(segs: seq<Segment>, at: nat, from: int, reached: int)
    requires Position(segs, at, from, reached) && at < |segs| && segs[at].Next() <= reached
    ensures Position(segs, at + 1, from, reached)
  {
    assert Passed(segs[at], reached);
  }

  lemma PositionNext(segs: seq<Segment>, digests: seq<Option<KeyDigest>>, at: nat, from: int, reached: int)
    requires Digested(segs, digests) && Position(segs, at, from, reached) && at < |segs| && segs[at].Next() > reached
    ensures Position(segs, at + 1, from, segs[at].Next())
  {
    forall i | 0 <= i < at + 1
      ensures Passed(segs[i], segs[at].Next())
    {
      assert i < at ==> Passed(segs[i], reached);
    }
    forall i | at + 1 <= i < |segs|
      ensures Ahead(segs[i], from, segs[at].Next())
    {
      assert Follows(segs[at], segs[i]);
    }
  }

  /** A segment behind what has been reached has nothing left to give. */
  lemma SkipSegment(q: Query, w: Window, s: Segment, d: Option<KeyDigest>, next: int)
    requires Usable(s, d) && s.Next() <= next && w.from <= next && Ahead(s, w.from, next)
    ensures Wanted(q, w, s.Records()) == []
  {
    NothingWanted(q, w, s.Records());
  }

  lemma ServeHere(q: Query, w: Window, s: Segment, d: Option<KeyDigest>, next: int)
    requires Usable(s, d) && w.from <= next && Ahead(s, w.from, next)
    ensures var rs := s.Records();
            && Wanted(q, Window(next, w.bound), rs) == Wanted(q, w, rs)
            && (AllSound(q, Window(next, w.bound), rs) <==> AllSound(q, w, rs))
            && (AllSound(q, w, rs) ==> PF.ChosenSound(q, Window(next, w.bound), rs))
  {
    SameWindow(q, Window(next, w.bound), w, s.Records());
  }

  ghost predicate AllBelow(rs: seq<Record>, end: int) {
    forall k :: 0 <= k < |rs| ==> rs[k].offset < end
  }

  lemma QueueBounded(q: Query, w: Window, s: Segment, d: Option<KeyDigest>)
    requires Usable(s, d)
    ensures AllBelow(Wanted(q, w, s.Records()), s.Next())
  {
    var rs := s.Records();
    forall k | 0 <= k < |Wanted(q, w, rs)|
      ensures Wanted(q, w, rs)[k].offset < s.Next()
    {
      assert Wanted(q, w, rs)[k] in Wanted(q, w, rs);
      FilterIn(rs, x => Chosen(q, w, rs, x), Wanted(q, w, rs)[k]);
    }
  }

  /** One segment's part, read from where the search has come to. */
  method ServeFrom(s: Segment, d: Option<KeyDigest>, q: Query, w: Window, next: int, wide: (nat, nat) -> bool)
    returns (recs: Option<seq<Record>>)
    requires Usable(s, d) && w.from <= next && Ahead(s, w.from, next)
    ensures recs.Some? ==> recs.value == Wanted(q, w, s.Records()) && AllBelow(recs.value, s.Next())
    ensures recs.None? ==> !AllSound(q, w, s.Records())
  {
    ServeHere(q, w, s, d, next);
    QueueBounded(q, w, s, d);
    recs := PF.ServeSegment(d, q, Window(next, w.bound), s.Records(), wide);
  }

  class PrefixSource {
    /** The sealed segments, and the digests of those that have one. */
    const segs: seq<Segment>
    const digests: seq<Option<KeyDigest>>
    const q: Query
    const window: Window
    const wide: (nat, nat) -> bool
    var queue: seq<Record>
    var qi: nat
    /** Where a read resumes, and how far the search has come. */
    var next: int
    var servedThrough: int
    var done: bool
    /** The segments before this one are dealt with. */
    ghost var at: nat

    ghost function Reached(): int
      reads this
    {
      if servedThrough > next then servedThrough else next
    }

    ghost predicate Valid()
      reads this
    {
      && Digested(segs, digests) && qi <= |queue|
      && (qi < |queue| ==> next <= servedThrough && AllBelow(queue, servedThrough))
      && Position(segs, at, window.from, Reached())
      && (done ==> From(q, window, segs, at) == [])
    }

    /** What the read has still to return. */
    ghost function Remaining(): seq<Record>
      requires Valid()
      reads this
    {
      queue[qi..] + From(q, window, segs, at)
    }

    constructor (segs: seq<Segment>, digests: seq<Option<KeyDigest>>, q: Query, window: Window,
                 wide: (nat, nat) -> bool)
      requires ValidLog(segs) && |digests| == |segs|
      requires forall i :: 0 <= i < |segs| && digests[i].Some? ==> Accurate(digests[i].value, segs[i].Records())
      ensures Valid() && Remaining() == From(q, window, segs, 0)
    {
      DigestedLog(segs, digests);
      this.segs, this.digests, this.q, this.window, this.wide := segs, digests, q, window, wide;
      queue, qi, next, servedThrough, done, at := [], 0, window.from, 0, false, 0;
    }

    /** The next record of the sealed part, in order, or none left. */
    method Pop() returns (r: Popped)
      requires Valid()
      modifies this
      ensures Valid()
      ensures r.Served? ==> old(Remaining()) == [r.rec] + Remaining()
      ensures r.Exhausted? ==> old(Remaining()) == []
      ensures r.Failed? ==> Remaining() == old(Remaining()) && Damaged()
    {
      while true
        invariant Valid() && Remaining() == old(Remaining())
        decreases |segs| - at, !done
      {
        if qi < |queue| {
          var rec := Take();
          return Served(rec);
        }
        if done {
          return Exhausted;
        }
        var ok := FillFromNextSegment();
        if !ok {
          return Failed;
        }
      }
    }

    /** Some record the read is about fails its checksum. */
    ghost predicate Damaged() {
      exists i :: 0 <= i < |segs| && !AllSound(q, window, segs[i].Records())
    }

    method Take() returns (rec: Record)
      requires Valid() && qi < |queue|
      modifies this`qi, this`next
      ensures Valid() && old(Remaining()) == [rec] + Remaining()
    {
      rec := queue[qi];
      assert queue[qi..] == [rec] + queue[qi + 1..];
      qi := qi + 1;
      next := rec.offset + 1;
    }

    /** Queue the matching records of the next segment that has any. */
    method FillFromNextSegment() returns (ok: bool)
      requires Valid() && !done && qi == |queue|
      modifies this
      ensures Valid() && Remaining() == old(Remaining())
      ensures ok ==> at > old(at) || (at == old(at) && done)
      ensures !ok ==> Damaged()
    {
      queue, qi := [], 0;
      if servedThrough > next {
        next := servedThrough;
      }
      assert Remaining() == From(q, window, segs, at);
      for i := 0 to |segs|
        invariant Searching() && Remaining() == old(Remaining())
        invariant at == if i > old(at) then i else old(at)
      {
        assert i < at ==> Passed(segs[i], next);
        if segs[i].Next() <= next {
          if i >= at {
            Skip();
          }
          continue;
        }
        assert i == at;
        if window.bound >= 0 && segs[i].base > window.bound {
          PastBound(q, window, segs, digests, i);
          done := true;
          return true;
        }
        ok := Serve(i);
        if !ok || |queue| > 0 {
          return;
        }
      }
      done := true;
      return true;
    }

    ghost predicate Searching()
      reads this
    {
      Valid() && !done && queue == [] && qi == 0 && servedThrough <= next
    }

    /** Pass over a segment that is behind. */
    ghost method Skip()
      requires Searching() && at < |segs| && segs[at].Next() <= next
      modifies this`at
      ensures Searching() && Remaining() == old(Remaining()) && at == old(at) + 1
    {
      assert Usable(segs[at], digests[at]) && Ahead(segs[at], window.from, next);
      SkipSegment(q, window, segs[at], digests[at], next);
      PositionSkip(segs, at, window.from, next);
      at := at + 1;
    }

    /** Queue one segment's matching records. */
    method Serve(i: nat) returns (ok: bool)
      requires Searching() && i == at < |segs| && segs[i].Next() > next
      modifies this`queue, this`next, this`servedThrough, this`at
      ensures Valid() && Remaining() == old(Remaining()) && !done && qi == 0
      ensures if ok then at == old(at) + 1 && (queue == [] ==> Searching()) else at == old(at) && Damaged()
    {
      assert Usable(segs[i], digests[i]) && Ahead(segs[i], window.from, next);
      var recs := ServeFrom(segs[i], digests[i], q, window, next, wide);
      if recs.None? {
        return false;
      }
      PositionNext(segs, digests, i, window.from, next);
      next := segs[i].Next();
      at := i + 1;
      if |recs.value| > 0 {
        servedThrough := segs[i].Next();
        queue := recs.value;
      }
      return true;
    }
  }
}
