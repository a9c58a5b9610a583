/** The leader epoch history: for each epoch this log led, where the log stood when
    it began. Sparse, ordered, and only ever added to or trimmed at an end. */
module EpochCache {
  import opened Bytes

  const EPOCHS: int := 0x1_0000_0000_0000_0000

  type Epoch = e: int | 0 <= e < EPOCHS

  /** `anchor` is the last offset written before the epoch began, -1 for none. */
  datatype EpochOffset = EpochOffset(epoch: Epoch, anchor: int)

  type History = seq<EpochOffset>

  predicate Before(x: EpochOffset, y: EpochOffset) {
    x.epoch < y.epoch && x.anchor <= y.anchor
  }

  ghost predicate Ordered(es: History) {
    forall i, j :: 0 <= i < j < |es| ==> Before(es[i], es[j])
  }

  function LatestEpoch(es: History): Epoch {
    if es == [] then 0 else es[|es| - 1].epoch
  }

  function LatestAnchor(es: History): int {
    if es == [] then -1 else es[|es| - 1].anchor
  }

  function EarliestAnchor(es: History): int {
    if es == [] then -1 else es[0].anchor
  }

  /** The first entry at or past an epoch. */
  ghost predicate FirstAtLeast(es: History, e: Epoch, i: nat) {
    && i <= |es|
    && (forall j :: 0 <= j < i ==> es[j].epoch < e)
    && (i < |es| ==> es[i].epoch >= e)
  }

  function Successor(e: Epoch): Epoch { (e + 1) % EPOCHS }

  /** The cache's answer to "where does this epoch end": the anchor of the first
      entry past it, if there is one. The successor of the last epoch is 0. */
  function Answer(es: History, e: Epoch): Option<int> {
    AnswerFrom(es, Successor(e))
  }

  function AnswerFrom(es: History, e: Epoch): Option<int> {
    if es == [] then None
    else if es[0].epoch >= e then Some(es[0].anchor)
    else AnswerFrom(es[1..], e)
  }

  lemma {:induction false} AnswerIsFirst(es: History, e: Epoch, i: nat)
    requires FirstAtLeast(es, e, i)
    ensures AnswerFrom(es, e) == if i < |es| then Some(es[i].anchor) else None
  {
    if i > 0 {
      AnswerIsFirst(es[1..], e, i - 1);
    }
  }

  // ---- trimming the old end ----

  /** How many entries are anchored below a floor; they are the first ones. */
  function Below(es: History, floor: int): (n: nat)
    ensures n <= |es|
  {
    if es == [] || es[0].anchor >= floor then 0 else 1 + Below(es[1..], floor)
  }

  lemma {:induction false} BelowSplits(es: History, floor: int, i: nat)
    requires Ordered(es) && i < |es|
    ensures i < Below(es, floor) <==> es[i].anchor < floor
  {
    if es[0].anchor < floor && i > 0 {
      BelowSplits(es[1..], floor, i - 1);
    }
  }

  /** Entries below the floor go, the newest of them re-anchored at it unless the
      next entry already sits there. */
  function Trimmed(es: History, floor: int): History {
    var n := Below(es, floor);
    if floor <= 0 || n == 0 then es
    else if n == |es| || floor < es[n].anchor then [EpochOffset(es[n - 1].epoch, floor)] + es[n..]
    else es[n..]
  }

  function Raise(a: Option<int>, floor: int): Option<int> {
    if a.Some? && a.value < floor then Some(floor) else a
  }

  lemma {:induction false} AnswerSuffix(es: History, e: Epoch, n: nat)
    requires n <= |es| && (n > 0 ==> es[n - 1].epoch < e) && Ordered(es[..n])
    ensures AnswerFrom(es, e) == AnswerFrom(es[n..], e)
  {
    if n > 0 {
      assert n > 1 ==> Before(es[..n][0], es[..n][n - 1]);
      assert es[1..][..n - 1] == es[..n][1..];
      OrderedSuffix(es[..n], 1);
      AnswerSuffix(es[1..], e, n - 1);
      assert es[1..][n - 1..] == es[n..];
    }
  }

  lemma {:induction false} AnswerHit(es: History, e: Epoch, i: nat)
    requires Ordered(es) && i < |es| && es[i].epoch >= e
    ensures AnswerFrom(es, e).Some? && AnswerFrom(es, e).value <= es[i].anchor
  {
    if es[0].epoch < e {
      AnswerHit(es[1..], e, i - 1);
    }
  }

  lemma BelowBounds(es: History, floor: int)
    requires Ordered(es)
    ensures var n := Below(es, floor);
            && (n > 0 ==> es[n - 1].anchor < floor) && (n < |es| ==> es[n].anchor >= floor)
  {
    var n := Below(es, floor);
    if n > 0 {
      BelowSplits(es, floor, n - 1);
    }
    if n < |es| {
      BelowSplits(es, floor, n);
    }
  }

  lemma TrimmedOrdered(es: History, floor: int)
    requires Ordered(es)
    ensures Ordered(Trimmed(es, floor)) && LatestEpoch(Trimmed(es, floor)) == LatestEpoch(es)
  {
    BelowBounds(es, floor);
    var n := Below(es, floor);
    OrderedSuffix(es, n);
    if floor > 0 && n > 0 {
      var x := EpochOffset(es[n - 1].epoch, floor);
      if n == |es| {
        assert Trimmed(es, floor) == [x];
      } else {
        assert Before(es[n - 1], es[n]);
        OrderedPrepend(x, es[n..]);
        LatestOfSuffix(x, es, n);
      }
    }
  }

  lemma LatestOfSuffix(x: EpochOffset, es: History, n: nat)
    requires n < |es|
    ensures LatestEpoch(es[n..]) == LatestEpoch(es) == LatestEpoch([x] + es[n..])
  {
  }

  lemma OrderedSuffix(es: History, n: nat)
    requires Ordered(es) && n <= |es|
    ensures Ordered(es[n..])
  {
  }

  lemma OrderedPrepend(x: EpochOffset, es: History)
    requires Ordered(es)
    ensures es == [] || Before(x, es[0]) ==> Ordered([x] + es)
  {
  }

  lemma TrimmedAnswer(es: History, floor: int, s: Epoch)
    requires Ordered(es) && floor > 0
    ensures AnswerFrom(Trimmed(es, floor), s) == Raise(AnswerFrom(es, s), floor)
  {
    BelowBounds(es, floor);
    var n, t := Below(es, floor), Trimmed(es, floor);
    var rest := es[n..];
    OrderedSuffix(es, n);
    RestIsRaised(rest, s, floor);
    if n == 0 {
      assert rest == es;
    } else if es[n - 1].epoch >= s {
      AnswerHit(es, s, n - 1);
      if n < |es| {
        assert Before(es[n - 1], es[n]);
        assert rest[0] == es[n];
      }
      assert t[0].epoch >= s && t[0].anchor == floor;
    } else {
      AnswerSuffix(es, s, n);
      if |t| > |rest| {
        AnswerSuffix(t, s, 1);
        assert t[1..] == rest;
      }
    }
  }

  /** Trimming to a positive floor raises every answer to it and changes nothing
      else: what could not be answered still cannot, the newest epoch stands, and
      the order holds. A floor at or below zero changes nothing at all. */
  lemma TrimmingLaw(es: History, floor: int, e: Epoch)
    requires Ordered(es)
    ensures floor > 0 ==> Answer(Trimmed(es, floor), e) == Raise(Answer(es, e), floor)
    ensures floor <= 0 ==> Trimmed(es, floor) == es
    ensures Ordered(Trimmed(es, floor)) && LatestEpoch(Trimmed(es, floor)) == LatestEpoch(es)
  {
    TrimmedOrdered(es, floor);
    if floor > 0 {
      TrimmedAnswer(es, floor, Successor(e));
    }
  }

  lemma {:induction false} RestIsRaised(es: History, e: Epoch, floor: int)
    requires Ordered(es) && (es != [] ==> es[0].anchor >= floor)
    ensures Raise(AnswerFrom(es, e), floor) == AnswerFrom(es, e)
  {
    if es != [] && es[0].epoch < e {
      assert |es| > 1 ==> es[1].anchor >= floor;
      RestIsRaised(es[1..], e, floor);
    }
  }

  // ---- the cache ----

  /** Which epochs may open: any on an empty history, a newer one at or past the
      newest anchor otherwise. */
  predicate Assignable(es: History, e: Epoch, offset: int) {
    es == [] || (e > LatestEpoch(es) && offset >= LatestAnchor(es))
  }

  /** The entries anchored below an offset, in order. */
  function Earlier(es: History, offset: int): History {
    if es == [] then [] else
      Earlier(es[..|es| - 1], offset) + if es[|es| - 1].anchor < offset then [es[|es| - 1]] else []
  }

  /** On an ordered history those are a prefix. */
  lemma {:induction false} EarlierIsPrefix(es: History, offset: int)
    requires Ordered(es)
    ensures Earlier(es, offset) == es[..Below(es, offset)]
  {
    if es != [] {
      var n := |es| - 1;
      EarlierIsPrefix(es[..n], offset);
      BelowSplits(es, offset, n);
      BelowFront(es, offset);
    }
  }

  lemma {:induction false} BelowFront(es: History, offset: int)
    requires es != []
    ensures var front := Below(es[..|es| - 1], offset);
            Below(es, offset) == if front == |es| - 1 && es[|es| - 1].anchor < offset then |es| else front
  {
    if |es| > 1 && es[0].anchor < offset {
      assert es[..|es| - 1][1..] == es[1..][..|es| - 2];
      BelowFront(es[1..], offset);
    }
  }

  class LeaderEpochCache {
    var epochOffsets: History

    ghost predicate Valid()
      reads this
    {
      Ordered(epochOffsets)
    }

    constructor ()
      ensures Valid() && epochOffsets == []
    {
      epochOffsets := [];
    }

    /** `sort.Search` over the ordered epochs. */
    method FindEpoch(e: Epoch) returns (i: nat)
      requires Valid()
      ensures FirstAtLeast(epochOffsets, e, i)
    {
      var lo, hi := 0, |epochOffsets|;
      while lo < hi
        invariant 0 <= lo <= hi <= |epochOffsets|
        invariant forall j :: 0 <= j < lo ==> epochOffsets[j].epoch < e
        invariant hi < |epochOffsets| ==> epochOffsets[hi].epoch >= e
      {
        var mid := (lo + hi) / 2;
        if epochOffsets[mid].epoch >= e {
          hi := mid;
        } else {
          lo := mid + 1;
        }
      }
      i := lo;
    }

    method LastOffsetForLeaderEpoch(e: Epoch) returns (a: Option<int>)
      requires Valid()
      ensures a == Answer(epochOffsets, e)
    {
      var i := FindEpoch(Successor(e));
      AnswerIsFirst(epochOffsets, Successor(e), i);
      a := if i < |epochOffsets| then Some(epochOffsets[i].anchor) else None;
    }

    method Assign(e: Epoch, offset: int)
      requires Valid()
      modifies this
      ensures Valid()
      ensures epochOffsets == old(epochOffsets) +
                if Assignable(old(epochOffsets), e, offset) then [EpochOffset(e, offset)] else []
    {
      if Assignable(epochOffsets, e, offset) {
        epochOffsets := epochOffsets + [EpochOffset(e, offset)];
      }
    }

    method ClearLatest(offset: int)
      requires Valid()
      modifies this
      ensures Valid() && epochOffsets == old(epochOffsets)[..Below(old(epochOffsets), offset)]
    {
      EarlierIsPrefix(epochOffsets, offset);
      if offset > LatestAnchor(epochOffsets) {
        if epochOffsets != [] {
          BelowSplits(epochOffsets, offset, |epochOffsets| - 1);
        }
        return;
      }
      epochOffsets := CollectEarlier(offset);
    }

    method CollectEarlier(offset: int) returns (es: History)
      ensures es == Earlier(epochOffsets, offset)
    {
      es := [];
      for n := 0 to |epochOffsets|
        invariant es == Earlier(epochOffsets[..n], offset)
      {
        assert epochOffsets[..n + 1][..n] == epochOffsets[..n];
        if epochOffsets[n].anchor < offset {
          es := es + [epochOffsets[n]];
        }
      }
      assert epochOffsets[..|epochOffsets|] == epochOffsets;
    }

    method ClearEarliest(offset: int)
      requires Valid()
      modifies this
      ensures Valid() && epochOffsets == Trimmed(old(epochOffsets), offset)
    {
      TrimmedOrdered(epochOffsets, offset);
      EarlierIsPrefix(epochOffsets, offset);
      if offset <= 0 {
        return;
      }
      if EarliestAnchor(epochOffsets) >= offset {
        return;
      }
      var earliest := CollectEarlier(offset);
      if |earliest| == 0 {
        return;
      }
      var removed := |earliest|;
      epochOffsets := epochOffsets[removed..];
      if offset < EarliestAnchor(epochOffsets) || |epochOffsets| == 0 {
        epochOffsets := [EpochOffset(earliest[removed - 1].epoch, offset)] + epochOffsets;
      }
    }
  }
}
