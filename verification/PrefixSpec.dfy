/** What a read by key prefix returns from one segment, and the range of keys a prefix
    covers. */
module PrefixSpec {
  import opened Bytes
  import opened LogModel

  /** A read by prefix. */
  datatype Query = Query(prefix: Key, skipSuperseded: bool, includeControl: bool)

  /** The offsets a read may return; a negative bound is none. */
  datatype Window = Window(from: int, bound: int)

  predicate HasPrefix(k: Key, p: Key) {
    |p| <= |k| && k[..|p|] == p
  }

  predicate InWindow(w: Window, offset: int) {
    offset >= w.from && (w.bound < 0 || offset <= w.bound)
  }

  /** A record the read is about: a marker if markers are asked for, or a data record
      under the prefix, in the window. */
  predicate Candidate(q: Query, w: Window, r: Record) {
    && InWindow(w, r.offset)
    && if r.control then q.includeControl else r.key.Some? && HasPrefix(r.key.value, q.prefix)
  }

  /** Two data records of one key. */
  predicate SameKey(a: Record, b: Record) {
    !a.control && !b.control && a.key.Some? && a.key == b.key
  }

  /** A candidate that no later candidate of its key replaces, when that matters. */
  ghost predicate Chosen(q: Query, w: Window, rs: seq<Record>, r: Record) {
    && Candidate(q, w, r)
    && (q.skipSuperseded ==> forall s :: s in rs && Candidate(q, w, s) && SameKey(r, s) ==> s.offset <= r.offset)
  }

  ghost function Filter(rs: seq<Record>, p: Record -> bool): seq<Record> {
    if rs == [] then [] else Filter(rs[..|rs| - 1], p) + if p(rs[|rs| - 1]) then [rs[|rs| - 1]] else []
  }

  /** What the read returns of a segment's records. */
  ghost function Wanted(q: Query, w: Window, rs: seq<Record>): seq<Record> {
    Filter(rs, r => Chosen(q, w, rs, r))
  }

  lemma {:induction false} FilterIn(rs: seq<Record>, p: Record -> bool, r: Record)
    ensures r in Filter(rs, p) <==> r in rs && p(r)
  {
    if rs != [] {
      FilterIn(rs[..|rs| - 1], p, r);
      assert rs == rs[..|rs| - 1] + [rs[|rs| - 1]];
    }
  }

  lemma {:induction false} FilterAscending(rs: seq<Record>, p: Record -> bool)
    requires Ascending(rs)
    ensures Ascending(Filter(rs, p))
  {
    if rs != [] {
      var front, last := rs[..|rs| - 1], rs[|rs| - 1];
      FilterAscending(front, p);
      forall i | 0 <= i < |Filter(front, p)|
        ensures Filter(front, p)[i].offset < last.offset
      {
        assert Filter(front, p)[i] in Filter(front, p);
        FilterIn(front, p, Filter(front, p)[i]);
        var j :| 0 <= j < |front| && front[j] == Filter(front, p)[i];
        assert rs[j].offset < rs[|rs| - 1].offset;
      }
    }
  }

  /** Filters that agree on the records agree. */
  lemma {:induction false} FilterSame(rs: seq<Record>, p: Record -> bool, p': Record -> bool)
    requires forall i :: 0 <= i < |rs| ==> p(rs[i]) == p'(rs[i])
    ensures Filter(rs, p) == Filter(rs, p')
  {
    if rs != [] {
      FilterSame(rs[..|rs| - 1], p, p');
    }
  }

  /** A filter of a filter that keeps no less. */
  lemma {:induction false} FilterTwice(rs: seq<Record>, p: Record -> bool, c: Record -> bool)
    requires forall r :: p(r) ==> c(r)
    ensures Filter(Filter(rs, c), p) == Filter(rs, p)
  {
    if rs != [] {
      var front, last := rs[..|rs| - 1], rs[|rs| - 1];
      FilterTwice(front, p, c);
      var kept := Filter(front, c);
      if c(last) {
        assert Filter(rs, c) == kept + [last];
        assert (kept + [last])[..|kept|] == kept && (kept + [last])[|kept|] == last;
      } else {
        assert Filter(rs, c) == kept && !p(last);
      }
    }
  }

  lemma Inhabited(rs: seq<Record>)
    ensures rs == [] || exists r :: r in rs
  {
    if rs != [] {
      assert rs[0] in rs;
    }
  }

  /** Ascending records with the same members are the same. */
  lemma {:induction false} AscendingUnique(a: seq<Record>, b: seq<Record>)
    requires Ascending(a) && Ascending(b) && forall r :: r in a <==> r in b
    ensures a == b
  {
    Inhabited(b);
    if a != [] {
      assert a[0] in a && a[0] in b;
      assert b[0] in b && b[0] in a;
      assert a[0] == b[0];
      forall r
        ensures r in a[1..] <==> r in b[1..]
      {
        assert r in a <==> r == a[0] || r in a[1..];
        assert r in b <==> r == b[0] || r in b[1..];
      }
      AscendingUnique(a[1..], b[1..]);
    }
  }

  // ---- the keys a prefix covers ----

  /** The first key past every key with the prefix, or none. */
  function Beyond(p: Key): Option<Key> {
    if p == [] then None else
      match Beyond(p[1..])
      case Some(e) => Some([p[0]] + e)
      case None => if p[0] < 255 then Some([p[0] + 1]) else None
  }

  lemma {:induction false} BeyondFrom(p: Key, i: nat)
    requires i <= |p| && Beyond(p[i..]).Some?
    ensures Beyond(p) == Some(p[..i] + Beyond(p[i..]).value)
    decreases i
  {
    if i > 0 {
      var j := i - 1;
      assert p[j..][1..] == p[i..];
      BeyondFrom(p, j);
      assert p[..j] + ([p[j]] + Beyond(p[i..]).value) == p[..i] + Beyond(p[i..]).value;
    } else {
      assert p[0..] == p;
      assert p[..0] + Beyond(p).value == Beyond(p).value;
    }
  }

  /** Backwards to the last byte that can be incremented. */
  method PrefixUpperBound(p: Key) returns (end: Option<Key>)
    ensures end == Beyond(p)
  {
    var i := |p|;
    assert p[i..] == [];
    while i > 0
      invariant 0 <= i <= |p| && Beyond(p[i..]) == None
    {
      i := i - 1;
      assert p[i..][1..] == p[i + 1..];
      if p[i] != 255 {
        BeyondFrom(p, i);
        return Some(p[..i] + [p[i] + 1]);
      }
    }
    assert p[0..] == p;
    return None;
  }

  /** The bound is exact: the keys before it are those before the prefix and those with
      it; without one, every key is. */
  lemma {:induction false} BeyondExact(p: Key, x: Key)
    ensures (Less(x, p) || HasPrefix(x, p)) <==> (Beyond(p).None? || Less(x, Beyond(p).value))
    ensures Less(x, p) ==> !HasPrefix(x, p)
    decreases |p|
  {
    if p == [] {
      assert HasPrefix(x, p);
    } else if x == [] {
    } else {
      assert HasPrefix(x, p) <==> x[0] == p[0] && HasPrefix(x[1..], p[1..]) by {
        assert p == [p[0]] + p[1..];
        assert HasPrefix(x, p) ==> x[1..][..|p| - 1] == x[..|p|][1..];
        assert HasPrefix(x[1..], p[1..]) ==> x[..|p|] == [x[0]] + x[1..][..|p| - 1];
      }
      BeyondExact(p[1..], x[1..]);
      if Beyond(p[1..]).Some? {
        assert ([p[0]] + Beyond(p[1..]).value)[1..] == Beyond(p[1..]).value;
      }
    }
  }
}
