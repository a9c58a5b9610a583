/** Planning a prefix read from a segment's key digest. */
module PrefixDigest {
  import opened Bytes
  import opened LogModel
  import opened KeyDigests
  import opened PrefixSpec

  ghost predicate Distinct(os: seq<int>) {
    forall i, j :: 0 <= i < j < |os| ==> os[i] != os[j]
  }

  ghost predicate Increasing(os: seq<int>) {
    forall i, j :: 0 <= i < j < |os| ==> os[i] < os[j]
  }

  /** Records as a segment holds them. */
  ghost predicate Held(rs: seq<Record>) {
    Ascending(rs) && forall r :: r in rs ==> r.offset >= 0
  }

  lemma OneAtOffset(rs: seq<Record>, r: Record, s: Record)
    requires Ascending(rs) && r in rs && s in rs && r.offset == s.offset
    ensures r == s
  {
    var i :| 0 <= i < |rs| && rs[i] == r;
    var j :| 0 <= j < |rs| && rs[j] == s;
    assert i < j ==> rs[i].offset < rs[j].offset;
    assert j < i ==> rs[j].offset < rs[i].offset;
  }

  /** The read returns the record of this section at this offset. */
  ghost predicate HitFor(q: Query, w: Window, rs: seq<Record>, s: Section, o: int) {
    exists r :: r in rs && SectionOf(r) == s && r.offset == o && Chosen(q, w, rs, r)
  }

  ghost predicate Hit(q: Query, w: Window, rs: seq<Record>, o: int) {
    exists r :: r in rs && r.offset == o && Chosen(q, w, rs, r)
  }

  // ---- one section's entries ----

  lemma {:induction false} SelectIncreasing(rs: seq<Record>, s: Section)
    requires Ascending(rs)
    ensures forall i, j :: 0 <= i < j < |Select(rs, s)| ==> Select(rs, s)[i].offset < Select(rs, s)[j].offset
  {
    if rs != [] {
      var n := |rs| - 1;
      SelectIncreasing(rs[..n], s);
      forall i | 0 <= i < |Select(rs[..n], s)|
        ensures Select(rs[..n], s)[i].offset < rs[n].offset
      {
        var e := Select(rs[..n], s)[i];
        Selected(rs[..n], s, e);
        var r :| r in rs[..n] && SectionOf(r) == s && EntryOf(r) == e;
        var k :| 0 <= k < n && rs[k] == r;
        assert rs[k].offset < rs[n].offset;
      }
    }
  }

  /** Which offsets of a section are in the window: those of its records that are. */
  lemma SectionOffsets(rs: seq<Record>, s: Section, o: int)
    ensures (exists i :: 0 <= i < |Select(rs, s)| && Select(rs, s)[i].offset == o) <==>
            exists r :: r in rs && SectionOf(r) == s && r.offset == o
  {
    if i :| 0 <= i < |Select(rs, s)| && Select(rs, s)[i].offset == o {
      Selected(rs, s, Select(rs, s)[i]);
      var r :| r in rs && SectionOf(r) == s && EntryOf(r) == Select(rs, s)[i];
      assert r.offset == o;
    }
    if r :| r in rs && SectionOf(r) == s && r.offset == o {
      Selected(rs, s, EntryOf(r));
      var i :| 0 <= i < |Select(rs, s)| && Select(rs, s)[i] == EntryOf(r);
      assert Select(rs, s)[i].offset == o;
    }
  }

  /** Offsets among those listed that are in the window. */
  method InWindowOf(os: seq<int>, w: Window) returns (hits: seq<int>)
    requires Distinct(os)
    ensures Distinct(hits) && forall o :: o in hits <==> o in os && InWindow(w, o)
  {
    hits := [];
    for i := 0 to |os|
      invariant Distinct(hits) && forall o :: o in hits <==> o in os[..i] && InWindow(w, o)
    {
      assert os[..i + 1] == os[..i] + [os[i]];
      assert os[i] !in os[..i];
      if InWindow(w, os[i]) {
        hits := hits + [os[i]];
      }
    }
    assert os[..|os|] == os;
  }

  /** The greatest listed offset in the window, or none. */
  method Best(os: seq<int>, w: Window) returns (best: int)
    requires forall i :: 0 <= i < |os| ==> os[i] >= 0
    ensures best == -1 || (best >= 0 && best in os && InWindow(w, best))
    ensures forall o :: o in os && InWindow(w, o) ==> o <= best
  {
    best := -1;
    for i := 0 to |os|
      invariant best == -1 || (best >= 0 && best in os[..i] && InWindow(w, best))
      invariant forall o :: o in os[..i] && InWindow(w, o) ==> o <= best
    {
      assert os[..i + 1] == os[..i] + [os[i]];
      if InWindow(w, os[i]) && os[i] > best {
        best := os[i];
      }
    }
    assert os[..|os|] == os;
  }

  lemma OffsetsOfSection(rs: seq<Record>, s: Section)
    requires Held(rs)
    ensures Distinct(Offsets(Select(rs, s))) && forall i :: 0 <= i < |Offsets(Select(rs, s))| ==>
              Offsets(Select(rs, s))[i] >= 0
    ensures forall o :: o in Offsets(Select(rs, s)) <==> exists r :: r in rs && SectionOf(r) == s && r.offset == o
  {
    SelectIncreasing(rs, s);
    forall o
      ensures o in Offsets(Select(rs, s)) <==> exists r :: r in rs && SectionOf(r) == s && r.offset == o
    {
      SectionOffsets(rs, s, o);
      if i :| 0 <= i < |Select(rs, s)| && Select(rs, s)[i].offset == o {
        assert Offsets(Select(rs, s))[i] == o;
      }
    }
    forall i | 0 <= i < |Offsets(Select(rs, s))|
      ensures Offsets(Select(rs, s))[i] >= 0
    {
      assert Offsets(Select(rs, s))[i] in Offsets(Select(rs, s));
    }
  }

  /** A key's hits: its offsets in the window, or the last of them. */
  method KeyHits(e: KeyEntry, q: Query, w: Window, ghost rs: seq<Record>) returns (hits: seq<int>)
    requires Held(rs) && e.recs == Select(rs, Keyed(e.key)) && HasPrefix(e.key, q.prefix)
    ensures Distinct(hits) && forall o :: o in hits <==> HitFor(q, w, rs, Keyed(e.key), o)
  {
    var os := Offsets(e.recs);
    OffsetsOfSection(rs, Keyed(e.key));
    if q.skipSuperseded {
      var best := Best(os, w);
      BestIsHit(q, w, rs, e.key, os, best);
      hits := if best >= 0 then [best] else [];
    } else {
      hits := InWindowOf(os, w);
      forall o
        ensures o in hits <==> HitFor(q, w, rs, Keyed(e.key), o)
      {
        if o in hits {
          var r :| r in rs && SectionOf(r) == Keyed(e.key) && r.offset == o;
          assert Chosen(q, w, rs, r);
        }
      }
    }
  }

  lemma BestIsHit(q: Query, w: Window, rs: seq<Record>, k: Key, os: seq<int>, best: int)
    requires Held(rs) && q.skipSuperseded && HasPrefix(k, q.prefix)
    requires forall o :: o in os <==> exists r :: r in rs && SectionOf(r) == Keyed(k) && r.offset == o
    requires best == -1 || (best >= 0 && best in os && InWindow(w, best))
    requires forall o :: o in os && InWindow(w, o) ==> o <= best
    ensures forall o :: HitFor(q, w, rs, Keyed(k), o) <==> best >= 0 && o == best
  {
    forall o
      ensures HitFor(q, w, rs, Keyed(k), o) <==> best >= 0 && o == best
    {
      if HitFor(q, w, rs, Keyed(k), o) {
        var r :| r in rs && SectionOf(r) == Keyed(k) && r.offset == o && Chosen(q, w, rs, r);
        assert o in os;
        var b :| b in rs && SectionOf(b) == Keyed(k) && b.offset == best;
        assert Candidate(q, w, b) && SameKey(r, b);
      }
      if best >= 0 && o == best {
        var b :| b in rs && SectionOf(b) == Keyed(k) && b.offset == best;
        forall s | s in rs && Candidate(q, w, s) && SameKey(b, s)
          ensures s.offset <= b.offset
        {
          assert SectionOf(s) == Keyed(k);
          assert s.offset in os;
        }
        assert Chosen(q, w, rs, b);
      }
    }
  }

  // ---- the whole digest ----

  /** The hits of the first n keys. */
  ghost predicate Found(q: Query, w: Window, rs: seq<Record>, keyed: seq<KeyEntry>, n: nat, found: seq<int>)
    requires n <= |keyed|
  {
    Distinct(found) && forall o :: o in found <==> HitAmong(q, w, rs, keyed, n, o)
  }

  ghost predicate HitAmong(q: Query, w: Window, rs: seq<Record>, keyed: seq<KeyEntry>, n: nat, o: int)
    requires n <= |keyed|
  {
    exists i :: 0 <= i < n && HitFor(q, w, rs, Keyed(keyed[i].key), o)
  }

  /** Different sections never hit the same offset. */
  lemma SectionsApart(q: Query, w: Window, rs: seq<Record>, s: Section, t: Section, o: int)
    requires Held(rs) && s != t && HitFor(q, w, rs, s, o)
    ensures !HitFor(q, w, rs, t, o)
  {
    var r :| r in rs && SectionOf(r) == s && r.offset == o && Chosen(q, w, rs, r);
    forall x | x in rs && x.offset == o
      ensures SectionOf(x) == s
    {
      OneAtOffset(rs, r, x);
    }
  }

  lemma MoreFound(q: Query, w: Window, rs: seq<Record>, keyed: seq<KeyEntry>, n: nat, found: seq<int>, hits: seq<int>)
    requires Held(rs) && n < |keyed| && SortedByKey(keyed) && Found(q, w, rs, keyed, n, found)
    requires Distinct(hits) && forall o :: o in hits <==> HitFor(q, w, rs, Keyed(keyed[n].key), o)
    ensures Found(q, w, rs, keyed, n + 1, found + hits)
  {
    forall o | o in hits
      ensures o !in found
    {
      if HitAmong(q, w, rs, keyed, n, o) {
        var i :| 0 <= i < n && HitFor(q, w, rs, Keyed(keyed[i].key), o);
        LessAsymmetric(keyed[i].key, keyed[n].key);
        SectionsApart(q, w, rs, Keyed(keyed[i].key), Keyed(keyed[n].key), o);
      }
    }
    forall o
      ensures o in found + hits <==> HitAmong(q, w, rs, keyed, n + 1, o)
    {
      if o in found {
        var i :| 0 <= i < n && HitFor(q, w, rs, Keyed(keyed[i].key), o);
      }
    }
    Apart(found, hits);
  }

  lemma Apart(a: seq<int>, b: seq<int>)
    requires Distinct(a) && Distinct(b) && forall o :: o in b ==> o !in a
    ensures Distinct(a + b)
  {
    forall i, j | 0 <= i < j < |a + b|
      ensures (a + b)[i] != (a + b)[j]
    {
      if i < |a| <= j {
        assert b[j - |a|] in b && a[i] in a;
      }
    }
  }

  /** A key without the prefix has no hits. */
  lemma NoHits(q: Query, w: Window, rs: seq<Record>, k: Key, o: int)
    requires !HasPrefix(k, q.prefix)
    ensures !HitFor(q, w, rs, Keyed(k), o)
  {
  }

  /** Nor has any key from the first one past the prefix on. */
  lemma PastPrefix(q: Query, keyed: seq<KeyEntry>, n: nat, i: nat)
    requires SortedByKey(keyed) && n <= i < |keyed|
    requires Beyond(q.prefix).Some? && !Less(keyed[n].key, Beyond(q.prefix).value)
    ensures !HasPrefix(keyed[i].key, q.prefix)
  {
    BeyondExact(q.prefix, keyed[i].key);
    if n < i && Less(keyed[i].key, Beyond(q.prefix).value) {
      LessTransitive(keyed[n].key, keyed[i].key, Beyond(q.prefix).value);
    }
  }

  method KeyedHits(d: KeyDigest, q: Query, w: Window, ghost rs: seq<Record>) returns (found: seq<int>)
    requires Held(rs) && Accurate(d, rs)
    ensures Found(q, w, rs, d.keyed, |d.keyed|, found)
  {
    var end := PrefixUpperBound(q.prefix);
    found := [];
    var n := 0;
    while n < |d.keyed|
      invariant 0 <= n <= |d.keyed| && Found(q, w, rs, d.keyed, n, found)
    {
      if end.Some? && !Less(d.keyed[n].key, end.value) {
        NoneBeyond(q, w, rs, d.keyed, n, found);
        return;
      }
      var hits := [];
      if HasPrefix(d.keyed[n].key, q.prefix) {
        hits := KeyHits(d.keyed[n], q, w, rs);
      } else {
        forall o
          ensures !HitFor(q, w, rs, Keyed(d.keyed[n].key), o)
        {
          NoHits(q, w, rs, d.keyed[n].key, o);
        }
      }
      MoreFound(q, w, rs, d.keyed, n, found, hits);
      found := found + hits;
      n := n + 1;
    }
  }

  lemma NoneBeyond(q: Query, w: Window, rs: seq<Record>, keyed: seq<KeyEntry>, n: nat, found: seq<int>)
    requires SortedByKey(keyed) && n < |keyed| && Found(q, w, rs, keyed, n, found)
    requires Beyond(q.prefix).Some? && !Less(keyed[n].key, Beyond(q.prefix).value)
    ensures Found(q, w, rs, keyed, |keyed|, found)
  {
    forall o
      ensures HitAmong(q, w, rs, keyed, |keyed|, o) <==> HitAmong(q, w, rs, keyed, n, o)
    {
      if HitAmong(q, w, rs, keyed, |keyed|, o) {
        var i :| 0 <= i < |keyed| && HitFor(q, w, rs, Keyed(keyed[i].key), o);
        if n <= i {
          PastPrefix(q, keyed, n, i);
          NoHits(q, w, rs, keyed[i].key, o);
        }
      }
    }
  }

  method SortOffsets(os: seq<int>) returns (r: seq<int>)
    requires Distinct(os)
    ensures Increasing(r) && forall o :: o in r <==> o in os
  {
    r := [];
    for i := 0 to |os|
      invariant Increasing(r) && forall o :: o in r <==> o in os[..i]
    {
      assert os[..i + 1] == os[..i] + [os[i]];
      assert os[i] !in os[..i];
      r := InsertOffset(r, os[i]);
    }
    assert os[..|os|] == os;
  }

  method InsertOffset(os: seq<int>, o: int) returns (r: seq<int>)
    requires Increasing(os) && o !in os
    ensures Increasing(r) && forall x :: x in r <==> x == o || x in os
  {
    var i := |os|;
    while i > 0 && os[i - 1] > o
      invariant 0 <= i <= |os| && forall j :: i <= j < |os| ==> os[j] > o
    {
      i := i - 1;
    }
    assert i > 0 ==> os[i - 1] in os;
    InsertedAt(os, o, i);
    InsertedIn(os, o, i);
    r := os[..i] + [o] + os[i..];
  }

  lemma InsertedIn(os: seq<int>, o: int, i: nat)
    requires i <= |os|
    ensures forall x :: x in os[..i] + [o] + os[i..] <==> x == o || x in os
  {
    assert os == os[..i] + os[i..];
  }

  lemma InsertedAt(os: seq<int>, o: int, i: nat)
    requires Increasing(os) && i <= |os| && (i > 0 ==> os[i - 1] < o) && (i < |os| ==> o < os[i])
    ensures Increasing(os[..i] + [o] + os[i..])
  {
    var r := os[..i] + [o] + os[i..];
    forall a, b | 0 <= a < b < |r|
      ensures r[a] < r[b]
    {
      assert a < i - 1 ==> os[a] < os[i - 1];
      assert b > i + 1 ==> os[i] < os[b - 1];
    }
  }

  /** The offsets a digest plans: exactly those of the records the read wants. */
  method DigestHits(d: KeyDigest, q: Query, w: Window, ghost rs: seq<Record>) returns (hits: seq<int>)
    requires Held(rs) && Accurate(d, rs)
    ensures Increasing(hits) && forall o :: o in hits <==> Hit(q, w, rs, o)
  {
    var found := KeyedHits(d, q, w, rs);
    if q.includeControl {
      OffsetsOfSection(rs, Control);
      var control := InWindowOf(d.control, w);
      WithControl(q, w, rs, d, found, control);
      found := found + control;
    } else {
      WithoutControl(q, w, rs, d, found);
    }
    hits := SortOffsets(found);
  }

  /** Every data record the read wants is some key's hit. */
  lemma DataHit(q: Query, w: Window, rs: seq<Record>, d: KeyDigest, r: Record)
    requires Accurate(d, rs) && r in rs && !r.control && Chosen(q, w, rs, r)
    ensures HitAmong(q, w, rs, d.keyed, |d.keyed|, r.offset)
  {
    var k := r.key.value;
    Selected(rs, Keyed(k), EntryOf(r));
    var i :| 0 <= i < |d.keyed| && d.keyed[i].key == k;
    assert HitFor(q, w, rs, Keyed(d.keyed[i].key), r.offset);
  }

  lemma AmongIsHit(q: Query, w: Window, rs: seq<Record>, keyed: seq<KeyEntry>, o: int)
    requires HitAmong(q, w, rs, keyed, |keyed|, o)
    ensures exists r :: r in rs && r.offset == o && !r.control && Chosen(q, w, rs, r)
  {
  }

  lemma WithoutControl(q: Query, w: Window, rs: seq<Record>, d: KeyDigest, found: seq<int>)
    requires Accurate(d, rs) && !q.includeControl && Found(q, w, rs, d.keyed, |d.keyed|, found)
    ensures forall o :: o in found <==> Hit(q, w, rs, o)
  {
    forall o
      ensures o in found <==> Hit(q, w, rs, o)
    {
      if Hit(q, w, rs, o) {
        var r :| r in rs && r.offset == o && Chosen(q, w, rs, r);
        DataHit(q, w, rs, d, r);
      }
      if HitAmong(q, w, rs, d.keyed, |d.keyed|, o) {
        AmongIsHit(q, w, rs, d.keyed, o);
      }
    }
  }

  lemma WithControl(q: Query, w: Window, rs: seq<Record>, d: KeyDigest, found: seq<int>, control: seq<int>)
    requires Held(rs) && Accurate(d, rs) && q.includeControl && Found(q, w, rs, d.keyed, |d.keyed|, found) &&
             Distinct(control)
    requires forall o :: o in control <==> o in Offsets(Select(rs, Control)) && InWindow(w, o)
    requires forall o :: o in Offsets(Select(rs, Control)) <==>
             exists r :: r in rs && SectionOf(r) == Control && r.offset == o
    ensures Distinct(found + control) && forall o :: o in found + control <==> Hit(q, w, rs, o)
  {
    forall o | o in control
      ensures Hit(q, w, rs, o) && o !in found
    {
      var c :| c in rs && SectionOf(c) == Control && c.offset == o;
      assert Chosen(q, w, rs, c);
      if HitAmong(q, w, rs, d.keyed, |d.keyed|, o) {
        var i :| 0 <= i < |d.keyed| && HitFor(q, w, rs, Keyed(d.keyed[i].key), o);
        SectionsApart(q, w, rs, Keyed(d.keyed[i].key), Control, o);
      }
    }
    Apart(found, control);
    forall o
      ensures o in found + control <==> Hit(q, w, rs, o)
    {
      if Hit(q, w, rs, o) {
        var r :| r in rs && r.offset == o && Chosen(q, w, rs, r);
        if r.control {
          assert SectionOf(r) == Control;
        } else {
          DataHit(q, w, rs, d, r);
        }
      }
      if HitAmong(q, w, rs, d.keyed, |d.keyed|, o) {
        AmongIsHit(q, w, rs, d.keyed, o);
      }
    }
  }
}
