/** The two routes to a segment's matching records: scanning and filtering it, or
    planning from its key digest and fetching what the digest names. */
module PrefixScan {
  import opened Bytes
  import opened LogModel
  import opened PrefixSpec

  ghost predicate AllSound(q: Query, w: Window, rs: seq<Record>) {
    forall r :: r in rs && Candidate(q, w, r) ==> r.sound
  }

  // ---- the scan ----

  /** What has been scanned: the candidates in order, which of them a later one has
      replaced, and where the newest of each key is. */
  ghost predicate Scanned(q: Query, w: Window, rs: seq<Record>, out: seq<Record>, dead: seq<bool>,
                          latest: map<Key, nat>) {
    && out == Filter(rs, r => Candidate(q, w, r))
    && Ascending(out)
    && (q.skipSuperseded ==> |dead| == |out| && Replaced(out, dead) && Newest(out, latest))
  }

  ghost predicate Replaced(out: seq<Record>, dead: seq<bool>)
    requires |dead| == |out|
  {
    forall i :: 0 <= i < |out| ==> (dead[i] <==> LaterCopy(out, i))
  }

  ghost predicate LaterCopy(out: seq<Record>, i: nat)
    requires i < |out|
  {
    exists j :: i < j < |out| && SameKey(out[i], out[j])
  }

  ghost predicate Newest(out: seq<Record>, latest: map<Key, nat>) {
    && (forall k :: k in latest ==> latest[k] < |out| && !out[latest[k]].control && out[latest[k]].key == Some(k))
    && forall i :: 0 <= i < |out| && !out[i].control && out[i].key.Some? ==>
         out[i].key.value in latest && i <= latest[out[i].key.value]
  }

  /** One more candidate. */
  lemma Replace(out: seq<Record>, dead: seq<bool>, latest: map<Key, nat>, r: Record)
    requires |dead| == |out| && Replaced(out, dead) && Newest(out, latest)
    requires r.control || r.key.Some?
    ensures var dead' := Retired(dead, latest, r) + [false];
            var latest' := if r.control then latest else latest[r.key.value := |out|];
            |dead'| == |out| + 1 && Replaced(out + [r], dead') && Newest(out + [r], latest')
  {
    var out', dead' := out + [r], Retired(dead, latest, r) + [false];
    forall i | 0 <= i < |out'|
      ensures dead'[i] <==> LaterCopy(out', i)
    {
      if i < |out| {
        assert dead[i] <==> LaterCopy(out, i);
        if LaterCopy(out, i) {
          var j :| i < j < |out| && SameKey(out[i], out[j]);
          assert SameKey(out'[i], out'[j]);
        }
        if LaterCopy(out', i) && !LaterCopy(out, i) {
          var j :| i < j < |out'| && SameKey(out'[i], out'[j]);
          assert j == |out|;
        }
        if SameKey(out[i], r) {
          assert SameKey(out'[i], out'[|out|]);
          LastCopy(out, latest, r, i);
        }
      }
    }
  }

  /** The newest copy of a key is the only one with no later copy. */
  lemma LastCopy(out: seq<Record>, latest: map<Key, nat>, r: Record, i: nat)
    requires Newest(out, latest) && i < |out| && SameKey(out[i], r)
    ensures r.key.value in latest && (i == latest[r.key.value] || LaterCopy(out, i))
  {
    var j := latest[r.key.value];
    assert i < j ==> SameKey(out[i], out[j]);
  }

  /** The earlier copy of a record's key, marked. */
  function Retired(dead: seq<bool>, latest: map<Key, nat>, r: Record): seq<bool> {
    if !r.control && r.key.Some? && r.key.value in latest && latest[r.key.value] < |dead|
    then dead[latest[r.key.value] := true] else dead
  }

  /** Read a segment from start to finish, keeping what the read wants; a candidate that
      fails its checksum fails the read. */
  method ScanSegmentFiltered(q: Query, w: Window, rs: seq<Record>) returns (r: Option<seq<Record>>)
    requires Ascending(rs)
    ensures r.Some? <==> AllSound(q, w, rs)
    ensures r.Some? ==> r.value == Wanted(q, w, rs)
  {
    var out: seq<Record>, dead: seq<bool>, latest: map<Key, nat> := [], [], map[];
    for n := 0 to |rs|
      invariant Scanned(q, w, rs[..n], out, dead, latest) && AllSound(q, w, rs[..n])
    {
      var rec := rs[n];
      assert rs[..n + 1][..n] == rs[..n];
      assert forall x :: x in rs[..n + 1] <==> x in rs[..n] || x == rec;
      if !InWindow(w, rec.offset) {
        continue;
      }
      if rec.control {
        if !q.includeControl {
          continue;
        }
      } else if rec.key.None? || !HasPrefix(rec.key.value, q.prefix) {
        continue;
      }
      if !rec.sound {
        assert rec in rs && Candidate(q, w, rec);
        return None;
      }
      ghost var before := out;
      FilterAscending(rs[..n + 1], x => Candidate(q, w, x));
      if q.skipSuperseded {
        Replace(out, dead, latest, rec);
        dead := Retired(dead, latest, rec) + [false];
        if !rec.control {
          latest := latest[rec.key.value := |out|];
        }
      }
      out := out + [rec];
    }
    assert rs[..|rs|] == rs;
    if !q.skipSuperseded {
      FilterSame(rs, x => Candidate(q, w, x), x => Chosen(q, w, rs, x));
      return Some(out);
    }
    var kept := KeepLiving(q, w, rs, out, dead);
    return Some(kept);
  }

  method KeepLiving(ghost q: Query, ghost w: Window, ghost rs: seq<Record>, out: seq<Record>, dead: seq<bool>)
    returns (kept: seq<Record>)
    requires q.skipSuperseded && |dead| == |out| && Replaced(out, dead) && Ascending(out)
    requires out == Filter(rs, r => Candidate(q, w, r))
    ensures kept == Wanted(q, w, rs)
  {
    kept := [];
    ghost var chosen := (r: Record) => Chosen(q, w, rs, r);
    for i := 0 to |out|
      invariant kept == Filter(out[..i], chosen)
    {
      assert out[..i + 1][..i] == out[..i];
      LivingIsChosen(q, w, rs, out, i);
      assert dead[i] <==> LaterCopy(out, i);
      if !dead[i] {
        kept := kept + [out[i]];
      }
    }
    assert out[..|out|] == out;
    FilterTwice(rs, chosen, r => Candidate(q, w, r));
  }

  lemma LivingIsChosen(q: Query, w: Window, rs: seq<Record>, out: seq<Record>, i: nat)
    requires q.skipSuperseded && out == Filter(rs, r => Candidate(q, w, r)) && Ascending(out) && i < |out|
    ensures Chosen(q, w, rs, out[i]) <==> !LaterCopy(out, i)
  {
    var c := (r: Record) => Candidate(q, w, r);
    assert out[i] in out;
    FilterIn(rs, c, out[i]);
    if j :| i < j < |out| && SameKey(out[i], out[j]) {
      assert out[j] in out;
      FilterIn(rs, c, out[j]);
    } else {
      forall s | s in rs && Candidate(q, w, s) && SameKey(out[i], s)
        ensures s.offset <= out[i].offset
      {
        FilterIn(rs, c, s);
        var j :| 0 <= j < |out| && out[j] == s;
        assert j <= i;
      }
    }
  }
}
