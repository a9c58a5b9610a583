/** The join stage: which runs of adjacent segments collapse into one, and what the log
    is afterwards, including after a crash on the way. */
module Joins {
  import opened Bytes
  import opened LogModel
  import opened Overlaps

  function Size(ps: seq<Piece>): nat {
    if ps == [] then 0 else Size(ps[..|ps| - 1]) + ps[|ps| - 1].size
  }

  /** One segment under the first input's name with every input's records. */
  function Joined(inputs: seq<Piece>): Piece
    requires inputs != []
  {
    Piece(inputs[0].base, Records(inputs), inputs[0].tier, Size(inputs))
  }

  // ---- what a join keeps ----

  /** A joined run ends where the furthest of its inputs that holds a record does. */
  lemma {:induction false} RunEnd(inputs: seq<Piece>, i: nat)
    requires Log(inputs) && i < |inputs|
    ensures inputs[i].records != [] ==> inputs[i].End() <= Joined(inputs).End()
    ensures Joined(inputs).End() <= inputs[|inputs| - 1].End()
  {
    var rs := Records(inputs);
    if rs != [] {
      var last := RecordsIn(inputs, |rs| - 1);
      assert last < |inputs| - 1 ==> Precedes(inputs[last], inputs[|inputs| - 1]);
      assert ValidPiece(inputs[|inputs| - 1]);
      if inputs[i].records != [] {
        var n := RecordsAt(inputs, i, |inputs[i].records| - 1);
        if n < |rs| - 1 {
          LogAscends(inputs, n, |rs| - 1);
        }
      }
    } else {
      if inputs[i].records != [] {
        var n := RecordsAt(inputs, i, 0);
      }
      assert 0 < |inputs| - 1 ==> Precedes(inputs[0], inputs[|inputs| - 1]);
      assert ValidPiece(inputs[|inputs| - 1]);
    }
  }

  /** Where a segment's record sits among the log's. */
  lemma RecordsAt(ps: seq<Piece>, i: nat, k: nat) returns (n: nat)
    requires i < |ps| && k < |ps[i].records|
    ensures n < |Records(ps)| && Records(ps)[n] == ps[i].records[k]
  {
    assert ps == ps[..i] + ([ps[i]] + ps[i + 1..]);
    RecordsConcat(ps[..i], [ps[i]] + ps[i + 1..]);
    assert ([ps[i]] + ps[i + 1..])[1..] == ps[i + 1..];
    n := |Records(ps[..i])| + k;
  }

  lemma JoinedValid(inputs: seq<Piece>)
    requires Log(inputs) && inputs != []
    ensures ValidPiece(Joined(inputs))
  {
    var rs := Records(inputs);
    forall n | 0 <= n < |rs|
      ensures inputs[0].base <= rs[n].offset
    {
      var i := RecordsIn(inputs, n);
      assert 0 < i ==> Precedes(inputs[0], inputs[i]);
    }
    forall m, n | 0 <= m < n < |rs|
      ensures rs[m].offset < rs[n].offset
    {
      LogAscends(inputs, m, n);
    }
  }

  /** A run's join stands where the run stood. */
  lemma JoinedPlace(front: seq<Piece>, inputs: seq<Piece>, rest: seq<Piece>)
    requires Log(inputs) && inputs != [] && Before(front, inputs) && Before(inputs, rest)
    ensures Before(front, [Joined(inputs)]) && Before([Joined(inputs)], rest)
  {
    RunEnd(inputs, 0);
    var j := Joined(inputs);
    forall i | 0 <= i < |front|
      ensures Precedes(front[i], j)
    {
      assert Precedes(front[i], inputs[0]);
    }
    forall i | 0 <= i < |rest|
      ensures Precedes(j, rest[i])
    {
      assert Precedes(inputs[0], rest[i]) && Precedes(inputs[|inputs| - 1], rest[i]);
    }
  }

  lemma ThreeParts(a: seq<Piece>, b: seq<Piece>, c: seq<Piece>)
    ensures Log(a + b + c) <==> Log(a) && Log(b) && Log(c) && Before(a, b) && Before(b, c) && Before(a, c)
    ensures Records(a + b + c) == Records(a) + Records(b) + Records(c)
  {
    LogConcat(a, b);
    LogConcat(a + b, c);
    RecordsConcat(a, b);
    RecordsConcat(a + b, c);
    if Before(a + b, c) {
      forall i, k | 0 <= i < |a| && 0 <= k < |c|
        ensures Precedes(a[i], c[k])
      {
        assert (a + b)[i] == a[i];
      }
      forall i, k | 0 <= i < |b| && 0 <= k < |c|
        ensures Precedes(b[i], c[k])
      {
        assert (a + b)[|a| + i] == b[i];
      }
    }
  }

  lemma RecordsOfOne(p: Piece)
    ensures Records([p]) == p.records
  {
    assert Records([p]) == p.records + Records([]);
  }

  /** Putting a run's join in its place keeps the log a log, with the same records. */
  lemma JoinKeeps(front: seq<Piece>, inputs: seq<Piece>, rest: seq<Piece>)
    requires Log(front + inputs + rest) && inputs != []
    ensures Log(front + [Joined(inputs)] + rest)
    ensures Records(front + [Joined(inputs)] + rest) == Records(front + inputs + rest)
  {
    ThreeParts(front, inputs, rest);
    ThreeParts(front, [Joined(inputs)], rest);
    JoinedValid(inputs);
    JoinedPlace(front, inputs, rest);
    RecordsOfOne(Joined(inputs));
  }

  // ---- a crash in a local join ----

  /** The files left after some were removed. */
  function Left(files: seq<Piece>, gone: set<int>): seq<Piece> {
    if files == [] then []
    else (if files[0].base in gone then [] else [files[0]]) + Left(files[1..], gone)
  }

  /** What remains of a log is still one, among the same pieces. */
  lemma {:induction false} LeftOf(files: seq<Piece>, gone: set<int>, i: nat) returns (k: nat)
    requires i < |Left(files, gone)|
    ensures i <= k < |files| && Left(files, gone)[i] == files[k]
  {
    var head := if files[0].base in gone then 0 else 1;
    if i < head {
      k := 0;
    } else {
      k := LeftOf(files[1..], gone, i - head);
      k := k + 1;
    }
  }

  lemma {:induction false} LeftLog(files: seq<Piece>, gone: set<int>)
    requires Log(files)
    ensures Log(Left(files, gone))
  {
    if files != [] {
      LeftLog(files[1..], gone);
      var left := Left(files[1..], gone);
      forall j | 0 <= j < |left|
        ensures Precedes(files[0], left[j])
      {
        var k := LeftOf(files[1..], gone, j);
        assert left[j] == files[k + 1];
      }
    }
  }

  /** A leftover input is inside the joined segment, or empty. */
  lemma LeftInside(inputs: seq<Piece>, gone: set<int>, i: nat)
    requires Log(inputs) && inputs != [] && i < |Left(inputs[1..], gone)|
    ensures var s := Left(inputs[1..], gone)[i];
            if s.base < Joined(inputs).End() then s.End() <= Joined(inputs).End() else s.records == []
  {
    var k := LeftOf(inputs[1..], gone, i);
    var s := inputs[k + 1];
    assert ValidPiece(s);
    RunEnd(inputs, k + 1);
    if s.records != [] {
      EndWithin(s, 0);
    }
  }

  /** The leftovers past the joined segment are empty, and sit between it and the rest. */
  lemma LeftPast(front: seq<Piece>, inputs: seq<Piece>, rest: seq<Piece>, gone: set<int>, p: nat)
    requires Log(inputs) && inputs != [] && Before(front, inputs) && Before(inputs, rest)
    requires p <= |Left(inputs[1..], gone)|
    requires forall i :: p <= i < |Left(inputs[1..], gone)| ==> Left(inputs[1..], gone)[i].base >= Joined(inputs).End()
    ensures var past := Left(inputs[1..], gone)[p..];
            && Before(front, past) && Before([Joined(inputs)], past) && Before(past, rest) && Records(past) == []
  {
    var past := Left(inputs[1..], gone)[p..];
    forall i | 0 <= i < |past|
      ensures past[i].records == [] && exists k :: 0 < k < |inputs| && past[i] == inputs[k]
    {
      LeftInside(inputs, gone, p + i);
      var k := LeftOf(inputs[1..], gone, p + i);
      assert past[i] == inputs[k + 1];
    }
    RecordsOfEmpties(past);
    forall i | 0 <= i < |past|
      ensures Precedes(Joined(inputs), past[i])
    {
      var k :| 0 < k < |inputs| && past[i] == inputs[k];
      assert Precedes(inputs[0], inputs[k]);
    }
  }

  lemma TailOfLog(ps: seq<Piece>, p: nat)
    requires Log(ps) && p <= |ps|
    ensures Log(ps[p..])
  {
    assert ps == ps[..p] + ps[p..];
    LogConcat(ps[..p], ps[p..]);
  }

  /** The leftovers past the joined segment change nothing. */
  lemma PastKeeps(front: seq<Piece>, inputs: seq<Piece>, rest: seq<Piece>, gone: set<int>, p: nat)
    requires Log(front + inputs + rest) && inputs != [] && p <= |Left(inputs[1..], gone)|
    requires forall i :: p <= i < |Left(inputs[1..], gone)| ==> Left(inputs[1..], gone)[i].base >= Joined(inputs).End()
    ensures var tail := Left(inputs[1..], gone)[p..] + rest;
            && Log(front + [Joined(inputs)] + tail)
            && Records(front + [Joined(inputs)] + tail) == Records(front + inputs + rest)
  {
    var j, past := Joined(inputs), Left(inputs[1..], gone)[p..];
    JoinKeeps(front, inputs, rest);
    ThreeParts(front, inputs, rest);
    TailOfLog(inputs, 1);
    LeftLog(inputs[1..], gone);
    TailOfLog(Left(inputs[1..], gone), p);
    LeftPast(front, inputs, rest, gone, p);
    BeforeBoth(front, [j], past);
    Insert(front + [j], past, rest);
    InsertRecords(front + [j], past, rest);
  }

  lemma BeforeBoth(a: seq<Piece>, b: seq<Piece>, c: seq<Piece>)
    requires Before(a, c) && Before(b, c)
    ensures Before(a + b, c)
  {
    forall i, k | 0 <= i < |a + b| && 0 <= k < |c|
      ensures Precedes((a + b)[i], c[k])
    {
      assert i < |a| ==> Precedes(a[i], c[k]);
      assert i >= |a| ==> Precedes(b[i - |a|], c[k]);
    }
  }

  /** Empty segments between two parts of a log. */
  lemma Insert(a: seq<Piece>, past: seq<Piece>, b: seq<Piece>)
    requires Log(a + b) && Log(past) && Before(a, past) && Before(past, b)
    ensures Log(a + (past + b))
  {
    LogConcat(a, b);
    LogConcat(past, b);
    BeforeParts(a, past, b);
    LogConcat(a, past + b);
  }

  lemma InsertRecords(a: seq<Piece>, past: seq<Piece>, b: seq<Piece>)
    requires Records(past) == []
    ensures Records(a + (past + b)) == Records(a + b)
  {
    RecordsConcat(a, b);
    RecordsConcat(a, past + b);
    RecordsConcat(past, b);
  }

  lemma BeforeParts(a: seq<Piece>, b: seq<Piece>, c: seq<Piece>)
    requires Before(a, b) && Before(a, c)
    ensures Before(a, b + c)
  {
    forall i, k | 0 <= i < |a| && 0 <= k < |b + c|
      ensures Precedes(a[i], (b + c)[k])
    {
      assert k < |b| ==> Precedes(a[i], b[k]);
      assert k >= |b| ==> Precedes(a[i], c[k - |b|]);
    }
  }

  /** After the joined segment took the first input's name, whichever of the other
      inputs are still there, open gives back a log with the records it had. */
  lemma JoinCrash(front: seq<Piece>, inputs: seq<Piece>, rest: seq<Piece>, gone: set<int>)
    requires Log(front + inputs + rest) && inputs != []
    ensures var r := Resolve([], front + [Joined(inputs)] + Left(inputs[1..], gone) + rest);
            r.Some? && Log(r.value) && Records(r.value) == Records(front + inputs + rest)
  {
    var j, left := Joined(inputs), Left(inputs[1..], gone);
    assert Log(inputs) && Log(left) by {
      ThreeParts(front, inputs, rest);
      TailOfLog(inputs, 1);
      LeftLog(inputs[1..], gone);
    }
    var p := Split(left, j.End());
    PastKeeps(front, inputs, rest, gone, p);
    forall i | 0 <= i < p
      ensures left[..p][i].End() <= j.End()
    {
      LeftInside(inputs, gone, i);
    }
    assert (front + [j])[|front|] == j;
    ResolveAround(front + [j], left[..p], left[p..] + rest);
    assert front + [j] + left + rest == front + [j] + left[..p] + (left[p..] + rest);
  }

  lemma Split(left: seq<Piece>, end: int) returns (p: nat)
    requires Log(left)
    ensures p <= |left| && (forall i :: 0 <= i < p ==> left[i].base < end) && forall i :: p <= i < |left| ==>
              left[i].base >= end
  {
    p := 0;
    while p < |left| && left[p].base < end
      invariant p <= |left| && forall i :: 0 <= i < p ==> left[i].base < end
    {
      p := p + 1;
    }
    assert forall i :: p < i < |left| ==> Precedes(left[p], left[i]);
  }
}
