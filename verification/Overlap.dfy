/** Segments by name and range, and how open clears the overlaps an interrupted join or
    truncation leaves behind. */
module Overlaps {
  import opened Bytes
  import opened LogModel

  /** A segment: its base is its name. `tier` is the store it lives in, if any. */
  datatype Piece = Piece(base: int, records: seq<Record>, tier: Option<string>, size: nat) {
    /** The exclusive end; an empty segment reports its base. */
    function End(): int {
      if records == [] then base else records[|records| - 1].offset + 1
    }
  }

  ghost predicate ValidPiece(p: Piece) {
    && (forall n :: 0 <= n < |p.records| ==> p.base <= p.records[n].offset)
    && forall m, n :: 0 <= m < n < |p.records| ==> p.records[m].offset < p.records[n].offset
  }

  /** One segment lies wholly before another. */
  ghost predicate Precedes(p: Piece, q: Piece) {
    p.base < q.base && p.End() <= q.base
  }

  /** Segments in order, none reaching into a later one. */
  ghost predicate Log(ps: seq<Piece>) {
    && (forall i {:trigger ValidPiece(ps[i])} :: 0 <= i < |ps| ==> ValidPiece(ps[i]))
    && forall i, j {:trigger Precedes(ps[i], ps[j])} :: 0 <= i < j < |ps| ==> Precedes(ps[i], ps[j])
  }

  function Records(ps: seq<Piece>): seq<Record> {
    if ps == [] then [] else ps[0].records + Records(ps[1..])
  }

  lemma {:induction false} RecordsConcat(a: seq<Piece>, b: seq<Piece>)
    ensures Records(a + b) == Records(a) + Records(b)
  {
    if a == [] {
      assert a + b == b;
    } else {
      assert (a + b)[1..] == a[1..] + b;
      RecordsConcat(a[1..], b);
    }
  }

  lemma {:induction false} RecordsOfEmpties(ps: seq<Piece>)
    requires forall i :: 0 <= i < |ps| ==> ps[i].records == []
    ensures Records(ps) == []
  {
    if ps != [] {
      RecordsOfEmpties(ps[1..]);
    }
  }

  lemma EndWithin(p: Piece, n: nat)
    requires ValidPiece(p) && n < |p.records|
    ensures p.base <= p.records[n].offset < p.End()
  {
  }

  /** Every record of a log is in some segment's range. */
  lemma {:induction false} RecordsIn(ps: seq<Piece>, n: nat) returns (i: nat)
    requires Log(ps) && n < |Records(ps)|
    ensures i < |ps| && ps[i].base <= Records(ps)[n].offset < ps[i].End()
  {
    if n < |ps[0].records| {
      EndWithin(ps[0], n);
      i := 0;
    } else {
      i := RecordsIn(ps[1..], n - |ps[0].records|);
      i := i + 1;
    }
  }

  /** A log serves every offset at most once, in order. */
  lemma {:induction false} LogAscends(ps: seq<Piece>, m: nat, n: nat)
    requires Log(ps) && m < n < |Records(ps)|
    ensures Records(ps)[m].offset < Records(ps)[n].offset
  {
    var k := |ps[0].records|;
    if k <= m {
      LogAscends(ps[1..], m - k, n - k);
    } else if k <= n {
      EndWithin(ps[0], m);
      var i := RecordsIn(ps[1..], n - k);
      assert Precedes(ps[0], ps[i + 1]);
    } else {
      assert ValidPiece(ps[0]);
    }
  }

  // ---- the resolution ----

  /** Take one more segment, in base order: keep it, drop it as covered by the one kept
      last, or refuse. */
  function Take(kept: seq<Piece>, s: Piece): Option<seq<Piece>> {
    if kept == [] || s.base >= kept[|kept| - 1].End() then Some(kept + [s])
    else if s.End() > kept[|kept| - 1].End() then None
    else Some(kept)
  }

  function Resolve(kept: seq<Piece>, files: seq<Piece>): Option<seq<Piece>>
    decreases |files|
  {
    if files == [] then Some(kept) else
      var k := Take(kept, files[0]);
      if k.None? then None else Resolve(k.value, files[1..])
  }

  method ResolveSegmentOverlaps(files: seq<Piece>) returns (r: Option<seq<Piece>>)
    ensures r == Resolve([], files)
  {
    var kept: seq<Piece> := [];
    for i := 0 to |files|
      invariant Resolve([], files) == Resolve(kept, files[i..])
    {
      var s := files[i];
      assert files[i..][0] == s && files[i..][1..] == files[i + 1..];
      if |kept| == 0 || s.base >= kept[|kept| - 1].End() {
        kept := kept + [s];
        continue;
      }
      if s.End() > kept[|kept| - 1].End() {
        return None;
      }
    }
    return Some(kept);
  }

  /** Some earlier file reaches past this one's base. */
  ghost predicate Covered(files: seq<Piece>, i: nat)
    requires i < |files|
  {
    exists j :: 0 <= j < i && files[j].End() > files[i].base
  }

  /** Some earlier file ends where this one does or later. */
  ghost predicate Contained(files: seq<Piece>, i: nat)
    requires i < |files|
  {
    exists j :: 0 <= j < i && files[j].End() >= files[i].End()
  }

  /** Segment files in base order. */
  ghost predicate Listing(files: seq<Piece>) {
    && (forall i :: 0 <= i < |files| ==> ValidPiece(files[i]))
    && forall i, j :: 0 <= i < j < |files| ==> files[i].base < files[j].base
  }

  /** What has been kept of the first n files: a log that ends where the furthest of
      them does, made of those no earlier one covers. */
  ghost predicate KeptOf(files: seq<Piece>, n: nat, kept: seq<Piece>)
    requires n <= |files|
  {
    && Log(kept) && (n > 0 ==> kept != [])
    && (forall j :: 0 <= j < n ==> files[j].End() <= kept[|kept| - 1].End())
    && (forall j {:trigger Covered(files, j)} :: 0 <= j < n ==> (files[j] in kept <==> !Covered(files, j)))
    && forall p :: p in kept ==> exists j :: 0 <= j < n && files[j] == p
  }

  lemma TakeKept(files: seq<Piece>, n: nat, kept: seq<Piece>)
    requires Listing(files) && n < |files| && KeptOf(files, n, kept)
    ensures Take(kept, files[n]).Some? ==> KeptOf(files, n + 1, Take(kept, files[n]).value)
    ensures Take(kept, files[n]).Some? <==> (Covered(files, n) ==> Contained(files, n))
  {
    var s := files[n];
    if kept == [] {
      TakeFirst(files, n, kept);
    } else if s.base >= kept[|kept| - 1].End() {
      TakeNext(files, n, kept);
    } else {
      TakeNone(files, n, kept);
    }
  }

  lemma TakeFirst(files: seq<Piece>, n: nat, kept: seq<Piece>)
    requires Listing(files) && n < |files| && KeptOf(files, n, kept) && kept == []
    ensures KeptOf(files, n + 1, kept + [files[n]]) && !Covered(files, n)
  {
    assert n == 0;
    assert kept + [files[n]] == [files[0]];
  }

  lemma TakeNone(files: seq<Piece>, n: nat, kept: seq<Piece>)
    requires Listing(files) && n < |files| && KeptOf(files, n, kept)
    requires kept != [] && files[n].base < kept[|kept| - 1].End()
    ensures Covered(files, n) && (Contained(files, n) <==> files[n].End() <= kept[|kept| - 1].End())
    ensures Contained(files, n) ==> KeptOf(files, n + 1, kept)
  {
    assert kept[|kept| - 1] in kept;
    var j :| 0 <= j < n && files[j] == kept[|kept| - 1];
    assert files[n] !in kept;
  }

  lemma TakeNext(files: seq<Piece>, n: nat, kept: seq<Piece>)
    requires Listing(files) && n < |files| && KeptOf(files, n, kept)
    requires kept != [] && files[n].base >= kept[|kept| - 1].End()
    ensures KeptOf(files, n + 1, kept + [files[n]]) && !Covered(files, n)
  {
    var s := files[n];
    forall i | 0 <= i < |kept|
      ensures Precedes(kept[i], s)
    {
      assert kept[i] in kept;
      var j :| 0 <= j < n && files[j] == kept[i];
      assert kept[|kept| - 1].base <= kept[|kept| - 1].End() by {
        assert ValidPiece(kept[|kept| - 1]);
      }
      assert i < |kept| - 1 ==> Precedes(kept[i], kept[|kept| - 1]);
    }
    assert forall p :: p in kept + [s] <==> p in kept || p == s;
    assert s.base <= s.End() by {
      assert ValidPiece(s);
    }
  }

  /** The resolution, for any files at all: it refuses exactly when some file reaches
      into an earlier one's range without being contained in it, and otherwise keeps, as
      a log, exactly the files that no earlier one covers. */
  lemma ResolveExact(files: seq<Piece>)
    requires Listing(files)
    ensures Resolve([], files).Some? <==> forall i :: 0 <= i < |files| && Covered(files, i) ==> Contained(files, i)
    ensures Resolve([], files).Some? ==> KeptOf(files, |files|, Resolve([], files).value)
  {
    var kept: seq<Piece> := [];
    assert files[0..] == files;
    for n := 0 to |files|
      invariant KeptOf(files, n, kept) && Resolve([], files) == Resolve(kept, files[n..])
      invariant forall i :: 0 <= i < n && Covered(files, i) ==> Contained(files, i)
    {
      assert files[n..][0] == files[n] && files[n..][1..] == files[n + 1..];
      TakeKept(files, n, kept);
      if Take(kept, files[n]).None? {
        return;
      }
      kept := Take(kept, files[n]).value;
    }
  }

  lemma {:induction false} ResolveConcat(kept: seq<Piece>, a: seq<Piece>, b: seq<Piece>)
    requires Resolve(kept, a).Some?
    ensures Resolve(kept, a + b) == Resolve(Resolve(kept, a).value, b)
    decreases |a|
  {
    if a == [] {
      assert a + b == b;
    } else {
      assert (a + b)[1..] == a[1..] + b;
      ResolveConcat(Take(kept, a[0]).value, a[1..], b);
    }
  }

  /** What is already a log stays as it is. */
  lemma {:induction false} ResolveLog(kept: seq<Piece>, files: seq<Piece>)
    requires Log(kept + files)
    ensures Resolve(kept, files) == Some(kept + files)
    decreases |files|
  {
    if files == [] {
      assert kept + files == kept;
    } else {
      assert kept != [] ==> Precedes((kept + files)[|kept| - 1], (kept + files)[|kept|]);
      assert kept + files == (kept + [files[0]]) + files[1..];
      ResolveLog(kept + [files[0]], files[1..]);
    }
  }

  /** Files inside the last one kept are dropped. */
  lemma {:induction false} ResolveInside(kept: seq<Piece>, files: seq<Piece>)
    requires kept != []
    requires forall i :: 0 <= i < |files| ==>
               files[i].base < kept[|kept| - 1].End() && files[i].End() <= kept[|kept| - 1].End()
    ensures Resolve(kept, files) == Some(kept)
    decreases |files|
  {
    if files != [] {
      ResolveInside(kept, files[1..]);
    }
  }

  /** A log whose last kept segment is followed by files inside it, then by the rest of
      the log. */
  lemma ResolveAround(kept: seq<Piece>, inside: seq<Piece>, rest: seq<Piece>)
    requires Log(kept + rest) && kept != []
    requires forall i :: 0 <= i < |inside| ==>
               inside[i].base < kept[|kept| - 1].End() && inside[i].End() <= kept[|kept| - 1].End()
    ensures Resolve([], kept + inside + rest) == Some(kept + rest)
  {
    LogConcat(kept, rest);
    assert [] + kept == kept;
    ResolveLog([], kept);
    ResolveInside(kept, inside);
    ResolveConcat([], kept, inside);
    ResolveConcat([], kept + inside, rest);
    ResolveLog(kept, rest);
  }

  ghost predicate Before(a: seq<Piece>, b: seq<Piece>) {
    forall i, j {:trigger Precedes(a[i], b[j])} :: 0 <= i < |a| && 0 <= j < |b| ==> Precedes(a[i], b[j])
  }

  /** A log, cut anywhere, is two logs one before the other. */
  lemma LogConcat(a: seq<Piece>, b: seq<Piece>)
    ensures Log(a + b) <==> Log(a) && Log(b) && Before(a, b)
  {
    var ab := a + b;
    if Log(ab) {
      assert forall i :: 0 <= i < |a| ==> a[i] == ab[i];
      assert forall i :: 0 <= i < |b| ==> b[i] == ab[|a| + i];
    }
  }
}
