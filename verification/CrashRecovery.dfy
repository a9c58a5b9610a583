/** Local file work that a crash may cut anywhere: installing a joined segment, and
    truncating the front of the log. */
module CrashRecovery {
  import opened Bytes
  import opened LogModel
  import opened Overlaps
  import opened Joins

  /** The segment files after every step, in base order. */
  type Disks = seq<seq<Piece>>

  // ---- installing a join ----

  /** Opening these files gives a log with the given records. */
  ghost predicate Recovers(disk: seq<Piece>, rs: seq<Record>) {
    var r := Resolve([], disk);
    r.Some? && Log(r.value) && Records(r.value) == rs
  }

  /** One step: a file written, renamed over or removed, all others untouched. */
  ghost predicate OneFile(d: seq<Piece>, d': seq<Piece>) {
    exists base :: Left(d, {base}) == Left(d', {base})
  }

  ghost predicate Stepwise(trace: Disks) {
    forall i, j {:trigger OneFile(trace[i], trace[j])} :: 0 <= i && j == i + 1 < |trace| ==> OneFile(trace[i], trace[j])
  }

  lemma OneMoreStep(trace: Disks, next: seq<Piece>)
    requires Stepwise(trace) && trace != [] && OneFile(trace[|trace| - 1], next)
    ensures Stepwise(trace + [next])
  {
    var trace' := trace + [next];
    forall i, j | 0 <= i && j == i + 1 < |trace'|
      ensures OneFile(trace'[i], trace'[j])
    {
      assert j < |trace| ==> OneFile(trace[i], trace[j]);
    }
  }

  /** Wherever the steps were cut short, from the first files to the last. */
  ghost predicate AlwaysRecovers(trace: Disks, first: seq<Piece>, last: seq<Piece>, rs: seq<Record>) {
    && trace != [] && trace[0] == first && trace[|trace| - 1] == last
    && Stepwise(trace)
    && forall k {:trigger Recovers(trace[k], rs)} :: 0 <= k < |trace| ==> Recovers(trace[k], rs)
  }

  lemma OneMoreDisk(trace: Disks, first: seq<Piece>, last: seq<Piece>, next: seq<Piece>, rs: seq<Record>)
    requires AlwaysRecovers(trace, first, last, rs) && OneFile(last, next) && Recovers(next, rs)
    ensures AlwaysRecovers(trace + [next], first, next, rs)
  {
    OneMoreStep(trace, next);
    forall k | 0 <= k < |trace + [next]|
      ensures Recovers((trace + [next])[k], rs)
    {
      assert k < |trace| ==> Recovers(trace[k], rs);
    }
  }

  /** No file here has one of these names. */
  ghost predicate Clear(files: seq<Piece>, gone: set<int>) {
    forall i :: 0 <= i < |files| ==> files[i].base !in gone
  }

  lemma {:induction false} LeftConcat(a: seq<Piece>, b: seq<Piece>, gone: set<int>)
    ensures Left(a + b, gone) == Left(a, gone) + Left(b, gone)
  {
    if a == [] {
      assert a + b == b;
    } else {
      assert (a + b)[1..] == a[1..] + b;
      LeftConcat(a[1..], b, gone);
    }
  }

  lemma {:induction false} LeftAll(files: seq<Piece>, gone: set<int>)
    requires Clear(files, gone)
    ensures Left(files, gone) == files
  {
    if files != [] {
      LeftAll(files[1..], gone);
    }
  }

  lemma {:induction false} LeftTwice(files: seq<Piece>, gone: set<int>, more: set<int>)
    ensures Left(Left(files, gone), more) == Left(files, gone + more)
  {
    if files != [] {
      var head := if files[0].base in gone then [] else [files[0]];
      LeftConcat(head, Left(files[1..], gone), more);
      LeftTwice(files[1..], gone, more);
      assert [files[0]][1..] == [];
      assert head == [files[0]] ==> Left(head, more) == if files[0].base in more then [] else [files[0]];
    }
  }

  /** The files beside a run have none of its other inputs' names. */
  lemma NamesApart(front: seq<Piece>, inputs: seq<Piece>, rest: seq<Piece>, i: nat)
    requires Log(front + inputs + rest) && 0 < i < |inputs|
    ensures Clear(front + [Joined(inputs)], {inputs[i].base}) && Clear(rest, {inputs[i].base})
  {
    ThreeParts(front, inputs, rest);
    forall k | 0 <= k < |front|
      ensures front[k].base != inputs[i].base
    {
      assert Precedes(front[k], inputs[i]);
    }
    forall k | 0 <= k < |rest|
      ensures rest[k].base != inputs[i].base
    {
      assert Precedes(inputs[i], rest[k]);
    }
    assert Precedes(inputs[0], inputs[i]);
  }

  lemma RemoveInput(front: seq<Piece>, inputs: seq<Piece>, rest: seq<Piece>, gone: set<int>, i: nat)
    requires Log(front + inputs + rest) && 0 < i < |inputs|
    ensures Left(front + [Joined(inputs)] + Left(inputs[1..], gone) + rest, {inputs[i].base}) ==
            front + [Joined(inputs)] + Left(inputs[1..], gone + {inputs[i].base}) + rest
  {
    var b := {inputs[i].base};
    var head, left := front + [Joined(inputs)], Left(inputs[1..], gone);
    NamesApart(front, inputs, rest, i);
    LeftConcat(head + left, rest, b);
    LeftConcat(head, left, b);
    LeftAll(head, b);
    LeftAll(rest, b);
    LeftTwice(inputs[1..], gone, b);
  }

  /** Install a run's joined segment: rename it over the first input, then remove the
      others, any of which may fail. Wherever this is cut short, the log opens with the
      records it had. */
  method InstallJoin(disk: seq<Piece>, first: nat, last: nat, fails: nat -> bool)
    returns (r: seq<Piece>, ghost trace: Disks)
    requires Log(disk) && first < last < |disk|
    ensures AlwaysRecovers(trace, disk, r, Records(disk))
    ensures (forall i :: !fails(i)) ==> r == disk[..first] + [Joined(disk[first..last + 1])] + disk[last + 1..]
  {
    ghost var front, rest := disk[..first], disk[last + 1..];
    var inputs := disk[first..last + 1];
    Renamed(disk, first, last);
    RecoversItself(disk);
    r := disk[first := Joined(inputs)];
    OneMoreDisk([disk], disk, disk, r, Records(disk));
    trace := [disk] + [r];
    ghost var gone;
    r, trace, gone := RemoveInputs(disk, front, inputs, rest, r, trace, fails);
    if forall k :: !fails(k) {
      LeftNone(inputs[1..], gone);
    }
  }

  method RemoveInputs(ghost disk: seq<Piece>, ghost front: seq<Piece>, inputs: seq<Piece>, ghost rest: seq<Piece>,
                      files: seq<Piece>, ghost before: Disks, fails: nat -> bool)
    returns (r: seq<Piece>, ghost trace: Disks, ghost gone: set<int>)
    requires disk == front + inputs + rest && Log(disk) && |inputs| > 1
    requires files == front + [Joined(inputs)] + Left(inputs[1..], {}) + rest
    requires AlwaysRecovers(before, disk, files, Records(disk))
    ensures r == front + [Joined(inputs)] + Left(inputs[1..], gone) + rest
    ensures AlwaysRecovers(trace, disk, r, Records(disk))
    ensures (forall k :: !fails(k)) ==> forall k :: 0 < k < |inputs| ==> inputs[k].base in gone
  {
    r, trace, gone := files, before, {};
    for i := 1 to |inputs|
      invariant r == front + [Joined(inputs)] + Left(inputs[1..], gone) + rest
      invariant AlwaysRecovers(trace, disk, r, Records(disk))
      invariant (forall k :: !fails(k)) ==> forall k :: 0 < k < i ==> inputs[k].base in gone
    {
      if !fails(i) {
        RemoveInput(front, inputs, rest, gone, i);
        Removed(r, inputs[i].base);
        ghost var was := r;
        r := Left(r, {inputs[i].base});
        gone := gone + {inputs[i].base};
        JoinCrash(front, inputs, rest, gone);
        OneMoreDisk(trace, disk, was, r, Records(disk));
        trace := trace + [r];
      }
    }
  }

  /** The rename that installs the joined segment. */
  lemma Renamed(disk: seq<Piece>, first: nat, last: nat)
    requires Log(disk) && first < last < |disk|
    ensures var front, inputs, rest := disk[..first], disk[first..last + 1], disk[last + 1..];
            var r := disk[first := Joined(inputs)];
            && disk == front + inputs + rest && r == front + [Joined(inputs)] + Left(inputs[1..], {}) + rest
            && OneFile(disk, r) && Recovers(r, Records(disk))
  {
    var front, inputs, rest := disk[..first], disk[first..last + 1], disk[last + 1..];
    Sections(disk, first, last, Joined(inputs));
    LeftAll(inputs[1..], {});
    JoinCrash(front, inputs, rest, {});
    ReplaceAt(disk, first, Joined(inputs));
  }

  lemma Sections(disk: seq<Piece>, first: nat, last: nat, j: Piece)
    requires first < last < |disk|
    ensures disk == disk[..first] + disk[first..last + 1] + disk[last + 1..]
    ensures disk[first := j] == disk[..first] + [j] + disk[first..last + 1][1..] + disk[last + 1..]
  {
  }

  lemma ReplaceAt(files: seq<Piece>, i: nat, p: Piece)
    requires i < |files| && files[i].base == p.base
    ensures OneFile(files, files[i := p])
  {
    Replaced(files[..i], files[i], p, files[i + 1..]);
    assert files == files[..i] + [files[i]] + files[i + 1..];
    assert files[i := p] == files[..i] + [p] + files[i + 1..];
  }

  lemma RecoversItself(ps: seq<Piece>)
    requires Log(ps)
    ensures Resolve([], ps) == Some(ps) && Recovers(ps, Records(ps))
  {
    assert [] + ps == ps;
    ResolveLog([], ps);
  }

  /** Renaming over a file, removing one, or adding one touches one name. */
  lemma Replaced(a: seq<Piece>, p: Piece, q: Piece, b: seq<Piece>)
    requires p.base == q.base
    ensures OneFile(a + [p] + b, a + [q] + b)
  {
    Added(a, p, b);
    Added(a, q, b);
    assert Left(a + [p] + b, {p.base}) == Left(a + [q] + b, {p.base});
  }

  lemma Added(a: seq<Piece>, p: Piece, b: seq<Piece>)
    ensures Left(a + [p] + b, {p.base}) == Left(a + b, {p.base})
    ensures OneFile(a + b, a + [p] + b) && OneFile(a + [p] + b, a + b)
  {
    LeftConcat(a + [p], b, {p.base});
    LeftConcat(a, [p], {p.base});
    LeftConcat(a, b, {p.base});
    assert [p][1..] == [];
  }

  lemma AddedAt(files: seq<Piece>, i: nat, p: Piece)
    requires i <= |files|
    ensures OneFile(files, files[0..i] + [p] + files[i..])
  {
    Added(files[0..i], p, files[i..]);
    assert files == files[0..i] + files[i..];
  }

  lemma RemovedFirst(files: seq<Piece>)
    requires files != []
    ensures OneFile(files, files[1..])
  {
    assert files == [] + [files[0]] + files[1..];
    assert [] + files[1..] == files[1..];
    Added([], files[0], files[1..]);
  }

  lemma Removed(files: seq<Piece>, base: int)
    ensures OneFile(files, Left(files, {base}))
  {
    LeftTwice(files, {base}, {base});
    assert {base} + {base} == {base};
  }

  lemma {:induction false} LeftNone(files: seq<Piece>, gone: set<int>)
    requires forall i :: 0 <= i < |files| ==> files[i].base in gone
    ensures Left(files, gone) == []
  {
    if files != [] {
      LeftNone(files[1..], gone);
    }
  }

  // ---- truncating the front ----

  /** What is left is the end of what there was, and nothing at or above the offset is
      missing from it. */
  ghost predicate CutBelow(was: seq<Record>, rs: seq<Record>, minOffset: int) {
    exists k :: 0 <= k <= |was| && rs == was[k..] && forall n :: 0 <= n < k ==> was[n].offset < minOffset
  }

  ghost predicate RecoversCut(disk: seq<Piece>, was: seq<Record>, minOffset: int) {
    var r := Resolve([], disk);
    r.Some? && Log(r.value) && CutBelow(was, Records(r.value), minOffset)
  }

  ghost predicate AlwaysRecoversCut(trace: Disks, first: seq<Piece>, last: seq<Piece>, was: seq<Record>,
                                    minOffset: int) {
    && trace != [] && trace[0] == first && trace[|trace| - 1] == last
    && Stepwise(trace)
    && forall k {:trigger RecoversCut(trace[k], was, minOffset)} :: 0 <= k < |trace| ==>
         RecoversCut(trace[k], was, minOffset)
  }

  lemma OneMoreCut(trace: Disks, first: seq<Piece>, last: seq<Piece>, next: seq<Piece>, was: seq<Record>,
                   minOffset: int)
    requires AlwaysRecoversCut(trace, first, last, was, minOffset) && OneFile(last, next) &&
             RecoversCut(next, was, minOffset)
    ensures AlwaysRecoversCut(trace + [next], first, next, was, minOffset)
  {
    OneMoreStep(trace, next);
    forall k | 0 <= k < |trace + [next]|
      ensures RecoversCut((trace + [next])[k], was, minOffset)
    {
      assert k < |trace| ==> RecoversCut(trace[k], was, minOffset);
    }
  }

  function LastOffset(p: Piece): int {
    if p.records == [] then -1 else p.records[|p.records| - 1].offset
  }

  /** The records at or above the offset. */
  function From(rs: seq<Record>, minOffset: int): seq<Record> {
    if rs == [] || rs[0].offset >= minOffset then rs else From(rs[1..], minOffset)
  }

  lemma {:induction false} FromExact(rs: seq<Record>, minOffset: int) returns (k: nat)
    ensures k <= |rs| && From(rs, minOffset) == rs[k..] && forall n :: 0 <= n < k ==> rs[n].offset < minOffset
    ensures k < |rs| ==> rs[k].offset >= minOffset
  {
    if rs == [] || rs[0].offset >= minOffset {
      k := 0;
    } else {
      k := FromExact(rs[1..], minOffset);
      k := k + 1;
    }
  }

  /** The boundary's survivors, under the name of the first of them. */
  function Trim(p: Piece, minOffset: int): Option<Piece> {
    var kept := From(p.records, minOffset);
    if kept == [] then None else Some(Piece(kept[0].offset, kept, p.tier, p.size))
  }

  method TrimBoundary(p: Piece, minOffset: int) returns (t: Option<Piece>)
    requires ValidPiece(p)
    ensures t == Trim(p, minOffset)
  {
    t := None;
    ghost var cut := FromExact(p.records, minOffset);
    for i := 0 to |p.records|
      invariant t == if i <= cut then None else Some(Piece(p.records[cut].offset, p.records[cut..i], p.tier, p.size))
    {
      var r := p.records[i];
      if r.offset >= minOffset {
        assert cut <= i;
        if t.None? {
          assert i == cut;
          assert p.records[cut..i + 1] == [r];
          t := Some(Piece(r.offset, [r], p.tier, p.size));
        } else {
          assert p.records[cut..i + 1] == p.records[cut..i] + [r];
          t := Some(t.value.(records := t.value.records + [r]));
        }
      }
    }
    assert p.records[cut..|p.records|] == p.records[cut..];
  }

  lemma {:induction false} AllBelow(ps: seq<Piece>, minOffset: int, n: nat)
    requires Log(ps) && n < |Records(ps)|
    requires forall i :: 0 <= i < |ps| ==> ps[i].records != [] ==> LastOffset(ps[i]) < minOffset
    ensures Records(ps)[n].offset < minOffset
  {
    var i := RecordsIn(ps, n);
  }

  /** Dropping segments that end below the offset. */
  lemma DropFront(ps: seq<Piece>, k: nat, minOffset: int)
    requires Log(ps) && k <= |ps|
    requires forall i :: 0 <= i < k ==> ps[i].records != [] ==> LastOffset(ps[i]) < minOffset
    ensures Log(ps[k..]) && CutBelow(Records(ps), Records(ps[k..]), minOffset) &&
            RecoversCut(ps[k..], Records(ps), minOffset)
  {
    DropFrontRecords(ps, k, minOffset);
    RecoversItself(ps[k..]);
  }

  lemma DropFrontRecords(ps: seq<Piece>, k: nat, minOffset: int)
    requires Log(ps) && k <= |ps|
    requires forall i :: 0 <= i < k ==> ps[i].records != [] ==> LastOffset(ps[i]) < minOffset
    ensures Log(ps[k..]) && CutBelow(Records(ps), Records(ps[k..]), minOffset)
  {
    var front, rest := ps[..k], ps[k..];
    assert ps == front + rest;
    LogConcat(front, rest);
    FrontBelow(front, minOffset);
    RecordsConcat(front, rest);
    CutFront(Records(front), Records(rest), minOffset);
  }

  lemma FrontBelow(front: seq<Piece>, minOffset: int)
    requires Log(front)
    requires forall i :: 0 <= i < |front| ==> front[i].records != [] ==> LastOffset(front[i]) < minOffset
    ensures forall i :: 0 <= i < |Records(front)| ==> Records(front)[i].offset < minOffset
  {
    forall i | 0 <= i < |Records(front)|
      ensures Records(front)[i].offset < minOffset
    {
      AllBelow(front, minOffset, i);
    }
  }

  lemma CutFront(front: seq<Record>, rest: seq<Record>, minOffset: int)
    requires forall i :: 0 <= i < |front| ==> front[i].offset < minOffset
    ensures CutBelow(front + rest, rest, minOffset)
  {
    assert rest == (front + rest)[|front|..];
  }

  /** The trim is inside the boundary it came from. */
  lemma TrimInside(p: Piece, minOffset: int)
    requires ValidPiece(p) && Trim(p, minOffset).Some?
    ensures var t := Trim(p, minOffset).value; ValidPiece(t) && p.base <= t.base < p.End() && t.End() == p.End()
  {
    var cut := FromExact(p.records, minOffset);
  }

  /** The trim beside the boundary it came from changes nothing. */
  lemma TrimCrash(ps: seq<Piece>, k: nat, b: nat, minOffset: int)
    requires Log(ps) && k <= b < |ps| && Trim(ps[b], minOffset).Some?
    requires forall i :: 0 <= i < k ==> ps[i].records != [] ==> LastOffset(ps[i]) < minOffset
    ensures RecoversCut(ps[k..b + 1] + [Trim(ps[b], minOffset).value] + ps[b + 1..], Records(ps), minOffset)
  {
    DropFrontRecords(ps, k, minOffset);
    TrimIgnored(ps, k, b, minOffset);
    CutBy(ps[k..b + 1] + [Trim(ps[b], minOffset).value] + ps[b + 1..], ps[k..], Records(ps), minOffset);
  }

  lemma TrimIgnored(ps: seq<Piece>, k: nat, b: nat, minOffset: int)
    requires Log(ps) && k <= b < |ps| && Trim(ps[b], minOffset).Some? && Log(ps[k..])
    ensures Resolve([], ps[k..b + 1] + [Trim(ps[b], minOffset).value] + ps[b + 1..]) == Some(ps[k..])
  {
    var t, kept, rest := Trim(ps[b], minOffset).value, ps[k..b + 1], ps[b + 1..];
    assert ValidPiece(ps[b]);
    TrimInside(ps[b], minOffset);
    Around(ps, k, b);
    ResolveAround(kept, [t], rest);
  }

  lemma CutBy(disk: seq<Piece>, out: seq<Piece>, was: seq<Record>, minOffset: int)
    requires Resolve([], disk) == Some(out) && Log(out) && CutBelow(was, Records(out), minOffset)
    ensures RecoversCut(disk, was, minOffset)
  {
  }

  /** The trim in the boundary's place. */
  lemma TrimDone(ps: seq<Piece>, b: nat, minOffset: int)
    requires Log(ps) && b < |ps| && Trim(ps[b], minOffset).Some?
    requires forall i :: 0 <= i < b ==> ps[i].records != [] ==> LastOffset(ps[i]) < minOffset
    ensures var out := [Trim(ps[b], minOffset).value] + ps[b + 1..];
            Log(out) && CutBelow(Records(ps), Records(out), minOffset) && RecoversCut(out, Records(ps), minOffset)
  {
    TrimLog(ps, b, minOffset);
    TrimRecords(ps, b, minOffset);
    RecoversItself([Trim(ps[b], minOffset).value] + ps[b + 1..]);
  }

  lemma TrimLog(ps: seq<Piece>, b: nat, minOffset: int)
    requires Log(ps) && b < |ps| && Trim(ps[b], minOffset).Some?
    ensures Log([Trim(ps[b], minOffset).value] + ps[b + 1..])
  {
    var t, rest := Trim(ps[b], minOffset).value, ps[b + 1..];
    assert ValidPiece(ps[b]);
    TrimInside(ps[b], minOffset);
    TailOfLog(ps, b + 1);
    forall i | 0 <= i < |rest|
      ensures Precedes([t][0], rest[i])
    {
      assert Precedes(ps[b], ps[b + 1 + i]);
    }
    LogConcat([t], rest);
  }

  lemma Suffix(a: seq<Record>, b: seq<Record>, c: seq<Record>, cut: nat)
    requires cut <= |b|
    ensures (a + (b + c))[|a| + cut..] == b[cut..] + c
  {
  }

  lemma TrimRecords(ps: seq<Piece>, b: nat, minOffset: int)
    requires Log(ps) && b < |ps| && Trim(ps[b], minOffset).Some?
    requires forall i :: 0 <= i < b ==> ps[i].records != [] ==> LastOffset(ps[i]) < minOffset
    ensures CutBelow(Records(ps), Records([Trim(ps[b], minOffset).value] + ps[b + 1..]), minOffset)
  {
    var t, front, rest := Trim(ps[b], minOffset).value, ps[..b], ps[b + 1..];
    var cut := FromExact(ps[b].records, minOffset);
    SplitAt(ps, b);
    RecordsConcat([t], rest);
    RecordsOfOne(t);
    Suffix(Records(front), ps[b].records, Records(rest), cut);
    forall i | 0 <= i < |Records(front)| + cut
      ensures Records(ps)[i].offset < minOffset
    {
      if i < |Records(front)| {
        AllBelow(front, minOffset, i);
      }
    }
  }

  lemma Parts(ps: seq<Piece>, b: nat)
    requires b < |ps|
    ensures ps == ps[..b] + ([ps[b]] + ps[b + 1..])
  {
  }

  lemma Around(ps: seq<Piece>, k: nat, b: nat)
    requires k <= b < |ps|
    ensures ps[k..b + 1] + ps[b + 1..] == ps[k..] && ps[k..b + 1][|ps[k..b + 1]| - 1] == ps[b]
  {
  }

  lemma SplitAt(ps: seq<Piece>, b: nat)
    requires Log(ps) && b < |ps|
    ensures Log(ps[..b]) && Records(ps) == Records(ps[..b]) + (ps[b].records + Records(ps[b + 1..]))
  {
    Parts(ps, b);
    LogConcat(ps[..b], [ps[b]] + ps[b + 1..]);
    RecordsConcat(ps[..b], [ps[b]] + ps[b + 1..]);
    RecordsConcat([ps[b]], ps[b + 1..]);
    RecordsOfOne(ps[b]);
  }

  /** The first sealed segment that reaches the offset, or the active one. */
  method FindBoundary(ps: seq<Piece>, minOffset: int) returns (b: nat)
    requires ps != []
    ensures b < |ps| && (b < |ps| - 1 ==> LastOffset(ps[b]) >= minOffset)
    ensures forall i :: 0 <= i < b ==> LastOffset(ps[i]) < minOffset
    ensures b < |ps| - 1 <==> Sealed(ps, minOffset)
  {
    b := 0;
    while b < |ps| - 1 && LastOffset(ps[b]) < minOffset
      invariant 0 <= b <= |ps| - 1
      invariant forall i :: 0 <= i < b ==> LastOffset(ps[i]) < minOffset
    {
      b := b + 1;
    }
  }

  /** Remove every record below an offset: rewrite the segment the offset falls in under
      a new name, publish, then remove the old files one by one, stopping at a failure.
      Wherever this is cut short, the log opens with an end of what it had that misses
      nothing at or above the offset. */
  method TruncateBefore(ps: seq<Piece>, minOffset: int, fails: nat -> bool)
    returns (survivors: seq<Piece>, disk: seq<Piece>, ghost trace: Disks)
    requires Log(ps)
    ensures Log(survivors) && CutBelow(Records(ps), Records(survivors), minOffset)
    ensures AlwaysRecoversCut(trace, ps, disk, Records(ps), minOffset)
    ensures (forall i :: !fails(i)) ==> disk == survivors
    ensures ps != [] ==> survivors != [] && survivors[|survivors| - 1] == ps[|ps| - 1]
    ensures 0 < minOffset && Sealed(ps, minOffset) ==> forall n :: 0 <= n < |Records(survivors)| ==>
              Records(survivors)[n].offset >= minOffset
  {
    if |ps| == 0 || minOffset <= 0 {
      Untouched(ps, minOffset);
      return ps, ps, [ps];
    }
    var b := FindBoundary(ps, minOffset);
    if b < |ps| - 1 && ps[b].base < minOffset {
      survivors, disk, trace := TruncateInside(ps, b, minOffset, fails);
    } else {
      survivors, disk, trace := TruncateBetween(ps, b, minOffset, fails);
    }
  }

  /** Some sealed segment reaches the offset. */
  ghost predicate Sealed(ps: seq<Piece>, minOffset: int) {
    exists i :: 0 <= i < |ps| - 1 && LastOffset(ps[i]) >= minOffset
  }

  lemma Untouched(ps: seq<Piece>, minOffset: int)
    requires Log(ps)
    ensures CutBelow(Records(ps), Records(ps), minOffset) && RecoversCut(ps, Records(ps), minOffset)
  {
    assert Records(ps) == Records(ps)[0..];
    RecoversItself(ps);
  }

  /** The cut falls between segments: only whole files go. */
  method TruncateBetween(ps: seq<Piece>, b: nat, minOffset: int, fails: nat -> bool)
    returns (survivors: seq<Piece>, disk: seq<Piece>, ghost trace: Disks)
    requires Log(ps) && b < |ps| && 0 < minOffset && (b < |ps| - 1 ==> ps[b].base >= minOffset)
    requires forall i :: 0 <= i < b ==> LastOffset(ps[i]) < minOffset
    ensures survivors == ps[b..] && survivors[|survivors| - 1] == ps[|ps| - 1]
    ensures Log(survivors) && CutBelow(Records(ps), Records(survivors), minOffset)
    ensures AlwaysRecoversCut(trace, ps, disk, Records(ps), minOffset)
    ensures (forall i :: !fails(i)) ==> disk == survivors
    ensures b < |ps| - 1 ==> forall n :: 0 <= n < |Records(survivors)| ==> Records(survivors)[n].offset >= minOffset
  {
    Untouched(ps, minOffset);
    DropFront(ps, b, minOffset);
    survivors, disk, trace := ps[b..], ps, [ps];
    if b < |ps| - 1 {
      StartsAbove(survivors, minOffset);
    }
    assert ps[0..] == ps;
    for i := 0 to b
      invariant disk == ps[i..]
      invariant AlwaysRecoversCut(trace, ps, disk, Records(ps), minOffset)
    {
      if fails(i) {
        return;
      }
      assert disk[1..] == ps[i + 1..];
      RemovedFirst(disk);
      DropFront(ps, i + 1, minOffset);
      OneMoreCut(trace, ps, disk, disk[1..], Records(ps), minOffset);
      disk := disk[1..];
      trace := trace + [disk];
    }
  }

  lemma StartsAbove(ps: seq<Piece>, minOffset: int)
    requires Log(ps) && ps != [] && ps[0].base >= minOffset
    ensures forall n :: 0 <= n < |Records(ps)| ==> Records(ps)[n].offset >= minOffset
  {
    forall n | 0 <= n < |Records(ps)|
      ensures Records(ps)[n].offset >= minOffset
    {
      var i := RecordsIn(ps, n);
      assert i > 0 ==> Precedes(ps[0], ps[i]);
    }
  }

  /** The cut falls inside a sealed segment, which is rewritten. */
  method TruncateInside(ps: seq<Piece>, b: nat, minOffset: int, fails: nat -> bool)
    returns (survivors: seq<Piece>, disk: seq<Piece>, ghost trace: Disks)
    requires Log(ps) && b < |ps| - 1 && 0 < minOffset && LastOffset(ps[b]) >= minOffset
    requires forall i :: 0 <= i < b ==> LastOffset(ps[i]) < minOffset
    ensures survivors != [] && survivors[|survivors| - 1] == ps[|ps| - 1]
    ensures Log(survivors) && CutBelow(Records(ps), Records(survivors), minOffset)
    ensures AlwaysRecoversCut(trace, ps, disk, Records(ps), minOffset)
    ensures (forall i :: !fails(i)) ==> disk == survivors
    ensures forall n :: 0 <= n < |Records(survivors)| ==> Records(survivors)[n].offset >= minOffset
  {
    assert ValidPiece(ps[b]);
    var trim := TrimBoundary(ps[b], minOffset);
    TrimReady(ps, b, minOffset);
    var t := trim.value;
    survivors := [t] + ps[b + 1..];
    disk := ps[0..b + 1] + [t] + ps[b + 1..];
    trace := [ps] + [disk];
    var done;
    disk, done, trace := RemoveOld(ps, b, t, minOffset, fails, disk, trace);
    if !done || fails(b) {
      return;
    }
    assert disk[1..] == survivors;
    RemovedFirst(disk);
    OneMoreCut(trace, ps, disk, disk[1..], Records(ps), minOffset);
    disk := disk[1..];
    trace := trace + [disk];
  }

  /** The trimmed boundary, published beside the one it replaces. */
  lemma TrimReady(ps: seq<Piece>, b: nat, minOffset: int)
    requires Log(ps) && b < |ps| - 1 && 0 < minOffset && LastOffset(ps[b]) >= minOffset
    requires forall i :: 0 <= i < b ==> LastOffset(ps[i]) < minOffset
    ensures Trim(ps[b], minOffset).Some?
    ensures var t := Trim(ps[b], minOffset).value;
            var survivors, disk := [t] + ps[b + 1..], ps[0..b + 1] + [t] + ps[b + 1..];
            && Log(survivors) && CutBelow(Records(ps), Records(survivors), minOffset)
            && (forall n :: 0 <= n < |Records(survivors)| ==> Records(survivors)[n].offset >= minOffset)
            && RecoversCut(survivors, Records(ps), minOffset)
            && AlwaysRecoversCut([ps] + [disk], ps, disk, Records(ps), minOffset)
  {
    Untouched(ps, minOffset);
    assert ValidPiece(ps[b]);
    var cut := FromExact(ps[b].records, minOffset);
    var t := Trim(ps[b], minOffset).value;
    TrimDone(ps, b, minOffset);
    StartsAbove([t] + ps[b + 1..], minOffset);
    TrimCrash(ps, 0, b, minOffset);
    AddedAt(ps, b + 1, t);
    OneMoreCut([ps], ps, ps, ps[0..b + 1] + [t] + ps[b + 1..], Records(ps), minOffset);
  }

  /** Remove the files before the boundary, oldest first, stopping at a failure. */
  method RemoveOld(ps: seq<Piece>, b: nat, t: Piece, minOffset: int, fails: nat -> bool, disk0: seq<Piece>,
                   ghost trace0: Disks)
    returns (disk: seq<Piece>, done: bool, ghost trace: Disks)
    requires Log(ps) && b < |ps| - 1 && 0 < minOffset && LastOffset(ps[b]) >= minOffset
    requires forall i :: 0 <= i < b ==> LastOffset(ps[i]) < minOffset
    requires Trim(ps[b], minOffset) == Some(t) && disk0 == ps[0..b + 1] + [t] + ps[b + 1..]
    requires AlwaysRecoversCut(trace0, ps, disk0, Records(ps), minOffset)
    ensures AlwaysRecoversCut(trace, ps, disk, Records(ps), minOffset)
    ensures done ==> disk == ps[b..b + 1] + [t] + ps[b + 1..]
    ensures (forall i :: !fails(i)) ==> done
  {
    disk, trace := disk0, trace0;
    for i := 0 to b
      invariant disk == ps[i..b + 1] + [t] + ps[b + 1..]
      invariant AlwaysRecoversCut(trace, ps, disk, Records(ps), minOffset)
    {
      if fails(i) {
        return disk, false, trace;
      }
      assert disk[1..] == ps[i + 1..b + 1] + [t] + ps[b + 1..];
      TrimCrash(ps, i + 1, b, minOffset);
      RemovedFirst(disk);
      OneMoreCut(trace, ps, disk, disk[1..], Records(ps), minOffset);
      disk := disk[1..];
      trace := trace + [disk];
    }
    done := true;
  }
}
