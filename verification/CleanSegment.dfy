/** One segment's rewrite: what survives it, and the strip stamp its fresh digest
    carries. */
module CleanSegments {
  import opened Bytes
  import opened LogModel
  import opened CleanRules
  import opened DropSets
  import MergeDigests

  const MAX_OFFSET: int := 0x7FFF_FFFF_FFFF_FFFF

  /** What a rewrite leaves of a run of records. */
  function Survivors(spec: CleanSpec, drops: set<int>, rs: seq<Record>): seq<Record> {
    if rs == [] then [] else
      var o := Outcome(spec, rs[0].offset in drops, rs[0]);
      (if o.Some? then [o.value] else []) + Survivors(spec, drops, rs[1..])
  }

  lemma {:induction false} SurvivorsConcat(spec: CleanSpec, drops: set<int>, a: seq<Record>, b: seq<Record>)
    ensures Survivors(spec, drops, a + b) == Survivors(spec, drops, a) + Survivors(spec, drops, b)
  {
    if a == [] {
      assert a + b == b;
    } else {
      assert (a + b)[1..] == a[1..] + b;
      SurvivorsConcat(spec, drops, a[1..], b);
    }
  }

  lemma {:induction false} SurvivorOf(spec: CleanSpec, drops: set<int>, rs: seq<Record>, x: Record)
    ensures x in Survivors(spec, drops, rs) <==>
            exists r :: r in rs && Outcome(spec, r.offset in drops, r) == Some(x)
  {
    if rs != [] {
      SurvivorOf(spec, drops, rs[1..], x);
      assert rs == [rs[0]] + rs[1..];
    }
  }

  lemma {:induction false} SurvivorsAscend(spec: CleanSpec, drops: set<int>, rs: seq<Record>)
    requires Ascending(rs)
    ensures Ascending(Survivors(spec, drops, rs))
  {
    if rs != [] {
      SurvivorsAscend(spec, drops, rs[1..]);
      var rest := Survivors(spec, drops, rs[1..]);
      forall i | 0 <= i < |rest|
        ensures rs[0].offset < rest[i].offset
      {
        SurvivorOf(spec, drops, rs[1..], rest[i]);
        var r :| r in rs[1..] && Outcome(spec, r.offset in drops, r) == Some(rest[i]);
      }
    }
  }

  /** A rewrite that keeps every record as it is. */
  lemma {:induction false} SurvivorsUnchanged(spec: CleanSpec, drops: set<int>, rs: seq<Record>)
    requires forall r :: r in rs ==> Outcome(spec, r.offset in drops, r) == Some(r)
    ensures Survivors(spec, drops, rs) == rs
  {
    if rs != [] {
      SurvivorsUnchanged(spec, drops, rs[1..]);
    }
  }

  // ---- blocks ----

  predicate RetainsAll(spec: CleanSpec, drops: set<int>, rs: seq<Record>) {
    forall r :: r in rs ==> Classify(spec, r.offset in drops, r) == Retain
  }

  /** A block carried into the rewrite verbatim, its records unexamined. */
  predicate PassesWhole(spec: CleanSpec, drops: set<int>, b: Block) {
    !b.mergeable && RetainsAll(spec, drops, b.records)
  }

  /** A kept record that tells the scan the segment still holds strip targets. */
  predicate IsResidue(spec: CleanSpec, dropped: bool, r: Record) {
    match Classify(spec, dropped, r)
    case Remove => false
    case Strip => !r.sound
    case Retain => spec.StripActive() && !r.control && r.offset >= spec.stripBelow && Carries(r, spec.stripHeaders)
  }

  predicate BlockResidue(spec: CleanSpec, drops: set<int>, b: Block) {
    !PassesWhole(spec, drops, b) && exists r :: r in b.records && IsResidue(spec, r.offset in drops, r)
  }

  predicate Residue(spec: CleanSpec, drops: set<int>, blocks: seq<Block>) {
    exists i :: 0 <= i < |blocks| && BlockResidue(spec, drops, blocks[i])
  }

  function StampFor(spec: CleanSpec, drops: set<int>, blocks: seq<Block>): int {
    if !spec.StripActive() then -1
    else if Residue(spec, drops, blocks) then spec.stripBelow
    else MAX_OFFSET
  }

  /** The stamp tells the truth: stripping its headers below it changes nothing. */
  ghost predicate Truthful(rs: seq<Record>, stamp: int, headers: seq<string>) {
    forall r :: r in rs && !r.control && r.offset < stamp ==> !Strippable(r, headers)
  }

  predicate StrippableData(spec: CleanSpec, r: Record) {
    !r.control && Strippable(r, spec.stripHeaders)
  }

  /** No strip target between the ceiling and the strip boundary. */
  ghost predicate NonePinned(spec: CleanSpec, blocks: seq<Block>) {
    forall r :: r in Flatten(blocks) && StrippableData(spec, r) ==>
      !(spec.ceiling <= r.offset < spec.stripBelow)
  }

  /** No strip target rides above the boundary in a block carried whole. */
  ghost predicate NoneCarried(spec: CleanSpec, drops: set<int>, blocks: seq<Block>) {
    forall i, r :: 0 <= i < |blocks| && PassesWhole(spec, drops, blocks[i]) && r in blocks[i].records ==>
      StrippableData(spec, r) ==> !(spec.stripBelow <= r.offset < MAX_OFFSET)
  }

  lemma {:induction false} InBlock(blocks: seq<Block>, r: Record)
    ensures r in Flatten(blocks) <==> exists i :: 0 <= i < |blocks| && r in blocks[i].records
  {
    if blocks != [] {
      InBlock(blocks[1..], r);
      assert forall i :: 0 <= i < |blocks| - 1 ==> blocks[1..][i] == blocks[i + 1];
      if r in Flatten(blocks[1..]) {
        var i :| 0 <= i < |blocks[1..]| && r in blocks[1..][i].records;
        assert r in blocks[i + 1].records;
      }
    }
  }

  /** When the stamp a rewrite writes down is true. It is false in exactly two
      ways: a strip target pinned between the ceiling and the boundary, which the
      rewrite keeps and the stamp claims; and a target above the boundary inside a
      block carried whole, which nothing looks at. */
  lemma StampTruth(spec: CleanSpec, drops: set<int>, blocks: seq<Block>)
    requires spec.StripActive() && spec.stripBelow <= MAX_OFFSET
    ensures Truthful(Survivors(spec, drops, Flatten(blocks)), StampFor(spec, drops, blocks), spec.stripHeaders) <==>
            NonePinned(spec, blocks) && (Residue(spec, drops, blocks) || NoneCarried(spec, drops, blocks))
  {
    var rs := Flatten(blocks);
    if NonePinned(spec, blocks) && (Residue(spec, drops, blocks) || NoneCarried(spec, drops, blocks)) {
      forall x | x in Survivors(spec, drops, rs) && !x.control && x.offset < StampFor(spec, drops, blocks)
        ensures !Strippable(x, spec.stripHeaders)
      {
        StampedClean(spec, drops, blocks, x);
      }
    }
    if !NonePinned(spec, blocks) {
      var r :| r in rs && StrippableData(spec, r) && spec.ceiling <= r.offset < spec.stripBelow;
      SurvivorOf(spec, drops, rs, r);
    } else if !Residue(spec, drops, blocks) && !NoneCarried(spec, drops, blocks) {
      var i, r :| 0 <= i < |blocks| && PassesWhole(spec, drops, blocks[i]) && r in blocks[i].records
        && StrippableData(spec, r) && spec.stripBelow <= r.offset < MAX_OFFSET;
      InBlock(blocks, r);
      SurvivorOf(spec, drops, rs, r);
    }
  }

  lemma StampedClean(spec: CleanSpec, drops: set<int>, blocks: seq<Block>, x: Record)
    requires spec.StripActive() && spec.stripBelow <= MAX_OFFSET && NonePinned(spec, blocks)
    requires Residue(spec, drops, blocks) || NoneCarried(spec, drops, blocks)
    requires x in Survivors(spec, drops, Flatten(blocks)) && !x.control && x.offset < StampFor(spec, drops, blocks)
    ensures !Strippable(x, spec.stripHeaders)
  {
    var rs := Flatten(blocks);
    SurvivorOf(spec, drops, rs, x);
    var r :| r in rs && Outcome(spec, r.offset in drops, r) == Some(x);
    InBlock(blocks, r);
    var i :| 0 <= i < |blocks| && r in blocks[i].records;
    var looked := !PassesWhole(spec, drops, blocks[i]);
    assert looked && IsResidue(spec, r.offset in drops, r) ==> BlockResidue(spec, drops, blocks[i]);
  }

  /** A boundary at or below the ceiling, over blocks a rewrite may merge. */
  lemma StampTruthful(spec: CleanSpec, drops: set<int>, blocks: seq<Block>)
    requires spec.StripActive() && spec.stripBelow <= spec.ceiling && spec.stripBelow <= MAX_OFFSET
    requires forall i :: 0 <= i < |blocks| ==> blocks[i].mergeable
    ensures Truthful(Survivors(spec, drops, Flatten(blocks)), StampFor(spec, drops, blocks), spec.stripHeaders)
  {
    StampTruth(spec, drops, blocks);
  }

  // ---- two passes whose stamps are not true ----

  /** The spec a transactional caller holding records for a lagging reader ends up
      with: decided below 10, but nothing at or above 5 may be compacted. */
  function PinnedSpec(): CleanSpec {
    CleanSpec(5, 10, ["tx"], _ => false, 0, 0, false)
  }

  function Tagged(offset: int): Record {
    Record(offset, 1, 0, None, None, map["tx" := []], false, false, true)
  }

  /** A strip target the ceiling keeps is one the stamp denies. */
  lemma StampIgnoresCeiling()
    ensures var spec, blocks := PinnedSpec(), [Block(true, [Tagged(7)])];
            StampFor(spec, {}, blocks) == MAX_OFFSET && Survivors(spec, {}, Flatten(blocks)) == [Tagged(7)]
            && !Truthful([Tagged(7)], MAX_OFFSET, spec.stripHeaders)
  {
    var spec, b := PinnedSpec(), Block(true, [Tagged(7)]);
    assert Flatten([b]) == [Tagged(7)];
    assert !Residue(spec, {}, [b]);
    assert "tx" in Tagged(7).headers;
    assert Tagged(7) in [Tagged(7)];
  }

  /** A strip target in a block carried whole is one the scan never sees. */
  lemma StampMissesWholeBlock()
    ensures var spec, blocks := PinnedSpec().(ceiling := 20), [Block(false, [Tagged(12)])];
            StampFor(spec, {}, blocks) == MAX_OFFSET && Survivors(spec, {}, Flatten(blocks)) == [Tagged(12)]
            && !Truthful([Tagged(12)], MAX_OFFSET, spec.stripHeaders)
  {
    var spec, b := PinnedSpec().(ceiling := 20), Block(false, [Tagged(12)]);
    assert Flatten([b]) == [Tagged(12)];
    assert PassesWhole(spec, {}, b);
    assert !Residue(spec, {}, [b]);
    assert "tx" in Tagged(12).headers;
    assert Tagged(12) in [Tagged(12)];
  }

  // ---- the rewrite ----

  function RewrittenBlock(spec: CleanSpec, drops: set<int>, b: Block): Block {
    if PassesWhole(spec, drops, b) then b else Block(true, Survivors(spec, drops, b.records))
  }

  function RewrittenBlocks(spec: CleanSpec, drops: set<int>, blocks: seq<Block>): seq<Block> {
    if blocks == [] then [] else
      RewrittenBlocks(spec, drops, blocks[..|blocks| - 1]) + [RewrittenBlock(spec, drops, blocks[|blocks| - 1])]
  }

  predicate KeepsAll(spec: CleanSpec, drops: set<int>, rs: seq<Record>) {
    forall r :: r in rs ==> Outcome(spec, r.offset in drops, r) == Some(r)
  }

  /** Blocks in, survivors out, in order and nothing else. */
  lemma {:induction false} RewrittenRecords(spec: CleanSpec, drops: set<int>, blocks: seq<Block>)
    ensures Flatten(RewrittenBlocks(spec, drops, blocks)) == Survivors(spec, drops, Flatten(blocks))
  {
    if blocks != [] {
      var front, b := blocks[..|blocks| - 1], blocks[|blocks| - 1];
      RewrittenRecords(spec, drops, front);
      assert blocks == front + [b];
      FlattenConcat(front, [b]);
      FlattenConcat(RewrittenBlocks(spec, drops, front), [RewrittenBlock(spec, drops, b)]);
      SurvivorsConcat(spec, drops, Flatten(front), b.records);
      assert Flatten([b]) == b.records;
      if PassesWhole(spec, drops, b) {
        SurvivorsUnchanged(spec, drops, b.records);
      }
    }
  }

  /** The segment a rewrite leaves behind: none when nothing survives, the original
      when nothing changed and its layout asked for nothing, a new one otherwise.
      `refreshed` says whether the fresh digest could be written; without it a
      replaced segment has no digest, and a kept one keeps what it had. */
  function Rewritten(spec: CleanSpec, drops: set<int>, s: Segment, refreshed: bool): (o: Option<Segment>) {
    var stamp := StampFor(spec, drops, s.blocks);
    var headers := if spec.StripActive() then spec.stripHeaders else [];
    if Survivors(spec, drops, s.Records()) == [] then None
    else if KeepsAll(spec, drops, s.Records()) && !s.fragmented then
      Some(if refreshed then s.(stamp := stamp, stampHeaders := headers) else s)
    else
      Some(Segment(s.base, RewrittenBlocks(spec, drops, s.blocks), s.tier,
                   if refreshed then stamp else -1, if refreshed then headers else [], false))
  }

  lemma RewrittenHolds(spec: CleanSpec, drops: set<int>, s: Segment, refreshed: bool)
    ensures var o := Rewritten(spec, drops, s, refreshed);
            var out := Survivors(spec, drops, s.Records());
            if o.None? then out == []
            else o.value.base == s.base && o.value.tier == s.tier && o.value.Records() == out && out != []
  {
    RewrittenRecords(spec, drops, s.blocks);
    if KeepsAll(spec, drops, s.Records()) {
      SurvivorsUnchanged(spec, drops, s.Records());
    }
  }

  ghost function MarksOf(d: DropSet?): set<int>
    reads d
  {
    MergeDigests.Marks(d)
  }

  predicate IsDropped(d: DropSet?, off: int)
    requires d != null ==> d.Valid()
    reads d
    ensures IsDropped(d, off) <==> off in MarksOf(d)
  {
    d != null && d.Get(off)
  }

  /** Whether a block's records may all go through untouched. */
  method MayPassWhole(spec: CleanSpec, d: DropSet?, rs: seq<Record>) returns (whole: bool)
    requires d != null ==> d.Valid()
    ensures whole <==> RetainsAll(spec, MarksOf(d), rs)
  {
    for n := 0 to |rs|
      invariant RetainsAll(spec, MarksOf(d), rs[..n])
    {
      assert rs[..n + 1] == rs[..n] + [rs[n]];
      if Classify(spec, IsDropped(d, rs[n].offset), rs[n]) != Retain {
        return false;
      }
    }
    assert rs[..|rs|] == rs;
    return true;
  }

  /** One record's fate, with what the counters and the stamp need to know of it. */
  method KeepRecord(spec: CleanSpec, dropped: bool, r: Record) returns (o: Option<Record>, changed: bool, residue: bool)
    ensures o == Outcome(spec, dropped, r)
    ensures changed <==> o != Some(r)
    ensures spec.StripActive() ==> (residue <==> IsResidue(spec, dropped, r))
  {
    match Classify(spec, dropped, r) {
      case Remove =>
        o, changed, residue := None, true, false;
      case Strip =>
        o := Some(StripRecord(r, spec.stripHeaders));
        changed, residue := r.sound && Carries(r, spec.stripHeaders), !r.sound;
      case Retain =>
        o, changed := Some(r), false;
        residue := spec.StripActive() && !r.control && r.offset >= spec.stripBelow && Carries(r, spec.stripHeaders);
    }
  }

  ghost predicate AnyResidue(spec: CleanSpec, drops: set<int>, rs: seq<Record>) {
    exists r :: r in rs && IsResidue(spec, r.offset in drops, r)
  }

  method KeepRecords(spec: CleanSpec, d: DropSet?, rs: seq<Record>)
    returns (kept: seq<Record>, changes: nat, residual: bool)
    requires d != null ==> d.Valid()
    ensures kept == Survivors(spec, MarksOf(d), rs)
    ensures changes == 0 <==> KeepsAll(spec, MarksOf(d), rs)
    ensures spec.StripActive() ==> (residual <==> AnyResidue(spec, MarksOf(d), rs))
  {
    ghost var drops := MarksOf(d);
    kept, changes, residual := [], 0, false;
    for n := 0 to |rs|
      invariant kept == Survivors(spec, drops, rs[..n])
      invariant changes == 0 <==> KeepsAll(spec, drops, rs[..n])
      invariant spec.StripActive() ==> (residual <==> AnyResidue(spec, drops, rs[..n]))
    {
      var o, changed, residue := KeepRecord(spec, IsDropped(d, rs[n].offset), rs[n]);
      assert rs[..n + 1] == rs[..n] + [rs[n]];
      SurvivorsConcat(spec, drops, rs[..n], [rs[n]]);
      kept := kept + if o.Some? then [o.value] else [];
      changes := changes + if changed then 1 else 0;
      residual := residual || residue;
    }
    assert rs[..|rs|] == rs;
  }

  /** One block of the source, record by record unless it may pass untouched. */
  method RewriteBlock(spec: CleanSpec, d: DropSet?, b: Block) returns (out: Block, changes: nat, residual: bool)
    requires d != null ==> d.Valid()
    ensures out == RewrittenBlock(spec, MarksOf(d), b)
    ensures changes == 0 <==> KeepsAll(spec, MarksOf(d), b.records)
    ensures spec.StripActive() ==> (residual <==> BlockResidue(spec, MarksOf(d), b))
  {
    if !b.mergeable {
      var whole := MayPassWhole(spec, d, b.records);
      if whole {
        return b, 0, false;
      }
    }
    var kept;
    kept, changes, residual := KeepRecords(spec, d, b.records);
    out := Block(true, kept);
  }

  method CleanSegment(spec: CleanSpec, s: Segment, d: DropSet?, refreshed: bool) returns (out: Option<Segment>)
    requires d != null ==> d.Valid()
    ensures out == Rewritten(spec, MarksOf(d), s, refreshed)
  {
    ghost var drops := MarksOf(d);
    var blocks: seq<Block> := [];
    var changes, residual := 0, false;
    for n := 0 to |s.blocks|
      invariant blocks == RewrittenBlocks(spec, drops, s.blocks[..n])
      invariant changes == 0 <==> KeepsAll(spec, drops, Flatten(s.blocks[..n]))
      invariant spec.StripActive() ==> (residual <==> Residue(spec, drops, s.blocks[..n]))
    {
      var block, ch, res := RewriteBlock(spec, d, s.blocks[n]);
      assert s.blocks[..n + 1][..n] == s.blocks[..n];
      FlattenConcat(s.blocks[..n], [s.blocks[n]]);
      assert s.blocks[..n + 1] == s.blocks[..n] + [s.blocks[n]];
      ResidueStep(spec, drops, s.blocks[..n], s.blocks[n]);
      blocks, changes, residual := blocks + [block], changes + ch, residual || res;
    }
    assert s.blocks[..|s.blocks|] == s.blocks;
    RewrittenRecords(spec, drops, s.blocks);
    var stamp, headers := -1, [];
    if spec.StripActive() {
      headers := spec.stripHeaders;
      stamp := if residual then spec.stripBelow else MAX_OFFSET;
    }
    if Flatten(blocks) == [] {
      out := None;
    } else if changes == 0 && !s.fragmented {
      out := Some(if refreshed then s.(stamp := stamp, stampHeaders := headers) else s);
    } else {
      out := Some(Segment(s.base, blocks, s.tier,
                          if refreshed then stamp else -1, if refreshed then headers else [], false));
    }
  }

  lemma ResidueStep(spec: CleanSpec, drops: set<int>, blocks: seq<Block>, b: Block)
    ensures Residue(spec, drops, blocks + [b]) <==> Residue(spec, drops, blocks) || BlockResidue(spec, drops, b)
  {
    assert (blocks + [b])[|blocks|] == b;
    assert forall i :: 0 <= i < |blocks| ==> (blocks + [b])[i] == blocks[i];
    if Residue(spec, drops, blocks) {
      var i :| 0 <= i < |blocks| && BlockResidue(spec, drops, blocks[i]);
      assert BlockResidue(spec, drops, (blocks + [b])[i]);
    }
  }
}
