/** The streaming k-way merge over sorted key digests, and the whole-log
    definition of what it has to compute. */
module MergeDigests {
  import opened Bytes
  import opened LogModel
  import opened CleanRules
  import opened KeyDigests
  import opened DropSets

  // ---- the simple definition, over the whole record set ----

  ghost predicate KeyIn(r: Record, keys: set<Key>) {
    r.key.Some? && r.key.value in keys
  }

  /** Offsets of segment i whose records are dropped, for the keys given. */
  ghost function DroppedOf(L: seq<Segment>, spec: CleanSpec, now: int, i: int, keys: set<Key>): set<int>
    requires 0 <= i < |L|
  {
    set r | r in L[i].Records() && KeyIn(r, keys) && Dropped(L, spec, now, r) :: r.offset
  }

  /** Offsets of segment i whose records are dropped. */
  ghost function DroppedIn(L: seq<Segment>, spec: CleanSpec, now: int, i: int): set<int>
    requires 0 <= i < |L|
  {
    set r | r in L[i].Records() && Dropped(L, spec, now, r) :: r.offset
  }

  predicate AbortedWork(spec: CleanSpec, r: Record) {
    !r.control && r.key.Some? && r.offset < spec.ceiling && spec.aborted(r.offset)
  }

  predicate StripWork(spec: CleanSpec, r: Record) {
    spec.StripActive() && !r.control && r.key.Some? && r.offset < spec.stripBelow && r.headers != map[]
  }

  ghost predicate HasAborted(L: seq<Segment>, spec: CleanSpec, i: int) {
    exists r :: HeldBy(L, i, r) && AbortedWork(spec, r)
  }

  ghost predicate HasStrip(L: seq<Segment>, spec: CleanSpec, i: int) {
    exists r :: HeldBy(L, i, r) && StripWork(spec, r)
  }

  ghost predicate HasCollectable(L: seq<Segment>, spec: CleanSpec, now: int, i: int) {
    exists r :: HeldBy(L, i, r) && Collectable(L, spec, now, r)
  }

  // ---- one key's participants ----

  datatype Part = Part(seg: int, rec: DigestRec)

  ghost predicate IsPart(L: seq<Segment>, spec: CleanSpec, k: Key, p: Part) {
    exists r :: HeldBy(L, p.seg, r) && Candidate(spec, r) && r.key == Some(k) && EntryOf(r) == p.rec
  }

  /** Every decided, non-aborted copy of the key, and nothing else. */
  ghost predicate PartsOf(L: seq<Segment>, spec: CleanSpec, k: Key, parts: seq<Part>) {
    forall p :: p in parts <==> IsPart(L, spec, k, p)
  }

  ghost predicate IsNewest(parts: seq<Part>, newest: Option<Part>) {
    match newest
    case None => parts == []
    case Some(p) => p in parts && forall q :: q in parts ==> q.rec.offset <= p.rec.offset
  }

  predicate ExpiredEntry(spec: CleanSpec, now: int, e: DigestRec) {
    && spec.retention > 0 && e.tombstone && e.offset < spec.gcBelow
    && 0 < e.ts < now - spec.retention
  }

  predicate LosesCopy(spec: CleanSpec, newest: Part, p: Part) {
    p.rec.offset != newest.rec.offset && p.rec.offset < spec.ceiling
  }

  /** The offsets the merge marks in segment i for a key with these participants. */
  ghost function MarkedFor(spec: CleanSpec, now: int, parts: seq<Part>, newest: Part, i: int): set<int> {
    (set p | p in parts && p.seg == i && LosesCopy(spec, newest, p) :: p.rec.offset)
    + (if newest.seg == i && ExpiredEntry(spec, now, newest.rec) then {newest.rec.offset} else {})
  }

  /** A copy is superseded exactly when it is not the newest participant. */
  lemma PartSuperseded(L: seq<Segment>, spec: CleanSpec, k: Key, parts: seq<Part>, newest: Part, i: int, r: Record)
    requires ValidLog(L) && PartsOf(L, spec, k, parts) && IsNewest(parts, Some(newest))
    requires HeldBy(L, i, r) && Candidate(spec, r) && r.key == Some(k)
    ensures Superseded(L, spec, r) <==> r.offset != newest.rec.offset
  {
    assert IsPart(L, spec, k, Part(i, EntryOf(r)));
    assert Part(i, EntryOf(r)) in parts;
    if Superseded(L, spec, r) {
      var q :| Holds(L, q) && Candidate(spec, q) && q.key == r.key && r.offset < q.offset;
      var j :| HeldBy(L, j, q);
      assert IsPart(L, spec, k, Part(j, EntryOf(q)));
      assert Part(j, EntryOf(q)) in parts;
    }
    if r.offset != newest.rec.offset {
      assert IsPart(L, spec, k, newest);
      var q :| HeldBy(L, newest.seg, q) && Candidate(spec, q) && q.key == Some(k) && EntryOf(q) == newest.rec;
      assert Holds(L, q);
    }
  }

  /** A participant with the newest participant's offset is that participant. */
  lemma PartUnique(L: seq<Segment>, spec: CleanSpec, k: Key, p: Part, q: Part)
    requires ValidLog(L) && IsPart(L, spec, k, p) && IsPart(L, spec, k, q) && p.rec.offset == q.rec.offset
    ensures p == q
  {
    var r :| HeldBy(L, p.seg, r) && Candidate(spec, r) && r.key == Some(k) && EntryOf(r) == p.rec;
    var s :| HeldBy(L, q.seg, s) && Candidate(spec, s) && s.key == Some(k) && EntryOf(s) == q.rec;
    OffsetOrder(L, p.seg, r, q.seg, s);
  }

  /** A participant's offset is marked exactly when its record is dropped. */
  lemma PartMarked(L: seq<Segment>, spec: CleanSpec, now: int, k: Key, parts: seq<Part>, newest: Part, i: int,
                   r: Record)
    requires ValidLog(L) && PartsOf(L, spec, k, parts) && IsNewest(parts, Some(newest))
    requires HeldBy(L, i, r) && Candidate(spec, r) && r.key == Some(k)
    ensures r.offset in MarkedFor(spec, now, parts, newest, i) <==> Dropped(L, spec, now, r)
  {
    PartSuperseded(L, spec, k, parts, newest, i, r);
    var p := Part(i, EntryOf(r));
    assert IsPart(L, spec, k, p);
    assert p in parts;
    if r.offset == newest.rec.offset {
      PartUnique(L, spec, k, p, newest);
    }
  }

  /** Marking a key's participants is dropping its records. */
  lemma MarkedIsDropped(L: seq<Segment>, spec: CleanSpec, now: int, k: Key, parts: seq<Part>, newest: Part, i: int)
    requires ValidLog(L) && PartsOf(L, spec, k, parts) && IsNewest(parts, Some(newest)) && 0 <= i < |L|
    ensures MarkedFor(spec, now, parts, newest, i) == DroppedOf(L, spec, now, i, {k})
  {
    var marked, dropped := MarkedFor(spec, now, parts, newest, i), DroppedOf(L, spec, now, i, {k});
    forall off | off in marked
      ensures off in dropped
    {
      var p :| p in parts && p.seg == i && p.rec.offset == off;
      assert IsPart(L, spec, k, p);
      var r :| HeldBy(L, i, r) && Candidate(spec, r) && r.key == Some(k) && EntryOf(r) == p.rec;
      PartMarked(L, spec, now, k, parts, newest, i, r);
      assert KeyIn(r, {k});
    }
    forall off | off in dropped
      ensures off in marked
    {
      var r :| r in L[i].Records() && KeyIn(r, {k}) && Dropped(L, spec, now, r) && r.offset == off;
      assert HeldBy(L, i, r);
      PartMarked(L, spec, now, k, parts, newest, i, r);
    }
  }

  /** A key with no participant loses nothing. */
  lemma NothingDropped(L: seq<Segment>, spec: CleanSpec, now: int, k: Key, i: int)
    requires PartsOf(L, spec, k, []) && 0 <= i < |L|
    ensures DroppedOf(L, spec, now, i, {k}) == {}
  {
    forall r | r in L[i].Records() && KeyIn(r, {k})
      ensures !Candidate(spec, r)
    {
      assert HeldBy(L, i, r);
      assert Candidate(spec, r) ==> IsPart(L, spec, k, Part(i, EntryOf(r)));
    }
  }

  lemma DroppedUnion(L: seq<Segment>, spec: CleanSpec, now: int, i: int, keys: set<Key>, k: Key)
    requires 0 <= i < |L|
    ensures DroppedOf(L, spec, now, i, keys + {k}) ==
            DroppedOf(L, spec, now, i, keys) + DroppedOf(L, spec, now, i, {k})
  {
  }

  // ---- the streaming merge ----

  /** One read position per digest. */
  ghost predicate Positions(digests: seq<KeyDigest>, pos: seq<nat>) {
    |pos| == |digests| && forall i :: 0 <= i < |pos| ==> pos[i] <= |digests[i].keyed|
  }

  /** The digest's current entry is for this key. */
  predicate AtKey(d: KeyDigest, p: nat, k: Key) {
    p < |d.keyed| && d.keyed[p].key == k
  }

  /** No digest's current key is smaller. */
  ghost predicate SmallestAt(digests: seq<KeyDigest>, pos: seq<nat>, k: Key) {
    && Positions(digests, pos)
    && forall i :: 0 <= i < |pos| && pos[i] < |digests[i].keyed| ==> !Less(digests[i].keyed[pos[i]].key, k)
  }

  /** A digest with the smallest current key, or -1 when all are spent. */
  ghost predicate Front(digests: seq<KeyDigest>, pos: seq<nat>, m: int) {
    && Positions(digests, pos) && -1 <= m < |digests|
    && (m == -1 ==> forall i :: 0 <= i < |pos| ==> pos[i] == |digests[i].keyed|)
    && (m >= 0 ==> pos[m] < |digests[m].keyed| && SmallestAt(digests, pos, digests[m].keyed[pos[m]].key))
  }

  /** The digest with the smallest current key, or -1 when all are spent. */
  method SmallestKey(digests: seq<KeyDigest>, pos: seq<nat>) returns (m: int)
    requires Positions(digests, pos)
    ensures Front(digests, pos, m)
  {
    m := -1;
    for i := 0 to |digests|
      invariant -1 <= m < i
      invariant m == -1 ==> forall j :: 0 <= j < i ==> pos[j] == |digests[j].keyed|
      invariant m >= 0 ==> pos[m] < |digests[m].keyed|
      invariant m >= 0 ==> forall j :: 0 <= j < i && pos[j] < |digests[j].keyed| ==>
                  !Less(digests[j].keyed[pos[j]].key, digests[m].keyed[pos[m]].key)
    {
      if pos[i] < |digests[i].keyed| {
        ghost var was := m;
        if m == -1 || Less(digests[i].keyed[pos[i]].key, digests[m].keyed[pos[m]].key) {
          m := i;
          LessIrreflexive(digests[i].keyed[pos[i]].key);
          forall j | 0 <= j < i && pos[j] < |digests[j].keyed|
            ensures !Less(digests[j].keyed[pos[j]].key, digests[i].keyed[pos[i]].key)
          {
            if Less(digests[j].keyed[pos[j]].key, digests[i].keyed[pos[i]].key) {
              LessTransitive(digests[j].keyed[pos[j]].key, digests[i].keyed[pos[i]].key,
                             digests[was].keyed[pos[was]].key);
            }
          }
        }
      }
    }
  }

  predicate EntryParticipates(spec: CleanSpec, e: DigestRec) {
    e.offset <= spec.ceiling && !spec.aborted(e.offset)
  }

  predicate EntryAborted(spec: CleanSpec, e: DigestRec) {
    e.offset < spec.ceiling && spec.aborted(e.offset)
  }

  predicate EntryStrip(spec: CleanSpec, e: DigestRec) {
    spec.StripActive() && e.offset < spec.stripBelow && e.hasHeaders
  }

  /** One segment's entries for the current key, added to the participants. */
  method GatherSegment(spec: CleanSpec, i: int, recs: seq<DigestRec>, parts0: seq<Part>, newest0: Option<Part>)
    returns (parts: seq<Part>, newest: Option<Part>, strip: bool, aborted: bool)
    requires IsNewest(parts0, newest0)
    ensures IsNewest(parts, newest)
    ensures forall p :: p in parts <==> p in parts0 || (p.seg == i && p.rec in recs && EntryParticipates(spec, p.rec))
    ensures strip <==> exists e :: e in recs && EntryStrip(spec, e)
    ensures aborted <==> exists e :: e in recs && EntryAborted(spec, e)
  {
    parts, newest, strip, aborted := parts0, newest0, false, false;
    for n := 0 to |recs|
      invariant IsNewest(parts, newest)
      invariant forall p :: p in parts <==>
                p in parts0 || (p.seg == i && p.rec in recs[..n] && EntryParticipates(spec, p.rec))
      invariant strip <==> exists e :: e in recs[..n] && EntryStrip(spec, e)
      invariant aborted <==> exists e :: e in recs[..n] && EntryAborted(spec, e)
    {
      var e := recs[n];
      assert recs[..n + 1] == recs[..n] + [e];
      if EntryStrip(spec, e) {
        strip := true;
      }
      if EntryParticipates(spec, e) {
        parts := parts + [Part(i, e)];
        if newest.None? || e.offset > newest.value.rec.offset {
          newest := Some(Part(i, e));
        }
      } else if EntryAborted(spec, e) {
        aborted := true;
      }
    }
    assert recs[..|recs|] == recs;
  }

  ghost predicate Contributes(digests: seq<KeyDigest>, pos: seq<nat>, k: Key, i: int, e: DigestRec) {
    0 <= i < |digests| == |pos| && AtKey(digests[i], pos[i], k) && e in digests[i].keyed[pos[i]].recs
  }

  ghost predicate StripSeen(spec: CleanSpec, digests: seq<KeyDigest>, pos: seq<nat>, k: Key, i: int) {
    exists e :: Contributes(digests, pos, k, i, e) && EntryStrip(spec, e)
  }

  ghost predicate AbortedSeen(spec: CleanSpec, digests: seq<KeyDigest>, pos: seq<nat>, k: Key, i: int) {
    exists e :: Contributes(digests, pos, k, i, e) && EntryAborted(spec, e)
  }

  /** Every segment's entries for the key, with each contributing iterator advanced. */
  method Gather(spec: CleanSpec, digests: seq<KeyDigest>, pos0: seq<nat>, k: Key, strip0: seq<bool>,
                aborted0: seq<bool>)
    returns (pos: seq<nat>, parts: seq<Part>, newest: Option<Part>, strip: seq<bool>, aborted: seq<bool>)
    requires Positions(digests, pos0) && |strip0| == |aborted0| == |digests|
    ensures Positions(digests, pos) && |strip| == |aborted| == |digests|
    ensures forall i :: 0 <= i < |pos| ==> pos[i] == pos0[i] + if AtKey(digests[i], pos0[i], k) then 1 else 0
    ensures IsNewest(parts, newest)
    ensures forall p :: p in parts <==> Contributes(digests, pos0, k, p.seg, p.rec) && EntryParticipates(spec, p.rec)
    ensures forall i :: 0 <= i < |pos| ==>
              (strip[i] <==> strip0[i] || StripSeen(spec, digests, pos0, k, i))
    ensures forall i :: 0 <= i < |pos| ==>
              (aborted[i] <==> aborted0[i] || AbortedSeen(spec, digests, pos0, k, i))
  {
    pos, parts, newest, strip, aborted := pos0, [], None, strip0, aborted0;
    for n := 0 to |digests|
      invariant |pos| == |strip| == |aborted| == |digests|
      invariant forall i :: n <= i < |pos| ==> pos[i] == pos0[i] && strip[i] == strip0[i] && aborted[i] == aborted0[i]
      invariant forall i :: 0 <= i < n ==>
                  SeenAt(spec, digests, pos0, k, i, pos[i], strip0[i], strip[i], aborted0[i], aborted[i])
      invariant IsNewest(parts, newest)
      invariant forall p :: p in parts <==>
                p.seg < n && Contributes(digests, pos0, k, p.seg, p.rec) && EntryParticipates(spec, p.rec)
    {
      if AtKey(digests[n], pos[n], k) {
        var recs := digests[n].keyed[pos[n]].recs;
        var st, ab;
        parts, newest, st, ab := GatherSegment(spec, n, recs, parts, newest);
        assert forall e :: Contributes(digests, pos0, k, n, e) <==> e in recs;
        assert st <==> StripSeen(spec, digests, pos0, k, n);
        assert ab <==> AbortedSeen(spec, digests, pos0, k, n);
        strip, aborted := strip[n := strip[n] || st], aborted[n := aborted[n] || ab];
        pos := pos[n := pos[n] + 1];
      }
      assert SeenAt(spec, digests, pos0, k, n, pos[n], strip0[n], strip[n], aborted0[n], aborted[n]);
    }
  }

  /** One digest's iterator and flags, once the key was looked for in it. */
  ghost predicate SeenAt(spec: CleanSpec, digests: seq<KeyDigest>, pos0: seq<nat>, k: Key, i: nat, pos: nat,
                         strip0: bool, strip: bool, aborted0: bool, aborted: bool)
    requires i < |digests| == |pos0|
  {
    && pos == pos0[i] + (if AtKey(digests[i], pos0[i], k) then 1 else 0)
    && (strip <==> strip0 || StripSeen(spec, digests, pos0, k, i))
    && (aborted <==> aborted0 || AbortedSeen(spec, digests, pos0, k, i))
  }

  // ---- the drop bitmaps ----

  type Drops = seq<DropSet?>

  /** One bitmap per segment that loses something, none shared. */
  ghost predicate ValidDrops(L: seq<Segment>, drops: Drops)
    reads drops
  {
    && |drops| == |L|
    && (forall i :: 0 <= i < |drops| && drops[i] != null ==>
          && drops[i].Valid() && drops[i].base == L[i].base
          && L[i].Next() - L[i].base <= |drops[i].bits| * 64)
    && (forall i, j :: 0 <= i < j < |drops| && drops[i] != null ==> drops[i] != drops[j])
  }

  ghost function Marks(d: DropSet?): set<int>
    reads d
  {
    if d == null then {} else d.marks
  }

  /** The offsets marked in each segment. */
  ghost function AllMarks(drops: Drops): seq<set<int>>
    reads drops
  {
    seq(|drops|, i requires 0 <= i < |drops| reads drops => Marks(drops[i]))
  }

  /** Mark one offset of one segment, allocating its bitmap on first use. */
  method Drop(L: seq<Segment>, drops0: Drops, i: int, off: int) returns (drops: Drops)
    requires ValidDrops(L, drops0) && 0 <= i < |L| && L[i].base <= off < L[i].Next()
    modifies drops0
    ensures ValidDrops(L, drops)
    ensures forall j :: 0 <= j < |L| ==> drops[j] == drops0[j] || fresh(drops[j])
    ensures AllMarks(drops) == old(AllMarks(drops0))[i := old(AllMarks(drops0))[i] + {off}]
  {
    drops := drops0;
    if drops[i] == null {
      var d := new DropSet(L[i].base, L[i].Next());
      drops := drops[i := d];
    }
    drops[i].Set(off);
  }

  /** A key's superseded copies marked one by one. */
  ghost function MarkCopies(marks: seq<set<int>>, spec: CleanSpec, parts: seq<Part>, newest: Part): (r: seq<set<int>>)
    requires forall p :: p in parts ==> 0 <= p.seg < |marks|
    ensures |r| == |marks|
  {
    if parts == [] then marks else
      var p := parts[|parts| - 1];
      var m := MarkCopies(marks, spec, parts[..|parts| - 1], newest);
      if LosesCopy(spec, newest, p) then m[p.seg := m[p.seg] + {p.rec.offset}] else m
  }

  lemma {:induction false} MarkCopiesAdds(marks: seq<set<int>>, spec: CleanSpec, parts: seq<Part>, newest: Part, i: int)
    requires forall p :: p in parts ==> 0 <= p.seg < |marks|
    requires 0 <= i < |marks|
    ensures MarkCopies(marks, spec, parts, newest)[i] ==
            marks[i] + set p | p in parts && p.seg == i && LosesCopy(spec, newest, p) :: p.rec.offset
  {
    if parts != [] {
      var front, p := parts[..|parts| - 1], parts[|parts| - 1];
      MarkCopiesAdds(marks, spec, front, newest, i);
      assert parts == front + [p];
    }
  }

  ghost predicate PartsFit(L: seq<Segment>, parts: seq<Part>) {
    forall p :: p in parts ==> 0 <= p.seg < |L| && L[p.seg].base <= p.rec.offset < L[p.seg].Next()
  }

  method MarkSuperseded(L: seq<Segment>, spec: CleanSpec, drops0: Drops, parts: seq<Part>, newest: Part)
    returns (drops: Drops)
    requires ValidDrops(L, drops0) && PartsFit(L, parts)
    modifies drops0
    ensures ValidDrops(L, drops)
    ensures forall i :: 0 <= i < |L| ==> drops[i] == drops0[i] || fresh(drops[i])
    ensures AllMarks(drops) == MarkCopies(old(AllMarks(drops0)), spec, parts, newest)
  {
    drops := drops0;
    for n := 0 to |parts|
      invariant ValidDrops(L, drops)
      invariant forall i :: 0 <= i < |L| ==> drops[i] == drops0[i] || fresh(drops[i])
      invariant AllMarks(drops) == MarkCopies(old(AllMarks(drops0)), spec, parts[..n], newest)
    {
      assert parts[..n + 1][..n] == parts[..n];
      if LosesCopy(spec, newest, parts[n]) {
        drops := Drop(L, drops, parts[n].seg, parts[n].rec.offset);
      }
    }
    assert parts[..|parts|] == parts;
  }

  /** Marks with the newest copy's added when it is an expired tombstone. */
  ghost function MarkNewest(marks: seq<set<int>>, spec: CleanSpec, now: int, newest: Part): seq<set<int>>
    requires 0 <= newest.seg < |marks|
  {
    if ExpiredEntry(spec, now, newest.rec) then marks[newest.seg := marks[newest.seg] + {newest.rec.offset}] else marks
  }

  lemma MarkedKey(marks: seq<set<int>>, spec: CleanSpec, now: int, parts: seq<Part>, newest: Part)
    requires forall p :: p in parts ==> 0 <= p.seg < |marks|
    requires 0 <= newest.seg < |marks|
    ensures var m := MarkNewest(MarkCopies(marks, spec, parts, newest), spec, now, newest);
            |m| == |marks| && forall i :: 0 <= i < |m| ==> m[i] == marks[i] + MarkedFor(spec, now, parts, newest, i)
  {
    forall i | 0 <= i < |marks|
      ensures MarkNewest(MarkCopies(marks, spec, parts, newest), spec, now, newest)[i] ==
              marks[i] + MarkedFor(spec, now, parts, newest, i)
    {
      MarkCopiesAdds(marks, spec, parts, newest, i);
    }
  }

  /** Mark a key's superseded copies, and its newest if that is an expired tombstone. */
  method MarkKey(L: seq<Segment>, spec: CleanSpec, now: int, drops0: Drops, parts: seq<Part>, newest: Part)
    returns (drops: Drops)
    requires ValidDrops(L, drops0) && PartsFit(L, parts) && newest in parts
    modifies drops0
    ensures ValidDrops(L, drops)
    ensures forall i :: 0 <= i < |L| ==> drops[i] == drops0[i] || fresh(drops[i])
    ensures |AllMarks(drops)| == |L| && forall i :: 0 <= i < |L| ==>
              AllMarks(drops)[i] == old(AllMarks(drops0))[i] + MarkedFor(spec, now, parts, newest, i)
  {
    ghost var before := AllMarks(drops0);
    drops := MarkSuperseded(L, spec, drops0, parts, newest);
    if ExpiredEntry(spec, now, newest.rec) {
      drops := Drop(L, drops, newest.seg, newest.rec.offset);
    }
    assert AllMarks(drops) == MarkNewest(MarkCopies(before, spec, parts, newest), spec, now, newest);
    MarkedKey(before, spec, now, parts, newest);
  }

  // ---- the merge as a whole ----

  ghost predicate AllAccurate(L: seq<Segment>, digests: seq<KeyDigest>) {
    |digests| == |L| && forall i :: 0 <= i < |L| ==> Accurate(digests[i], L[i].Records())
  }

  /** The entries already read are exactly those of the keys done. */
  ghost predicate ReadThrough(digests: seq<KeyDigest>, pos: seq<nat>, done: set<Key>) {
    && Positions(digests, pos)
    && forall i :: 0 <= i < |digests| ==> ReadTo(digests[i], pos[i], done)
  }

  ghost predicate ReadTo(d: KeyDigest, pos: nat, done: set<Key>) {
    forall p :: 0 <= p < |d.keyed| ==> (p < pos <==> d.keyed[p].key in done)
  }

  /** An undone key that is smallest sits at the front of every digest that has it. */
  lemma KeyAtFront(L: seq<Segment>, digests: seq<KeyDigest>, pos: seq<nat>, done: set<Key>, k: Key, i: int)
    requires AllAccurate(L, digests) && ReadThrough(digests, pos, done) && SmallestAt(digests, pos, k)
    requires k !in done && 0 <= i < |L|
    ensures forall e :: Contributes(digests, pos, k, i, e) <==> e in Select(L[i].Records(), Keyed(k))
    ensures forall p :: pos[i] < p < |digests[i].keyed| ==> digests[i].keyed[p].key != k
  {
    var keyed := digests[i].keyed;
    assert ReadTo(digests[i], pos[i], done);
    assert forall p :: pos[i] < p < |keyed| ==> Less(keyed[pos[i]].key, keyed[p].key);
    assert Select(L[i].Records(), Keyed(k)) != [] ==> HasKey(keyed, k);
  }

  lemma ReadThroughNext(L: seq<Segment>, digests: seq<KeyDigest>, pos: seq<nat>, pos': seq<nat>, done: set<Key>, k: Key)
    requires AllAccurate(L, digests) && ReadThrough(digests, pos, done) && SmallestAt(digests, pos, k) && k !in done
    requires Positions(digests, pos')
    requires forall i :: 0 <= i < |pos| ==> pos'[i] == pos[i] + if AtKey(digests[i], pos[i], k) then 1 else 0
    ensures ReadThrough(digests, pos', done + {k})
  {
    forall i | 0 <= i < |digests|
      ensures ReadTo(digests[i], pos'[i], done + {k})
    {
      KeyAtFront(L, digests, pos, done, k, i);
      assert ReadTo(digests[i], pos[i], done);
      ReadPast(digests[i], pos[i], pos'[i], done, k);
    }
  }

  lemma ReadPast(d: KeyDigest, pos: nat, pos': nat, done: set<Key>, k: Key)
    requires ReadTo(d, pos, done) && pos' == pos + (if AtKey(d, pos, k) then 1 else 0) && k !in done
    requires forall p :: pos < p < |d.keyed| ==> d.keyed[p].key != k
    ensures ReadTo(d, pos', done + {k})
  {
  }

  /** What was gathered for a key is all of its records. */
  lemma Gathered(L: seq<Segment>, spec: CleanSpec, digests: seq<KeyDigest>, pos: seq<nat>, done: set<Key>, k: Key,
                 i: int, e: DigestRec)
    requires AllAccurate(L, digests) && ReadThrough(digests, pos, done) && SmallestAt(digests, pos, k) && k !in done
    ensures Contributes(digests, pos, k, i, e) <==>
            exists r :: HeldBy(L, i, r) && !r.control && r.key == Some(k) && EntryOf(r) == e
  {
    if 0 <= i < |L| {
      KeyAtFront(L, digests, pos, done, k, i);
      Selected(L[i].Records(), Keyed(k), e);
      forall r
        ensures SectionOf(r) == Keyed(k) <==> !r.control && r.key == Some(k)
      {
      }
    }
  }

  lemma GatheredParts(L: seq<Segment>, spec: CleanSpec, digests: seq<KeyDigest>, pos: seq<nat>, done: set<Key>,
                      k: Key, parts: seq<Part>)
    requires AllAccurate(L, digests) && ReadThrough(digests, pos, done) && SmallestAt(digests, pos, k) && k !in done
    requires forall p :: p in parts <==> Contributes(digests, pos, k, p.seg, p.rec) && EntryParticipates(spec, p.rec)
    ensures PartsOf(L, spec, k, parts)
  {
    forall p
      ensures p in parts <==> IsPart(L, spec, k, p)
    {
      Gathered(L, spec, digests, pos, done, k, p.seg, p.rec);
    }
  }

  ghost predicate StripIn(L: seq<Segment>, spec: CleanSpec, i: int, keys: set<Key>) {
    exists r :: HeldBy(L, i, r) && KeyIn(r, keys) && StripWork(spec, r)
  }

  ghost predicate AbortedIn(L: seq<Segment>, spec: CleanSpec, i: int, keys: set<Key>) {
    exists r :: HeldBy(L, i, r) && KeyIn(r, keys) && AbortedWork(spec, r)
  }

  ghost predicate CollectableIn(L: seq<Segment>, spec: CleanSpec, now: int, i: int, keys: set<Key>) {
    exists r :: HeldBy(L, i, r) && KeyIn(r, keys) && Collectable(L, spec, now, r)
  }

  lemma GatheredFlags(L: seq<Segment>, spec: CleanSpec, digests: seq<KeyDigest>, pos: seq<nat>, done: set<Key>,
                      k: Key, i: int)
    requires AllAccurate(L, digests) && ReadThrough(digests, pos, done) && SmallestAt(digests, pos, k) && k !in done
    ensures StripSeen(spec, digests, pos, k, i) <==> StripIn(L, spec, i, {k})
    ensures AbortedSeen(spec, digests, pos, k, i) <==> AbortedIn(L, spec, i, {k})
  {
    forall e {
      Gathered(L, spec, digests, pos, done, k, i, e);
    }
    forall r | HeldBy(L, i, r) && KeyIn(r, {k}) && !r.control
      ensures Contributes(digests, pos, k, i, EntryOf(r))
      ensures EntryStrip(spec, EntryOf(r)) <==> StripWork(spec, r)
      ensures EntryAborted(spec, EntryOf(r)) <==> AbortedWork(spec, r)
    {
      Gathered(L, spec, digests, pos, done, k, i, EntryOf(r));
    }
  }

  lemma FlagUnion(L: seq<Segment>, spec: CleanSpec, now: int, i: int, keys: set<Key>, k: Key)
    ensures StripIn(L, spec, i, keys + {k}) <==> StripIn(L, spec, i, keys) || StripIn(L, spec, i, {k})
    ensures AbortedIn(L, spec, i, keys + {k}) <==> AbortedIn(L, spec, i, keys) || AbortedIn(L, spec, i, {k})
    ensures CollectableIn(L, spec, now, i, keys + {k}) <==>
            CollectableIn(L, spec, now, i, keys) || CollectableIn(L, spec, now, i, {k})
  {
    assert forall r :: KeyIn(r, keys + {k}) <==> KeyIn(r, keys) || KeyIn(r, {k});
  }

  /** A key's newest copy is collectable exactly when its entry has expired. */
  lemma NewestCollectable(L: seq<Segment>, spec: CleanSpec, now: int, k: Key, parts: seq<Part>, newest: Option<Part>,
                          i: int)
    requires ValidLog(L) && PartsOf(L, spec, k, parts) && IsNewest(parts, newest)
    ensures CollectableIn(L, spec, now, i, {k}) <==>
            newest.Some? && newest.value.seg == i && ExpiredEntry(spec, now, newest.value.rec)
  {
    if CollectableIn(L, spec, now, i, {k}) {
      var r :| HeldBy(L, i, r) && KeyIn(r, {k}) && Collectable(L, spec, now, r);
      var p := Part(i, EntryOf(r));
      assert IsPart(L, spec, k, p);
      assert p in parts;
      PartSuperseded(L, spec, k, parts, newest.value, i, r);
      assert IsPart(L, spec, k, newest.value);
      PartUnique(L, spec, k, p, newest.value);
    }
    if newest.Some? && newest.value.seg == i && ExpiredEntry(spec, now, newest.value.rec) {
      assert IsPart(L, spec, k, newest.value);
      var r :| HeldBy(L, i, r) && Candidate(spec, r) && r.key == Some(k) && EntryOf(r) == newest.value.rec;
      PartSuperseded(L, spec, k, parts, newest.value, i, r);
      assert KeyIn(r, {k});
    }
  }

  /** Digest entries still to be read. */
  ghost function Remaining(digests: seq<KeyDigest>, pos: seq<nat>): nat
    requires Positions(digests, pos)
    decreases |digests|
  {
    if digests == [] then 0 else
      |digests[0].keyed| - pos[0] + Remaining(digests[1..], pos[1..])
  }

  lemma {:induction false} RemainingDecreases(digests: seq<KeyDigest>, pos: seq<nat>, pos': seq<nat>, m: int)
    requires Positions(digests, pos) && Positions(digests, pos')
    requires forall i :: 0 <= i < |pos| ==> pos[i] <= pos'[i]
    ensures Remaining(digests, pos') <= Remaining(digests, pos)
    ensures 0 <= m < |pos| && pos[m] < pos'[m] ==> Remaining(digests, pos') < Remaining(digests, pos)
    decreases |digests|
  {
    if digests != [] {
      RemainingDecreases(digests[1..], pos[1..], pos'[1..], m - 1);
    }
  }

  /** The merge's answer: per segment, exactly the dropped offsets and the work held. */
  ghost predicate MergedAll(L: seq<Segment>, spec: CleanSpec, now: int, marks: seq<set<int>>,
                            aborted: seq<bool>, strip: seq<bool>, gc: seq<bool>)
  {
    && |marks| == |aborted| == |strip| == |gc| == |L|
    && forall i :: 0 <= i < |L| ==>
         && marks[i] == DroppedIn(L, spec, now, i)
         && (aborted[i] <==> HasAborted(L, spec, i))
         && (strip[i] <==> HasStrip(L, spec, i))
         && (gc[i] <==> HasCollectable(L, spec, now, i))
  }

  /** Merge every digest's keyed section in key order. The bitmaps hold exactly the
      offsets of the dropped records, each count is the number of its bits set, and
      the work flags say exactly which segments hold which work. */
  method Merge(L: seq<Segment>, spec: CleanSpec, now: int, digests: seq<KeyDigest>)
    returns (drops: Drops, aborted: seq<bool>, strip: seq<bool>, gc: seq<bool>)
    requires ValidLog(L) && AllAccurate(L, digests)
    ensures ValidDrops(L, drops) && forall i :: 0 <= i < |L| ==> drops[i] == null || fresh(drops[i])
    ensures MergedAll(L, spec, now, AllMarks(drops), aborted, strip, gc)
  {
    var pos, m;
    ghost var done: set<Key> := {};
    pos, m, drops, aborted, strip, gc := MergeStart(L, spec, now, digests);
    while m != -1
      invariant ReadThrough(digests, pos, done) && Front(digests, pos, m)
      invariant ValidDrops(L, drops) && forall i :: 0 <= i < |L| ==> drops[i] == null || fresh(drops[i])
      invariant MergedThrough(L, spec, now, AllMarks(drops), aborted, strip, gc, done)
      decreases Remaining(digests, pos)
    {
      ghost var k := digests[m].keyed[pos[m]].key;
      pos, m, drops, aborted, strip, gc := MergeNext(L, spec, now, digests, pos, m, drops, aborted, strip, gc, done);
      done := done + {k};
    }
    MergeEnds(L, spec, now, digests, pos, AllMarks(drops), aborted, strip, gc, done);
  }

  lemma MergeEnds(L: seq<Segment>, spec: CleanSpec, now: int, digests: seq<KeyDigest>, pos: seq<nat>,
                  marks: seq<set<int>>, aborted: seq<bool>, strip: seq<bool>, gc: seq<bool>, done: set<Key>)
    requires AllAccurate(L, digests) && ReadThrough(digests, pos, done) && Front(digests, pos, -1)
    requires MergedThrough(L, spec, now, marks, aborted, strip, gc, done)
    ensures MergedAll(L, spec, now, marks, aborted, strip, gc)
  {
    AllKeysDone(L, digests, pos, done);
    MergedIsWhole(L, spec, now, marks, aborted, strip, gc, done);
  }

  /** Every digest at its first key, nothing marked. */
  method MergeStart(L: seq<Segment>, ghost spec: CleanSpec, ghost now: int, digests: seq<KeyDigest>)
    returns (pos: seq<nat>, m: int, drops: Drops, aborted: seq<bool>, strip: seq<bool>, gc: seq<bool>)
    requires |digests| == |L|
    ensures ReadThrough(digests, pos, {}) && Front(digests, pos, m)
    ensures ValidDrops(L, drops) && forall i :: 0 <= i < |L| ==> drops[i] == null
    ensures MergedThrough(L, spec, now, AllMarks(drops), aborted, strip, gc, {})
  {
    var n := |digests|;
    drops, pos := seq(n, _ => null), seq(n, _ => 0);
    aborted, strip, gc := seq(n, _ => false), seq(n, _ => false), seq(n, _ => false);
    m := SmallestKey(digests, pos);
    NothingMerged(L, spec, now, AllMarks(drops), aborted, strip, gc);
  }

  /** One key, and the next to come. */
  method MergeNext(L: seq<Segment>, spec: CleanSpec, now: int, digests: seq<KeyDigest>, pos0: seq<nat>, m0: int,
                   drops0: Drops, aborted0: seq<bool>, strip0: seq<bool>, gc0: seq<bool>, ghost done: set<Key>)
    returns (pos: seq<nat>, m: int, drops: Drops, aborted: seq<bool>, strip: seq<bool>, gc: seq<bool>)
    requires ValidLog(L) && AllAccurate(L, digests) && ReadThrough(digests, pos0, done)
    requires 0 <= m0 < |L| && Front(digests, pos0, m0)
    requires ValidDrops(L, drops0) && MergedThrough(L, spec, now, AllMarks(drops0), aborted0, strip0, gc0, done)
    modifies drops0
    ensures ReadThrough(digests, pos, done + {digests[m0].keyed[pos0[m0]].key}) && Front(digests, pos, m)
    ensures Remaining(digests, pos) < Remaining(digests, pos0)
    ensures ValidDrops(L, drops) && forall i :: 0 <= i < |L| ==> drops[i] == drops0[i] || fresh(drops[i])
    ensures MergedThrough(L, spec, now, AllMarks(drops), aborted, strip, gc, done + {digests[m0].keyed[pos0[m0]].key})
  {
    pos, drops, aborted, strip, gc := MergeKey(L, spec, now, digests, pos0, m0, drops0, aborted0, strip0, gc0, done);
    m := SmallestKey(digests, pos);
  }

  /** The smallest key of all: gather it, mark it, advance past it. */
  method MergeKey(L: seq<Segment>, spec: CleanSpec, now: int, digests: seq<KeyDigest>, pos0: seq<nat>, m: int,
                  drops0: Drops, aborted0: seq<bool>, strip0: seq<bool>, gc0: seq<bool>, ghost done: set<Key>)
    returns (pos: seq<nat>, drops: Drops, aborted: seq<bool>, strip: seq<bool>, gc: seq<bool>)
    requires ValidLog(L) && AllAccurate(L, digests) && ReadThrough(digests, pos0, done)
    requires 0 <= m < |L| && Front(digests, pos0, m)
    requires ValidDrops(L, drops0) && MergedThrough(L, spec, now, AllMarks(drops0), aborted0, strip0, gc0, done)
    modifies drops0
    ensures ReadThrough(digests, pos, done + {digests[m].keyed[pos0[m]].key})
    ensures Remaining(digests, pos) < Remaining(digests, pos0)
    ensures ValidDrops(L, drops) && forall i :: 0 <= i < |L| ==> drops[i] == drops0[i] || fresh(drops[i])
    ensures MergedThrough(L, spec, now, AllMarks(drops), aborted, strip, gc, done + {digests[m].keyed[pos0[m]].key})
  {
    var k := digests[m].keyed[pos0[m]].key;
    ghost var marks0 := AllMarks(drops0);
    var parts, newest;
    pos, parts, newest, aborted, strip := GatherKey(L, spec, digests, pos0, m, aborted0, strip0, done);
    drops, gc := CollectKey(L, spec, now, drops0, gc0, k, parts, newest);
    KeyMerged(L, spec, now, k, parts, newest, marks0, AllMarks(drops), aborted0, aborted, strip0, strip, gc0, gc, done);
  }

  /** What a key adds to the flags read off its records. */
  ghost predicate Flagged(L: seq<Segment>, spec: CleanSpec, k: Key, aborted: seq<bool>, aborted': seq<bool>,
                          strip: seq<bool>, strip': seq<bool>) {
    && |aborted| == |aborted'| == |strip| == |strip'| == |L|
    && (forall i :: 0 <= i < |L| ==> (aborted'[i] <==> aborted[i] || AbortedIn(L, spec, i, {k})))
    && forall i :: 0 <= i < |L| ==> (strip'[i] <==> strip[i] || StripIn(L, spec, i, {k}))
  }

  /** What it adds to the bitmaps and to the segments with something collectable. */
  ghost predicate Collected(L: seq<Segment>, spec: CleanSpec, now: int, k: Key, parts: seq<Part>, newest: Option<Part>,
                            marks: seq<set<int>>, marks': seq<set<int>>, gc: seq<bool>, gc': seq<bool>) {
    && |marks| == |marks'| == |gc| == |gc'| == |L|
    && (forall i :: 0 <= i < |L| ==>
          marks'[i] == marks[i] + if newest.Some? then MarkedFor(spec, now, parts, newest.value, i) else {})
    && forall i :: 0 <= i < |L| ==> (gc'[i] <==> gc[i] || CollectableIn(L, spec, now, i, {k}))
  }

  /** Everything the log holds of the key. */
  method GatherKey(L: seq<Segment>, spec: CleanSpec, digests: seq<KeyDigest>, pos0: seq<nat>, m: int,
                   aborted0: seq<bool>, strip0: seq<bool>, ghost done: set<Key>)
    returns (pos: seq<nat>, parts: seq<Part>, newest: Option<Part>, aborted: seq<bool>, strip: seq<bool>)
    requires ValidLog(L) && AllAccurate(L, digests) && ReadThrough(digests, pos0, done)
    requires 0 <= m < |L| && Front(digests, pos0, m) && |aborted0| == |strip0| == |L|
    ensures var k := digests[m].keyed[pos0[m]].key;
            && ReadThrough(digests, pos, done + {k}) && Remaining(digests, pos) < Remaining(digests, pos0)
            && PartsOf(L, spec, k, parts) && IsNewest(parts, newest)
            && Flagged(L, spec, k, aborted0, aborted, strip0, strip)
  {
    var k := digests[m].keyed[pos0[m]].key;
    assert ReadTo(digests[m], pos0[m], done);
    pos, parts, newest, strip, aborted := Gather(spec, digests, pos0, k, strip0, aborted0);
    ReadThroughNext(L, digests, pos0, pos, done, k);
    RemainingDecreases(digests, pos0, pos, m);
    GatheredParts(L, spec, digests, pos0, done, k, parts);
    forall i | 0 <= i < |L|
      ensures aborted[i] <==> aborted0[i] || AbortedIn(L, spec, i, {k})
      ensures strip[i] <==> strip0[i] || StripIn(L, spec, i, {k})
    {
      GatheredFlags(L, spec, digests, pos0, done, k, i);
    }
  }

  /** Mark what its newest record replaces, and that record if it has expired. */
  method CollectKey(L: seq<Segment>, spec: CleanSpec, now: int, drops0: Drops, gc0: seq<bool>, ghost k: Key,
                    parts: seq<Part>, newest: Option<Part>)
    returns (drops: Drops, gc: seq<bool>)
    requires ValidLog(L) && ValidDrops(L, drops0) && |gc0| == |L|
    requires PartsOf(L, spec, k, parts) && IsNewest(parts, newest)
    modifies drops0
    ensures ValidDrops(L, drops) && forall i :: 0 <= i < |L| ==> drops[i] == drops0[i] || fresh(drops[i])
    ensures Collected(L, spec, now, k, parts, newest, old(AllMarks(drops0)), AllMarks(drops), gc0, gc)
  {
    PartsInBounds(L, spec, k, parts);
    gc := gc0;
    if newest.Some? && ExpiredEntry(spec, now, newest.value.rec) {
      gc := gc[newest.value.seg := true];
    }
    forall i | 0 <= i < |L|
      ensures gc[i] <==> gc0[i] || CollectableIn(L, spec, now, i, {k})
    {
      NewestCollectable(L, spec, now, k, parts, newest, i);
    }
    drops := drops0;
    if newest.Some? {
      drops := MarkKey(L, spec, now, drops0, parts, newest.value);
    }
  }

  ghost predicate MergedThrough(L: seq<Segment>, spec: CleanSpec, now: int, marks: seq<set<int>>,
                                aborted: seq<bool>, strip: seq<bool>, gc: seq<bool>, done: set<Key>)
  {
    && |marks| == |aborted| == |strip| == |gc| == |L|
    && forall i :: 0 <= i < |L| ==>
         && marks[i] == DroppedOf(L, spec, now, i, done)
         && (aborted[i] <==> AbortedIn(L, spec, i, done))
         && (strip[i] <==> StripIn(L, spec, i, done))
         && (gc[i] <==> CollectableIn(L, spec, now, i, done))
  }

  lemma NothingMerged(L: seq<Segment>, spec: CleanSpec, now: int, marks: seq<set<int>>,
                      aborted: seq<bool>, strip: seq<bool>, gc: seq<bool>)
    requires |marks| == |aborted| == |strip| == |gc| == |L|
    requires forall i :: 0 <= i < |L| ==> marks[i] == {} && !aborted[i] && !strip[i] && !gc[i]
    ensures MergedThrough(L, spec, now, marks, aborted, strip, gc, {})
  {
  }

  lemma PartsInBounds(L: seq<Segment>, spec: CleanSpec, k: Key, parts: seq<Part>)
    requires ValidLog(L) && PartsOf(L, spec, k, parts)
    ensures PartsFit(L, parts)
  {
    forall p | p in parts
      ensures 0 <= p.seg < |L| && L[p.seg].base <= p.rec.offset < L[p.seg].Next()
    {
      assert IsPart(L, spec, k, p);
      var r :| HeldBy(L, p.seg, r) && Candidate(spec, r) && r.key == Some(k) && EntryOf(r) == p.rec;
      RecordBounds(L, p.seg, r);
    }
  }

  /** One key's step carries the merge from the keys done to those and one more. */
  lemma KeyMerged(L: seq<Segment>, spec: CleanSpec, now: int, k: Key, parts: seq<Part>, newest: Option<Part>,
                  marks: seq<set<int>>, marks': seq<set<int>>, aborted: seq<bool>, aborted': seq<bool>,
                  strip: seq<bool>, strip': seq<bool>, gc: seq<bool>, gc': seq<bool>, done: set<Key>)
    requires ValidLog(L) && PartsOf(L, spec, k, parts) && IsNewest(parts, newest)
    requires MergedThrough(L, spec, now, marks, aborted, strip, gc, done)
    requires Flagged(L, spec, k, aborted, aborted', strip, strip')
    requires Collected(L, spec, now, k, parts, newest, marks, marks', gc, gc')
    ensures MergedThrough(L, spec, now, marks', aborted', strip', gc', done + {k})
  {
    forall i | 0 <= i < |L|
      ensures marks'[i] == DroppedOf(L, spec, now, i, done + {k})
      ensures aborted'[i] <==> AbortedIn(L, spec, i, done + {k})
      ensures strip'[i] <==> StripIn(L, spec, i, done + {k})
      ensures gc'[i] <==> CollectableIn(L, spec, now, i, done + {k})
    {
      FlagUnion(L, spec, now, i, done, k);
      DroppedUnion(L, spec, now, i, done, k);
      if newest.Some? {
        MarkedIsDropped(L, spec, now, k, parts, newest.value, i);
      } else {
        NothingDropped(L, spec, now, k, i);
      }
    }
  }

  /** When every digest is spent, every key of every keyed data record is done. */
  ghost predicate Covered(L: seq<Segment>, done: set<Key>) {
    forall i, r :: HeldBy(L, i, r) && !r.control && r.key.Some? ==> r.key.value in done
  }

  lemma AllKeysDone(L: seq<Segment>, digests: seq<KeyDigest>, pos: seq<nat>, done: set<Key>)
    requires AllAccurate(L, digests) && ReadThrough(digests, pos, done)
    requires forall i :: 0 <= i < |pos| ==> pos[i] == |digests[i].keyed|
    ensures Covered(L, done)
  {
    forall i, r | HeldBy(L, i, r) && !r.control && r.key.Some?
      ensures r.key.value in done
    {
      Selected(L[i].Records(), Keyed(r.key.value), EntryOf(r));
      assert HasKey(digests[i].keyed, r.key.value);
      assert ReadTo(digests[i], pos[i], done);
      var p :| 0 <= p < |digests[i].keyed| && digests[i].keyed[p].key == r.key.value;
    }
  }

  lemma MergedIsWhole(L: seq<Segment>, spec: CleanSpec, now: int, marks: seq<set<int>>,
                      aborted: seq<bool>, strip: seq<bool>, gc: seq<bool>, done: set<Key>)
    requires Covered(L, done) && MergedThrough(L, spec, now, marks, aborted, strip, gc, done)
    ensures MergedAll(L, spec, now, marks, aborted, strip, gc)
  {
    forall i | 0 <= i < |L|
      ensures DroppedOf(L, spec, now, i, done) == DroppedIn(L, spec, now, i)
      ensures AbortedIn(L, spec, i, done) <==> HasAborted(L, spec, i)
      ensures StripIn(L, spec, i, done) <==> HasStrip(L, spec, i)
      ensures CollectableIn(L, spec, now, i, done) <==> HasCollectable(L, spec, now, i)
    {
      assert forall r :: r in L[i].Records() && Dropped(L, spec, now, r) ==> HeldBy(L, i, r);
    }
  }
}
