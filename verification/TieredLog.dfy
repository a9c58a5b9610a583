/** The log's side of moves and republishes, with every store write recorded so that a
    crash can be placed after any of them. */
module TieredLogs {
  import opened Bytes
  import opened TierManifests
  import opened TierMoves

  /** What survives a crash. */
  datatype Durable = Durable(manifests: Manifests, objects: Objects)

  /** One store write: an object, or a tier's manifest. */
  ghost predicate OneWrite(d: Durable, d': Durable) {
    || (d'.manifests == d.manifests && exists a :: a in d'.objects && d'.objects - {a} == d.objects - {a})
    || (d'.objects == d.objects && exists t :: t in d'.manifests && d'.manifests - {t} == d.manifests - {t})
  }

  /** Every state a crash could have left, write by write up to the present one, is
      recoverable. */
  ghost predicate Survives(trace: seq<Durable>, now: Durable, contents: Contents) {
    && trace != [] && trace[|trace| - 1] == now
    && (forall i, j {:trigger OneWrite(trace[i], trace[j])} :: 0 <= i && j == i + 1 < |trace| ==>
        OneWrite(trace[i], trace[j]))
    && forall i {:trigger Survivable(trace[i], contents)} :: 0 <= i < |trace| ==> Survivable(trace[i], contents)
  }

  ghost predicate Survivable(d: Durable, contents: Contents) {
    Recoverable(d.manifests, d.objects, contents)
  }

  lemma SurvivesWrite(trace: seq<Durable>, now: Durable, next: Durable, contents: Contents)
    requires Survives(trace, now, contents) && OneWrite(now, next)
    requires Recoverable(next.manifests, next.objects, contents)
    ensures Survives(trace + [next], next, contents)
  {
    var trace' := trace + [next];
    forall i, j | 0 <= i && j == i + 1 < |trace'|
      ensures OneWrite(trace'[i], trace'[j])
    {
      assert j < |trace| ==> OneWrite(trace[i], trace[j]);
    }
    forall i | 0 <= i < |trace'|
      ensures Survivable(trace'[i], contents)
    {
      assert i < |trace| ==> Survivable(trace[i], contents);
    }
  }

  lemma PartStill(objects: Objects, a: Address, blob: Blob, t: Tier, key: Option<StoreKey>, c: Option<Blob>)
    requires a !in objects && PartComplete(objects, t, key, c)
    ensures PartComplete(objects[a := blob], t, key, c)
  {
  }

  lemma CompleteStill(objects: Objects, a: Address, blob: Blob, o: TierObject, c: Content)
    requires a !in objects && Complete(objects, o, c)
    ensures Complete(objects[a := blob], o, c)
  {
    PartStill(objects, a, blob, o.tier, Some(o.logKey), Some(c.log));
    PartStill(objects, a, blob, o.tier, o.indexKey, c.index);
    PartStill(objects, a, blob, o.tier, o.blocksKey, c.blocks);
  }

  /** An object no manifest names changes nothing. */
  lemma RecoverableStill(m: Manifests, objects: Objects, contents: Contents, a: Address, blob: Blob)
    requires a !in objects && Recoverable(m, objects, contents)
    ensures Recoverable(m, objects[a := blob], contents)
  {
    forall t, base | Names(m, t, base)
      ensures Holds(objects[a := blob], t, base, m[t][base], contents)
    {
      assert Holds(objects, t, base, m[t][base], contents);
      CompleteStill(objects, a, blob, m[t][base], contents[base]);
    }
  }

  /** The segment's entry does not say it came from where it is going. */
  ghost predicate NotFrom(m: Manifests, live: Manifest, base: int, dst: Tier) {
    base in live && Names(m, live[base].tier, base) && m[live[base].tier][base].movedFrom != Some(dst)
  }

  lemma SettledReleased(m: Manifests, live: Manifest)
    requires Settled(m, live)
    ensures forall base, t :: !Unreleased(m, live, base, t)
  {
  }

  /** A finished move: the segment is claimed by the destination alone. */
  lemma MoveSettled(m: Manifests, live: Manifest, base: int, n: TierObject)
    requires Settled(m, live) && Backed(m, live) && base in live && n.tier in m && live[base].tier in m
    requires n.tier != live[base].tier
    ensures var live' := live[base := n.(movedFrom := None)];
            var m' := Written(Written(m, live[base := n], {n.tier}), live', {live[base].tier});
            && Settled(m', live')
            && forall b :: b in live && b != base ==> KeptMarker(m, m', live[b].tier, b)
  {
    var src, dst := live[base].tier, n.tier;
    var live' := live[base := n.(movedFrom := None)];
    var m1 := Written(m, live[base := n], {dst});
    var m' := Written(m1, live', {src});
    forall b, t
      ensures Names(m', t, b) <==> if t == src then b in live' && live'[b].tier == t else Names(m1, t, b)
      ensures Names(m1, t, b) <==> if t == dst then b == base || (b in live && live[b].tier == t) else Names(m, t, b)
    {
      WrittenNames(m1, live', {src}, t, b);
      CommitNames(m, live, base, n, t, b);
    }
    forall b | b in live && b != base
      ensures KeptMarker(m, m', live[b].tier, b)
    {
      WrittenNames(m1, live', {src}, live[b].tier, b);
      CommitNames(m, live, base, n, live[b].tier, b);
    }
  }

  class TieredLog {
    /** The configured tiers, nearest first, and those this log may write to. */
    const tiers: seq<Tier>
    const writable: set<Tier>
    /** Which store writes, and which repoints, fail. */
    const fails: nat -> bool
    var attempts: nat
    var manifests: Manifests
    var objects: Objects
    /** Where the log reads each offloaded segment. */
    var live: Manifest
    /** No object was stored under this upload id or a later one. */
    var uploads: nat
    /** What each segment's objects hold. */
    ghost const contents: Contents
    /** The durable state after every store write. */
    ghost var trace: seq<Durable>

    ghost predicate Valid()
      reads this
    {
      && Agreeing(manifests, objects, live, contents)
      && (forall t :: t in tiers ==> t in manifests)
      && (forall a :: a in objects ==> a.key.upload < uploads)
      && Survives(trace, Durable(manifests, objects), contents)
    }

    /** A log over the given stores, each segment where the merged manifests say. */
    constructor (tiers: seq<Tier>, writable: set<Tier>, fails: nat -> bool, manifests: Manifests, objects: Objects,
                 live: Manifest, uploads: nat, ghost contents: Contents)
      requires Agreeing(manifests, objects, live, contents)
      requires forall t :: t in tiers ==> t in manifests
      requires forall a :: a in objects ==> a.key.upload < uploads
      ensures Valid() && |trace| == 1 && this.manifests == manifests && this.live == live && this.contents == contents
    {
      this.tiers, this.writable, this.fails, attempts := tiers, writable, fails, 0;
      this.manifests, this.objects, this.live, this.uploads := manifests, objects, live, uploads;
      this.contents, trace := contents, [Durable(manifests, objects)];
    }

    /** Store an object under a key nothing was stored under. */
    method Put(a: Address, blob: Blob) returns (ok: bool)
      requires Valid() && a !in objects && a.key.upload < uploads
      modifies this`objects, this`attempts, this`trace
      ensures Valid() && old(trace) <= trace && objects == if ok then old(objects)[a := blob] else old(objects)
    {
      attempts := attempts + 1;
      if fails(attempts) {
        return false;
      }
      RecoverableStill(manifests, objects, contents, a, blob);
      assert a in objects[a := blob] && objects[a := blob] - {a} == objects - {a};
      SurvivesWrite(trace, Durable(manifests, objects), Durable(manifests, objects[a := blob]), contents);
      objects := objects[a := blob];
      trace := trace + [Durable(manifests, objects)];
      return true;
    }

    /** Copy a segment's object, when it has one, to where an entry names it. */
    method CopyObject(from: Tier, key: Option<StoreKey>, to: Tier, as': Option<StoreKey>, ghost c: Option<Blob>)
      returns (ok: bool)
      requires Valid() && PartComplete(objects, from, key, c) && (key.Some? <==> as'.Some?)
      requires as'.Some? ==> Address(to, as'.value) !in objects && as'.value.upload < uploads
      modifies this`objects, this`attempts, this`trace
      ensures Valid() && old(trace) <= trace && (ok ==> PartComplete(objects, to, as', c))
      ensures forall a :: a in objects ==> a in old(objects) || (as'.Some? && a == Address(to, as'.value))
      ensures forall a :: a in old(objects) ==> a in objects && objects[a] == old(objects)[a]
    {
      if key.None? {
        return true;
      }
      ok := Put(Address(to, as'.value), objects[Address(from, key.value)]);
    }

    /** Publish one tier's manifest, rebuilt from the given view; a tier this log does
        not own is left alone. */
    method Publish(t: Tier, objs: Manifest) returns (ok: bool)
      requires Valid() && t in manifests
      requires Recoverable(Written(manifests, objs, {t}), objects, contents) &&
               Backed(Written(manifests, objs, {t}), live)
      modifies this`manifests, this`attempts, this`trace
      ensures Valid() && old(trace) <= trace
      ensures manifests == if ok && t in writable then Written(old(manifests), objs, {t}) else old(manifests)
    {
      if t !in writable {
        return true;
      }
      attempts := attempts + 1;
      if fails(attempts) {
        return false;
      }
      var body := NamedIn(objs, t);
      ghost var before := manifests;
      assert manifests[t := body] == Written(before, objs, {t});
      assert t in before[t := body] && before[t := body] - {t} == before - {t};
      SurvivesWrite(trace, Durable(before, objects), Durable(before[t := body], objects), contents);
      manifests := manifests[t := body];
      trace := trace + [Durable(manifests, objects)];
      return true;
    }

    /** Fresh keys for a segment's objects in the destination, for those it has. */
    method NewStoreKeys(base: int, o: TierObject, dst: Tier) returns (n: TierObject)
      requires Valid()
      modifies this`uploads
      ensures Valid() && uploads == old(uploads) + 1
      ensures n == TierObject(dst, StoreKey(base, old(uploads), LogPart),
                              if o.indexKey.Some? then Some(StoreKey(base, old(uploads), IndexPart)) else None,
                              if o.blocksKey.Some? then Some(StoreKey(base, old(uploads), BlocksPart)) else None,
                              Some(o.tier))
    {
      var log := StoreKey(base, uploads, LogPart);
      uploads := uploads + 1;
      n := TierObject(dst, log,
                      if o.indexKey.Some? then Some(log.(part := IndexPart)) else None,
                      if o.blocksKey.Some? then Some(log.(part := BlocksPart)) else None,
                      Some(o.tier));
    }

    /** Copy every object of a segment into the destination. */
    method CopySegment(base: int, dst: Tier) returns (ok: bool, n: TierObject)
      requires Valid() && base in live && dst != live[base].tier && dst in tiers
      modifies this`objects, this`attempts, this`trace, this`uploads
      ensures Valid() && old(trace) <= trace
      ensures n.tier == dst && n.tier in manifests && (ok ==> MovedEntry(objects, live, contents, base, n))
    {
      var o := live[base];
      assert Holds(objects, o.tier, base, manifests[o.tier][base], contents) by {
        assert Names(manifests, o.tier, base);
      }
      ghost var c := contents[base];
      assert Complete(objects, o, c);
      n := NewStoreKeys(base, o, dst);
      ok := CopyObject(o.tier, Some(o.logKey), dst, Some(n.logKey), Some(c.log));
      if ok {
        ok := CopyObject(o.tier, o.indexKey, dst, n.indexKey, c.index);
      }
      if ok {
        ok := CopyObject(o.tier, o.blocksKey, dst, n.blocksKey, c.blocks);
      }
    }

    /** Move one segment. Whatever fails, and wherever a crash falls, every durable state
        on the way is recoverable. */
    method MoveSegment(base: int, dst: Tier) returns (ok: bool)
      requires Valid() && Settled(manifests, live) && NotFrom(manifests, live, base, dst) && dst in tiers
      modifies this
      ensures Valid() && old(trace) <= trace
      ensures ok ==> Settled(manifests, live) && Relocated(old(live), live, base, dst)
      ensures ok ==> MarkersKept(old(manifests), manifests, live, base)
    {
      var src := live[base].tier;
      if src == dst {
        MarkersSame(manifests, live, base);
        return true;
      }
      if src !in writable || dst !in writable {
        return false;
      }
      ok := MoveInto(base, dst);
    }

    /** The move itself: copy, commit, repoint and release. */
    method MoveInto(base: int, dst: Tier) returns (ok: bool)
      requires Valid() && Settled(manifests, live) && NotFrom(manifests, live, base, dst) && dst in tiers
      requires live[base].tier != dst && live[base].tier in writable && dst in writable
      modifies this
      ensures Valid() && old(trace) <= trace
      ensures ok ==> Settled(manifests, live) && Relocated(old(live), live, base, dst)
      ensures ok ==> MarkersKept(old(manifests), manifests, live, base)
    {
      var n;
      ok, n := CopySegment(base, dst);
      if ok {
        ok := MoveCopied(base, n);
      }
    }

    /** Commit and release, the copies being in place. */
    method MoveCopied(base: int, n: TierObject) returns (ok: bool)
      requires Valid() && Settled(manifests, live) && NotFrom(manifests, live, base, n.tier)
      requires n.tier in manifests && n.tier in writable && MovedEntry(objects, live, contents, base, n)
      requires live[base].tier in writable
      modifies this`manifests, this`attempts, this`trace, this`live
      ensures Valid() && old(trace) <= trace
      ensures ok ==> Settled(manifests, live) && Relocated(old(live), live, base, n.tier)
      ensures ok ==> MarkersKept(old(manifests), manifests, live, base)
    {
      ghost var m0 := manifests;
      ok := CommitMove(base, n);
      if ok {
        ok := ReleaseMove(m0, base, n);
      }
    }

    /** Publish the destination's manifest: the commit. */
    method CommitMove(base: int, n: TierObject) returns (ok: bool)
      requires Valid() && Settled(manifests, live) && NotFrom(manifests, live, base, n.tier)
      requires n.tier in manifests && n.tier in writable && MovedEntry(objects, live, contents, base, n)
      modifies this`manifests, this`attempts, this`trace
      ensures Valid() && old(trace) <= trace
      ensures manifests == if ok then Written(old(manifests), live[base := n], {n.tier}) else old(manifests)
    {
      SettledReleased(manifests, live);
      CommitExact(manifests, objects, live, contents, base, n);
      CommitBacked(manifests, live, base, n);
      ok := Publish(n.tier, live[base := n]);
    }

    /** Repoint the segment at the destination, and release the source. */
    method ReleaseMove(ghost m0: Manifests, base: int, n: TierObject) returns (ok: bool)
      requires Valid() && Settled(m0, live) && Backed(m0, live) && base in live && live[base].tier in writable
      requires n.tier in m0 && n.tier != live[base].tier && manifests == Written(m0, live[base := n], {n.tier})
      modifies this`manifests, this`attempts, this`trace, this`live
      ensures Valid() && old(trace) <= trace
      ensures ok ==> Moved(m0, manifests, old(live), live, base, n.tier)
    {
      var o := n.(movedFrom := None);
      ReleaseSafe(m0, manifests, objects, live, live[base := o], contents, base, n);
      ok := SwapTier(base, o, m0);
    }

    /** Repoint, unless that fails, and then release. */
    method SwapTier(base: int, o: TierObject, ghost m0: Manifests) returns (ok: bool)
      requires Valid() && base in live && live[base].tier in manifests && live[base].tier in writable
      requires Agreeing(manifests, objects, live[base := o], contents)
      requires var m2 := Written(manifests, live[base := o], {live[base].tier});
               Agreeing(m2, objects, live[base := o], contents) && Moved(m0, m2, live, live[base := o], base, o.tier)
      modifies this`manifests, this`attempts, this`trace, this`live
      ensures Valid() && old(trace) <= trace
      ensures ok ==> Moved(m0, manifests, old(live), live, base, o.tier)
    {
      attempts := attempts + 1;
      if fails(attempts) {
        return false;
      }
      var src := live[base].tier;
      ghost var live0 := live;
      Repoint(base, o);
      ok := Release(src, m0, live0, base, o.tier);
    }

    /** Publish the source's manifest without the segment. */
    method Release(src: Tier, ghost m0: Manifests, ghost live0: Manifest, ghost base: int, ghost dst: Tier)
      returns (ok: bool)
      requires Valid() && src in manifests && src in writable
      requires Agreeing(Written(manifests, live, {src}), objects, live, contents)
      requires Moved(m0, Written(manifests, live, {src}), live0, live, base, dst)
      modifies this`manifests, this`attempts, this`trace
      ensures Valid() && old(trace) <= trace
      ensures ok ==> Moved(m0, manifests, live0, live, base, dst)
    {
      ok := Publish(src, live);
    }

    /** Read the segment where the destination's manifest says it is. */
    method Repoint(base: int, o: TierObject)
      requires Valid() && Agreeing(manifests, objects, live[base := o], contents)
      modifies this`live
      ensures Valid() && live == old(live)[base := o]
    {
      live := live[base := o];
    }

    /** Move every placed segment to the tier it was placed in, stopping at the first
        failure; a tier that is not configured moves nothing. */
    method MovePlaced(placement: map<int, Tier>) returns (ok: bool)
      requires Valid() && Settled(manifests, live)
      requires forall base :: base in live && base in placement ==> NotFrom(manifests, live, base, placement[base])
      modifies this
      ensures Valid() && old(trace) <= trace
      ensures ok ==> Settled(manifests, live)
      ensures ok ==> Placed(old(live), live, placement, {}) && Unplaced(old(live), live, placement)
      ensures !(placement.Values <= set t | t in tiers) ==> !ok && live == old(live) && manifests == old(manifests)
    {
      if !(placement.Values <= set t | t in tiers) {
        return false;
      }
      var todo: set<int> := live.Keys * placement.Keys;
      while todo != {}
        invariant old(trace) <= trace
        invariant Valid() && Settled(manifests, live) && Pending(manifests, live, placement, todo)
        invariant Placed(old(live), live, placement, todo) && Unplaced(old(live), live, placement)
      {
        SomeBase(todo);
        var base :| base in todo;
        assert placement[base] in placement.Values;
        ghost var m, l := manifests, live;
        ok := MoveSegment(base, placement[base]);
        if !ok {
          return;
        }
        OneMorePlaced(m, manifests, old(live), l, live, placement, todo, base);
        todo := todo - {base};
      }
      return true;
    }

    /** Republish every tier this log owns, in configured order. */
    method Republish() returns (ok: bool)
      requires Valid()
      requires forall base, t :: Unreleased(manifests, live, base, t) ==>
                 ReleasedFirst(tiers, writable, t, live[base].tier)
      modifies this`manifests, this`attempts, this`trace
      ensures Valid() && old(trace) <= trace
      ensures ok ==> manifests == Written(old(manifests), live, Reached(tiers, writable, |tiers|))
    {
      ghost var m0 := manifests;
      RepublishExact(m0, objects, live, contents, tiers, writable);
      WrittenNothing(m0, live, tiers, writable);
      for k := 0 to |tiers|
        invariant old(trace) <= trace
        invariant Valid() && manifests == Written(m0, live, Reached(tiers, writable, k))
      {
        ok := RepublishTier(m0, k);
        if !ok {
          return;
        }
      }
      return true;
    }

    /** The next tier's manifest, if this log owns it. */
    method RepublishTier(ghost m0: Manifests, k: nat) returns (ok: bool)
      requires Valid() && k < |tiers| && manifests == Written(m0, live, Reached(tiers, writable, k))
      requires Agreeing(m0, objects, live, contents) && forall t :: t in tiers ==> t in m0
      requires Recoverable(Written(m0, live, Reached(tiers, writable, k + 1)), objects, contents)
      modifies this`manifests, this`attempts, this`trace
      ensures Valid() && old(trace) <= trace
      ensures ok ==> manifests == Written(m0, live, Reached(tiers, writable, k + 1))
    {
      RepublishOne(m0, objects, live, contents, tiers, writable, k);
      if tiers[k] !in writable {
        return true;
      }
      ok := Publish(tiers[k], live);
    }
  }

  /** A move carried through: settled again, one segment in a new place. */
  ghost predicate Moved(m: Manifests, m': Manifests, live: Manifest, live': Manifest, base: int, dst: Tier) {
    Settled(m', live') && Relocated(live, live', base, dst) && MarkersKept(m, m', live', base)
  }

  /** One segment changed place, and no other. */
  ghost predicate Relocated(live: Manifest, live': Manifest, base: int, dst: Tier) {
    && live'.Keys == live.Keys && base in live' && live'[base].tier == dst
    && forall b :: b in live && b != base ==> live'[b] == live[b]
  }

  ghost predicate KeptMarker(m: Manifests, m': Manifests, t: Tier, base: int) {
    && Names(m, t, base) && Names(m', t, base)
    && (m'[t][base].movedFrom == None || m'[t][base].movedFrom == m[t][base].movedFrom)
  }

  ghost predicate MarkersKept(m: Manifests, m': Manifests, live: Manifest, base: int) {
    forall b :: b in live && b != base ==> KeptMarker(m, m', live[b].tier, b)
  }

  lemma MarkersSame(m: Manifests, live: Manifest, base: int)
    requires Backed(m, live)
    ensures MarkersKept(m, m, live, base)
  {
  }

  /** Once the segment serves the destination, only its own source is unreleased. */
  lemma AfterCommit(m: Manifests, live: Manifest, base: int, n: TierObject)
    requires Settled(m, live) && Backed(m, live) && base in live && n.tier in m && n.tier != live[base].tier
    ensures var m' := Written(m, live[base := n], {n.tier});
            var live' := live[base := n.(movedFrom := None)];
            forall b, t :: Unreleased(m', live', b, t) ==> b == base
  {
    var m' := Written(m, live[base := n], {n.tier});
    forall b, t
      ensures Names(m', t, b) <==> if t == n.tier then b == base || (b in live && live[b].tier == t) else Names(m, t, b)
    {
      CommitNames(m, live, base, n, t, b);
    }
  }

  lemma ReleaseSafe(m: Manifests, m1: Manifests, objects: Objects, live: Manifest, live': Manifest, contents: Contents,
                    base: int, n: TierObject)
    requires Settled(m, live) && Backed(m, live) && base in live && n.tier in m && n.tier != live[base].tier
    requires m1 == Written(m, live[base := n], {n.tier}) && live' == live[base := n.(movedFrom := None)]
    requires Agreeing(m1, objects, live, contents)
    ensures Agreeing(m1, objects, live', contents) && live[base].tier in m1
    ensures var m2 := Written(m1, live', {live[base].tier});
            Agreeing(m2, objects, live', contents) && Moved(m, m2, live, live', base, n.tier)
  {
    CommitBacked(m, live, base, n);
    AfterCommit(m, live, base, n);
    MoveSettled(m, live, base, n);
    PublishExact(Written(m, live[base := n], {n.tier}), objects, live[base := n.(movedFrom := None)], contents,
                 {live[base].tier});
  }

  /** A move that committed and repointed but did not release: the republish of every
      tier that follows survives a crash anywhere in it if and only if the source is
      rewritten before the destination, which the configured order decides. */
  lemma InterruptedRepublish(m: Manifests, objects: Objects, live: Manifest, contents: Contents, base: int,
                             n: TierObject, tiers: seq<Tier>, writable: set<Tier>)
    requires Agreeing(m, objects, live, contents) && Settled(m, live) && n.tier in m &&
             (forall t :: t in tiers ==> t in m)
    requires MovedEntry(objects, live, contents, base, n) && NotFrom(m, live, base, n.tier)
    ensures var m1, live' := Written(m, live[base := n], {n.tier}), live[base := n.(movedFrom := None)];
            (forall k :: 0 <= k <= |tiers| ==>
               Recoverable(Written(m1, live', Reached(tiers, writable, k)), objects, contents)) <==>
            ReleasedFirst(tiers, writable, live[base].tier, n.tier)
  {
    var src, m1, live' := live[base].tier, Written(m, live[base := n], {n.tier}), live[base := n.(movedFrom := None)];
    SettledReleased(m, live);
    CommitExact(m, objects, live, contents, base, n);
    CommitBacked(m, live, base, n);
    AfterCommit(m, live, base, n);
    RepublishExact(m1, objects, live', contents, tiers, writable);
    forall t
      ensures Unreleased(m1, live', base, t) <==> t == src
    {
      CommitNames(m, live, base, n, t, base);
    }
  }

  /** With the destination configured before the source, the state in between is
      refused at open. */
  lemma DestinationFirstRefused(m: Manifests, objects: Objects, live: Manifest, contents: Contents, base: int,
                                n: TierObject)
    requires Agreeing(m, objects, live, contents) && Settled(m, live) && n.tier in m
    requires MovedEntry(objects, live, contents, base, n) && NotFrom(m, live, base, n.tier)
    ensures var m1, live' := Written(m, live[base := n], {n.tier}), live[base := n.(movedFrom := None)];
            var src := live[base].tier;
            var between := Written(m1, live', Reached([n.tier, src], {n.tier, src}, 1));
            !Recoverable(between, objects, contents) && forall r :: IsMerge(between, r) ==> r.None?
  {
    var src := live[base].tier;
    var m1, live' := Written(m, live[base := n], {n.tier}), live[base := n.(movedFrom := None)];
    var tiers := [n.tier, src];
    assert tiers[..1] == [n.tier];
    assert Reached(tiers, {n.tier, src}, 1) == {n.tier};
    var m2 := Written(m1, live', {n.tier});
    assert Names(m, src, base) && Names(m2, src, base) && Names(m2, n.tier, base);
    assert m2[n.tier][base].movedFrom == None && m2[src][base] == m[src][base];
    NeitherWins(m2, base, n.tier, src);
  }

  /** The placed segments still to move, none of them marked as coming from its goal. */
  ghost predicate Pending(m: Manifests, live: Manifest, placement: map<int, Tier>, todo: set<int>) {
    forall base :: base in todo ==> base in placement && NotFrom(m, live, base, placement[base])
  }

  /** The placed segments already moved, and everything else where it was. */
  ghost predicate Placed(live0: Manifest, live: Manifest, placement: map<int, Tier>, todo: set<int>) {
    && live.Keys == live0.Keys
    && forall base :: base in live ==> base in placement ==> base !in todo ==> live[base].tier == placement[base]
  }

  ghost predicate Unplaced(live0: Manifest, live: Manifest, placement: map<int, Tier>) {
    forall base :: base in live ==> base in live0 ==> base !in placement ==> live[base] == live0[base]
  }

  lemma OneMorePlaced(m: Manifests, m': Manifests, live0: Manifest, live: Manifest, live': Manifest,
                      placement: map<int, Tier>, todo: set<int>, base: int)
    requires Pending(m, live, placement, todo) && Placed(live0, live, placement, todo) &&
             Unplaced(live0, live, placement)
    requires base in todo && Relocated(live, live', base, placement[base])
    requires MarkersKept(m, m', live', base)
    ensures Pending(m', live', placement, todo - {base}) && Placed(live0, live', placement, todo - {base})
    ensures Unplaced(live0, live', placement)
  {
    forall b | b in todo - {base}
      ensures NotFrom(m', live', b, placement[b])
    {
      assert NotFrom(m, live, b, placement[b]);
      assert KeptMarker(m, m', live'[b].tier, b);
    }
  }

  /** The next tier's manifest may be written. */
  lemma RepublishOne(m: Manifests, objects: Objects, live: Manifest, contents: Contents,
                     tiers: seq<Tier>, writable: set<Tier>, k: nat)
    requires Agreeing(m, objects, live, contents) && k < |tiers| && forall t :: t in tiers ==> t in m
    requires Recoverable(Written(m, live, Reached(tiers, writable, k + 1)), objects, contents)
    ensures var before := Written(m, live, Reached(tiers, writable, k));
            var after := Written(m, live, Reached(tiers, writable, k + 1));
            if tiers[k] in writable then
              && after == Written(before, live, {tiers[k]})
              && Recoverable(Written(before, live, {tiers[k]}), objects, contents)
              && Backed(Written(before, live, {tiers[k]}), live)
            else after == before
  {
    WrittenOneMore(m, live, tiers, writable, k);
    PublishExact(m, objects, live, contents, Reached(tiers, writable, k + 1));
  }

  lemma WrittenNothing(m: Manifests, live: Manifest, tiers: seq<Tier>, writable: set<Tier>)
    ensures Written(m, live, Reached(tiers, writable, 0)) == m
  {
    assert Reached(tiers, writable, 0) == {};
    assert Written(m, live, {}).Keys == m.Keys;
  }

  lemma WrittenOneMore(m: Manifests, live: Manifest, tiers: seq<Tier>, writable: set<Tier>, k: nat)
    requires k < |tiers|
    ensures Written(m, live, Reached(tiers, writable, k + 1)) ==
            if tiers[k] in writable then Written(Written(m, live, Reached(tiers, writable, k)), live, {tiers[k]})
            else Written(m, live, Reached(tiers, writable, k))
  {
    var before, after := Reached(tiers, writable, k), Reached(tiers, writable, k + 1);
    assert tiers[..k + 1] == tiers[..k] + [tiers[k]];
    assert after == before + if tiers[k] in writable then {tiers[k]} else {};
  }
}
