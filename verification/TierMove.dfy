/** Moving segments between tiers: copy, commit in the destination's manifest, repoint,
    release from the source's manifest. A crash may fall after any store write. */
module TierMoves {
  import opened Bytes
  import opened TierManifests

  type Blob = seq<byte>

  datatype Address = Address(tier: Tier, key: StoreKey)

  type Objects = map<Address, Blob>

  /** What a segment's objects hold: its log, and the index and block table when they
      are in the store. */
  datatype Content = Content(log: Blob, index: Option<Blob>, blocks: Option<Blob>)

  type Contents = map<int, Content>

  // ---- what a crash leaves, and what it must still say ----

  ghost predicate PartComplete(objects: Objects, t: Tier, key: Option<StoreKey>, c: Option<Blob>) {
    && (key.Some? <==> c.Some?)
    && (key.Some? ==> Address(t, key.value) in objects && objects[Address(t, key.value)] == c.value)
  }

  /** Every object an entry names is in its tier, with the segment's own bytes. */
  ghost predicate Complete(objects: Objects, o: TierObject, c: Content) {
    && PartComplete(objects, o.tier, Some(o.logKey), Some(c.log))
    && PartComplete(objects, o.tier, o.indexKey, c.index)
    && PartComplete(objects, o.tier, o.blocksKey, c.blocks)
  }

  ghost predicate Holds(objects: Objects, t: Tier, base: int, o: TierObject, contents: Contents) {
    o.tier == t && base in contents && Complete(objects, o, contents[base])
  }

  ghost predicate Sound(m: Manifests, objects: Objects, contents: Contents) {
    forall t, base :: Names(m, t, base) ==> Holds(objects, t, base, m[t][base], contents)
  }

  /** Every segment has a winner and every claim is backed by the segment's bytes. */
  ghost predicate Recoverable(m: Manifests, objects: Objects, contents: Contents) {
    && Sound(m, objects, contents)
    && forall base :: base in contents ==> Resolved(m, base)
  }

  /** From a recoverable state the merge never refuses, names each segment exactly once,
      and names objects that are all there. */
  lemma Recovery(m: Manifests, objects: Objects, contents: Contents, r: Option<Manifest>)
    requires Recoverable(m, objects, contents) && IsMerge(m, r)
    ensures r.Some? && r.value.Keys == contents.Keys
    ensures forall base :: base in r.value ==> Complete(objects, r.value[base], contents[base])
  {
    forall base
      ensures Claimed(m, base) <==> base in contents
    {
      if base in contents {
        var t :| Wins(m, base, t);
        assert Names(m, t, base);
      }
    }
    assert r.Some?;
    assert forall base :: base in r.value <==> base in contents;
    forall base | base in r.value
      ensures base in contents && Complete(objects, r.value[base], contents[base])
    {
      var t :| Wins(m, base, t) && r.value[base] == m[t][base];
      assert Names(m, t, base);
    }
  }

  /** The log's own view: each segment is where some tier's manifest says. */
  ghost predicate Backed(m: Manifests, live: Manifest) {
    forall base :: base in live ==>
      && live[base].movedFrom == None
      && Names(m, live[base].tier, base) && m[live[base].tier][base].(movedFrom := None) == live[base]
  }

  ghost predicate Agreeing(m: Manifests, objects: Objects, live: Manifest, contents: Contents) {
    Recoverable(m, objects, contents) && live.Keys == contents.Keys && Backed(m, live)
  }

  /** No segment is claimed by a second tier. */
  ghost predicate Settled(m: Manifests, live: Manifest) {
    forall base, t :: base in live && Names(m, t, base) ==> t == live[base].tier
  }

  // ---- publishing ----

  /** The part of the log's view one tier's manifest names. */
  function NamedIn(objs: Manifest, t: Tier): Manifest {
    map base | base in objs && objs[base].tier == t :: objs[base]
  }

  /** The manifests after those of some tiers were rebuilt. */
  function Written(m: Manifests, objs: Manifest, w: set<Tier>): Manifests {
    map t | t in m :: if t in w then NamedIn(objs, t) else m[t]
  }

  lemma WrittenNames(m: Manifests, objs: Manifest, w: set<Tier>, t: Tier, base: int)
    requires w <= m.Keys
    ensures Names(Written(m, objs, w), t, base) <==>
            if t in w then base in objs && objs[base].tier == t else Names(m, t, base)
    ensures Names(Written(m, objs, w), t, base) ==>
              Written(m, objs, w)[t][base] == if t in w then objs[base] else m[t][base]
  {
  }

  /** A claim on a segment the log serves elsewhere, not marked as the destination of a
      move out of where it is served: the source of a move not yet released. */
  ghost predicate Unreleased(m: Manifests, live: Manifest, base: int, t: Tier) {
    && base in live && t != live[base].tier && Names(m, t, base)
    && m[t][base].movedFrom != Some(live[base].tier)
  }

  /** At most two tiers claim a segment of a recoverable state. */
  lemma TwoClaimants(m: Manifests, base: int, t: Tier, u: Tier, v: Tier)
    requires Resolved(m, base) && Names(m, t, base) && Names(m, u, base) && Names(m, v, base)
    ensures t == u || t == v || u == v
  {
  }

  /** Between two claims, which wins is decided by their markers. */
  lemma PairOf(m: Manifests, base: int, t: Tier, u: Tier)
    requires t != u && OnlyClaims(m, base, {t, u})
    ensures Names(m, t, base) && Names(m, u, base)
    ensures Resolved(m, base) <==> (Supersedes(m, base, t, u) || Supersedes(m, base, u, t))
  {
    assert Names(m, t, base) && Names(m, u, base);
    assert {u, t} == {t, u};
    if w :| Wins(m, base, w) {
      assert Names(m, w, base);
      var other :| other != w && OnlyClaims(m, base, {w, other}) && Supersedes(m, base, w, other);
      assert Names(m, other, base);
    }
    if Supersedes(m, base, t, u) {
      assert Wins(m, base, t);
    }
    if Supersedes(m, base, u, t) {
      assert Wins(m, base, u);
    }
  }

  /** Rebuilding some manifests from the log's view leaves one segment resolved unless
      it takes the marker from the destination of an unreleased move and leaves the
      source. */
  lemma WrittenResolves(m: Manifests, live: Manifest, w: set<Tier>, base: int)
    requires w <= m.Keys && Backed(m, live) && base in live && Resolved(m, base)
    ensures Resolved(Written(m, live, w), base) <==>
            (live[base].tier in w ==> forall t :: Unreleased(m, live, base, t) ==> t in w)
  {
    var m' := Written(m, live, w);
    var home := live[base].tier;
    forall t
      ensures Names(m', t, base) <==> if t in w then t == home else Names(m, t, base)
      ensures Names(m', t, base) ==> m'[t][base] == if t in w then live[base] else m[t][base]
    {
      WrittenNames(m, live, w, t, base);
    }
    assert Names(m', home, base);
    if t :| t != home && t !in w && Names(m, t, base) {
      assert OnlyClaims(m, base, {home, t}) by {
        forall u
          ensures Names(m, u, base) <==> u in {home, t}
        {
          if Names(m, u, base) {
            TwoClaimants(m, base, home, t, u);
          }
        }
      }
      assert OnlyClaims(m', base, {home, t});
      PairOf(m', base, home, t);
      PairOf(m, base, home, t);
    } else {
      assert OnlyClaims(m', base, {home});
      assert Wins(m', base, home);
    }
  }

  /** Publishing is exact: rebuilding the manifests of some tiers leaves the log
      recoverable if and only if no move into one of them waits for a release that this
      write does not make. */
  lemma PublishExact(m: Manifests, objects: Objects, live: Manifest, contents: Contents, w: set<Tier>)
    requires Agreeing(m, objects, live, contents) && w <= m.Keys
    ensures Recoverable(Written(m, live, w), objects, contents) <==>
            forall base, t :: Unreleased(m, live, base, t) && live[base].tier in w ==> t in w
    ensures Backed(Written(m, live, w), live)
  {
    var m' := Written(m, live, w);
    forall t, base | Names(m', t, base)
      ensures Holds(objects, t, base, m'[t][base], contents)
    {
      WrittenNames(m, live, w, t, base);
      if t in w {
        assert Names(m, t, base);
        assert Holds(objects, t, base, m[t][base], contents);
      }
    }
    forall base | base in live
      ensures Resolved(m', base) <==>
              (live[base].tier in w ==> forall t :: Unreleased(m, live, base, t) ==> t in w)
    {
      WrittenResolves(m, live, w, base);
    }
    forall base | base in live
      ensures Names(m', live[base].tier, base) && m'[live[base].tier][base].(movedFrom := None) == live[base]
    {
      WrittenNames(m, live, w, live[base].tier, base);
    }
  }

  /** The tiers a republish has written after its first k. */
  ghost function Reached(tiers: seq<Tier>, writable: set<Tier>, k: nat): set<Tier>
    requires k <= |tiers|
  {
    set t | t in tiers[..k] && t in writable
  }

  /** The source's manifest is rewritten before the destination's is. */
  ghost predicate ReleasedFirst(tiers: seq<Tier>, writable: set<Tier>, src: Tier, dst: Tier) {
    dst in writable ==>
      forall i :: 0 <= i < |tiers| && tiers[i] == dst ==> src in writable && src in tiers[..i]
  }

  /** A republish of every tier, in configured order, survives a crash after any of its
      writes if and only if every unreleased move has its source before its destination
      in that order. */
  lemma RepublishExact(m: Manifests, objects: Objects, live: Manifest, contents: Contents,
                       tiers: seq<Tier>, writable: set<Tier>)
    requires Agreeing(m, objects, live, contents) && forall t :: t in tiers ==> t in m
    ensures (forall k :: 0 <= k <= |tiers| ==>
               Recoverable(Written(m, live, Reached(tiers, writable, k)), objects, contents)) <==>
            (forall base, t :: Unreleased(m, live, base, t) ==> ReleasedFirst(tiers, writable, t, live[base].tier))
  {
    forall k | 0 <= k <= |tiers|
      ensures Recoverable(Written(m, live, Reached(tiers, writable, k)), objects, contents) <==>
              SafeAt(m, live, tiers, writable, k)
    {
      PublishExact(m, objects, live, contents, Reached(tiers, writable, k));
    }
    forall base, t | Unreleased(m, live, base, t)
      ensures ReleasedFirst(tiers, writable, t, live[base].tier) <==>
              forall k :: 0 <= k <= |tiers| ==> SafeFor(tiers, writable, k, t, live[base].tier)
    {
      OrderExact(tiers, writable, t, live[base].tier);
    }
    SafeSwap(m, live, tiers, writable);
  }

  ghost predicate SafeFor(tiers: seq<Tier>, writable: set<Tier>, k: nat, src: Tier, dst: Tier)
    requires k <= |tiers|
  {
    dst in Reached(tiers, writable, k) ==> src in Reached(tiers, writable, k)
  }

  ghost predicate SafeAt(m: Manifests, live: Manifest, tiers: seq<Tier>, writable: set<Tier>, k: nat)
    requires k <= |tiers|
  {
    forall base, t :: Unreleased(m, live, base, t) ==> SafeFor(tiers, writable, k, t, live[base].tier)
  }

  lemma SafeSwap(m: Manifests, live: Manifest, tiers: seq<Tier>, writable: set<Tier>)
    ensures (forall k :: 0 <= k <= |tiers| ==> SafeAt(m, live, tiers, writable, k)) <==>
            (forall base, t :: Unreleased(m, live, base, t) ==>
               forall k :: 0 <= k <= |tiers| ==> SafeFor(tiers, writable, k, t, live[base].tier))
  {
    if forall k :: 0 <= k <= |tiers| ==> SafeAt(m, live, tiers, writable, k) {
      forall base, t | Unreleased(m, live, base, t)
        ensures forall k :: 0 <= k <= |tiers| ==> SafeFor(tiers, writable, k, t, live[base].tier)
      {
        forall k | 0 <= k <= |tiers|
          ensures SafeFor(tiers, writable, k, t, live[base].tier)
        {
          assert SafeAt(m, live, tiers, writable, k);
        }
      }
    }
  }

  lemma OrderExact(tiers: seq<Tier>, writable: set<Tier>, src: Tier, dst: Tier)
    requires src != dst
    ensures ReleasedFirst(tiers, writable, src, dst) <==>
            forall k :: 0 <= k <= |tiers| ==> SafeFor(tiers, writable, k, src, dst)
  {
    if ReleasedFirst(tiers, writable, src, dst) {
      forall k | 0 <= k <= |tiers|
        ensures SafeFor(tiers, writable, k, src, dst)
      {
        if dst in tiers[..k] && dst in writable {
          var i :| 0 <= i < k && tiers[..k][i] == dst;
          assert tiers[i] == dst;
          var j :| 0 <= j < i && tiers[..i][j] == src;
          assert tiers[..k][j] == src;
        }
      }
    }
    if forall k :: 0 <= k <= |tiers| ==> SafeFor(tiers, writable, k, src, dst) {
      forall i | 0 <= i < |tiers| && tiers[i] == dst && dst in writable
        ensures src in writable && src in tiers[..i]
      {
        assert SafeFor(tiers, writable, i + 1, src, dst);
        assert tiers[..i + 1][i] == dst;
        var j :| 0 <= j < i + 1 && tiers[..i + 1][j] == src;
        assert tiers[..i][j] == src;
      }
    }
  }

  // ---- the commit of a move ----

  /** No other tier claims the segment, and its entry does not say it came from the
      destination. */
  ghost predicate Movable(m: Manifests, live: Manifest, base: int, dst: Tier)
    requires base in live && Backed(m, live)
  {
    && (forall t :: Names(m, t, base) ==> t == live[base].tier || t == dst)
    && m[live[base].tier][base].movedFrom != Some(dst)
  }

  /** The destination's entry for a moved segment. */
  ghost predicate MovedEntry(objects: Objects, live: Manifest, contents: Contents, base: int, n: TierObject) {
    && base in live && base in contents && n.tier != live[base].tier
    && n.movedFrom == Some(live[base].tier) && Complete(objects, n, contents[base])
  }

  lemma CommitResolves(m: Manifests, live: Manifest, base: int, n: TierObject)
    requires Backed(m, live) && base in live && Resolved(m, base) && n.tier in m
    requires n.tier != live[base].tier && n.movedFrom == Some(live[base].tier)
    ensures Resolved(Written(m, live[base := n], {n.tier}), base) <==> Movable(m, live, base, n.tier)
  {
    var m', src, dst := Written(m, live[base := n], {n.tier}), live[base].tier, n.tier;
    forall t
      ensures Names(m', t, base) <==> t == dst || Names(m, t, base)
      ensures t != dst && Names(m', t, base) ==> m'[t][base] == m[t][base]
    {
      WrittenNames(m, live[base := n], {dst}, t, base);
    }
    WrittenNames(m, live[base := n], {dst}, dst, base);
    assert Names(m', src, base) && Names(m', dst, base);
    if t :| Names(m, t, base) && t != src && t != dst {
      assert Names(m', t, base);
      if Resolved(m', base) {
        TwoClaimants(m', base, src, dst, t);
      }
    } else {
      assert OnlyClaims(m', base, {dst, src});
      PairOf(m', base, dst, src);
    }
  }

  /** The other segments see the commit as a plain rebuild of the destination. */
  lemma CommitOthers(m: Manifests, live: Manifest, base: int, n: TierObject, other: int)
    requires other != base && other in live
    ensures Resolved(Written(m, live[base := n], {n.tier}), other) <==>
            Resolved(Written(m, live, {n.tier}), other)
  {
    var m1, m2 := Written(m, live[base := n], {n.tier}), Written(m, live, {n.tier});
    forall t
      ensures Names(m1, t, other) <==> Names(m2, t, other)
      ensures Names(m1, t, other) ==> m1[t][other] == m2[t][other]
    {
    }
    SameClaims(m1, m2, other);
    SameClaims(m2, m1, other);
  }

  lemma SameClaims(m1: Manifests, m2: Manifests, base: int)
    requires forall t :: Names(m1, t, base) <==> Names(m2, t, base)
    requires forall t :: Names(m1, t, base) && Names(m2, t, base) ==> m1[t][base] == m2[t][base]
    ensures Resolved(m1, base) ==> Resolved(m2, base)
  {
    if t :| Wins(m1, base, t) {
      if OnlyClaims(m1, base, {t}) {
        assert OnlyClaims(m2, base, {t});
      } else {
        var other :| other != t && OnlyClaims(m1, base, {t, other}) && Supersedes(m1, base, t, other);
        assert OnlyClaims(m2, base, {t, other});
      }
      assert Wins(m2, base, t);
    }
  }

  lemma CommitNames(m: Manifests, live: Manifest, base: int, n: TierObject, t: Tier, b: int)
    requires n.tier in m
    ensures var m' := Written(m, live[base := n], {n.tier});
            && (Names(m', t, b) <==>
                if t == n.tier then b == base || (b in live && live[b].tier == t) else Names(m, t, b))
            && (Names(m', t, b) ==> t != n.tier ==> m'[t][b] == m[t][b])
            && (Names(m', t, b) ==> t == n.tier ==> m'[t][b] == if b == base then n else live[b])
  {
    WrittenNames(m, live[base := n], {n.tier}, t, b);
  }

  lemma CommitSound(m: Manifests, objects: Objects, live: Manifest, contents: Contents, base: int, n: TierObject)
    requires Sound(m, objects, contents) && Backed(m, live) && n.tier in m
    requires MovedEntry(objects, live, contents, base, n)
    ensures Sound(Written(m, live[base := n], {n.tier}), objects, contents)
  {
    var m' := Written(m, live[base := n], {n.tier});
    forall t, b | Names(m', t, b)
      ensures Holds(objects, t, b, m'[t][b], contents)
    {
      CommitNames(m, live, base, n, t, b);
      if t != n.tier || b != base {
        assert Names(m, t, b);
        assert Holds(objects, t, b, m[t][b], contents);
      }
    }
  }

  /** Before and after the segment repoints, the log's view is one the manifests back. */
  lemma CommitBacked(m: Manifests, live: Manifest, base: int, n: TierObject)
    requires Backed(m, live) && base in live && n.tier in m && n.tier != live[base].tier
    ensures Backed(Written(m, live[base := n], {n.tier}), live)
    ensures Backed(Written(m, live[base := n], {n.tier}), live[base := n.(movedFrom := None)])
  {
    var m' := Written(m, live[base := n], {n.tier});
    forall b | b in live
      ensures Names(m', live[b].tier, b) && m'[live[b].tier][b].(movedFrom := None) == live[b]
    {
      CommitNames(m, live, base, n, live[b].tier, b);
    }
    CommitNames(m, live, base, n, n.tier, base);
  }

  /** The commit is exact: the log is recoverable right after it if and only if the
      segment was movable and no other move into that tier awaits its release. */
  lemma CommitExact(m: Manifests, objects: Objects, live: Manifest, contents: Contents, base: int, n: TierObject)
    requires Agreeing(m, objects, live, contents) && n.tier in m && MovedEntry(objects, live, contents, base, n)
    ensures Recoverable(Written(m, live[base := n], {n.tier}), objects, contents) <==>
            && Movable(m, live, base, n.tier)
            && forall other, t :: other != base && Unreleased(m, live, other, t) ==> live[other].tier != n.tier
  {
    var m', dst := Written(m, live[base := n], {n.tier}), n.tier;
    CommitSound(m, objects, live, contents, base, n);
    CommitResolves(m, live, base, n);
    forall other | other in live && other != base
      ensures Resolved(m', other) <==>
              forall t :: Unreleased(m, live, other, t) ==> live[other].tier != dst
    {
      CommitOthers(m, live, base, n, other);
      WrittenResolves(m, live, {dst}, other);
    }
  }

  /** A segment moved from tier "a" to tier "b" and, before "a" released it, straight back:
      each claim names the other's tier, and the merge at open refuses. */
  lemma MovedBackTooSoon()
    ensures var first, second, third := StoreKey(0, 0, LogPart), StoreKey(0, 1, LogPart), StoreKey(0, 2, LogPart);
            var inA, inB := TierObject("a", first, None, None, None), TierObject("b", second, None, None, Some("a"));
            var m := map["a" := map[0 := inA], "b" := map[0 := inB]];
            var objects := map[Address("a", first) := [], Address("b", second) := [], Address("a", third) := []];
            var live, contents := map[0 := inB.(movedFrom := None)], map[0 := Content([], None, None)];
            var n := TierObject("a", third, None, None, Some("b"));
            && Agreeing(m, objects, live, contents) && MovedEntry(objects, live, contents, 0, n)
            && var m' := Written(m, live[0 := n], {"a"});
               !Recoverable(m', objects, contents) && forall r :: IsMerge(m', r) ==> r.None?
  {
    var first, second, third := StoreKey(0, 0, LogPart), StoreKey(0, 1, LogPart), StoreKey(0, 2, LogPart);
    var inA, inB := TierObject("a", first, None, None, None), TierObject("b", second, None, None, Some("a"));
    var m := map["a" := map[0 := inA], "b" := map[0 := inB]];
    var live := map[0 := inB.(movedFrom := None)];
    var n := TierObject("a", third, None, None, Some("b"));
    assert OnlyClaims(m, 0, {"b", "a"}) && Supersedes(m, 0, "b", "a");
    assert Wins(m, 0, "b");
    var m' := Written(m, live[0 := n], {"a"});
    assert Names(m', "a", 0) && m'["a"][0] == n && Names(m', "b", 0) && m'["b"][0] == inB;
    NeitherWins(m', 0, "a", "b");
  }
}
