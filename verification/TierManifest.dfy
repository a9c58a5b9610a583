/** What each tier says it holds, and how the claims of all tiers merge at open. */
module TierManifests {
  import opened Bytes

  type Tier = string

  datatype Part = LogPart | IndexPart | BlocksPart

  /** A store key: the segment's base, an upload id no other upload uses, and which of
      the segment's objects it is. */
  datatype StoreKey = StoreKey(base: int, upload: nat, part: Part)

  /** A manifest entry: where the segment's objects are. `movedFrom` names the tier a
      move took the segment out of. */
  datatype TierObject = TierObject(
    tier: Tier,
    logKey: StoreKey,
    indexKey: Option<StoreKey>,
    blocksKey: Option<StoreKey>,
    movedFrom: Option<Tier>)

  /** A manifest names each segment by its base. */
  type Manifest = map<int, TierObject>
  type Manifests = map<Tier, Manifest>

  /** One tier's manifest saying it holds a segment; the tier is where it was read. */
  datatype Claim = Claim(tier: Tier, obj: TierObject)

  // ---- what the merge means ----

  ghost predicate Names(m: Manifests, t: Tier, base: int) {
    t in m && base in m[t]
  }

  ghost predicate Claimed(m: Manifests, base: int) {
    exists t :: Names(m, t, base)
  }

  ghost predicate OnlyClaims(m: Manifests, base: int, ts: set<Tier>) {
    forall t :: Names(m, t, base) <==> t in ts
  }

  /** Of two claims, the one moved out of the other's tier wins, unless the other says
      the same of it. */
  ghost predicate Supersedes(m: Manifests, base: int, t: Tier, other: Tier)
    requires Names(m, t, base) && Names(m, other, base)
  {
    m[t][base].movedFrom == Some(other) && m[other][base].movedFrom != Some(t)
  }

  ghost predicate Wins(m: Manifests, base: int, t: Tier) {
    || OnlyClaims(m, base, {t})
    || exists other :: other != t && OnlyClaims(m, base, {t, other}) && Supersedes(m, base, t, other)
  }

  ghost predicate Resolved(m: Manifests, base: int) {
    exists t :: Wins(m, base, t)
  }

  /** The merge: the winner of each claimed segment; refused exactly when some claimed
      segment has none. */
  ghost predicate IsMerge(m: Manifests, r: Option<Manifest>) {
    match r
    case Some(out) =>
      forall base ::
        && (base in out <==> Claimed(m, base))
        && (base in out ==> exists t :: Wins(m, base, t) && out[base] == m[t][base])
    case None =>
      exists base :: Claimed(m, base) && !Resolved(m, base)
  }

  /** Two claims of which neither supersedes the other are refused. */
  lemma NeitherWins(m: Manifests, base: int, t: Tier, u: Tier)
    requires t != u && Names(m, t, base) && Names(m, u, base)
    requires !Supersedes(m, base, t, u) && !Supersedes(m, base, u, t)
    ensures !Resolved(m, base) && forall r :: IsMerge(m, r) ==> r.None?
  {
    forall v, other | other != v && OnlyClaims(m, base, {v, other})
      ensures !Supersedes(m, base, v, other)
    {
      assert t in {v, other} && u in {v, other};
    }
    forall v
      ensures !OnlyClaims(m, base, {v})
    {
      assert t !in {v} || u !in {v};
    }
    forall r | IsMerge(m, r)
      ensures r.None?
    {
      assert Claimed(m, base);
    }
  }

  lemma WinnerUnique(m: Manifests, base: int, t: Tier, t': Tier)
    requires Wins(m, base, t) && Wins(m, base, t')
    ensures t == t'
  {
    assert Names(m, t, base) && Names(m, t', base);
    if !OnlyClaims(m, base, {t}) {
      var other :| other != t && OnlyClaims(m, base, {t, other}) && Supersedes(m, base, t, other);
      assert Names(m, other, base);
    }
  }

  /** The manifests alone decide the merge: no order of tiers, or of visiting what they
      hold, can change its answer. */
  lemma MergeUnique(m: Manifests, r: Option<Manifest>, r': Option<Manifest>)
    requires IsMerge(m, r) && IsMerge(m, r')
    ensures r == r'
  {
    NotRefused(m, r, r');
    NotRefused(m, r', r);
    if r.Some? && r'.Some? {
      assert r.value.Keys == r'.value.Keys by {
        assert forall base :: base in r.value <==> base in r'.value;
      }
      forall base | base in r.value
        ensures r.value[base] == r'.value[base]
      {
        var t :| Wins(m, base, t) && r.value[base] == m[t][base];
        var t' :| Wins(m, base, t') && r'.value[base] == m[t'][base];
        WinnerUnique(m, base, t, t');
      }
      assert r.value == r'.value;
    }
  }

  lemma NotRefused(m: Manifests, r: Option<Manifest>, r': Option<Manifest>)
    requires IsMerge(m, r) && IsMerge(m, r')
    ensures r.Some? ==> r'.Some?
  {
    if r.Some? {
      forall base | Claimed(m, base)
        ensures Resolved(m, base)
      {
        assert base in r.value;
      }
    }
  }

  lemma SomeBase(bases: set<int>)
    ensures bases == {} || exists base :: base in bases
  {
    if forall base :: base !in bases {
      assert bases == {};
    }
  }

  // ---- the code ----

  /** Pick between the tiers claiming one segment, only when the claims themselves
      explain it. */
  function ResolveInterruptedMove(cs: seq<Claim>): (r: Option<Claim>)
    requires |cs| > 1
    ensures r.Some? ==> r.value in cs
  {
    if |cs| != 2 then None else
      var a, b := cs[0], cs[1];
      if a.obj.movedFrom == Some(b.tier) && b.obj.movedFrom != Some(a.tier) then Some(a)
      else if b.obj.movedFrom == Some(a.tier) && a.obj.movedFrom != Some(b.tier) then Some(b)
      else None
  }

  /** The claims on one segment, each tier's once. */
  ghost predicate AreClaims(m: Manifests, base: int, cs: seq<Claim>) {
    && (forall i :: 0 <= i < |cs| ==> Names(m, cs[i].tier, base) && cs[i].obj == m[cs[i].tier][base])
    && (forall i, j :: 0 <= i < j < |cs| ==> cs[i].tier != cs[j].tier)
    && (forall t :: Names(m, t, base) ==> exists i :: 0 <= i < |cs| && cs[i].tier == t)
  }

  method Winner(m: Manifests, base: int, cs: seq<Claim>) returns (won: Option<TierObject>)
    requires cs != [] && AreClaims(m, base, cs)
    ensures won.Some? ==> exists t :: Wins(m, base, t) && won.value == m[t][base]
    ensures won.None? ==> !Resolved(m, base)
  {
    if |cs| == 1 {
      assert OnlyClaims(m, base, {cs[0].tier});
      assert Wins(m, base, cs[0].tier);
      return Some(cs[0].obj);
    }
    var c := ResolveInterruptedMove(cs);
    if |cs| == 2 {
      assert cs == [cs[0], cs[1]];
      PairResolves(m, base, cs[0], cs[1]);
    } else {
      CrowdUnresolved(m, base, cs);
    }
    won := if c.Some? then Some(c.value.obj) else None;
  }

  lemma PairResolves(m: Manifests, base: int, a: Claim, b: Claim)
    requires AreClaims(m, base, [a, b])
    ensures forall t :: Wins(m, base, t) <==>
              || (t == a.tier && a.obj.movedFrom == Some(b.tier) && b.obj.movedFrom != Some(a.tier))
              || (t == b.tier && b.obj.movedFrom == Some(a.tier) && a.obj.movedFrom != Some(b.tier))
  {
    var cs := [a, b];
    assert cs[0] == a && cs[1] == b;
    assert OnlyClaims(m, base, {a.tier, b.tier}) by {
      forall t
        ensures Names(m, t, base) <==> t in {a.tier, b.tier}
      {
        if Names(m, t, base) {
          var i :| 0 <= i < |cs| && cs[i].tier == t;
        }
      }
    }
    assert {b.tier, a.tier} == {a.tier, b.tier};
    forall t | Wins(m, base, t)
      ensures t == a.tier ==> Supersedes(m, base, a.tier, b.tier)
      ensures t == b.tier ==> Supersedes(m, base, b.tier, a.tier)
    {
      assert Names(m, a.tier, base) && Names(m, b.tier, base);
      var other :| other != t && OnlyClaims(m, base, {t, other}) && Supersedes(m, base, t, other);
      assert Names(m, other, base);
    }
  }

  lemma CrowdUnresolved(m: Manifests, base: int, cs: seq<Claim>)
    requires AreClaims(m, base, cs) && |cs| > 2
    ensures !Resolved(m, base)
  {
    assert Names(m, cs[0].tier, base) && Names(m, cs[1].tier, base) && Names(m, cs[2].tier, base);
  }

  function ClaimsAt(claims: map<int, seq<Claim>>, base: int): seq<Claim> {
    if base in claims then claims[base] else []
  }

  /** The claims of the tiers seen so far. */
  ghost predicate Gathered(m: Manifests, claims: map<int, seq<Claim>>) {
    && (forall base :: base in claims ==> claims[base] != [])
    && forall base :: AreClaims(m, base, ClaimsAt(claims, base))
  }

  /** One tier's entries, a claim for each. */
  method GatherTier(ghost m: Manifests, t: Tier, held: Manifest, before: map<int, seq<Claim>>)
    returns (claims: map<int, seq<Claim>>)
    requires t !in m && Gathered(m, before)
    ensures Gathered(m[t := held], claims)
  {
    claims := before;
    var todo: set<int> := held.Keys;
    while todo != {}
      invariant todo <= held.Keys
      invariant forall base :: ClaimsAt(claims, base) ==
                  ClaimsAt(before, base) + if base in held && base !in todo then [Claim(t, held[base])] else []
      invariant forall base :: base in claims ==> claims[base] != []
    {
      SomeBase(todo);
      var base :| base in todo;
      claims := claims[base := ClaimsAt(claims, base) + [Claim(t, held[base])]];
      todo := todo - {base};
    }
    forall base
      ensures AreClaims(m[t := held], base, ClaimsAt(claims, base))
    {
      OneMoreTier(m, t, held, base, ClaimsAt(before, base));
    }
  }

  lemma OneMoreTier(m: Manifests, t: Tier, held: Manifest, base: int, cs: seq<Claim>)
    requires t !in m && AreClaims(m, base, cs)
    ensures AreClaims(m[t := held], base, cs + if base in held then [Claim(t, held[base])] else [])
  {
    var m' := m[t := held];
    var cs' := cs + if base in held then [Claim(t, held[base])] else [];
    forall u | Names(m', u, base)
      ensures exists i :: 0 <= i < |cs'| && cs'[i].tier == u
    {
      if u == t {
        assert cs'[|cs|].tier == t;
      } else {
        assert Names(m, u, base);
        var i :| 0 <= i < |cs| && cs[i].tier == u;
        assert cs'[i].tier == u;
      }
    }
  }

  method GatherClaims(m: Manifests) returns (claims: map<int, seq<Claim>>)
    ensures Gathered(m, claims)
  {
    claims := map[];
    var seen: Manifests := map[];
    var todo := m.Keys;
    while todo != {}
      invariant todo <= m.Keys && seen.Keys == m.Keys - todo
      invariant forall t :: t in seen ==> seen[t] == m[t]
      invariant Gathered(seen, claims)
    {
      var t :| t in todo;
      claims := GatherTier(seen, t, m[t], claims);
      seen := seen[t := m[t]];
      todo := todo - {t};
    }
    assert seen == m;
  }

  /** Union what every tier says it holds: one entry per segment, or a refusal when some
      segment's claims do not explain themselves. */
  method MergeTierManifests(m: Manifests) returns (r: Option<Manifest>)
    ensures IsMerge(m, r)
  {
    var claims := GatherClaims(m);
    forall base
      ensures base in claims <==> Claimed(m, base)
    {
      ClaimedBases(m, base, ClaimsAt(claims, base));
    }
    var out: Manifest := map[];
    var todo: set<int> := claims.Keys;
    while todo != {}
      invariant todo <= claims.Keys && out.Keys == claims.Keys - todo
      invariant forall base :: base in out ==> exists t :: Wins(m, base, t) && out[base] == m[t][base]
    {
      SomeBase(todo);
      var base :| base in todo;
      assert ClaimsAt(claims, base) == claims[base];
      var won := Winner(m, base, claims[base]);
      if won.None? {
        return None;
      }
      out := out[base := won.value];
      todo := todo - {base};
    }
    r := Some(out);
  }

  lemma ClaimedBases(m: Manifests, base: int, cs: seq<Claim>)
    requires AreClaims(m, base, cs)
    ensures cs != [] <==> Claimed(m, base)
  {
    if cs != [] {
      assert Names(m, cs[0].tier, base);
    }
  }
}
