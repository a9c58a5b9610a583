/** The commit of a joined run that lives in a tier: one manifest write that starts
    naming the result and stops naming every other input. */
module TieredJoins {
  import opened Bytes
  import opened LogModel
  import opened Overlaps
  import opened Joins
  import opened TierManifests
  import TM = TierMoves

  /** A segment of this list has that name and lives in that tier. */
  ghost predicate InTier(ps: seq<Piece>, base: int, t: Tier) {
    exists i :: 0 <= i < |ps| && ps[i].base == base && ps[i].tier == Some(t)
  }

  /** The manifests name exactly the tiered segments of a log, each in its tier. */
  ghost predicate Describe(m: Manifests, ps: seq<Piece>) {
    forall t, base :: Names(m, t, base) <==> InTier(ps, base, t)
  }

  /** So does the log's own view. */
  ghost predicate Views(live: Manifest, ps: seq<Piece>) {
    forall t, base :: InTier(ps, base, t) <==> (base in live && live[base].tier == t)
  }

  function Bases(ps: seq<Piece>): set<int> {
    set i | 0 <= i < |ps| :: ps[i].base
  }

  /** The view a joined run commits: the result under the first input's name, every
      other input retired. A name in both sets is refused. */
  function Committed(live: Manifest, retired: set<int>, base: int, joined: TierObject): Option<Manifest> {
    if base in retired then None else Some(live[base := joined] - retired)
  }

  lemma InTierConcat(a: seq<Piece>, b: seq<Piece>, base: int, t: Tier)
    ensures InTier(a + b, base, t) <==> InTier(a, base, t) || InTier(b, base, t)
  {
    var ab := a + b;
    if InTier(a, base, t) {
      var i :| 0 <= i < |a| && a[i].base == base && a[i].tier == Some(t);
      assert ab[i] == a[i];
    }
    if InTier(b, base, t) {
      var i :| 0 <= i < |b| && b[i].base == base && b[i].tier == Some(t);
      assert ab[|a| + i] == b[i];
    }
  }

  /** Segments before or after a run share no name with it. */
  lemma ApartFrom(a: seq<Piece>, b: seq<Piece>, base: int)
    requires Before(a, b) || Before(b, a)
    requires base in Bases(b)
    ensures base !in Bases(a)
  {
    var j :| 0 <= j < |b| && b[j].base == base;
    forall i | 0 <= i < |a|
      ensures a[i].base != base
    {
      assert Precedes(a[i], b[j]) || Precedes(b[j], a[i]);
    }
  }

  /** Which names a list has in a tier, before and after its run is joined. */
  lemma JoinedNames(front: seq<Piece>, inputs: seq<Piece>, rest: seq<Piece>, tier: Tier, base: int, t: Tier)
    requires Log(front + inputs + rest) && inputs != []
    requires forall i :: 0 <= i < |inputs| ==> inputs[i].tier == Some(tier)
    ensures InTier(front + [Joined(inputs)] + rest, base, t) <==>
            if base in Bases(inputs) then base == inputs[0].base && t == tier
            else InTier(front + inputs + rest, base, t)
    ensures base in Bases(inputs) ==> (InTier(front + inputs + rest, base, t) <==> t == tier)
  {
    var j := Joined(inputs);
    ThreeParts(front, inputs, rest);
    InTierConcat(front + inputs, rest, base, t);
    InTierConcat(front, inputs, base, t);
    InTierConcat(front + [j], rest, base, t);
    InTierConcat(front, [j], base, t);
    if base in Bases(inputs) {
      ApartFrom(front, inputs, base);
      ApartFrom(rest, inputs, base);
      var i :| 0 <= i < |inputs| && inputs[i].base == base;
      assert t == tier ==> InTier(inputs, base, t);
    } else {
      assert inputs[0].base in Bases(inputs);
    }
    assert [j][0] == j;
  }

  /** However far the commit gets through the tiers' manifests, they describe the log as
      it was until the write of the run's own tier, and the log with the run joined from
      then on: at every point each record is named exactly once. */
  lemma CommitJoinedRun(m: Manifests, live: Manifest, front: seq<Piece>, inputs: seq<Piece>, rest: seq<Piece>,
                        joined: TierObject, tiers: seq<Tier>, writable: set<Tier>, k: nat)
    requires Log(front + inputs + rest) && inputs != []
    requires forall i :: 0 <= i < |inputs| ==> inputs[i].tier == Some(joined.tier)
    requires Describe(m, front + inputs + rest) && Views(live, front + inputs + rest)
    requires k <= |tiers| && forall t :: t in tiers ==> t in m
    ensures var objs := Committed(live, Bases(inputs[1..]), inputs[0].base, joined);
            var w := TM.Reached(tiers, writable, k);
            && objs.Some?
            && Describe(TM.Written(m, objs.value, w),
                        if joined.tier in w then front + [Joined(inputs)] + rest else front + inputs + rest)
    ensures Log(front + [Joined(inputs)] + rest)
    ensures Records(front + [Joined(inputs)] + rest) == Records(front + inputs + rest)
  {
    JoinKeeps(front, inputs, rest);
    FirstNotRetired(front, inputs, rest);
    var objs := Committed(live, Bases(inputs[1..]), inputs[0].base, joined).value;
    var w := TM.Reached(tiers, writable, k);
    var m' := TM.Written(m, objs, w);
    forall t, base
      ensures Names(m', t, base) <==>
              InTier(if joined.tier in w then front + [Joined(inputs)] + rest else front + inputs + rest, base, t)
    {
      TM.WrittenNames(m, objs, w, t, base);
      JoinedNames(front, inputs, rest, joined.tier, base, t);
      RunNames(inputs, base);
      assert InTier(front + inputs + rest, base, t) <==> Names(m, t, base);
    }
  }

  lemma RunNames(inputs: seq<Piece>, base: int)
    requires inputs != []
    ensures base in Bases(inputs) <==> base == inputs[0].base || base in Bases(inputs[1..])
  {
    if base in Bases(inputs) {
      var i :| 0 <= i < |inputs| && inputs[i].base == base;
      assert i > 0 ==> inputs[1..][i - 1].base == base;
    }
    if base in Bases(inputs[1..]) {
      var i :| 0 <= i < |inputs[1..]| && inputs[1..][i].base == base;
      assert inputs[i + 1].base == base;
    }
    assert inputs[0].base in Bases(inputs);
  }

  lemma FirstNotRetired(front: seq<Piece>, inputs: seq<Piece>, rest: seq<Piece>)
    requires Log(front + inputs + rest) && inputs != []
    ensures inputs[0].base !in Bases(inputs[1..])
  {
    ThreeParts(front, inputs, rest);
    forall i | 0 <= i < |inputs[1..]|
      ensures inputs[1..][i].base != inputs[0].base
    {
      assert Precedes(inputs[0], inputs[i + 1]);
    }
  }
}
