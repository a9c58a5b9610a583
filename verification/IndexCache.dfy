/** The cache of remote indexes: pinned entries, least-recently-used eviction, one
    download per key into one file per key. Each method is one critical section, or one
    step of a download, which runs outside the lock. */
module IndexCache {
  import opened Bytes

  type ObjectKey = string

  /** A downloaded index: the bytes of its object and the file it maps. `refs` counts the
      seeks holding it; a stale one is no longer findable. */
  datatype Entry = Entry(key: ObjectKey, data: seq<byte>, node: nat, refs: nat, stale: bool, closed: bool)

  /** Every entry ever made, by handle. */
  type Pool = map<nat, Entry>

  datatype Outcome = Hit(id: nat) | Wait | Fetch

  /** What a file holds: less than a download, the zeros an empty one is preallocated
      with, or a whole object. */
  datatype Content = Partial | Blank | Whole(data: seq<byte>)

  /** A file and the key it was made for. */
  datatype File = File(key: ObjectKey, content: Content)

  /** The cache directory. An unlinked or replaced file lives on for whoever maps it. */
  datatype Disk = Disk(names: map<ObjectKey, nat>, files: map<nat, File>, made: nat)

  /** A download under way: writing to a file, or done and its file opened by name. */
  datatype Download = Writing(node: nat) | Loaded(node: nat, data: seq<byte>)

  // ---- the directory ----

  /** `os.Create`: an existing file is truncated in place. */
  function Created(d: Disk, key: ObjectKey): Disk {
    if key in d.names then d.(files := d.files[d.names[key] := File(key, Partial)])
    else Disk(d.names[key := d.made], d.files[d.made := File(key, Partial)], d.made + 1)
  }

  function Unlinked(d: Disk, key: ObjectKey): Disk {
    d.(names := d.names - {key})
  }

  /** A whole object written to an open file. */
  function Written(d: Disk, node: nat, key: ObjectKey, data: seq<byte>): Disk {
    d.(files := d.files[node := File(key, Whole(data))])
  }

  /** Opening an index by name: a missing file is created, and preallocated. */
  function Mapped(d: Disk, key: ObjectKey): Disk {
    if key in d.names then d else Disk(d.names[key := d.made], d.files[d.made := File(key, Blank)], d.made + 1)
  }

  // ---- lists of handles ----

  ghost predicate Distinct(lru: seq<nat>) {
    forall i, j :: 0 <= i < j < |lru| ==> lru[i] != lru[j]
  }

  function Without(lru: seq<nat>, id: nat): seq<nat> {
    if lru == [] then [] else if lru[0] == id then lru[1..] else [lru[0]] + Without(lru[1..], id)
  }

  function Total(pool: Pool, lru: seq<nat>): nat {
    if lru == [] then 0 else (if lru[0] in pool then |pool[lru[0]].data| else 0) + Total(pool, lru[1..])
  }

  lemma {:induction false} WithoutIs(lru: seq<nat>, id: nat)
    requires Distinct(lru)
    ensures Distinct(Without(lru, id)) && forall x :: x in Without(lru, id) <==> x in lru && x != id
    decreases |lru|
  {
    if lru != [] {
      WithoutIs(lru[1..], id);
      forall x
        ensures x in Without(lru, id) <==> x in lru && x != id
      {
        assert x in lru <==> x == lru[0] || x in lru[1..];
        if lru[0] == id {
          assert x in lru[1..] ==> x != lru[0];
        } else {
          assert x in Without(lru, id) <==> x == lru[0] || x in Without(lru[1..], id);
        }
      }
      if lru[0] != id {
        assert lru[0] !in lru[1..];
      }
    }
  }

  lemma {:induction false} TotalWithout(pool: Pool, lru: seq<nat>, id: nat)
    requires id in lru && id in pool
    ensures Total(pool, lru) == Total(pool, Without(lru, id)) + |pool[id].data|
    decreases |lru|
  {
    if lru[0] != id {
      TotalWithout(pool, lru[1..], id);
      assert ([lru[0]] + Without(lru[1..], id))[1..] == Without(lru[1..], id);
    }
  }

  /** The total depends only on the sizes of the entries listed. */
  lemma {:induction false} TotalSame(pool: Pool, pool': Pool, lru: seq<nat>)
    requires forall i :: 0 <= i < |lru| ==> lru[i] in pool && lru[i] in pool' && pool[lru[i]].data == pool'[lru[i]].data
    ensures Total(pool, lru) == Total(pool', lru)
    decreases |lru|
  {
    if lru != [] {
      TotalSame(pool, pool', lru[1..]);
    }
  }

  // ---- eviction ----

  /** The least recently used entry that nothing holds. */
  function Victim(pool: Pool, lru: seq<nat>): Option<nat> {
    if lru == [] then None else
      var id := lru[|lru| - 1];
      if id in pool && pool[id].refs > 0 then Victim(pool, lru[..|lru| - 1]) else Some(id)
  }

  lemma {:induction false} VictimIs(pool: Pool, lru: seq<nat>)
    ensures match Victim(pool, lru)
            case None => forall i :: 0 <= i < |lru| ==> lru[i] in pool && pool[lru[i]].refs > 0
            case Some(id) => id in lru && (id in pool ==> pool[id].refs == 0)
    decreases |lru|
  {
    if lru != [] && lru[|lru| - 1] in pool && pool[lru[|lru| - 1]].refs > 0 {
      VictimIs(pool, lru[..|lru| - 1]);
    }
  }

  lemma {:induction false} WithoutShorter(lru: seq<nat>, id: nat)
    requires id in lru
    ensures |Without(lru, id)| == |lru| - 1
    decreases |lru|
  {
    if lru[0] != id {
      WithoutShorter(lru[1..], id);
    }
  }

  /** What eviction leaves: victims go one at a time while over budget. */
  function Evicted(pool: Pool, lru: seq<nat>, budget: int): seq<nat>
    decreases |lru|
  {
    if Total(pool, lru) <= budget then lru else
      var v := Victim(pool, lru);
      if v.None? then lru else
        VictimIs(pool, lru);
        WithoutShorter(lru, v.value);
        Evicted(pool, Without(lru, v.value), budget)
  }

  /** Everything held survives; the rest fits the budget, unless all that is left is
      held; and nothing is evicted while less recently used, unheld entries remain. */
  lemma {:induction false} EvictedIs(pool: Pool, lru: seq<nat>, budget: int)
    requires Distinct(lru)
    ensures var r := Evicted(pool, lru, budget);
            && Distinct(r) && (forall x :: x in r ==> x in lru)
            && (forall x :: x in lru && x in pool && pool[x].refs > 0 ==> x in r)
            && (Total(pool, r) <= budget || forall x :: x in r ==> x in pool && pool[x].refs > 0)
            && (Total(pool, lru) <= budget ==> r == lru)
    decreases |lru|
  {
    if Total(pool, lru) > budget {
      VictimIs(pool, lru);
      var v := Victim(pool, lru);
      if v.Some? {
        WithoutShorter(lru, v.value);
        WithoutIs(lru, v.value);
        EvictedIs(pool, Without(lru, v.value), budget);
      }
    }
  }

  /** Eviction is by recency: an evicted entry was less recently used than every entry
      that survives unheld. */
  lemma {:induction false} EvictedByAge(pool: Pool, lru: seq<nat>, budget: int, i: nat, j: nat)
    requires Distinct(lru) && i < |lru| && j < |lru| && lru[i] in pool && pool[lru[i]].refs == 0
    requires lru[i] in Evicted(pool, lru, budget) && lru[j] !in Evicted(pool, lru, budget)
    ensures i < j
    decreases |lru|
  {
    var k := VictimAt(pool, lru, budget, i, j);
    if j != k {
      var rest := Without(lru, lru[k]);
      WithoutAt(lru, k);
      EvictedByAge(pool, rest, budget, i, if j < k then j else j - 1);
    }
  }

  /** When something goes and an unheld entry stays, the first to go is behind it. */
  lemma VictimAt(pool: Pool, lru: seq<nat>, budget: int, i: nat, j: nat) returns (k: nat)
    requires Distinct(lru) && i < |lru| && j < |lru| && lru[i] in pool && pool[lru[i]].refs == 0
    requires lru[i] in Evicted(pool, lru, budget) && lru[j] !in Evicted(pool, lru, budget)
    ensures i < k < |lru| && Evicted(pool, lru, budget) == Evicted(pool, Without(lru, lru[k]), budget)
    ensures Distinct(Without(lru, lru[k])) && |Without(lru, lru[k])| == |lru| - 1
  {
    VictimIs(pool, lru);
    var v := Victim(pool, lru).value;
    WithoutShorter(lru, v);
    WithoutIs(lru, v);
    EvictedIs(pool, Without(lru, v), budget);
    VictimOldest(pool, lru, i);
    k :| 0 <= k < |lru| && lru[k] == v;
  }

  lemma {:induction false} WithoutAt(lru: seq<nat>, k: nat)
    requires Distinct(lru) && k < |lru|
    ensures Without(lru, lru[k]) == lru[..k] + lru[k + 1..]
    decreases |lru|
  {
    if k > 0 {
      WithoutAt(lru[1..], k - 1);
      assert lru[1..][..k - 1] == lru[1..k] && lru[1..][k..] == lru[k + 1..];
    }
  }

  lemma {:induction false} VictimOldest(pool: Pool, lru: seq<nat>, i: nat)
    requires Distinct(lru) && i < |lru| && lru[i] in pool && pool[lru[i]].refs == 0
    ensures Victim(pool, lru).Some? && forall k :: 0 <= k < |lru| && lru[k] == Victim(pool, lru).value ==> i <= k
    decreases |lru|
  {
    if lru[|lru| - 1] in pool && pool[lru[|lru| - 1]].refs > 0 {
      VictimOldest(pool, lru[..|lru| - 1], i);
      VictimIs(pool, lru[..|lru| - 1]);
    }
  }

  // ---- the invariant ----

  ghost predicate ListedAs(pool: Pool, entries: map<ObjectKey, nat>, x: nat) {
    x in pool && pool[x].key in entries && entries[pool[x].key] == x
  }

  ghost predicate KeyOf(pool: Pool, lru: seq<nat>, entries: map<ObjectKey, nat>, k: ObjectKey)
    requires k in entries
  {
    entries[k] in lru && entries[k] in pool && pool[entries[k]].key == k
  }

  /** The map and the recency list hold the same entries. */
  ghost predicate Listed(pool: Pool, lru: seq<nat>, entries: map<ObjectKey, nat>) {
    && Distinct(lru)
    && (forall x {:trigger ListedAs(pool, entries, x)} :: x in lru ==> ListedAs(pool, entries, x))
    && forall k {:trigger KeyOf(pool, lru, entries, k)} :: k in entries ==> KeyOf(pool, lru, entries, k)
  }

  /** A listed entry is open and fresh; an unlisted one is closed, or detached and still
      held; no closed entry is held. */
  ghost predicate Sound(pool: Pool, lru: seq<nat>, x: nat)
    requires x in pool
  {
    && (x in lru ==> !pool[x].stale && !pool[x].closed)
    && (x !in lru ==> pool[x].closed || (pool[x].stale && pool[x].refs > 0))
    && (pool[x].closed ==> pool[x].refs == 0)
  }

  ghost predicate Alive(pool: Pool, lru: seq<nat>) {
    forall x {:trigger Sound(pool, lru, x)} :: x in pool ==> Sound(pool, lru, x)
  }

  ghost predicate ValidCache(pool: Pool, entries: map<ObjectKey, nat>, lru: seq<nat>, total: int,
                             inflight: set<ObjectKey>, made: nat) {
    && Listed(pool, lru, entries) && Alive(pool, lru)
    && total == Total(pool, lru)
    && inflight !! entries.Keys
    && forall x :: x in pool ==> x < made
  }

  /** Dropping one entry from both. */
  lemma Unlist(pool: Pool, entries: map<ObjectKey, nat>, lru: seq<nat>, total: int, inflight: set<ObjectKey>,
               made: nat, id: nat, e: Entry)
    requires ValidCache(pool, entries, lru, total, inflight, made) && id in lru && id in pool
    requires e.key == pool[id].key && e.data == pool[id].data
    requires if e.closed then e.refs == 0 else e.stale && e.refs > 0
    ensures ValidCache(pool[id := e], entries - {e.key}, Without(lru, id), total - |e.data|, inflight, made)
  {
    WithoutIs(lru, id);
    UnlistListed(pool, lru, entries, id, e);
    var pool', lru' := pool[id := e], Without(lru, id);
    forall x | x in pool'
      ensures Sound(pool', lru', x)
    {
      assert Sound(pool, lru, x);
    }
    forall i | 0 <= i < |lru'|
      ensures lru'[i] in pool && lru'[i] in pool' && pool[lru'[i]].data == pool'[lru'[i]].data
    {
      assert lru'[i] in lru';
      assert ListedAs(pool, entries, lru'[i]);
    }
    TotalWithout(pool, lru, id);
    TotalSame(pool, pool', lru');
  }

  lemma UnlistListed(pool: Pool, lru: seq<nat>, entries: map<ObjectKey, nat>, id: nat, e: Entry)
    requires Listed(pool, lru, entries) && id in lru && id in pool && e.key == pool[id].key
    ensures Listed(pool[id := e], Without(lru, id), entries - {e.key})
  {
    var pool', lru', entries' := pool[id := e], Without(lru, id), entries - {e.key};
    WithoutIs(lru, id);
    assert ListedAs(pool, entries, id);
    forall x | x in lru'
      ensures ListedAs(pool', entries', x)
    {
      assert ListedAs(pool, entries, x);
    }
    forall k | k in entries'
      ensures KeyOf(pool', lru', entries', k)
    {
      assert KeyOf(pool, lru, entries, k);
    }
  }

  /** An entry may change while its key, and what lists it, do not. */
  lemma Relisted(pool: Pool, lru: seq<nat>, lru': seq<nat>, entries: map<ObjectKey, nat>, id: nat, e: Entry)
    requires Listed(pool, lru, entries) && id in pool && e.key == pool[id].key
    requires Distinct(lru') && forall x :: x in lru' <==> x in lru
    ensures Listed(pool[id := e], lru', entries)
  {
    forall x | x in lru'
      ensures ListedAs(pool[id := e], entries, x)
    {
      assert ListedAs(pool, entries, x);
    }
    forall k | k in entries
      ensures KeyOf(pool[id := e], lru', entries, k)
    {
      assert KeyOf(pool, lru, entries, k);
    }
  }

  lemma TotalChanged(pool: Pool, lru: seq<nat>, entries: map<ObjectKey, nat>, id: nat, e: Entry)
    requires Listed(pool, lru, entries) && (id in pool ==> e.data == pool[id].data)
    ensures Total(pool[id := e], lru) == Total(pool, lru)
  {
    forall i | 0 <= i < |lru|
      ensures lru[i] in pool
    {
      assert lru[i] in lru;
      assert ListedAs(pool, entries, lru[i]);
    }
    TotalSame(pool, pool[id := e], lru);
  }

  lemma ListedOpen(pool: Pool, lru: seq<nat>, entries: map<ObjectKey, nat>)
    requires Listed(pool, lru, entries) && Alive(pool, lru)
    ensures forall x :: x in lru ==> x in pool && !pool[x].closed
  {
    forall x | x in lru
      ensures x in pool && !pool[x].closed
    {
      assert ListedAs(pool, entries, x);
      assert Sound(pool, lru, x);
    }
  }

  /** Moving an entry to the front, held once more. */
  lemma Touch(pool: Pool, entries: map<ObjectKey, nat>, lru: seq<nat>, total: int, inflight: set<ObjectKey>,
              made: nat, id: nat)
    requires ValidCache(pool, entries, lru, total, inflight, made) && id in lru && id in pool
    ensures ValidCache(pool[id := Held(pool, id)], entries, [id] + Without(lru, id), total, inflight, made)
  {
    var pool', lru' := pool[id := Held(pool, id)], [id] + Without(lru, id);
    WithoutIs(lru, id);
    assert forall x :: x in lru' <==> x in lru;
    Relisted(pool, lru, lru', entries, id, Held(pool, id));
    forall x | x in pool'
      ensures Sound(pool', lru', x)
    {
      assert Sound(pool, lru, x);
    }
    TotalChanged(pool, lru, entries, id, Held(pool, id));
    TotalWithout(pool', lru, id);
    assert lru'[1..] == Without(lru, id);
  }

  /** Listing a new entry. */
  lemma Enlist(pool: Pool, entries: map<ObjectKey, nat>, lru: seq<nat>, total: int, inflight: set<ObjectKey>,
               made: nat, e: Entry)
    requires ValidCache(pool, entries, lru, total, inflight, made) && e.key in inflight && !e.stale && !e.closed
    ensures made !in pool && made !in lru
    ensures ValidCache(pool[made := e], entries[e.key := made], [made] + lru, total + |e.data|, inflight - {e.key},
                       made + 1)
  {
    var id, pool', lru' := made, pool[made := e], [made] + lru;
    assert !ListedAs(pool, entries, id);
    EnlistListed(pool, entries, lru, id, e);
    TotalChanged(pool, lru, entries, id, e);
    assert lru'[1..] == lru;
    forall x | x in pool'
      ensures Sound(pool', lru', x)
    {
      if x != id {
        assert Sound(pool, lru, x);
      }
    }
  }

  lemma EnlistListed(pool: Pool, entries: map<ObjectKey, nat>, lru: seq<nat>, id: nat, e: Entry)
    requires Listed(pool, lru, entries) && id !in pool && id !in lru && e.key !in entries
    ensures Listed(pool[id := e], [id] + lru, entries[e.key := id])
  {
    var pool', lru', entries' := pool[id := e], [id] + lru, entries[e.key := id];
    forall x | x in lru'
      ensures ListedAs(pool', entries', x)
    {
      if x != id {
        assert ListedAs(pool, entries, x);
      }
    }
    forall k | k in entries'
      ensures KeyOf(pool', lru', entries', k)
    {
      if k != e.key {
        assert KeyOf(pool, lru, entries, k);
      }
    }
  }

  /** One pin fewer. */
  lemma Unpin(pool: Pool, entries: map<ObjectKey, nat>, lru: seq<nat>, total: int, inflight: set<ObjectKey>,
              made: nat, id: nat)
    requires ValidCache(pool, entries, lru, total, inflight, made) && id in pool && pool[id].refs > 0
    ensures !pool[id].closed && ValidCache(pool[id := Dropped(pool[id])], entries, lru, total, inflight, made)
  {
    var pool' := pool[id := Dropped(pool[id])];
    assert Sound(pool, lru, id);
    Relisted(pool, lru, lru, entries, id, Dropped(pool[id]));
    TotalChanged(pool, lru, entries, id, Dropped(pool[id]));
    forall x | x in pool'
      ensures Sound(pool', lru, x)
    {
      assert Sound(pool, lru, x);
    }
  }

  function Held(pool: Pool, id: nat): Entry
    requires id in pool
  {
    pool[id].(refs := pool[id].refs + 1)
  }

  /** An entry after one release: the last one closes a stale entry. */
  function Dropped(e: Entry): Entry
    requires e.refs > 0
  {
    e.(refs := e.refs - 1, closed := e.closed || (e.refs == 1 && e.stale))
  }

  /** An invalidated entry: closed at once unless held. */
  function Detached(e: Entry): Entry {
    e.(stale := true, closed := e.refs == 0)
  }

  // ---- what eviction closes ----

  /** The file an entry maps holds its object. */
  ghost predicate Intact(pool: Pool, d: Disk, x: nat)
    requires x in pool
  {
    pool[x].node in d.files && d.files[pool[x].node].content == Whole(pool[x].data)
  }

  /** Every open entry reads its own object. */
  ghost predicate Backed(pool: Pool, d: Disk) {
    forall x {:trigger Intact(pool, d, x)} :: x in pool && !pool[x].closed ==> Intact(pool, d, x)
  }

  /** No entry of this key is open. */
  ghost predicate NoneOpen(pool: Pool, key: ObjectKey) {
    forall x :: x in pool && pool[x].key == key ==> pool[x].closed
  }

  /** An open entry maps the file its key names. */
  ghost predicate Named(pool: Pool, names: map<ObjectKey, nat>, x: nat)
    requires x in pool
  {
    pool[x].key in names && names[pool[x].key] == pool[x].node
  }

  /** At most one entry of each key is open. */
  ghost predicate OneOpen(pool: Pool) {
    forall x, y :: x in pool && y in pool && !pool[x].closed && !pool[y].closed && pool[x].key == pool[y].key ==> x == y
  }

  /** A download has its key's file to itself. */
  ghost predicate Alone(pool: Pool, d: Disk, downloads: map<ObjectKey, Download>, k: ObjectKey)
    requires k in downloads
  {
    && k in d.names && NoneOpen(pool, k)
    && (downloads[k].Loaded? ==>
        downloads[k].node in d.files && d.files[downloads[k].node].content == Whole(downloads[k].data))
  }

  /** Every open entry reads its own object from the file its key names, and every
      download has that file to itself. */
  ghost predicate Tidy(pool: Pool, d: Disk, downloads: map<ObjectKey, Download>) {
    && Backed(pool, d) && OneOpen(pool)
    && (forall x {:trigger Named(pool, d.names, x)} :: x in pool && !pool[x].closed ==> Named(pool, d.names, x))
    && forall k {:trigger Alone(pool, d, downloads, k)} :: k in downloads ==> Alone(pool, d, downloads, k)
  }

  /** A file is only ever used under the key it was made for. */
  ghost predicate MadeFor(d: Disk, node: nat, key: ObjectKey) {
    node in d.files && d.files[node].key == key
  }

  /** A download's file is the one its key names, unless that name was removed. */
  ghost predicate Filed(d: Disk, downloads: map<ObjectKey, Download>, k: ObjectKey)
    requires k in downloads
  {
    MadeFor(d, downloads[k].node, k) && (k in d.names ==> d.names[k] == downloads[k].node)
  }

  ghost predicate ValidFiles(pool: Pool, d: Disk, downloads: map<ObjectKey, Download>, inflight: set<ObjectKey>) {
    && (forall n :: n in d.files ==> n < d.made)
    && (forall k :: k in d.names ==> MadeFor(d, d.names[k], k))
    && (forall x :: x in pool ==> MadeFor(d, pool[x].node, pool[x].key))
    && downloads.Keys <= inflight
    && forall k {:trigger Filed(d, downloads, k)} :: k in downloads ==> Filed(d, downloads, k)
  }

  /** Entries that left the list were closed, and nothing else changed. */
  ghost predicate Shed(pool: Pool, lru: seq<nat>, pool': Pool, lru': seq<nat>) {
    && pool'.Keys == pool.Keys && (forall x :: x in lru' ==> x in lru)
    && forall x :: x in pool ==> pool'[x] == pool[x].(closed := pool[x].closed || (x in lru && x !in lru'))
  }

  /** And their names removed. */
  ghost predicate Unfiled(pool: Pool, lru: seq<nat>, names: map<ObjectKey, nat>, lru': seq<nat>,
                          names': map<ObjectKey, nat>) {
    && (forall k :: k in names' <==> k in names && !Left(pool, lru, lru', k))
    && forall k :: k in names' ==> names'[k] == names[k]
  }

  ghost predicate Left(pool: Pool, lru: seq<nat>, lru': seq<nat>, k: ObjectKey) {
    exists x :: x in lru && x !in lru' && x in pool && pool[x].key == k
  }

  lemma EvictedSame(pool: Pool, pool': Pool, lru: seq<nat>, budget: int)
    requires forall x :: x in lru ==>
               x in pool && x in pool' && pool'[x].refs == pool[x].refs && pool'[x].data == pool[x].data
    requires Distinct(lru)
    ensures Evicted(pool', lru, budget) == Evicted(pool, lru, budget)
    decreases |lru|
  {
    TotalSame(pool, pool', lru);
    VictimSame(pool, pool', lru);
    if Total(pool, lru) > budget {
      VictimIs(pool, lru);
      var v := Victim(pool, lru);
      if v.Some? {
        WithoutShorter(lru, v.value);
        WithoutIs(lru, v.value);
        EvictedSame(pool, pool', Without(lru, v.value), budget);
      }
    }
  }

  lemma {:induction false} VictimSame(pool: Pool, pool': Pool, lru: seq<nat>)
    requires forall x :: x in lru ==> x in pool && x in pool' && pool'[x].refs == pool[x].refs
    ensures Victim(pool', lru) == Victim(pool, lru)
    decreases |lru|
  {
    if lru != [] {
      assert lru[|lru| - 1] in lru;
      VictimSame(pool, pool', lru[..|lru| - 1]);
    }
  }

  lemma ShedTrans(pool: Pool, lru: seq<nat>, pool1: Pool, lru1: seq<nat>, pool2: Pool, lru2: seq<nat>)
    requires Shed(pool, lru, pool1, lru1) && Shed(pool1, lru1, pool2, lru2)
    ensures Shed(pool, lru, pool2, lru2)
  {
  }

  lemma UnfiledTrans(pool: Pool, lru: seq<nat>, names: map<ObjectKey, nat>, pool1: Pool, lru1: seq<nat>,
                     names1: map<ObjectKey, nat>, lru2: seq<nat>, names2: map<ObjectKey, nat>)
    requires Shed(pool, lru, pool1, lru1) && (forall x :: x in lru2 ==> x in lru1)
    requires Unfiled(pool, lru, names, lru1, names1) && Unfiled(pool1, lru1, names1, lru2, names2)
    ensures Unfiled(pool, lru, names, lru2, names2)
  {
    forall k
      ensures Left(pool, lru, lru2, k) <==> Left(pool, lru, lru1, k) || Left(pool1, lru1, lru2, k)
    {
      if Left(pool1, lru1, lru2, k) {
        var x :| x in lru1 && x !in lru2 && x in pool1 && pool1[x].key == k;
        assert x in lru && pool[x].key == k;
      }
    }
  }

  /** One victim. */
  lemma EvictOne(pool: Pool, lru: seq<nat>, names: map<ObjectKey, nat>, budget: int)
    requires Distinct(lru) && (forall x :: x in lru ==> x in pool && !pool[x].closed)
    requires Total(pool, lru) > budget && Victim(pool, lru).Some?
    ensures var id := Victim(pool, lru).value;
            && id in lru && id in pool && pool[id].refs == 0 && |Without(lru, id)| < |lru|
            && var pool' := pool[id := pool[id].(closed := true)];
               && Shed(pool, lru, pool', Without(lru, id))
               && Unfiled(pool, lru, names, Without(lru, id), names - {pool[id].key})
               && Evicted(pool', Without(lru, id), budget) == Evicted(pool, lru, budget)
  {
    var id := Victim(pool, lru).value;
    VictimIs(pool, lru);
    WithoutShorter(lru, id);
    WithoutIs(lru, id);
    var pool' := pool[id := pool[id].(closed := true)];
    EvictedSame(pool, pool', Without(lru, id), budget);
    assert forall x :: x in lru && x !in Without(lru, id) ==> x == id;
    assert id in lru && id !in Without(lru, id) && pool[id].key == pool[id].key;
  }

  lemma EvictStep(pool: Pool, entries: map<ObjectKey, nat>, lru: seq<nat>, total: int, inflight: set<ObjectKey>,
                  made: nat, names: map<ObjectKey, nat>, budget: int, id: nat,
                  pool0: Pool, lru0: seq<nat>, names0: map<ObjectKey, nat>)
    requires ValidCache(pool, entries, lru, total, inflight, made) && total > budget && Victim(pool, lru) == Some(id)
    requires Shed(pool0, lru0, pool, lru) && Unfiled(pool0, lru0, names0, lru, names)
    ensures id in pool && pool[id].refs == 0 && !pool[id].closed
    ensures var e := pool[id].(closed := true);
            var pool', lru', names' := pool[id := e], Without(lru, id), names - {e.key};
            && ValidCache(pool', entries - {e.key}, lru', total - |e.data|, inflight, made) && |lru'| < |lru|
            && Evicted(pool', lru', budget) == Evicted(pool, lru, budget)
            && Shed(pool0, lru0, pool', lru') && Unfiled(pool0, lru0, names0, lru', names')
  {
    ListedOpen(pool, lru, entries);
    EvictOne(pool, lru, names, budget);
    var e := pool[id].(closed := true);
    Unlist(pool, entries, lru, total, inflight, made, id, e);
    ShedTrans(pool0, lru0, pool, lru, pool[id := e], Without(lru, id));
    UnfiledTrans(pool0, lru0, names0, pool, lru, names, Without(lru, id), names - {e.key});
  }

  // ---- what each step does to the files ----

  /** Eviction takes only the names of what it closes. */
  lemma ShedFiles(pool: Pool, lru: seq<nat>, d: Disk, downloads: map<ObjectKey, Download>, inflight: set<ObjectKey>,
                  pool': Pool, lru': seq<nat>, d': Disk)
    requires Alive(pool, lru) && Shed(pool, lru, pool', lru') && ValidFiles(pool, d, downloads, inflight)
    requires d' == d.(names := d'.names) && Unfiled(pool, lru, d.names, lru', d'.names)
    ensures ValidFiles(pool', d', downloads, inflight)
    ensures Tidy(pool, d, downloads) ==> Tidy(pool', d', downloads)
  {
    forall k | k in downloads
      ensures Filed(d', downloads, k)
    {
      assert Filed(d, downloads, k);
    }
    if Tidy(pool, d, downloads) {
      forall x | x in pool' && !pool'[x].closed
        ensures Intact(pool', d', x) && Named(pool', d'.names, x)
      {
        assert Intact(pool, d, x) && Named(pool, d.names, x);
        OnlyItsFile(pool, lru, lru', x);
      }
      forall k | k in downloads
        ensures Alone(pool', d', downloads, k)
      {
        assert Alone(pool, d, downloads, k);
        NoneLeft(pool, lru, lru', k);
      }
    }
  }

  /** No evicted entry shares the key of another open one. */
  lemma OnlyItsFile(pool: Pool, lru: seq<nat>, lru': seq<nat>, x: nat)
    requires Alive(pool, lru) && OneOpen(pool) && x in pool && !pool[x].closed && (x in lru ==> x in lru')
    ensures !Left(pool, lru, lru', pool[x].key)
  {
    forall y | y in lru && y !in lru' && y in pool
      ensures pool[y].key != pool[x].key
    {
      assert Sound(pool, lru, y);
    }
  }

  lemma NoneLeft(pool: Pool, lru: seq<nat>, lru': seq<nat>, k: ObjectKey)
    requires Alive(pool, lru) && NoneOpen(pool, k)
    ensures !Left(pool, lru, lru', k)
  {
    forall y | y in lru && y !in lru' && y in pool
      ensures pool[y].key != k
    {
      assert Sound(pool, lru, y);
    }
  }

  /** The start of a download. With none of its key open everything stays tidy; otherwise
      the file of an open entry has just been truncated. */
  lemma CreateFiles(pool: Pool, d: Disk, downloads: map<ObjectKey, Download>, inflight: set<ObjectKey>, key: ObjectKey)
    requires ValidFiles(pool, d, downloads, inflight) && key in inflight && key !in downloads
    ensures var d' := Created(d, key);
            && key in d'.names && var downloads' := downloads[key := Writing(d'.names[key])];
            && ValidFiles(pool, d', downloads', inflight)
            && (Tidy(pool, d, downloads) ==>
                  if NoneOpen(pool, key) then Tidy(pool, d', downloads') else !Backed(pool, d'))
  {
    CreateValid(pool, d, downloads, inflight, key);
    var d' := Created(d, key);
    var downloads' := downloads[key := Writing(d'.names[key])];
    if Tidy(pool, d, downloads) {
      if NoneOpen(pool, key) {
        DownloadsMade(pool, d, downloads, inflight);
        OneChanged(pool, d, downloads, key, d', downloads');
      } else {
        var x :| x in pool && pool[x].key == key && !pool[x].closed;
        assert Named(pool, d.names, x);
        assert !Intact(pool, d', x);
      }
    }
  }

  lemma CreateValid(pool: Pool, d: Disk, downloads: map<ObjectKey, Download>, inflight: set<ObjectKey>, key: ObjectKey)
    requires ValidFiles(pool, d, downloads, inflight) && key in inflight && key !in downloads
    ensures var d' := Created(d, key);
            key in d'.names && ValidFiles(pool, d', downloads[key := Writing(d'.names[key])], inflight)
  {
    var d' := Created(d, key);
    var downloads' := downloads[key := Writing(d'.names[key])];
    forall k | k in downloads'
      ensures Filed(d', downloads', k)
    {
      assert k != key ==> Filed(d, downloads, k);
    }
  }

  lemma DownloadsMade(pool: Pool, d: Disk, downloads: map<ObjectKey, Download>, inflight: set<ObjectKey>)
    requires ValidFiles(pool, d, downloads, inflight)
    ensures forall k :: k in downloads ==> MadeFor(d, downloads[k].node, k)
  {
    forall k | k in downloads
      ensures MadeFor(d, downloads[k].node, k)
    {
      assert Filed(d, downloads, k);
    }
  }

  /** A change to one key's file leaves every other key's alone. */
  lemma OneChanged(pool: Pool, d: Disk, downloads: map<ObjectKey, Download>, key: ObjectKey, d': Disk,
                   downloads': map<ObjectKey, Download>)
    requires Tidy(pool, d, downloads) && NoneOpen(pool, key) && key in d'.names && key in downloads'
    requires forall k :: k != key ==> (k in d'.names <==> k in d.names) && (k in d.names ==> d'.names[k] == d.names[k])
    requires forall k :: k != key ==>
               (k in downloads' <==> k in downloads) && (k in downloads ==> downloads'[k] == downloads[k])
    requires forall n :: n in d.files && d.files[n].key != key ==> n in d'.files && d'.files[n] == d.files[n]
    requires forall x :: x in pool ==> MadeFor(d, pool[x].node, pool[x].key)
    requires forall k :: k in downloads ==> MadeFor(d, downloads[k].node, k)
    requires downloads'[key].Loaded? ==>
               downloads'[key].node in d'.files && d'.files[downloads'[key].node].content == Whole(downloads'[key].data)
    ensures Tidy(pool, d', downloads')
  {
    forall x | x in pool && !pool[x].closed
      ensures Intact(pool, d', x) && Named(pool, d'.names, x)
    {
      assert Intact(pool, d, x) && Named(pool, d.names, x) && MadeFor(d, pool[x].node, pool[x].key);
    }
    forall k | k in downloads'
      ensures Alone(pool, d', downloads', k)
    {
      if k != key {
        assert Alone(pool, d, downloads, k) && MadeFor(d, downloads[k].node, k);
      }
    }
  }

  /** The end of a download: its file is found under its name if that was not removed
      in the meantime; otherwise a blank one is. */
  lemma LoadFiles(pool: Pool, d: Disk, downloads: map<ObjectKey, Download>, inflight: set<ObjectKey>, key: ObjectKey,
                  data: seq<byte>)
    requires ValidFiles(pool, d, downloads, inflight) && key in downloads && downloads[key].Writing?
    ensures var d' := Mapped(Written(d, downloads[key].node, key, data), key);
            && key in d'.names && var downloads' := downloads[key := Loaded(d'.names[key], data)];
            && ValidFiles(pool, d', downloads', inflight) && MadeFor(d', d'.names[key], key)
            && (d'.files[d'.names[key]].content == Whole(data) <==> key in d.names)
            && (Tidy(pool, d, downloads) ==> Tidy(pool, d', downloads'))
  {
    assert Filed(d, downloads, key);
    var d' := Mapped(Written(d, downloads[key].node, key, data), key);
    var downloads' := downloads[key := Loaded(d'.names[key], data)];
    forall k | k in downloads'
      ensures Filed(d', downloads', k)
    {
      assert k != key ==> Filed(d, downloads, k);
    }
    if Tidy(pool, d, downloads) {
      assert Alone(pool, d, downloads, key);
      DownloadsMade(pool, d, downloads, inflight);
      OneChanged(pool, d, downloads, key, d', downloads');
    }
  }

  /** A download given up: its file's name goes. */
  lemma FailFiles(pool: Pool, d: Disk, downloads: map<ObjectKey, Download>, inflight: set<ObjectKey>, key: ObjectKey)
    requires ValidFiles(pool, d, downloads, inflight) && key in downloads
    ensures ValidFiles(pool, Unlinked(d, key), downloads - {key}, inflight - {key})
    ensures Tidy(pool, d, downloads) ==> Tidy(pool, Unlinked(d, key), downloads - {key})
  {
    var d', downloads' := Unlinked(d, key), downloads - {key};
    assert Tidy(pool, d, downloads) ==> Alone(pool, d, downloads, key);
    forall k | k in downloads'
      ensures Filed(d', downloads', k)
      ensures Tidy(pool, d, downloads) ==> Alone(pool, d', downloads', k)
    {
      assert Filed(d, downloads, k);
      assert Tidy(pool, d, downloads) ==> Alone(pool, d, downloads, k);
    }
    if Tidy(pool, d, downloads) {
      forall x | x in pool && !pool[x].closed
        ensures Intact(pool, d', x) && Named(pool, d'.names, x)
      {
        assert Intact(pool, d, x) && Named(pool, d.names, x);
      }
    }
  }

  /** A download becomes an entry. */
  lemma EnterFiles(pool: Pool, d: Disk, downloads: map<ObjectKey, Download>, inflight: set<ObjectKey>,
                   key: ObjectKey, id: nat)
    requires ValidFiles(pool, d, downloads, inflight) && key in downloads && downloads[key].Loaded? && id !in pool
    ensures var pool' := pool[id := Entry(key, downloads[key].data, downloads[key].node, 1, false, false)];
            && ValidFiles(pool', d, downloads - {key}, inflight - {key})
            && (Tidy(pool, d, downloads) ==> Tidy(pool', d, downloads - {key}))
  {
    assert Filed(d, downloads, key);
    var downloads' := downloads - {key};
    var pool' := pool[id := Entry(key, downloads[key].data, downloads[key].node, 1, false, false)];
    assert Tidy(pool, d, downloads) ==> Alone(pool, d, downloads, key);
    forall k | k in downloads'
      ensures Filed(d, downloads', k)
      ensures Tidy(pool, d, downloads) ==> Alone(pool', d, downloads', k)
    {
      assert Filed(d, downloads, k);
      assert Tidy(pool, d, downloads) ==> Alone(pool, d, downloads, k);
    }
    if Tidy(pool, d, downloads) {
      forall x | x in pool' && !pool'[x].closed
        ensures Intact(pool', d, x) && Named(pool', d.names, x)
      {
        assert x != id ==> Intact(pool, d, x) && Named(pool, d.names, x);
      }
    }
  }

  /** An entry's pins and findability do not touch its file; closing it takes its name. */
  lemma EntryFiles(pool: Pool, d: Disk, downloads: map<ObjectKey, Download>, inflight: set<ObjectKey>, id: nat,
                   e: Entry)
    requires ValidFiles(pool, d, downloads, inflight) && id in pool && !pool[id].closed
    requires e.key == pool[id].key && e.data == pool[id].data && e.node == pool[id].node
    ensures var d' := if e.closed then Unlinked(d, e.key) else d;
            && ValidFiles(pool[id := e], d', downloads, inflight)
            && (Tidy(pool, d, downloads) ==> Tidy(pool[id := e], d', downloads))
  {
    var pool', d' := pool[id := e], if e.closed then Unlinked(d, e.key) else d;
    forall k | k in downloads
      ensures Filed(d', downloads, k)
      ensures Tidy(pool, d, downloads) ==> Alone(pool', d', downloads, k)
    {
      assert Filed(d, downloads, k);
      assert Tidy(pool, d, downloads) ==> Alone(pool, d, downloads, k);
    }
    if Tidy(pool, d, downloads) {
      forall x | x in pool' && !pool'[x].closed
        ensures Intact(pool', d', x) && Named(pool', d'.names, x)
      {
        assert Intact(pool, d, x) && Named(pool, d.names, x);
      }
    }
  }

  class RemoteIndexCache {
    const budget: int
    var pool: Pool
    /** Listed entries by key, and by recency, newest first. */
    var entries: map<ObjectKey, nat>
    var lru: seq<nat>
    var total: int
    /** Keys being fetched, and the downloads among them that have a file. */
    var inflight: set<ObjectKey>
    var downloads: map<ObjectKey, Download>
    /** The next handle. */
    var made: nat
    var disk: Disk

    ghost predicate Valid()
      reads this
    {
      ValidCache(pool, entries, lru, total, inflight, made) && ValidFiles(pool, disk, downloads, inflight)
    }

    /** Every open entry reads its own object, and every download has its file to itself. */
    ghost predicate InOrder()
      reads this
    {
      Tidy(pool, disk, downloads)
    }

    constructor (budget: int)
      ensures Valid() && InOrder() && this.budget == budget && pool == map[] && inflight == {} && downloads == map[]
      ensures lru == [] && entries == map[] && disk == Disk(map[], map[], 0)
    {
      this.budget := budget;
      pool, entries, lru, total, inflight, made := map[], map[], [], 0, {}, 0;
      downloads, disk := map[], Disk(map[], map[], 0);
    }

    /** Pin a cached index, wait for a fetch under way, or begin one. */
    method Acquire(key: ObjectKey) returns (r: Outcome)
      requires Valid()
      modifies this`pool, this`lru, this`inflight
      ensures Valid() && (old(InOrder()) ==> InOrder())
      ensures r == if key in entries then Hit(entries[key]) else if key in old(inflight) then Wait else Fetch
      ensures inflight == old(inflight) + if r.Fetch? then {key} else {}
      ensures r.Hit? ==> r.id in old(pool) && pool == old(pool)[r.id := Held(old(pool), r.id)]
      ensures !r.Hit? ==> pool == old(pool)
      ensures lru == if r.Hit? then [r.id] + Without(old(lru), r.id) else old(lru)
    {
      if key in entries {
        var id := entries[key];
        assert KeyOf(pool, lru, entries, key);
        assert Sound(pool, lru, id);
        Touch(pool, entries, lru, total, inflight, made, id);
        EntryFiles(pool, disk, downloads, inflight, id, Held(pool, id));
        lru := [id] + Without(lru, id);
        pool := pool[id := Held(pool, id)];
        return Hit(id);
      }
      if key in inflight {
        return Wait;
      }
      inflight := inflight + {key};
      return Fetch;
    }

    /** Begin the download: create its file, truncating one already there. From here to
        the end of the download every open entry reads its own object if no entry of the
        key is open now; if one is, it has just lost its file's contents. */
    method Create(key: ObjectKey)
      requires Valid() && key in inflight && key !in downloads
      modifies this`disk, this`downloads
      ensures Valid() && disk == Created(old(disk), key)
      ensures key in disk.names && downloads == old(downloads)[key := Writing(disk.names[key])]
      ensures old(InOrder()) && NoneOpen(pool, key) ==> InOrder()
      ensures old(InOrder()) && !NoneOpen(pool, key) ==> !Backed(pool, disk)
    {
      CreateFiles(pool, disk, downloads, inflight, key);
      disk := Created(disk, key);
      downloads := downloads[key := Writing(disk.names[key])];
    }

    /** Write the object out, and open the file by its name. What is opened holds the
        object if and only if the name was not removed since the file was created. */
    method Load(key: ObjectKey, data: seq<byte>)
      requires Valid() && key in downloads && downloads[key].Writing? && data != []
      modifies this`disk, this`downloads
      ensures Valid() && (old(InOrder()) ==> InOrder())
      ensures disk == Mapped(Written(old(disk), old(downloads)[key].node, key, data), key)
      ensures key in disk.names && downloads == old(downloads)[key := Loaded(disk.names[key], data)]
      ensures MadeFor(disk, downloads[key].node, key)
      ensures disk.files[downloads[key].node].content == Whole(data) <==> key in old(disk).names
    {
      LoadFiles(pool, disk, downloads, inflight, key, data);
      disk := Mapped(Written(disk, downloads[key].node, key, data), key);
      downloads := downloads[key := Loaded(disk.names[key], data)];
    }

    /** A fetch failed: what it had of a file is unlinked, whoever else maps it, and the
        waiters try again. */
    method FetchFailed(key: ObjectKey)
      requires Valid() && key in inflight
      modifies this`inflight, this`downloads, this`disk
      ensures Valid() && (old(InOrder()) ==> InOrder())
      ensures inflight == old(inflight) - {key} && downloads == old(downloads) - {key}
      ensures disk == if key in old(downloads) then Unlinked(old(disk), key) else old(disk)
    {
      if key in downloads {
        FailFiles(pool, disk, downloads, inflight, key);
        disk := Unlinked(disk, key);
      }
      assert key !in downloads ==> downloads - {key} == downloads;
      downloads := downloads - {key};
      inflight := inflight - {key};
    }

    /** A download finished: its entry is listed, held by the caller, and the cache is
        brought back within budget. */
    method FetchDone(key: ObjectKey) returns (id: nat)
      requires Valid() && key in downloads && downloads[key].Loaded?
      modifies this`pool, this`entries, this`lru, this`total, this`inflight, this`downloads, this`made, this`disk
      ensures Valid() && (old(InOrder()) ==> InOrder())
      ensures inflight == old(inflight) - {key} && downloads == old(downloads) - {key}
      ensures id == old(made) && id !in old(pool) && key in entries && entries[key] == id
      ensures var l := old(downloads)[key];
              var pool1 := old(pool)[id := Entry(key, l.data, l.node, 1, false, false)];
              && lru == Evicted(pool1, [id] + old(lru), budget) && Shed(pool1, [id] + old(lru), pool, lru)
              && disk == old(disk).(names := disk.names) &&
                 Unfiled(pool1, [id] + old(lru), old(disk).names, lru, disk.names)
      ensures total <= budget || forall x :: x in lru ==> x in pool && pool[x].refs > 0
    {
      id := Enter(key);
      ghost var pool1, lru1 := pool, lru;
      Evict();
      KeptFetched(pool1, lru1, pool, entries, lru, budget, id);
    }

    method Enter(key: ObjectKey) returns (id: nat)
      requires Valid() && key in downloads && downloads[key].Loaded?
      modifies this`pool, this`entries, this`lru, this`total, this`inflight, this`downloads, this`made
      ensures Valid() && (old(InOrder()) ==> InOrder())
      ensures inflight == old(inflight) - {key} && downloads == old(downloads) - {key}
      ensures id == old(made) && id !in old(pool) && lru == [id] + old(lru)
      ensures pool == old(pool)[id := Entry(key, old(downloads)[key].data, old(downloads)[key].node, 1, false, false)]
    {
      id := made;
      var e := Entry(key, downloads[key].data, downloads[key].node, 1, false, false);
      Enlist(pool, entries, lru, total, inflight, made, e);
      EnterFiles(pool, disk, downloads, inflight, key, id);
      made := made + 1;
      inflight := inflight - {key};
      downloads := downloads - {key};
      pool := pool[id := e];
      lru := [id] + lru;
      entries := entries[key := id];
      total := total + |e.data|;
    }

    /** Close unheld entries, least recently used first, until within budget. */
    method Evict()
      requires Valid()
      modifies this`pool, this`entries, this`lru, this`total, this`disk
      ensures Valid() && (old(InOrder()) ==> InOrder())
      ensures lru == Evicted(old(pool), old(lru), budget) && Shed(old(pool), old(lru), pool, lru)
      ensures disk == old(disk).(names := disk.names) && Unfiled(old(pool), old(lru), old(disk).names, lru, disk.names)
      ensures total <= budget || forall x :: x in lru ==> x in pool && pool[x].refs > 0
      ensures forall k :: k in entries ==> k in old(entries)
    {
      ghost var pool0, lru0, disk0 := pool, lru, disk;
      while total > budget
        invariant ValidCache(pool, entries, lru, total, inflight, made) && disk == disk0.(names := disk.names)
        invariant Evicted(pool, lru, budget) == Evicted(pool0, lru0, budget)
        invariant Shed(pool0, lru0, pool, lru) && Unfiled(pool0, lru0, disk0.names, lru, disk.names)
        invariant forall k :: k in entries ==> k in old(entries)
        decreases |lru|
      {
        var v := Victim(pool, lru);
        VictimIs(pool, lru);
        if v.None? {
          break;
        }
        EvictVictim(v.value, pool0, lru0, disk0.names);
      }
      ShedFiles(pool0, lru0, disk0, downloads, inflight, pool, lru, disk);
    }

    method EvictVictim(id: nat, ghost pool0: Pool, ghost lru0: seq<nat>, ghost names0: map<ObjectKey, nat>)
      requires ValidCache(pool, entries, lru, total, inflight, made) && total > budget && Victim(pool, lru) == Some(id)
      requires Shed(pool0, lru0, pool, lru) && Unfiled(pool0, lru0, names0, lru, disk.names)
      modifies this`pool, this`entries, this`lru, this`total, this`disk
      ensures ValidCache(pool, entries, lru, total, inflight, made) && disk == old(disk).(names := disk.names)
      ensures |lru| < |old(lru)| && Evicted(pool, lru, budget) == Evicted(old(pool), old(lru), budget)
      ensures Shed(pool0, lru0, pool, lru) && Unfiled(pool0, lru0, names0, lru, disk.names)
      ensures forall k :: k in entries ==> k in old(entries)
    {
      EvictStep(pool, entries, lru, total, inflight, made, disk.names, budget, id, pool0, lru0, names0);
      var e := pool[id];
      assert e.refs == 0 && !e.closed;
      lru := Without(lru, id);
      entries := entries - {e.key};
      total := total - |e.data|;
      pool := pool[id := e.(closed := true)];
      disk := Unlinked(disk, e.key);
    }

    /** Drop one pin; the last one on a detached entry closes it and unlinks its key's
        file, even one being downloaded. */
    method Release(id: nat)
      requires Valid() && id in pool && pool[id].refs > 0
      modifies this`pool, this`disk
      ensures Valid() && (old(InOrder()) ==> InOrder())
      ensures pool == old(pool)[id := Dropped(old(pool[id]))]
      ensures disk == if Dropped(old(pool[id])).closed then Unlinked(old(disk), old(pool[id]).key) else old(disk)
    {
      var e := pool[id];
      Unpin(pool, entries, lru, total, inflight, made, id);
      EntryFiles(pool, disk, downloads, inflight, id, Dropped(e));
      if e.refs == 1 && e.stale {
        assert !e.closed;
        pool := pool[id := e.(refs := 0, closed := true)];
        disk := Unlinked(disk, e.key);
      } else {
        pool := pool[id := e.(refs := e.refs - 1)];
      }
    }

    /** Make a key unfindable: an unheld entry closes at once, a held one when it is last
        released. */
    method Invalidate(key: ObjectKey)
      requires Valid()
      modifies this`pool, this`entries, this`lru, this`total, this`disk
      ensures Valid() && (old(InOrder()) ==> InOrder())
      ensures key !in entries && entries == old(entries) - {key}
      ensures key !in old(entries) ==> pool == old(pool) && lru == old(lru) && disk == old(disk)
      ensures key in old(entries) ==>
                var id := old(entries)[key];
                && id in old(pool) && lru == Without(old(lru), id) && pool == old(pool)[id := Detached(old(pool)[id])]
                && disk == if old(pool)[id].refs == 0 then Unlinked(old(disk), key) else old(disk)
    {
      if key !in entries {
        return;
      }
      var id := entries[key];
      assert KeyOf(pool, lru, entries, key);
      var e := pool[id];
      assert Sound(pool, lru, id);
      Unlist(pool, entries, lru, total, inflight, made, id, Detached(e));
      EntryFiles(pool, disk, downloads, inflight, id, Detached(e));
      lru := Without(lru, id);
      entries := entries - {key};
      total := total - |e.data|;
      if e.refs == 0 {
        assert !e.closed;
        pool := pool[id := e.(stale := true, closed := true)];
        disk := Unlinked(disk, key);
      } else {
        pool := pool[id := e.(stale := true)];
      }
    }
  }

  /** What was just fetched is held, so it survives the eviction. */
  lemma KeptFetched(pool: Pool, lru: seq<nat>, pool': Pool, entries': map<ObjectKey, nat>, lru': seq<nat>,
                    budget: int, id: nat)
    requires Distinct(lru) && id in lru && id in pool && pool[id].refs > 0 && lru' == Evicted(pool, lru, budget)
    requires Shed(pool, lru, pool', lru') && Listed(pool', lru', entries')
    ensures pool[id].key in entries' && entries'[pool[id].key] == id
  {
    EvictedIs(pool, lru, budget);
    assert ListedAs(pool', entries', id);
  }

  // ---- a predecessor still held ----

  /** Within budget nothing is evicted. */
  lemma NoneEvicted(pool: Pool, names: map<ObjectKey, nat>, id: nat, budget: int,
                    pool': Pool, lru': seq<nat>, names': map<ObjectKey, nat>)
    requires id in pool && |pool[id].data| <= budget
    requires lru' == Evicted(pool, [id], budget) && Shed(pool, [id], pool', lru') &&
             Unfiled(pool, [id], names, lru', names')
    ensures lru' == [id] && pool' == pool && names' == names
  {
    assert [id][1..] == [];
    assert Total(pool, [id]) == |pool[id].data|;
  }

  /** One index downloaded for an empty cache, and then listed. */
  method LoadOne(data: seq<byte>) returns (c: RemoteIndexCache)
    requires data != []
    ensures fresh(c) && c.Valid() && c.InOrder() && c.inflight == {"i"} && c.budget == |data|
    ensures c.downloads == map["i" := Loaded(0, data)] && c.pool == map[] && c.lru == []
    ensures c.disk.names == map["i" := 0] && c.disk.files == map[0 := File("i", Whole(data))]
  {
    c := new RemoteIndexCache(|data|);
    var r := c.Acquire("i");
    c.Create("i");
    assert NoneOpen(c.pool, "i");
    assert c.disk.names == map["i" := 0] && c.downloads == map["i" := Writing(0)];
    c.Load("i", data);
    assert c.downloads == map["i" := Loaded(0, data)];
    assert c.disk.files == map[0 := File("i", Whole(data))];
  }

  method FetchOne(data: seq<byte>) returns (c: RemoteIndexCache, id: nat)
    requires data != []
    ensures fresh(c) && c.Valid() && c.InOrder() && c.inflight == {} && c.downloads == map[] && c.budget == |data|
    ensures c.lru == [id] && c.pool == map[id := Entry("i", data, 0, 1, false, false)] && "i" in c.entries &&
            c.entries["i"] == id
    ensures c.disk.names == map["i" := 0] && c.disk.files == map[0 := File("i", Whole(data))]
  {
    c := LoadOne(data);
    ghost var e := Entry("i", data, 0, 1, false, false);
    id := c.FetchDone("i");
    assert [id] + [] == [id];
    NoneEvicted(map[id := e], map["i" := 0], id, |data|, c.pool, c.lru, c.disk.names);
  }

  /** It is invalidated while held, and fetched anew up to the start of the download: the
      index in use has lost its contents. */
  method HeldPredecessor(data: seq<byte>) returns (c: RemoteIndexCache, id: nat)
    requires data != []
    ensures fresh(c) && c.Valid() && c.lru == [] && c.budget == |data|
    ensures c.downloads == map["i" := Writing(0)] && c.disk.names == map["i" := 0]
    ensures c.pool == map[id := Entry("i", data, 0, 1, true, false)] && !Intact(c.pool, c.disk, id)
  {
    c, id := FetchOne(data);
    c.Invalidate("i");
    assert c.lru == [];
    var r := c.Acquire("i");
    assert !NoneOpen(c.pool, "i") by {
      assert id in c.pool && c.pool[id].key == "i";
    }
    c.Create("i");
  }

  method LoadBlank(data: seq<byte>) returns (c: RemoteIndexCache)
    requires data != []
    ensures fresh(c) && c.Valid() && c.lru == [] && c.budget == |data| && forall x :: x in c.pool ==> c.pool[x].closed
    ensures "i" in c.downloads && c.downloads["i"].Loaded? && c.downloads["i"].data == data
    ensures var node := c.downloads["i"].node; node in c.disk.files && c.disk.files[node].content == Blank
  {
    var held;
    c, held := HeldPredecessor(data);
    c.Release(held);
    assert "i" !in c.disk.names;
    c.Load("i", data);
  }

  /** The predecessor is released during the second download, which ends in a blank index,
      although no other entry of its key is open by then. */
  method BlankIndex(data: seq<byte>) returns (c: RemoteIndexCache, id: nat)
    requires data != []
    ensures fresh(c) && c.Valid() && "i" in c.entries && c.entries["i"] == id && id in c.pool && !c.pool[id].closed
    ensures c.pool[id].data == data && c.pool[id].node in c.disk.files && c.disk.files[c.pool[id].node].content == Blank
    ensures forall x :: x in c.pool && x != id ==> c.pool[x].closed
  {
    c := LoadBlank(data);
    ghost var l, pool0, names := c.downloads["i"], c.pool, c.disk.names;
    id := c.FetchDone("i");
    ghost var e := Entry("i", data, l.node, 1, false, false);
    assert [id] + [] == [id];
    NoneEvicted(pool0[id := e], names, id, |data|, c.pool, c.lru, c.disk.names);
  }
}
