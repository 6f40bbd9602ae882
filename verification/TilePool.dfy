/** The tile pools of src/shared/hashmap.c: memory handed out in fixed-size
    tiles, with a free list threaded through the first word of each free tile.
    A recycled tile is not zeroed. */
module TilePools {
  import opened Basics
  import opened Hashmaps
  import opened OrderedMap
  import opened HashChains

  class Tile {
    var next: Tile?          // the tile's first word, while it is free
    const body: Hashmap      // the rest of the tile

    constructor ()
      ensures fresh(body) && fresh(body.embedded) && body.Blank()
    {
      next := null;
      body := new Hashmap.Tile();
    }
  }

  class Pool {
    const next: Pool?
    const tiles: seq<Tile>
    var nUsed: nat

    constructor (next: Pool?, tiles: seq<Tile>)
      ensures this.next == next && this.tiles == tiles && nUsed == 0
    {
      this.next, this.tiles, nUsed := next, tiles, 0;
    }
  }

  ghost function TileAt(s: seq<Tile>, i: int): Tile? {
    if 0 <= i < |s| then s[i] else null
  }

  ghost predicate Threaded(s: seq<Tile>, i: nat)
    requires i < |s|
    reads s`next
  {
    s[i].next == TileAt(s, i + 1)
  }

  ghost predicate FreeList(s: seq<Tile>, first: Tile?)
    reads s`next
  {
    && first == TileAt(s, 0)
    && forall i {:trigger Threaded(s, i)} :: 0 <= i < |s| ==> Threaded(s, i)
  }

  lemma FreePop(s: seq<Tile>, first: Tile?)
    requires FreeList(s, first) && first != null
    ensures s != [] && first == s[0] && FreeList(s[1..], first.next)
  {
    assert Threaded(s, 0);
    forall i | 0 <= i < |s[1..]| ensures Threaded(s[1..], i) {
      assert Threaded(s, i + 1);
    }
  }

  lemma NoFree(s: seq<Tile>, first: Tile?)
    requires FreeList(s, first) && first == null
    ensures s == []
  {
  }

  lemma FreePush(s: seq<Tile>, first: Tile?, p: Tile)
    requires FreeList(s, first) && p.next == first
    ensures FreeList([p] + s, p)
  {
    var s' := [p] + s;
    forall i | 0 <= i < |s'| ensures Threaded(s', i) {
      assert i > 0 ==> Threaded(s, i - 1);
    }
  }

  /** Tiles that may be handed out: none is live, and each has bucket slots of its
      own, among `slots`, all of them NULL. */
  ghost predicate Ready(s: seq<Tile>, slots: set<array<Entry?>>, live: set<Tile>)
    reads slots
  {
    && (forall i, j :: 0 <= i < j < |s| ==> s[i].body.embedded != s[j].body.embedded)
    && forall i :: 0 <= i < |s| ==> s[i].body.embedded in slots && s[i].body.Blank() && s[i] !in live
  }

  /** Tiles that are in use have bucket slots of their own, none of them spare. */
  ghost predicate InUse(live: set<Tile>, slots: set<array<Entry?>>) {
    && (forall t :: t in live ==> t.body.embedded !in slots)
    && forall t, u :: t in live && u in live && t != u ==> t.body.embedded != u.body.embedded
  }

  lemma ReadyPop(s: seq<Tile>, slots: set<array<Entry?>>, live: set<Tile>, p: Tile)
    requires Ready([p] + s, slots, live) && InUse(live, slots)
    ensures Ready(s, slots - {p.body.embedded}, live + {p}) && p.body.Blank() && p !in live && p.body.embedded in slots
    ensures InUse(live + {p}, slots - {p.body.embedded})
  {
    var s' := [p] + s;
    assert forall i :: 0 <= i < |s| ==> s[i] == s'[i + 1];
    assert s'[0] == p;
  }

  lemma NotReady(s: seq<Tile>, u: seq<Tile>, slots: set<array<Entry?>>, live: set<Tile>, p: Tile)
    requires Ready(s + u, slots, live) && p in live
    ensures p !in s
  {
    assert forall i :: 0 <= i < |s| ==> s[i] == (s + u)[i];
  }

  lemma ReadyPush(s: seq<Tile>, slots: set<array<Entry?>>, live: set<Tile>, p: Tile)
    requires Ready(s, slots, live) && p.body.Blank() && p in live && InUse(live, slots)
    ensures Ready([p] + s, slots + {p.body.embedded}, live - {p})
    ensures InUse(live - {p}, slots + {p.body.embedded})
  {
  }

  const MIN_TILES := 512

  /** How many tiles the next chunk holds: room for twice the last chunk's, and at
      least 512, rounded up to whole pages. */
  function ChunkTiles(last: nat, header: nat, tileSize: nat, page: nat): (n: nat)
    requires tileSize > 0 && page > 0
  {
    var want := if last * 2 > MIN_TILES then last * 2 else MIN_TILES;
    var size := (header + want * tileSize + page - 1) / page * page;
    if size < header then 0 else (size - header) / tileSize
  }

  lemma ChunkTilesEnough(last: nat, header: nat, tileSize: nat, page: nat)
    requires tileSize > 0 && page > 0
    ensures ChunkTiles(last, header, tileSize, page) >= MIN_TILES
    ensures ChunkTiles(last, header, tileSize, page) >= 2 * last
  {
    var want := if last * 2 > MIN_TILES then last * 2 else MIN_TILES;
    var raw := header + want * tileSize;
    RoundUp(raw, page);
    var size := (raw + page - 1) / page * page;
    DivideBack(size - header, want, tileSize);
  }

  lemma RoundUp(x: nat, page: nat)
    requires page > 0
    ensures (x + page - 1) / page * page >= x
  {
    var q, r := (x + page - 1) / page, (x + page - 1) % page;
    assert x + page - 1 == q * page + r;
  }

  lemma DivideBack(room: int, want: nat, tileSize: nat)
    requires tileSize > 0 && room >= want * tileSize
    ensures room / tileSize >= want
  {
    var q := room / tileSize;
    assert room < (q + 1) * tileSize;
    if q < want {
      Scale(q + 1, want, tileSize);
    }
  }

  lemma Scale(a: nat, b: nat, t: nat)
    requires a <= b
    ensures a * t <= b * t
  {
  }

  class TilePool {
    var firstPool: Pool?     // the newest chunk
    var firstTile: Tile?
    const header: nat
    const tileSize: nat
    const page: nat
    ghost var free: seq<Tile>
    ghost var live: set<Tile>
    ghost var slots: set<array<Entry?>>  // the bucket slots inside the spare tiles

    /** Every tile that may be handed out next. */
    ghost function Spare(): seq<Tile>
      reads this, firstPool
    {
      free + if firstPool == null || firstPool.nUsed > |firstPool.tiles| then [] else firstPool.tiles[firstPool.nUsed..]
    }

    ghost predicate Valid()
      reads this, firstPool, free`next, slots
    {
      && tileSize > 0 && page > 0
      && (firstPool != null ==> firstPool.nUsed <= |firstPool.tiles|)
      && FreeList(free, firstTile)
      && Ready(Spare(), slots, live)
      && InUse(live, slots)
    }

    constructor (header: nat, tileSize: nat, page: nat)
      requires tileSize > 0 && page > 0
      ensures Valid() && live == {} && firstPool == null && free == [] && slots == {}
    {
      this.header, this.tileSize, this.page := header, tileSize, page;
      firstPool, firstTile := null, null;
      free, live, slots := [], {}, {};
    }

    /** The tile handed out is not live, and its map part is blank. */
    method AllocateTile() returns (r: Tile)
      requires Valid()
      modifies this, firstPool
      ensures Valid() && r !in old(live) && live == old(live) + {r}
      ensures r.body.Blank() && r.body.embedded !in slots && fresh(slots - old(slots))
      ensures r in old(Spare()) || (fresh(r) && fresh(r.body))
      ensures r.body.embedded in old(slots) || fresh(r.body.embedded)
      ensures forall t :: t in Spare() ==> t in old(Spare()) || (fresh(t) && fresh(t.body))
      ensures firstPool == old(firstPool) || fresh(firstPool)
    {
      hide FreeList, Ready, InUse;
      if firstTile != null {
        r := firstTile;
        FreePop(free, firstTile);
        firstTile := firstTile.next;
        ghost var rest := free[1..] + Spare()[|free|..];
        assert Spare() == [r] + rest;
        TakeReady(rest, r);
        free := free[1..];
        assert Spare() == rest == old(Spare())[1..];
        return;
      }
      NoFree(free, firstTile);
      if firstPool == null || firstPool.nUsed >= |firstPool.tiles| {
        AddPool();
      }
      r := BumpTile();
    }

    /** The next unused tile of the newest chunk. */
    method BumpTile() returns (r: Tile)
      requires Valid() && free == [] && firstPool != null && firstPool.nUsed < |firstPool.tiles|
      modifies this`live, this`slots, firstPool
      ensures Valid() && r !in old(live) && live == old(live) + {r}
      ensures r.body.Blank() && r.body.embedded !in slots && slots <= old(slots) && r in old(Spare())
      ensures r.body.embedded in old(slots) && forall t :: t in Spare() ==> t in old(Spare())
    {
      hide FreeList, Ready, InUse;
      var i := firstPool.nUsed;
      r := firstPool.tiles[i];
      FirstAndRest(firstPool.tiles, i);
      TakeReady(firstPool.tiles[i + 1..], r);
      firstPool.nUsed := i + 1;
      assert Spare() == old(Spare())[1..];
    }

    /** The first spare tile goes live. */
    ghost method TakeReady(rest: seq<Tile>, r: Tile)
      requires Spare() == [r] + rest && Ready(Spare(), slots, live) && InUse(live, slots)
      modifies this`live, this`slots
      ensures Ready(rest, slots, live) && InUse(live, slots) && live == old(live) + {r} && slots == old(slots) - {r.body.embedded}
      ensures r !in old(live) && r.body.Blank() && r in old(Spare()) && r.body.embedded in old(slots)
    {
      hide Ready, InUse;
      ReadyPop(rest, slots, live, r);
      assert Spare()[0] == r;
      live, slots := live + {r}, slots - {r.body.embedded};
    }

    /** Makes a new chunk when no tile is left. */
    method AddPool()
      requires Valid() && Spare() == []
      modifies this`firstPool, this`slots
      ensures Valid() && firstPool != null && fresh(firstPool) && firstPool.next == old(firstPool)
      ensures firstPool.nUsed == 0 && |firstPool.tiles| >= MIN_TILES
      ensures old(firstPool) != null ==> |firstPool.tiles| >= 2 * |old(firstPool).tiles|
      ensures (forall t :: t in Spare() ==> fresh(t) && fresh(t.body)) && fresh(slots)
    {
      hide FreeList;
      var last := if firstPool == null then 0 else |firstPool.tiles|;
      var n := ChunkTiles(last, header, tileSize, page);
      ChunkTilesEnough(last, header, tileSize, page);
      var ts;
      ts, slots := NewTiles(n, live);
      firstPool := new Pool(firstPool, ts);
      assert Spare() == ts;
    }

    /** Puts a tile back, first in line. */
    method DeallocateTile(p: Tile)
      requires Valid() && p in live && p.body.Blank()
      modifies this`firstTile, this`free, this`live, this`slots, p`next
      ensures Valid() && live == old(live) - {p} && free == [p] + old(free)
      ensures slots == old(slots) + {p.body.embedded}
    {
      hide FreeList, Ready, InUse;
      ghost var s := Spare();
      NotReady(free, s[|free|..], slots, live, p);
      p.next := firstTile;
      FreePush(free, firstTile, p);
      firstTile := p;
      ReadyPush(s, slots, live, p);
      free, live, slots := [p] + free, live - {p}, slots + {p.body.embedded};
      assert Spare() == [p] + s;
    }
  }

  lemma FirstAndRest(ts: seq<Tile>, n: nat)
    requires n < |ts|
    ensures [] + ts[n..] == [ts[n]] + ts[n + 1..] && [] + ts[n + 1..] == ts[n + 1..]
  {
  }

  method NewTiles(n: nat, ghost live: set<Tile>) returns (ts: seq<Tile>, ghost slots: set<array<Entry?>>)
    ensures |ts| == n && Ready(ts, slots, live) && fresh(slots)
    ensures forall t :: t in ts ==> fresh(t) && fresh(t.body)
  {
    ts, slots := [], {};
    while |ts| < n
      invariant |ts| <= n && Ready(ts, slots, live) && fresh(slots)
      invariant forall t :: t in ts ==> fresh(t) && fresh(t.body)
    {
      var t := new Tile();
      ts, slots := ts + [t], slots + {t.body.embedded};
    }
  }

  /** hashmap_new over the pool: whatever the tile held before, the map is empty. */
  method HashmapNew(pool: TilePool, ops: KeyOps) returns (t: Tile)
    requires pool.Valid()
    modifies pool, pool.firstPool, set t | t in pool.Spare() :: t.body
    ensures pool.Valid() && t !in old(pool.live) && pool.live == old(pool.live) + {t}
    ensures t.body.Valid() && t.body.view.contents == [] && t.body.view.entries == {} && t.body.ops == ops
    ensures t.body.buckets == t.body.embedded && t.body.embedded !in pool.slots && fresh(pool.slots - old(pool.slots))
    ensures t in old(pool.Spare()) || (fresh(t) && fresh(t.body))
    ensures t.body.embedded in old(pool.slots) || fresh(t.body.embedded)
    ensures forall u :: u in pool.Spare() ==> u in old(pool.Spare()) || (fresh(u) && fresh(u.body))
    ensures pool.firstPool == old(pool.firstPool) || fresh(pool.firstPool)
  {
    t := pool.AllocateTile();
    t.body.New(ops);
  }

  /** hashmap_free over the pool: a map whose table is its own goes back blank. */
  method HashmapFree(pool: TilePool, t: Tile)
    requires pool.Valid() && t in pool.live && t.body.Valid() && t.body.buckets !in pool.slots
    modifies pool, t, t.body, t.body.buckets, t.body.view.entries
    ensures pool.Valid() && pool.live == old(pool.live) - {t} && pool.free == [t] + old(pool.free)
    ensures pool.slots == old(pool.slots) + {t.body.embedded} && pool.firstPool == old(pool.firstPool)
  {
    t.body.Free();
    pool.DeallocateTile(t);
  }

  // ---- several maps over one pool ----

  /** A map in use on its tile. */
  ghost predicate MapOn(pool: TilePool, t: Tile, ops: KeyOps)
    reads pool, t.body, t.body.view.entries, t.body.buckets, t.body.embedded
  {
    t in pool.live && t.body.Valid() && t.body.ops == ops && t.body.buckets !in pool.slots
  }

  /** Two maps share nothing. */
  ghost predicate Separate(t: Tile, u: Tile)
    reads t.body, u.body
  {
    && t != u && t.body != u.body && t.body.embedded != u.body.embedded
    && t.body.buckets != u.body.buckets && t.body.buckets != u.body.embedded && t.body.embedded != u.body.buckets
    && t.body.view.entries !! u.body.view.entries
  }

  /** A put on one of several maps leaves the others and the pool as they are. */
  method StoreOn(pool: TilePool, ops: KeyOps, t: Tile, key: Ptr, value: Ptr, ghost others: set<Tile>)
    requires pool.Valid() && MapOn(pool, t, ops) && |t.body.view.contents| < 0xFFFF_FFFF
    requires forall u :: u in others ==> MapOn(pool, u, ops) && Separate(t, u)
    modifies t.body, t.body.buckets, t.body.view.entries
    ensures pool.Valid() && MapOn(pool, t, ops)
    ensures t.body.view.contents == OrderedMap.Put(old(t.body.view.contents), Item(ops.cls(key), key, value))
    ensures forall u :: u in others ==> MapOn(pool, u, ops) && Separate(t, u)
    ensures forall u :: u in others ==> u.body.view == old(u.body.view) && u.body.buckets == old(u.body.buckets)
    ensures t.body.buckets == old(t.body.buckets) || fresh(t.body.buckets)
    ensures fresh(t.body.view.entries - old(t.body.view.entries))
  {
    hide WellFormed, FreeList, Ready, InUse, Grown, Find;
    var _ := t.body.Put(key, value);
  }

  /** A map is made while others are in use. */
  method NewOn(pool: TilePool, ops: KeyOps, ghost others: set<Tile>) returns (t: Tile)
    requires pool.Valid() && forall u :: u in others ==> MapOn(pool, u, ops)
    modifies pool, pool.firstPool, set u | u in pool.Spare() :: u.body
    ensures pool.Valid() && MapOn(pool, t, ops) && t.body.view.contents == []
    ensures forall u :: u in others ==> MapOn(pool, u, ops) && Separate(t, u)
    ensures forall u :: u in others ==> u.body.view == old(u.body.view) && u.body.buckets == old(u.body.buckets)
    ensures t.body.buckets == t.body.embedded && t.body.view.entries == {} && pool.live == old(pool.live) + {t}
    ensures t !in others && (t in old(pool.Spare()) || (fresh(t) && fresh(t.body)))
    ensures t.body.embedded in old(pool.slots) || fresh(t.body.embedded)
    ensures forall u :: u in pool.Spare() ==> u in old(pool.Spare()) || (fresh(u) && fresh(u.body))
    ensures pool.firstPool == old(pool.firstPool) || fresh(pool.firstPool)
    ensures fresh(pool.slots - old(pool.slots))
  {
    hide WellFormed, FreeList;
    SpareBodies(pool, others);
    t := HashmapNew(pool, ops);
  }

  lemma SpareBodies(pool: TilePool, others: set<Tile>)
    requires pool.Valid() && others <= pool.live
    ensures forall u, p :: u in others && p in pool.Spare() ==> u != p && u.body != p.body
  {
    hide FreeList;
    ghost var s := pool.Spare();
    forall u, p | u in others && p in s ensures u != p && u.body != p.body {
      ghost var i :| 0 <= i < |s| && s[i] == p;
    }
  }

  /** A map is given back while others are in use. */
  method FreeOn(pool: TilePool, ops: KeyOps, t: Tile, ghost others: set<Tile>)
    requires pool.Valid() && MapOn(pool, t, ops)
    requires forall u :: u in others ==> MapOn(pool, u, ops) && Separate(t, u)
    modifies pool, t, t.body, t.body.buckets, t.body.view.entries
    ensures pool.Valid()
    ensures forall u :: u in others ==> MapOn(pool, u, ops)
    ensures forall u :: u in others ==> u.body.view == old(u.body.view) && u.body.buckets == old(u.body.buckets)
    ensures pool.live == old(pool.live) - {t} && pool.free == [t] + old(pool.free)
    ensures forall u :: u in pool.Spare() ==> u == t || u in old(pool.Spare())
    ensures pool.slots == old(pool.slots) + {t.body.embedded} && pool.firstPool == old(pool.firstPool)
  {
    hide WellFormed, FreeList, Ready, InUse;
    HashmapFree(pool, t);
  }

  /** What is done with maps: the i-th one in use gets an entry, or is given back. */
  datatype Use = Make | Store(i: nat, key: Ptr, value: Ptr) | Release(i: nat)

  /** The maps in use after a run, in the order in which they were made. */
  function Used(uses: seq<Use>, ops: KeyOps): seq<Entries> {
    if uses == [] then []
    else
      var maps := Used(uses[..|uses| - 1], ops);
      match uses[|uses| - 1]
      case Make => maps + [[]]
      case Store(i, key, value) =>
        if i < |maps| then maps[i := OrderedMap.Put(maps[i], Item(ops.cls(key), key, value))] else maps
      case Release(i) => if i < |maps| then Drop(maps, i) else maps
  }

  lemma {:induction false} UsedSmall(uses: seq<Use>, ops: KeyOps)
    ensures forall i :: 0 <= i < |Used(uses, ops)| ==> |Used(uses, ops)[i]| <= |uses|
  {
    if uses != [] {
      UsedSmall(uses[..|uses| - 1], ops);
    }
  }

  /** What the pool works on is in `world`. */
  ghost predicate PoolIn(pool: TilePool, world: set<object>)
    reads world
  {
    && pool in world && (pool.firstPool != null ==> pool.firstPool in world)
    && (forall t :: t in pool.free ==> t in world) && pool.slots <= world
    && pool.Valid()
    && forall t :: t in pool.Spare() ==> t in world && t.body in world
  }

  /** A map in use holds `contents`, and what it works on is in `world`. */
  ghost predicate Holds(pool: TilePool, t: Tile, ops: KeyOps, contents: Entries, world: set<object>)
    reads world
  {
    && pool in world && t in world && t.body in world && t.body.buckets in world && t.body.embedded in world
    && t.body.view.entries <= world
    && MapOn(pool, t, ops) && t.body.view.contents == contents
  }

  /** The maps in use are all that is live, hold `maps` and share nothing. */
  ghost predicate Held(pool: TilePool, tiles: seq<Tile>, ops: KeyOps, maps: seq<Entries>, world: set<object>)
    reads world
  {
    && PoolIn(pool, world) && pool.live == (set t | t in tiles)
    && |tiles| == |maps|
    && (forall i :: 0 <= i < |tiles| ==> Holds(pool, tiles[i], ops, maps[i], world))
    && forall i, j :: 0 <= i < |tiles| && 0 <= j < |tiles| && i != j ==> Separate(tiles[i], tiles[j])
  }

  /** The tiles other than the i-th. */
  ghost function Others(tiles: seq<Tile>, i: int): (r: set<Tile>)
    ensures forall j :: 0 <= j < |tiles| && j != i ==> tiles[j] in r
  {
    set j | 0 <= j < |tiles| && j != i :: tiles[j]
  }

  lemma OthersHeld(pool: TilePool, tiles: seq<Tile>, ops: KeyOps, maps: seq<Entries>, world: set<object>, i: int)
    requires Held(pool, tiles, ops, maps, world)
    ensures forall u :: u in Others(tiles, i) ==> MapOn(pool, u, ops)
    ensures 0 <= i < |tiles| ==> forall u :: u in Others(tiles, i) ==> Separate(tiles[i], u)
  {
    hide MapOn, Separate;
  }

  /** The world after a map was made. */
  ghost function Wider(pool: TilePool, t: Tile, world: set<object>): set<object>
    reads pool, pool.firstPool
  {
    world + {pool, t, t.body, t.body.embedded} + pool.slots + (if pool.firstPool != null then {pool.firstPool} else {})
    + (set u | u in pool.Spare() :: u) + set u | u in pool.Spare() :: u.body
  }

  lemma PoolWider(pool: TilePool, t: Tile, world: set<object>)
    requires pool.Valid()
    ensures PoolIn(pool, Wider(pool, t, world))
  {
    hide FreeList, Ready, InUse;
    var world' := Wider(pool, t, world);
    assert forall u :: u in pool.free ==> u in pool.Spare();
    assert forall u :: u in pool.Spare() ==> u in world' && u.body in world';
  }

  method MakeStep(pool: TilePool, tiles: seq<Tile>, ops: KeyOps, ghost maps: seq<Entries>, ghost world: set<object>)
    returns (tiles': seq<Tile>, ghost world': set<object>)
    requires Held(pool, tiles, ops, maps, world)
    modifies world
    ensures Held(pool, tiles', ops, maps + [[]], world') && world <= world' && fresh(world' - world)
  {
    hide WellFormed, FreeList, Ready, InUse, MapOn, TilePool.Valid, TilePool.Spare;
    OthersHeld(pool, tiles, ops, maps, world, -1);
    var t := NewOn(pool, ops, Others(tiles, -1));
    tiles' := tiles + [t];
    world' := Wider(pool, t, world);
    PoolWider(pool, t, world);
    assert Holds(pool, t, ops, [], world');
    forall i | 0 <= i < |tiles| ensures Holds(pool, tiles[i], ops, maps[i], world') && Separate(t, tiles[i]) && Separate(tiles[i], t) {
      assert old(Holds(pool, tiles[i], ops, maps[i], world));
    }
    HeldSnoc(pool, tiles, ops, maps, world', t);
  }

  lemma HeldSnoc(pool: TilePool, tiles: seq<Tile>, ops: KeyOps, maps: seq<Entries>, world: set<object>, t: Tile)
    requires PoolIn(pool, world) && |tiles| == |maps| && Holds(pool, t, ops, [], world)
    requires pool.live == (set u | u in tiles) + {t}
    requires forall i :: 0 <= i < |tiles| ==>
      Holds(pool, tiles[i], ops, maps[i], world) && Separate(t, tiles[i]) && Separate(tiles[i], t)
    requires forall i, j :: 0 <= i < |tiles| && 0 <= j < |tiles| && i != j ==> Separate(tiles[i], tiles[j])
    ensures Held(pool, tiles + [t], ops, maps + [[]], world)
  {
    hide PoolIn, Holds, Separate;
  }

  method StoreStep(pool: TilePool, tiles: seq<Tile>, ops: KeyOps, i: nat, key: Ptr, value: Ptr,
      ghost maps: seq<Entries>, ghost world: set<object>)
    returns (ghost world': set<object>)
    requires Held(pool, tiles, ops, maps, world) && i < |tiles| && |maps[i]| < 0xFFFF_FFFF
    modifies world
    ensures Held(pool, tiles, ops, maps[i := OrderedMap.Put(maps[i], Item(ops.cls(key), key, value))], world')
    ensures world <= world' && fresh(world' - world)
  {
    hide WellFormed, FreeList, Ready, InUse, MapOn, TilePool.Valid, TilePool.Spare;
    OthersHeld(pool, tiles, ops, maps, world, i);
    assert Holds(pool, tiles[i], ops, maps[i], world);
    StoreOn(pool, ops, tiles[i], key, value, Others(tiles, i));
    world' := world + {tiles[i].body.buckets} + tiles[i].body.view.entries;
    ghost var maps' := maps[i := OrderedMap.Put(maps[i], Item(ops.cls(key), key, value))];
    assert PoolIn(pool, world');
    assert Holds(pool, tiles[i], ops, maps'[i], world');
    forall j | 0 <= j < |tiles| && j != i ensures Holds(pool, tiles[j], ops, maps'[j], world') {
      assert old(Holds(pool, tiles[j], ops, maps[j], world));
    }
  }

  method ReleaseStep(pool: TilePool, tiles: seq<Tile>, ops: KeyOps, i: nat,
      ghost maps: seq<Entries>, ghost world: set<object>)
    requires Held(pool, tiles, ops, maps, world) && i < |tiles|
    modifies world
    ensures Held(pool, Drop(tiles, i), ops, Drop(maps, i), world)
  {
    hide WellFormed, FreeList, Ready, InUse, MapOn, TilePool.Valid, TilePool.Spare;
    OthersHeld(pool, tiles, ops, maps, world, i);
    assert Holds(pool, tiles[i], ops, maps[i], world);
    FreeOn(pool, ops, tiles[i], Others(tiles, i));
    assert PoolIn(pool, world);
    forall j | 0 <= j < |tiles| && j != i ensures Holds(pool, tiles[j], ops, maps[j], world) {
      assert old(Holds(pool, tiles[j], ops, maps[j], world));
    }
    HeldDrop(pool, tiles, ops, maps, world, i);
  }

  lemma HeldDrop(pool: TilePool, tiles: seq<Tile>, ops: KeyOps, maps: seq<Entries>, world: set<object>, i: nat)
    requires PoolIn(pool, world) && |tiles| == |maps| && i < |tiles|
    requires pool.live == (set t | t in tiles) - {tiles[i]}
    requires forall j :: 0 <= j < |tiles| && j != i ==> Holds(pool, tiles[j], ops, maps[j], world)
    requires forall j, k :: 0 <= j < |tiles| && 0 <= k < |tiles| && j != i && k != i && j != k ==> Separate(tiles[j], tiles[k])
    requires forall j :: 0 <= j < |tiles| && j != i ==> tiles[j] != tiles[i]
    ensures Held(pool, Drop(tiles, i), ops, Drop(maps, i), world)
  {
    hide PoolIn, Holds;
    assert forall t :: t in tiles && t != tiles[i] ==> t in Drop(tiles, i) by {
      forall t | t in tiles && t != tiles[i] ensures t in Drop(tiles, i) {
        var j :| 0 <= j < |tiles| && tiles[j] == t;
        assert Drop(tiles, i)[if j < i then j else j - 1] == t;
      }
    }
    assert forall j :: 0 <= j < |tiles| - 1 ==>
      Drop(tiles, i)[j] == tiles[if j < i then j else j + 1] && Drop(maps, i)[j] == maps[if j < i then j else j + 1];
  }

  /** In every run over one pool, with tiles used again or not, each map in use holds
      just what was put into it. */
  method RunUses(header: nat, tileSize: nat, page: nat, ops: KeyOps, uses: seq<Use>)
    returns (pool: TilePool, tiles: seq<Tile>)
    requires tileSize > 0 && page > 0 && |uses| < 0xFFFF_FFFF
    ensures pool.Valid() && pool.live == (set t | t in tiles) && |tiles| == |Used(uses, ops)|
    ensures forall i :: 0 <= i < |tiles| ==>
      MapOn(pool, tiles[i], ops) && tiles[i].body.view.contents == Used(uses, ops)[i]
    ensures forall i, j :: 0 <= i < j < |tiles| ==> Separate(tiles[i], tiles[j])
  {
    hide Held;
    pool := new TilePool(header, tileSize, page);
    tiles := [];
    var n := 0;
    ghost var world: set<object> := {pool};
    NoneHeld(pool, ops);
    while n < |uses|
      invariant 0 <= n <= |uses| && fresh(world) && Held(pool, tiles, ops, Used(uses[..n], ops), world)
    {
      UsedSmall(uses[..n], ops);
      HeldLength(pool, tiles, ops, Used(uses[..n], ops), world);
      assert uses[..n + 1][..n] == uses[..n];
      match uses[n] {
        case Make =>
          tiles, world := MakeStep(pool, tiles, ops, Used(uses[..n], ops), world);
        case Store(i, key, value) =>
          if i < |tiles| {
            world := StoreStep(pool, tiles, ops, i, key, value, Used(uses[..n], ops), world);
          }
        case Release(i) =>
          if i < |tiles| {
            ReleaseStep(pool, tiles, ops, i, Used(uses[..n], ops), world);
            tiles := Drop(tiles, i);
          }
      }
      n := n + 1;
    }
    assert uses[..n] == uses;
    HeldMeans(pool, tiles, ops, Used(uses, ops), world);
  }

  lemma NoneHeld(pool: TilePool, ops: KeyOps)
    requires pool.Valid() && pool.firstPool == null && pool.free == [] && pool.slots == {} && pool.live == {}
    ensures Held(pool, [], ops, [], {pool})
  {
  }

  lemma HeldLength(pool: TilePool, tiles: seq<Tile>, ops: KeyOps, maps: seq<Entries>, world: set<object>)
    requires Held(pool, tiles, ops, maps, world)
    ensures |tiles| == |maps|
  {
  }

  lemma HeldMeans(pool: TilePool, tiles: seq<Tile>, ops: KeyOps, maps: seq<Entries>, world: set<object>)
    requires Held(pool, tiles, ops, maps, world)
    ensures pool.Valid() && pool.live == (set t | t in tiles) && |tiles| == |maps|
    ensures forall i :: 0 <= i < |tiles| ==> MapOn(pool, tiles[i], ops) && tiles[i].body.view.contents == maps[i]
    ensures forall i, j :: 0 <= i < j < |tiles| ==> Separate(tiles[i], tiles[j])
  {
  }
}
