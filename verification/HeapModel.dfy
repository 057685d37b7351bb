/** What the allocator's concrete state (header bytes, free lists, slab stacks, foreign
    lists, pool headers) must say about the tiles of all pools. */
module HeapModel {
  import opened Tiles
  import opened FreeLists

  const POOL_ORDER: nat := 25
  const MAX_ORDER: nat := 38
  const MAX_POOLS: nat := 512
  const SLAB_ORDERS: nat := 5
  const SLAB_CACHE: nat := 64

  /** Where a block is: the pinned pool header, in use, being moved by the current
      operation, on a free list, in a slab cache, or queued for its owner. */
  datatype Status = Header | Live | Held | Free(h: nat) | Slab(h: nat) | Foreign(h: nat)

  /** The contents of a pool header; its address is the pool's base. */
  datatype Pool = Pool(order: nat, owner: nat)

  type Pools = map<nat, Pool>

  /** Every tile of every pool: its order, where it is, and the base of its pool. */
  datatype Ground = Ground(ord: Orders, st: map<nat, Status>, home: map<nat, nat>)

  ghost predicate PoolsOK(pools: Pools) {
    && (forall b :: b in pools ==> POOL_ORDER <= pools[b].order <= MAX_ORDER && Aligned(b, pools[b].order))
    && (forall b, c :: b in pools && c in pools && b < c ==> b + Pow2(pools[b].order) <= c)
  }

  ghost predicate InPool(pools: Pools, b: nat, x: nat) {
    b in pools && b <= x < b + Pow2(pools[b].order)
  }

  ghost predicate TilesOK(g: Ground, pools: Pools) {
    && PoolsOK(pools)
    && g.ord.Keys == g.st.Keys == g.home.Keys
    && (forall x :: x in g.ord ==> InPool(pools, g.home[x], x))
    && (forall b :: b in pools ==> Tiled(g.ord, b, pools[b].order))
  }

  /** Each pool starts with its pinned header block, and nothing else is one. */
  ghost predicate HeadersOK(g: Ground, pools: Pools) {
    && (forall b :: b in pools ==> b in g.ord && g.ord[b] == ORDER_MIN && b in g.st && g.st[b] == Header)
    && (forall x :: x in g.st && g.st[x] == Header ==> x in pools)
  }

  /** The rc and order bytes tell the truth about every block not being moved. */
  ghost predicate BytesOK(rc: map<nat, nat>, order: map<nat, nat>, g: Ground) {
    forall x :: x in g.ord && x in g.st && g.st[x] != Held ==>
      x in rc && x in order && order[x] == g.ord[x] && (rc[x] == 0 <==> g.st[x].Free?)
  }

  ghost predicate IsFree(g: Ground, a: nat, h: nat, o: nat) {
    a in g.ord && a in g.st && g.ord[a] == o && g.st[a] == Free(h)
  }

  ghost predicate ListsOK(lists: Lists, g: Ground) {
    && (forall n :: n in lists ==> Distinct(lists[n]))
    && (forall h, o, a :: Head(h, o) in lists ==> (a in lists[Head(h, o)] <==> IsFree(g, a, h, o)))
    && (forall a :: a in g.ord && a in g.st && g.st[a].Free? ==> Head(g.st[a].h, g.ord[a]) in lists)
  }

  type Slabs = map<nat, seq<seq<nat>>>

  ghost predicate IsSlab(g: Ground, a: nat, h: nat, o: nat) {
    a in g.ord && a in g.st && g.ord[a] == o && g.st[a] == Slab(h)
  }

  ghost predicate SlabsOK(slabs: Slabs, g: Ground) {
    && (forall h :: h in slabs ==> |slabs[h]| == SLAB_ORDERS)
    && (forall h, i :: h in slabs && 0 <= i < SLAB_ORDERS ==>
          |slabs[h][i]| <= SLAB_CACHE && Distinct(slabs[h][i]))
    && (forall h, i, a :: h in slabs && 0 <= i < SLAB_ORDERS ==>
          (a in slabs[h][i] <==> IsSlab(g, a, h, ORDER_MIN + i)))
    && (forall a :: a in g.ord && a in g.st && g.st[a].Slab? ==>
          g.st[a].h in slabs && ORDER_MIN <= g.ord[a] < ORDER_MIN + SLAB_ORDERS)
  }

  ghost predicate IsForeign(g: Ground, a: nat, h: nat) {
    a in g.ord && a in g.st && g.st[a] == Foreign(h)
  }

  type Queues = map<nat, seq<nat>>

  ghost predicate ForeignOK(foreign: Queues, g: Ground) {
    && (forall h :: h in foreign ==> Distinct(foreign[h]))
    && (forall h, a :: h in foreign ==> (a in foreign[h] <==> IsForeign(g, a, h)))
    && (forall a :: a in g.ord && a in g.st && g.st[a].Foreign? ==> g.st[a].h in foreign)
  }

  /** A non-empty list always has its bit; a set bit may be stale. */
  ghost predicate AvailOK(avail: map<nat, set<nat>>, lists: Lists) {
    && (forall h, o :: Head(h, o) in lists ==> h in avail && (lists[Head(h, o)] != [] ==> o in avail[h]))
    && (forall h, o :: h in avail && o in avail[h] ==> o <= MAX_ORDER)
  }

  /** The concrete state the invariants speak of, the tiles it stands for, and whether
      the parallel flag has been 0 throughout. */
  datatype Mem = Mem(
    rc: map<nat, nat>, order: map<nat, nat>, lists: Lists, avail: map<nat, set<nat>>,
    slabs: Slabs, foreign: Queues, tracked: map<nat, seq<nat>>, pools: Pools,
    g: Ground, calm: bool)

  /** Every heap has its sentinels, slab stacks, foreign queue and pool table. */
  ghost predicate HeapsOK(m: Mem) {
    && (forall h: nat, o: nat :: h in m.avail && o <= MAX_ORDER ==> Head(h, o) in m.lists)
    && (forall n :: n in m.lists ==> n.Head? && n.heap in m.avail && n.order <= MAX_ORDER)
    && m.slabs.Keys == m.avail.Keys == m.foreign.Keys == m.tracked.Keys
    && (forall h :: h in m.tracked ==> |m.tracked[h]| <= MAX_POOLS)
    && (forall h, b :: h in m.tracked && b in m.tracked[h] ==> b in m.pools)
  }

  /** All of the bookkeeping at once. */
  ghost predicate Books(m: Mem) {
    && BytesOK(m.rc, m.order, m.g)
    && ListsOK(m.lists, m.g)
    && SlabsOK(m.slabs, m.g)
    && ForeignOK(m.foreign, m.g)
    && AvailOK(m.avail, m.lists)
  }

  /** What every internal step keeps; a new pool may still lack its header. */
  ghost predicate Sound(m: Mem) {
    HeapsOK(m) && TilesOK(m.g, m.pools) && Books(m) && (m.calm ==> Canonical(m.g, m.pools))
  }

  ghost predicate FreeBuddies(g: Ground, x: nat, y: nat)
    requires x in g.home && g.home[x] <= x
  {
    && x in g.ord && y in g.ord && x in g.st && y in g.st
    && g.st[x].Free? && g.st[y].Free? && g.ord[x] == g.ord[y]
    && y == BuddyOf(x, g.ord[x], g.home[x])
  }

  /** No two buddies are both free. */
  ghost predicate Canonical(g: Ground, pools: Pools)
    requires TilesOK(g, pools)
  {
    forall x, y :: x in g.ord && y in g.ord && g.ord[x] < pools[g.home[x]].order ==> !FreeBuddies(g, x, y)
  }

  // ----- what one operation does to the tiles -----

  function Put(g: Ground, x: nat, s: Status): Ground { g.(st := g.st[x := s]) }

  /** The two halves of a held block; the right one starts a block of its own. */
  function SplitHeld(g: Ground, x: nat): Ground
    requires x in g.ord && x in g.home && g.ord[x] > 0
  {
    var y := x + Pow2(g.ord[x] - 1);
    Ground(Split(g.ord, x), g.st[y := Held], g.home[y := g.home[x]])
  }

  /** Two held buddies, the lower at `x`, become one held block. */
  function MergeHeld(g: Ground, x: nat): Ground
    requires x in g.ord
  {
    var y := x + Pow2(g.ord[x]);
    Ground(Merge(g.ord, x), g.st - {y}, g.home - {y})
  }

  lemma PutTiles(g: Ground, pools: Pools, x: nat, s: Status)
    requires TilesOK(g, pools) && x in g.ord
    ensures TilesOK(Put(g, x, s), pools)
  {
    assert Put(g, x, s).st.Keys == g.st.Keys;
  }

  lemma OtherPool(pools: Pools, b: nat, c: nat, x: nat)
    requires PoolsOK(pools) && InPool(pools, b, x) && InPool(pools, c, x)
    ensures b == c
  {
  }

  lemma TilesFit(g: Ground, pools: Pools, x: nat)
    requires TilesOK(g, pools) && x in g.ord
    ensures ORDER_MIN <= g.ord[x] <= pools[g.home[x]].order
    ensures x + Pow2(g.ord[x]) <= g.home[x] + Pow2(pools[g.home[x]].order)
  {
    TileFits(g.ord, g.home[x], pools[g.home[x]].order, x);
  }

  /** Blocks never overlap. */
  lemma BlocksDisjoint(g: Ground, pools: Pools, x: nat, y: nat)
    requires TilesOK(g, pools) && x in g.ord && y in g.ord && x < y
    ensures x + Pow2(g.ord[x]) <= y
  {
    var b, c := g.home[x], g.home[y];
    TilesFit(g, pools, x);
    if b == c { TilesDisjoint(g.ord, b, pools[b].order, x, y); }
  }

  /** Changes confined to one pool leave the tiling of the others alone. */
  lemma OtherPoolsTiled(t: Orders, u: Orders, pools: Pools, b: nat)
    requires PoolsOK(pools) && b in pools
    requires forall c :: c in pools ==> Tiled(t, c, pools[c].order)
    requires forall z :: !InPool(pools, b, z) ==> (z in t <==> z in u) && (z in t ==> t[z] == u[z])
    ensures forall c :: c in pools && c != b ==> Tiled(u, c, pools[c].order)
  {
    hide Tiled, Pow2;
    forall c | c in pools && c != b
      ensures Tiled(u, c, pools[c].order)
    {
      forall z | c <= z < c + Pow2(pools[c].order)
        ensures !InPool(pools, b, z)
      {
        assert InPool(pools, c, z);
      }
      TiledFrame(t, u, c, pools[c].order);
    }
  }

  lemma SplitKeeps(g: Ground, pools: Pools, x: nat)
    requires TilesOK(g, pools) && x in g.ord && g.ord[x] > ORDER_MIN
    ensures x + Pow2(g.ord[x] - 1) !in g.ord
    ensures TilesOK(SplitHeld(g, x), pools)
  {
    hide Tiled, Pow2, PoolsOK;
    var b := g.home[x];
    var y := x + Pow2(g.ord[x] - 1);
    var u := SplitHeld(g, x);
    TilesFit(g, pools, x);
    SplitTiles(g.ord, b, pools[b].order, x);
    HalfFits(g.ord[x]);
    assert InPool(pools, b, y);
    assert u.ord.Keys == g.ord.Keys + {y};
    assert u.st.Keys == g.st.Keys + {y} && u.home.Keys == g.home.Keys + {y};
    assert forall z :: z in u.ord && z != y ==> u.home[z] == g.home[z];
    OtherPoolsTiled(g.ord, u.ord, pools, b);
  }

  lemma HalfFits(k: nat)
    requires k > 0
    ensures Pow2(k) == 2 * Pow2(k - 1)
  {
  }

  /** `x` and the block right above it are buddies of the same order. */
  ghost predicate LowerBuddy(g: Ground, x: nat) {
    && x in g.ord && x in g.home && g.home[x] <= x
    && var y := x + Pow2(g.ord[x]);
       y in g.ord && g.ord[y] == g.ord[x] && BuddyOf(x, g.ord[x], g.home[x]) == y
  }

  lemma MergeKeeps(g: Ground, pools: Pools, x: nat)
    requires TilesOK(g, pools) && LowerBuddy(g, x) && g.ord[x] < pools[g.home[x]].order
    ensures TilesOK(MergeHeld(g, x), pools)
  {
    hide Tiled, Pow2, BuddyOf, PoolsOK;
    var b := g.home[x];
    var y := x + Pow2(g.ord[x]);
    var u := MergeHeld(g, x);
    assert InPool(pools, b, x);
    MergeInPool(g.ord, b, pools[b].order, x, y);
    assert InPool(pools, b, y);
    OtherPoolsTiled(g.ord, u.ord, pools, b);
  }

  lemma MergeInPool(t: Orders, b: nat, k: nat, x: nat, y: nat)
    requires Tiled(t, b, k) && x in t && b <= x < b + Pow2(k) && t[x] < k
    requires y == x + Pow2(t[x]) && y in t && t[y] == t[x] && BuddyOf(x, t[x], b) == y
    ensures y < b + Pow2(k) && Tiled(Merge(t, x), b, k)
  {
    hide Tiled, Pow2, BuddyOf;
    AlignedZero(k);
    BuddyIsTile(t, b, b, k, x);
    MergeTiles(t, b, b, k, x);
  }

  lemma AlignedZero(k: nat)
    ensures Aligned(0, k)
  {
    Multiples(0, Pow2(k));
  }

  /** The buddy address of a block below its pool's order holds the header of a block
      of the same pool, no larger than the block itself. */
  lemma BuddyOfBlock(g: Ground, pools: Pools, x: nat)
    requires TilesOK(g, pools) && x in g.ord && g.ord[x] < pools[g.home[x]].order
    ensures var y := BuddyOf(x, g.ord[x], g.home[x]);
            && y in g.ord && y != x && g.ord[y] <= g.ord[x] && g.home[y] == g.home[x]
            && (x < y ==> y == x + Pow2(g.ord[x]))
            && (y < x ==> x == y + Pow2(g.ord[x]))
            && BuddyOf(y, g.ord[x], g.home[x]) == x
  {
    var b := g.home[x];
    AlignedZero(pools[b].order);
    BuddyIsTile(g.ord, b, b, pools[b].order, x);
    OtherPool(pools, b, g.home[BuddyOf(x, g.ord[x], b)], BuddyOf(x, g.ord[x], b));
  }

  // ----- the bookkeeping under single steps -----

  ghost predicate HeldAt(g: Ground, x: nat) { x in g.ord && x in g.st && g.st[x] == Held }

  /** What a reader of the header bytes of a settled block finds. */
  lemma HeaderBytes(m: Mem, x: nat)
    requires Sound(m) && Placed(m.g, x)
    ensures x in m.rc && x in m.order && m.order[x] == m.g.ord[x] && (m.rc[x] == 0 <==> m.g.st[x].Free?)
  {
    hide HeapsOK, TilesOK, Canonical;
  }

  function Inserted(m: Mem, x: nat, h: nat): Mem
    requires x in m.g.ord && Head(h, m.g.ord[x]) in m.lists && h in m.avail
  {
    var o := m.g.ord[x];
    m.(rc := m.rc[x := 0], order := m.order[x := o],
       lists := m.lists[Head(h, o) := [x] + m.lists[Head(h, o)]],
       avail := m.avail[h := m.avail[h] + {o}],
       g := Put(m.g, x, Free(h)))
  }

  lemma ListsPut(lists: Lists, g: Ground, x: nat, s: Status)
    requires ListsOK(lists, g) && x in g.ord && x in g.st && !g.st[x].Free? && !s.Free?
    ensures ListsOK(lists, Put(g, x, s))
  {
    assert forall a, h, o :: IsFree(Put(g, x, s), a, h, o) <==> IsFree(g, a, h, o);
  }

  lemma SlabsPut(slabs: Slabs, g: Ground, x: nat, s: Status)
    requires SlabsOK(slabs, g) && x in g.ord && x in g.st && !g.st[x].Slab? && !s.Slab?
    ensures SlabsOK(slabs, Put(g, x, s))
  {
    assert forall a, h, o :: IsSlab(Put(g, x, s), a, h, o) <==> IsSlab(g, a, h, o);
  }

  lemma ForeignPut(foreign: Queues, g: Ground, x: nat, s: Status)
    requires ForeignOK(foreign, g) && x in g.ord && x in g.st && !g.st[x].Foreign? && !s.Foreign?
    ensures ForeignOK(foreign, Put(g, x, s))
  {
    assert forall a, h :: IsForeign(Put(g, x, s), a, h) <==> IsForeign(g, a, h);
  }

  lemma ListsInsert(lists: Lists, g: Ground, x: nat, h: nat)
    requires ListsOK(lists, g) && HeldAt(g, x) && Head(h, g.ord[x]) in lists
    ensures ListsOK(lists[Head(h, g.ord[x]) := [x] + lists[Head(h, g.ord[x])]], Put(g, x, Free(h)))
    ensures x !in lists[Head(h, g.ord[x])]
  {
    var l := lists[Head(h, g.ord[x])];
    assert forall a :: a in [x] + l <==> a == x || a in l;
    assert x in l <==> IsFree(g, x, h, g.ord[x]);
  }

  lemma BooksInsert(m: Mem, x: nat, h: nat)
    requires Books(m) && HeldAt(m.g, x) && Head(h, m.g.ord[x]) in m.lists && h in m.avail
    requires m.g.ord[x] <= MAX_ORDER
    ensures Books(Inserted(m, x, h))
    ensures x !in m.lists[Head(h, m.g.ord[x])]
  {
    hide ListsOK, SlabsOK, ForeignOK;
    ListsInsert(m.lists, m.g, x, h);
    SlabsPut(m.slabs, m.g, x, Free(h));
    ForeignPut(m.foreign, m.g, x, Free(h));
  }

  lemma HasList(m: Mem, h: nat, o: nat)
    requires Sound(m) && h in m.avail && o <= MAX_ORDER
    ensures Head(h, o) in m.lists
  {
    hide TilesOK, Canonical, Books;
  }

  lemma HeldNotListed(m: Mem, x: nat)
    requires Sound(m) && HeldAt(m.g, x)
    ensures forall n :: n in m.lists ==> x !in m.lists[n]
  {
    hide TilesOK, Canonical;
    forall n | n in m.lists
      ensures x !in m.lists[n]
    {
      assert x in m.lists[Head(n.heap, n.order)] <==> IsFree(m.g, x, n.heap, n.order);
    }
  }

  /** No free buddy of the same order is left to merge with. */
  ghost predicate Alone(m: Mem, x: nat) {
    x in m.g.ord && x in m.g.home && m.g.home[x] in m.pools && m.g.home[x] <= x
    && (m.g.ord[x] < m.pools[m.g.home[x]].order ==>
          var y := BuddyOf(x, m.g.ord[x], m.g.home[x]);
          y in m.g.ord && y in m.g.st && m.g.ord[y] == m.g.ord[x] ==> !m.g.st[y].Free?)
  }

  lemma SoundInsert(m: Mem, x: nat, h: nat)
    requires Sound(m) && HeldAt(m.g, x) && h in m.avail && m.g.ord[x] <= MAX_ORDER
    requires m.calm ==> Alone(m, x)
    ensures Head(h, m.g.ord[x]) in m.lists
    ensures Sound(Inserted(m, x, h))
  {
    hide Books, TilesOK, Canonical, BuddyOf;
    BooksInsert(m, x, h);
    PutTiles(m.g, m.pools, x, Free(h));
    if m.calm { CanonicalInsert(m.g, m.pools, x, h); }
    HeapsUpdate(m, h, m.avail[h] + {m.g.ord[x]}, Head(h, m.g.ord[x]), [x] + m.lists[Head(h, m.g.ord[x])]);
    HeapsGround(m.(avail := m.avail[h := m.avail[h] + {m.g.ord[x]}],
                   lists := m.lists[Head(h, m.g.ord[x]) := [x] + m.lists[Head(h, m.g.ord[x])]]), Inserted(m, x, h));
  }

  /** Updating one heap's bits and one list keeps every heap complete. */
  lemma HeapsUpdate(m: Mem, h: nat, bits: set<nat>, hd: Node, l: seq<nat>)
    requires HeapsOK(m) && h in m.avail && hd in m.lists
    ensures HeapsOK(m.(avail := m.avail[h := bits], lists := m.lists[hd := l]))
  {
    assert m.avail[h := bits].Keys == m.avail.Keys;
  }

  lemma HeapsGround(m: Mem, u: Mem)
    requires HeapsOK(m) && u.avail == m.avail && u.lists == m.lists && u.slabs == m.slabs
    requires u.foreign == m.foreign && u.tracked == m.tracked && u.pools == m.pools
    ensures HeapsOK(u)
  {
  }

  /** `x` off its list; `clear` says whether heap `k` drops its bit for the order. */
  function Unlinked(m: Mem, x: nat, k: nat, clear: bool): Mem
    requires x in m.g.ord && x in m.g.st && m.g.st[x].Free? && Head(m.g.st[x].h, m.g.ord[x]) in m.lists && k in m.avail
  {
    var hd := Head(m.g.st[x].h, m.g.ord[x]);
    m.(lists := m.lists[hd := Without(m.lists[hd], x)],
       avail := if clear then m.avail[k := m.avail[k] - {m.g.ord[x]}] else m.avail,
       g := Put(m.g, x, Held))
  }

  lemma FreeIsListed(m: Mem, x: nat)
    requires Sound(m) && x in m.g.ord && x in m.g.st && m.g.st[x].Free?
    ensures Head(m.g.st[x].h, m.g.ord[x]) in m.lists && x in m.lists[Head(m.g.st[x].h, m.g.ord[x])]
  {
    hide HeapsOK, TilesOK, Canonical;
    assert IsFree(m.g, x, m.g.st[x].h, m.g.ord[x]);
  }

  lemma ListsUnlink(lists: Lists, g: Ground, x: nat)
    requires ListsOK(lists, g) && x in g.ord && x in g.st && g.st[x].Free?
    requires Head(g.st[x].h, g.ord[x]) in lists && x in lists[Head(g.st[x].h, g.ord[x])]
    ensures var hd := Head(g.st[x].h, g.ord[x]);
            ListsOK(lists[hd := Without(lists[hd], x)], Put(g, x, Held))
  {
    WithoutMembers(lists[Head(g.st[x].h, g.ord[x])], x);
  }

  lemma BooksUnlink(m: Mem, x: nat, k: nat, clear: bool)
    requires Books(m) && x in m.g.ord && x in m.g.st && m.g.st[x].Free? && k in m.avail
    requires Head(m.g.st[x].h, m.g.ord[x]) in m.lists && x in m.lists[Head(m.g.st[x].h, m.g.ord[x])]
    requires var kd := Head(k, m.g.ord[x]);
             clear ==> kd in m.lists && Unlinked(m, x, k, clear).lists[kd] == []
    ensures Books(Unlinked(m, x, k, clear))
  {
    hide ListsOK, SlabsOK, ForeignOK;
    ListsUnlink(m.lists, m.g, x);
    SlabsPut(m.slabs, m.g, x, Held);
    ForeignPut(m.foreign, m.g, x, Held);
    assert m.lists[Head(m.g.st[x].h, m.g.ord[x])] != [];
  }

  lemma HeapsUnlink(m: Mem, x: nat, k: nat, clear: bool)
    requires HeapsOK(m) && x in m.g.ord && x in m.g.st && m.g.st[x].Free? && k in m.avail
    requires Head(m.g.st[x].h, m.g.ord[x]) in m.lists
    ensures HeapsOK(Unlinked(m, x, k, clear))
  {
    hide Without;
    assert Unlinked(m, x, k, clear).avail.Keys == m.avail.Keys;
  }

  lemma SoundUnlink(m: Mem, x: nat, k: nat, clear: bool)
    requires Sound(m) && x in m.g.ord && x in m.g.st && m.g.st[x].Free? && k in m.avail
    requires Head(m.g.st[x].h, m.g.ord[x]) in m.lists
    requires var kd := Head(k, m.g.ord[x]);
             clear ==> kd in m.lists && Unlinked(m, x, k, clear).lists[kd] == []
    ensures Sound(Unlinked(m, x, k, clear))
  {
    hide Books, TilesOK, Canonical, HeapsOK, Without;
    FreeIsListed(m, x);
    BooksUnlink(m, x, k, clear);
    HeapsUnlink(m, x, k, clear);
    PutTiles(m.g, m.pools, x, Held);
    if m.calm { CanonicalPut(m.g, m.pools, x, Held); }
  }

  ghost predicate Placed(g: Ground, a: nat) { a in g.ord && a in g.st && g.st[a] != Held }

  /** The blocks that are somewhere are the same ones, in the same places. */
  ghost predicate SamePlaces(g: Ground, u: Ground) {
    forall a :: (Placed(g, a) <==> Placed(u, a)) && (Placed(g, a) ==> u.ord[a] == g.ord[a] && u.st[a] == g.st[a])
  }

  lemma ListsSame(lists: Lists, g: Ground, u: Ground)
    requires ListsOK(lists, g) && SamePlaces(g, u)
    ensures ListsOK(lists, u)
  {
    forall h, o, a | Head(h, o) in lists
      ensures a in lists[Head(h, o)] <==> IsFree(u, a, h, o)
    {
      assert Placed(g, a) <==> Placed(u, a);
    }
    forall a | a in u.ord && a in u.st && u.st[a].Free?
      ensures Head(u.st[a].h, u.ord[a]) in lists
    {
      assert Placed(u, a) && Placed(g, a);
    }
  }

  lemma SlabsSame(slabs: Slabs, g: Ground, u: Ground)
    requires SlabsOK(slabs, g) && SamePlaces(g, u)
    ensures SlabsOK(slabs, u)
  {
    forall h, i, a | h in slabs && 0 <= i < SLAB_ORDERS
      ensures a in slabs[h][i] <==> IsSlab(u, a, h, ORDER_MIN + i)
    {
      assert Placed(g, a) <==> Placed(u, a);
    }
    forall a | a in u.ord && a in u.st && u.st[a].Slab?
      ensures u.st[a].h in slabs && ORDER_MIN <= u.ord[a] < ORDER_MIN + SLAB_ORDERS
    {
      assert Placed(u, a) && Placed(g, a);
    }
  }

  lemma ForeignSame(foreign: Queues, g: Ground, u: Ground)
    requires ForeignOK(foreign, g) && SamePlaces(g, u)
    ensures ForeignOK(foreign, u)
  {
    forall h, a | h in foreign
      ensures a in foreign[h] <==> IsForeign(u, a, h)
    {
      assert Placed(g, a) <==> Placed(u, a);
    }
    forall a | a in u.ord && a in u.st && u.st[a].Foreign?
      ensures u.st[a].h in foreign
    {
      assert Placed(u, a) && Placed(g, a);
    }
  }

  lemma BooksSame(m: Mem, u: Ground)
    requires Books(m) && SamePlaces(m.g, u)
    ensures Books(m.(g := u))
  {
    hide ListsOK, SlabsOK, ForeignOK, AvailOK;
    ListsSame(m.lists, m.g, u);
    SlabsSame(m.slabs, m.g, u);
    ForeignSame(m.foreign, m.g, u);
    forall x | x in u.ord && x in u.st && u.st[x] != Held
      ensures x in m.rc && x in m.order && m.order[x] == u.ord[x] && (m.rc[x] == 0 <==> u.st[x].Free?)
    {
      assert Placed(u, x) && Placed(m.g, x);
    }
  }

  /** Joining or splitting held blocks is invisible to the bookkeeping. */
  lemma SoundSame(m: Mem, u: Ground)
    requires Sound(m) && TilesOK(u, m.pools) && SamePlaces(m.g, u)
    requires forall a :: a in m.g.home && a in u.home ==> u.home[a] == m.g.home[a]
    ensures Sound(m.(g := u))
  {
    hide Books, TilesOK, Canonical, SamePlaces, HeapsOK;
    BooksSame(m, u);
    HeapsGround(m, m.(g := u));
    if m.calm { CanonicalSame(m.g, u, m.pools); }
  }

  lemma MergeSamePlaces(g: Ground, x: nat)
    requires HeldAt(g, x) && HeldAt(g, x + Pow2(g.ord[x]))
    ensures SamePlaces(g, MergeHeld(g, x))
  {
  }

  lemma SplitSamePlaces(g: Ground, x: nat)
    requires HeldAt(g, x) && x in g.home && g.ord[x] > 0 && x + Pow2(g.ord[x] - 1) !in g.ord
    ensures SamePlaces(g, SplitHeld(g, x))
  {
  }

  function HandedOut(m: Mem, x: nat, s: Status): Mem
    requires x in m.g.ord
  {
    m.(rc := m.rc[x := 1], order := m.order[x := m.g.ord[x]], g := Put(m.g, x, s))
  }

  /** A held block handed out: reference count one, order stamped. */
  lemma BooksHandOut(m: Mem, x: nat, s: Status)
    requires Books(m) && HeldAt(m.g, x) && (s == Live || s == Header)
    ensures Books(HandedOut(m, x, s))
  {
    hide ListsOK, SlabsOK, ForeignOK, AvailOK;
    ListsPut(m.lists, m.g, x, s);
    SlabsPut(m.slabs, m.g, x, s);
    ForeignPut(m.foreign, m.g, x, s);
  }

  lemma SoundHandOut(m: Mem, x: nat, s: Status)
    requires Sound(m) && HeldAt(m.g, x) && (s == Live || s == Header)
    ensures Sound(HandedOut(m, x, s))
  {
    hide Books, TilesOK, Canonical, HeapsOK;
    BooksHandOut(m, x, s);
    HeapsGround(m, HandedOut(m, x, s));
    PutTiles(m.g, m.pools, x, s);
    if m.calm { CanonicalPut(m.g, m.pools, x, s); }
  }

  // ----- the canonical form under single steps -----

  lemma CanonicalPut(g: Ground, pools: Pools, x: nat, s: Status)
    requires TilesOK(g, pools) && Canonical(g, pools) && x in g.ord && !s.Free?
    ensures TilesOK(Put(g, x, s), pools) && Canonical(Put(g, x, s), pools)
  {
    hide Tiled, Pow2, BuddyOf;
    forall a, b | a in g.ord && b in g.ord && g.ord[a] < pools[g.home[a]].order
      ensures !FreeBuddies(Put(g, x, s), a, b)
    {
      assert !FreeBuddies(g, a, b);
    }
  }

  lemma CanonicalInsert(g: Ground, pools: Pools, x: nat, h: nat)
    requires TilesOK(g, pools) && Canonical(g, pools) && x in g.ord
    requires g.ord[x] < pools[g.home[x]].order ==>
               var y := BuddyOf(x, g.ord[x], g.home[x]);
               y in g.ord && g.ord[y] == g.ord[x] ==> !g.st[y].Free?
    ensures TilesOK(Put(g, x, Free(h)), pools) && Canonical(Put(g, x, Free(h)), pools)
  {
    hide Tiled, Pow2, FlipBit;
    forall a, b | a in g.ord && b in g.ord && g.ord[a] < pools[g.home[a]].order
      ensures !FreeBuddies(Put(g, x, Free(h)), a, b)
    {
      assert !FreeBuddies(g, a, b);
      BuddyOfBlock(g, pools, a);
    }
  }

  lemma CanonicalSame(g: Ground, u: Ground, pools: Pools)
    requires TilesOK(g, pools) && Canonical(g, pools) && TilesOK(u, pools) && SamePlaces(g, u)
    requires forall a :: a in g.home && a in u.home ==> u.home[a] == g.home[a]
    ensures Canonical(u, pools)
  {
    hide Tiled, Pow2, BuddyOf, PoolsOK;
    forall a, b | a in u.ord && b in u.ord && u.ord[a] < pools[u.home[a]].order
      ensures !FreeBuddies(u, a, b)
    {
      if u.st[a].Free? && u.st[b].Free? {
        assert Placed(u, a) && Placed(u, b);
        assert !FreeBuddies(g, a, b);
      }
    }
  }

  /** The right half of a held block being split has the left half for its buddy. */
  lemma RightHalfBuddy(g: Ground, pools: Pools, x: nat)
    requires TilesOK(g, pools) && x in g.ord && g.ord[x] > ORDER_MIN
    ensures var o := g.ord[x] - 1;
            g.home[x] <= x && BuddyOf(x + Pow2(o), o, g.home[x]) == x
  {
    hide Tiled, FlipBit, Pow2;
    var b := g.home[x];
    AlignedZero(pools[b].order);
    HalvesAreBuddies(g.ord, b, b, pools[b].order, x);
  }

  // ----- a new pool -----

  /** The system's promise for a region of order `k` at `b`: aligned and unused. */
  predicate Unused(pools: Pools, b: nat, k: nat) {
    && Aligned(b, k)
    && forall c :: c in pools ==> c + Pow2(pools[c].order) <= b || b + Pow2(k) <= c
  }

  function WithPool(g: Ground, b: nat, k: nat): Ground {
    Ground(g.ord[b := k], g.st[b := Held], g.home[b := b])
  }

  lemma NewPoolKeeps(g: Ground, pools: Pools, b: nat, p: Pool)
    requires TilesOK(g, pools) && Unused(pools, b, p.order) && POOL_ORDER <= p.order <= MAX_ORDER
    ensures b !in g.ord && b !in pools
    ensures TilesOK(WithPool(g, b, p.order), pools[b := p])
    ensures SamePlaces(g, WithPool(g, b, p.order))
  {
    hide Tiled, Pow2, Unused, PoolsOK;
    OutsideNewPool(g, pools, b, p.order);
    NewPoolsOK(pools, b, p);
    NewPoolTiled(g, pools, b, p.order);
    var u := WithPool(g, b, p.order);
    assert u.ord.Keys == g.ord.Keys + {b} && u.st.Keys == g.st.Keys + {b} && u.home.Keys == g.home.Keys + {b};
    NewPoolSame(g, b, p.order);
  }

  lemma NewPoolSame(g: Ground, b: nat, k: nat)
    requires b !in g.ord
    ensures SamePlaces(g, WithPool(g, b, k))
  {
  }

  lemma NewPoolTiled(g: Ground, pools: Pools, b: nat, k: nat)
    requires TilesOK(g, pools) && Unused(pools, b, k) && k >= POOL_ORDER
    ensures Tiled(g.ord[b := k], b, k)
    ensures forall c :: c in pools ==> Tiled(g.ord[b := k], c, pools[c].order)
  {
    hide Tiled, Pow2, PoolsOK;
    OutsideNewPool(g, pools, b, k);
    WholeTile(g.ord[b := k], b, k);
    forall c | c in pools
      ensures Tiled(g.ord[b := k], c, pools[c].order)
    {
      TiledFrame(g.ord, g.ord[b := k], c, pools[c].order);
    }
  }

  lemma OutsideNewPool(g: Ground, pools: Pools, b: nat, k: nat)
    requires TilesOK(g, pools) && Unused(pools, b, k)
    ensures forall x :: x in g.ord ==> x < b || b + Pow2(k) <= x
  {
    hide Tiled, Pow2;
    forall x | x in g.ord
      ensures x < b || b + Pow2(k) <= x
    {
      assert InPool(pools, g.home[x], x);
    }
  }

  lemma NewPoolsOK(pools: Pools, b: nat, p: Pool)
    requires PoolsOK(pools) && Unused(pools, b, p.order) && POOL_ORDER <= p.order <= MAX_ORDER
    ensures b !in pools && PoolsOK(pools[b := p])
  {
    hide Pow2;
  }

  lemma WholeTile(t: Orders, b: nat, k: nat)
    requires b in t && t[b] == k >= ORDER_MIN
    requires forall x :: x in t && x != b ==> x < b || b + Pow2(k) <= x
    ensures Tiled(t, b, k)
  {
  }
}
