/** What the invariants of the allocator mean for its users: blocks that never overlap,
    full use of every pool, and free memory that returns to its original form. */
module HeapTheorems {
  import opened Tiles
  import opened FreeLists
  import opened HeapModel
  import opened HeapSteps
  import opened Heap
  import opened Options

  /** Every tile starts at a multiple of its size. */
  lemma {:induction false} TileAligned(t: Orders, a: nat, k: nat, x: nat)
    requires Tiled(t, a, k) && Aligned(a, k) && x in t && a <= x < a + Pow2(k)
    ensures Aligned(x, t[x])
    decreases k
  {
    if !(a in t && t[a] == k) {
      Halves(a, k);
      if x < a + Pow2(k - 1) { TileAligned(t, a, k - 1, x); } else { TileAligned(t, a + Pow2(k - 1), k - 1, x); }
    }
  }

  lemma BlockAligned(g: Ground, pools: Pools, x: nat)
    requires TilesOK(g, pools) && x in g.ord
    ensures Aligned(x, g.ord[x]) && ORDER_MIN <= g.ord[x]
  {
    hide Pow2, Tiled;
    TilesFit(g, pools, x);
    TileAligned(g.ord, g.home[x], pools[g.home[x]].order, x);
  }

  /** `x` is a block inside the pool at `b` and address `p` lies in it. */
  ghost predicate Holds(g: Ground, pools: Pools, b: nat, x: nat, p: nat) {
    b in pools && x in g.ord && b <= x <= p < x + Pow2(g.ord[x]) <= b + Pow2(pools[b].order)
  }

  lemma PoolCovered(g: Ground, pools: Pools, b: nat, p: nat)
    requires TilesOK(g, pools) && InPool(pools, b, p)
    ensures exists x: nat :: Holds(g, pools, b, x, p)
  {
    hide Pow2, Tiled, PoolsOK;
    var x := TilesCover(g.ord, b, pools[b].order, p);
    assert Holds(g, pools, b, x, p);
  }

  /** The blocks of all pools: each aligned to its size, no two of them overlapping,
      and every address of a pool in a block that lies inside the pool. */
  lemma PoolsTiled(m: Mem)
    requires Settled(m)
    ensures forall x :: x in m.g.ord ==> Aligned(x, m.g.ord[x]) && ORDER_MIN <= m.g.ord[x]
    ensures forall x, y :: x in m.g.ord && y in m.g.ord && x < y ==> x + Pow2(m.g.ord[x]) <= y
    ensures forall b: nat, p: nat :: InPool(m.pools, b, p) ==>
              exists x: nat :: Holds(m.g, m.pools, b, x, p)
  {
    hide Sound, Pow2, TilesOK, InPool, Aligned, HeadersOK, NothingHeld, Holds;
    SoundTiles(m);
    forall x | x in m.g.ord
      ensures Aligned(x, m.g.ord[x]) && ORDER_MIN <= m.g.ord[x]
    {
      BlockAligned(m.g, m.pools, x);
    }
    forall x, y | x in m.g.ord && y in m.g.ord && x < y
      ensures x + Pow2(m.g.ord[x]) <= y
    {
      BlocksDisjoint(m.g, m.pools, x, y);
    }
    forall b: nat, p: nat | InPool(m.pools, b, p)
      ensures exists x: nat :: Holds(m.g, m.pools, b, x, p)
    {
      PoolCovered(m.g, m.pools, b, p);
    }
  }

  /** A block is in one place only: on one list once, or in one slab once, or in one
      queue once, or in use; and a block in use is in none of them. */
  lemma OnePlace(m: Mem, a: nat)
    requires Settled(m) && a in m.g.ord
    ensures forall n, l :: n in m.lists && l in m.lists && a in m.lists[n] && a in m.lists[l] ==> n == l
    ensures forall n, h, i: nat :: n in m.lists && h in m.slabs && i < |m.slabs[h]| && a in m.lists[n] ==>
              a !in m.slabs[h][i]
    ensures forall n, h :: n in m.lists && a in m.lists[n] && h in m.foreign ==> a !in m.foreign[h]
    ensures forall h, i: nat, k :: h in m.slabs && i < |m.slabs[h]| && k in m.foreign && a in m.slabs[h][i] ==>
              a !in m.foreign[k]
    ensures a in LiveBlocks(m.g) ==>
              && (forall n :: n in m.lists ==> a !in m.lists[n])
              && (forall h, i: nat :: h in m.slabs && i < |m.slabs[h]| ==> a !in m.slabs[h][i])
              && (forall h :: h in m.foreign ==> a !in m.foreign[h])
  {
    hide TilesOK, Canonical, BytesOK, AvailOK, HeadersOK, NothingHeld;
    forall n | n in m.lists && a in m.lists[n]
      ensures IsFree(m.g, a, n.heap, n.order) && n == Head(n.heap, n.order)
    {
      assert a in m.lists[Head(n.heap, n.order)];
    }
    forall h, i: nat | h in m.slabs && i < |m.slabs[h]| && a in m.slabs[h][i]
      ensures IsSlab(m.g, a, h, ORDER_MIN + i)
    {
    }
    forall h | h in m.foreign && a in m.foreign[h]
      ensures IsForeign(m.g, a, h)
    {
    }
  }

  // ----- free memory returns to its original form -----

  ghost predicate AllFree(g: Ground, a: nat, n: nat) {
    forall x :: x in g.ord && a <= x < a + n ==> x in g.st && g.st[x].Free?
  }

  /** Within a pool that has no two free buddies, a stretch that is all free is one block. */
  lemma {:induction false} AllFreeIsOne(g: Ground, pools: Pools, b: nat, a: nat, k: nat)
    requires TilesOK(g, pools) && Canonical(g, pools) && b in pools && b <= a
    requires Tiled(g.ord, a, k) && Aligned(a - b, k) && k < pools[b].order && a + Pow2(k) <= b + Pow2(pools[b].order)
    requires AllFree(g, a, Pow2(k))
    ensures a in g.ord && g.ord[a] == k
    decreases k
  {
    hide TilesOK, Canonical, FlipBit, Tiled;
    FirstTile(g.ord, a, k);
    if g.ord[a] < k {
      var h := a + Pow2(k - 1);
      Halved(g.ord, a, k);
      Halves(a - b, k);
      AllFreeIsOne(g, pools, b, a, k - 1);
      AllFreeIsOne(g, pools, b, h, k - 1);
      NoFreePair(g, pools, b, a, h);
    }
  }

  lemma NoFreePair(g: Ground, pools: Pools, b: nat, x: nat, y: nat)
    requires TilesOK(g, pools) && Canonical(g, pools) && InPool(pools, b, x) && x in g.ord && y in g.ord
    requires g.ord[x] == g.ord[y] < pools[b].order && y == BuddyOf(x, g.ord[x], b)
    ensures x in g.st && y in g.st && !(g.st[x].Free? && g.st[y].Free?)
  {
    hide Tiled, Pow2, BuddyOf;
    OtherPool(pools, b, g.home[x], x);
    assert !FreeBuddies(g, x, y);
  }

  /** The block of order `j` in the initial cascade of the pool at `b`. */
  ghost predicate Step(g: Ground, b: nat, j: nat) { b + Pow2(j) in g.ord && g.ord[b + Pow2(j)] == j }

  ghost predicate IsStep(b: nat, k: nat, x: nat) { exists j: nat :: ORDER_MIN <= j < k && x == b + Pow2(j) }

  lemma TopStep(g: Ground, b: nat, k: nat, x: nat)
    requires k > ORDER_MIN && var h := b + Pow2(k - 1); Tiled(g.ord, h, k - 1) && h in g.ord && g.ord[h] == k - 1
    requires x in g.ord && b + Pow2(k - 1) <= x < b + Pow2(k)
    ensures IsStep(b, k, x)
  {
    FirstOnly(g.ord, b + Pow2(k - 1), k - 1);
    assert x == b + Pow2(k - 1);
  }

  lemma LowerStep(b: nat, k: nat, x: nat)
    requires k > 0 && IsStep(b, k - 1, x)
    ensures IsStep(b, k, x)
  {
    hide Pow2;
  }

  /** The blocks of [b, b + 2^k) when all but the header at `b` are free: the header and
      one block of each order below `k`. */
  lemma {:induction false} CascadeOnly(g: Ground, pools: Pools, b: nat, k: nat)
    requires TilesOK(g, pools) && Canonical(g, pools) && b in pools && ORDER_MIN <= k <= pools[b].order
    requires Tiled(g.ord, b, k) && b in g.ord && g.ord[b] == ORDER_MIN
    requires AllFree(g, b + 1, Pow2(k) - 1)
    ensures forall j: nat :: ORDER_MIN <= j < k ==> Step(g, b, j)
    ensures forall x :: x in g.ord && b < x < b + Pow2(k) ==> IsStep(b, k, x)
    decreases k
  {
    hide TilesOK, Canonical, Tiled;
    if k > ORDER_MIN {
      var h := b + Pow2(k - 1);
      Halved(g.ord, b, k);
      AlignedZero(k);
      Halves(0, k);
      Pow2Monotone(k, pools[b].order);
      CascadeOnly(g, pools, b, k - 1);
      AllFreeIsOne(g, pools, b, h, k - 1);
      forall x | x in g.ord && b < x < b + Pow2(k)
        ensures IsStep(b, k, x)
      {
        if x >= h { TopStep(g, b, k, x); } else { LowerStep(b, k, x); }
      }
    } else {
      FirstOnly(g.ord, b, k);
    }
  }

  lemma Halved(t: Orders, a: nat, k: nat)
    requires Tiled(t, a, k) && a in t && t[a] < k
    ensures k > ORDER_MIN && Tiled(t, a, k - 1) && Tiled(t, a + Pow2(k - 1), k - 1)
  {
  }

  lemma FirstOnly(t: Orders, a: nat, k: nat)
    requires Tiled(t, a, k) && a in t && t[a] == k
    ensures forall x :: x in t && a < x ==> x >= a + Pow2(k)
  {
  }

  ghost predicate ListedSomewhere(lists: Lists, x: nat, o: nat) {
    exists h :: Head(h, o) in lists && x in lists[Head(h, o)]
  }

  /** The pool at `b` is the header and one listed block of each lower order. */
  ghost predicate Cascade(m: Mem, b: nat) {
    && b in m.pools && b in m.g.ord && m.g.ord[b] == ORDER_MIN
    && (forall j: nat :: ORDER_MIN <= j < m.pools[b].order ==>
          Step(m.g, b, j) && ListedSomewhere(m.lists, b + Pow2(j), j))
    && (forall x :: x in m.g.ord && b < x < b + Pow2(m.pools[b].order) ==> IsStep(b, m.pools[b].order, x))
  }

  /** With the parallel flag down throughout, once nothing is in use and the caches and
      queues are empty, every pool is exactly its initial cascade again: the header and
      one listed block of each order below the pool's. */
  lemma AllReturned(m: Mem)
    requires Settled(m) && m.calm && LiveBlocks(m.g) == map[]
    requires forall h, i: nat :: h in m.slabs && i < |m.slabs[h]| ==> m.slabs[h][i] == []
    requires forall h :: h in m.foreign ==> m.foreign[h] == []
    ensures forall b :: b in m.pools ==> Cascade(m, b)
  {
    hide Sound;
    SoundTiles(m);
    forall x | x in m.g.ord && x !in m.pools
      ensures x in m.g.st && m.g.st[x].Free?
    {
      OnlyFreeLeft(m, x);
    }
    forall b | b in m.pools
      ensures Cascade(m, b)
    {
      PoolReturned(m, b);
    }
  }

  lemma CachedOrQueued(m: Mem, x: nat)
    requires Settled(m) && x in m.g.ord
    ensures x in m.g.st
    ensures m.g.st[x].Slab? ==>
              var h := m.g.st[x].h; h in m.slabs && exists i: nat :: i < |m.slabs[h]| && m.slabs[h][i] != []
    ensures m.g.st[x].Foreign? ==> var h := m.g.st[x].h; h in m.foreign && m.foreign[h] != []
    ensures m.g.st[x] == Live ==> x in LiveBlocks(m.g)
    ensures m.g.st[x] == Header ==> x in m.pools
    ensures m.g.st[x] != Held
  {
    hide TilesOK, Canonical, ListsOK, BytesOK, AvailOK, HeapsOK;
    KeysAgree(m);
    if m.g.st[x].Slab? {
      var h, i := m.g.st[x].h, m.g.ord[x] - ORDER_MIN;
      assert IsSlab(m.g, x, h, ORDER_MIN + i);
      assert x in m.slabs[h][i];
      assert m.slabs[h][i] != [];
    }
    if m.g.st[x].Foreign? { assert IsForeign(m.g, x, m.g.st[x].h); }
  }

  lemma OnlyFreeLeft(m: Mem, x: nat)
    requires Settled(m) && LiveBlocks(m.g) == map[] && x in m.g.ord && x !in m.pools
    requires forall h, i: nat :: h in m.slabs && i < |m.slabs[h]| ==> m.slabs[h][i] == []
    requires forall h :: h in m.foreign ==> m.foreign[h] == []
    ensures x in m.g.st && m.g.st[x].Free?
  {
    hide Sound, HeadersOK, NothingHeld, LiveBlocks;
    CachedOrQueued(m, x);
  }

  lemma PoolReturned(m: Mem, b: nat)
    requires Settled(m) && m.calm && b in m.pools
    requires forall x :: x in m.g.ord && x !in m.pools ==> x in m.g.st && m.g.st[x].Free?
    ensures Cascade(m, b)
  {
    hide Sound, Pow2, TilesOK, Canonical;
    var k := m.pools[b].order;
    PoolFacts(m, b);
    CascadeOnly(m.g, m.pools, b, k);
    forall j: nat | ORDER_MIN <= j < k
      ensures ListedSomewhere(m.lists, b + Pow2(j), j)
    {
      assert Step(m.g, b, j);
      InsidePool(b, j, k);
      FreeIsListed(m, b + Pow2(j));
    }
  }

  lemma PoolFacts(m: Mem, b: nat)
    requires Settled(m) && m.calm && b in m.pools
    ensures TilesOK(m.g, m.pools) && Canonical(m.g, m.pools) && POOL_ORDER <= m.pools[b].order
    ensures Tiled(m.g.ord, b, m.pools[b].order) && b in m.g.ord && m.g.ord[b] == ORDER_MIN
    ensures forall x :: x in m.g.ord && b < x < b + Pow2(m.pools[b].order) ==> x !in m.pools
  {
    hide Books, HeapsOK, Tiled, Pow2;
  }

  lemma InsidePool(b: nat, j: nat, k: nat)
    requires j < k
    ensures b < b + Pow2(j) < b + Pow2(k)
  {
    Pow2Monotone(j + 1, k);
  }
}
