/** The steps the allocator's operations are made of, each shown to keep the books: a
    block off a list, onto a list, joined with its buddy, split in two, handed out. */
module HeapSteps {
  import opened Tiles
  import opened FreeLists
  import opened HeapModel
  import opened Options

  /** Neither free nor being moved: in use, cached, queued, or a pool header. */
  ghost predicate Used(g: Ground, a: nat) {
    a in g.ord && a in g.st && a in g.home && !g.st[a].Free? && g.st[a] != Held
  }

  ghost predicate SameUsed(g: Ground, u: Ground) {
    forall a :: (Used(g, a) <==> Used(u, a)) &&
                (Used(g, a) ==> u.ord[a] == g.ord[a] && u.st[a] == g.st[a] && u.home[a] == g.home[a])
  }

  ghost predicate NothingHeld(g: Ground) { forall a :: a in g.st ==> g.st[a] != Held }

  ghost predicate OnlyHeld(g: Ground, x: nat) {
    HeldAt(g, x) && forall a :: a in g.st && a != x ==> g.st[a] != Held
  }

  lemma SameUsedTrans(a: Ground, b: Ground, c: Ground)
    requires SameUsed(a, b) && SameUsed(b, c)
    ensures SameUsed(a, c)
  {
    forall x
      ensures (Used(a, x) <==> Used(c, x)) &&
              (Used(a, x) ==> c.ord[x] == a.ord[x] && c.st[x] == a.st[x] && c.home[x] == a.home[x])
    {
      assert Used(a, x) <==> Used(b, x);
    }
  }

  lemma PutUnused(g: Ground, x: nat, s: Status)
    requires x in g.st && (g.st[x].Free? || g.st[x] == Held) && (s.Free? || s == Held)
    ensures SameUsed(g, Put(g, x, s))
  {
  }

  lemma MergeUnused(g: Ground, x: nat)
    requires HeldAt(g, x) && HeldAt(g, x + Pow2(g.ord[x]))
    ensures SameUsed(g, MergeHeld(g, x))
  {
  }

  lemma SplitUnused(g: Ground, x: nat)
    requires HeldAt(g, x) && x in g.home && g.ord[x] > 0 && x + Pow2(g.ord[x] - 1) !in g.ord
    ensures SameUsed(g, SplitHeld(g, x))
  {
  }

  /** Blocks only ever leave a pool's header alone. */
  lemma HeadersSame(g: Ground, u: Ground, pools: Pools)
    requires HeadersOK(g, pools) && SameUsed(g, u) && g.st.Keys == g.home.Keys && u.st.Keys == u.home.Keys == u.ord.Keys
    ensures HeadersOK(u, pools)
  {
    forall b | b in pools
      ensures b in u.ord && u.ord[b] == ORDER_MIN && b in u.st && u.st[b] == Header
    {
      assert Used(g, b);
    }
    forall x | x in u.st && u.st[x] == Header
      ensures x in pools
    {
      assert Used(u, x) && Used(g, x);
    }
  }

  /** Everything between public operations: bookkeeping sound, every pool headed,
      no block in transit. */
  ghost predicate Settled(m: Mem) {
    Sound(m) && HeadersOK(m.g, m.pools) && NothingHeld(m.g)
  }

  lemma SameUsedRefl(g: Ground)
    ensures SameUsed(g, g)
  {
  }

  lemma SettledInsert(m: Mem, x: nat, h: nat)
    requires Sound(m) && HeadersOK(m.g, m.pools) && OnlyHeld(m.g, x) && h in m.avail
    requires m.calm ==> Alone(m, x)
    ensures m.g.ord[x] <= MAX_ORDER && Head(h, m.g.ord[x]) in m.lists
    ensures Settled(Inserted(m, x, h)) && SameUsed(m.g, Inserted(m, x, h).g)
  {
    hide Sound, HeadersOK, SameUsed, Alone;
    OrderBound(m, x);
    SoundInsert(m, x, h);
    PutUnused(m.g, x, Free(h));
    KeysAgree(m);
    HeadersSame(m.g, Inserted(m, x, h).g, m.pools);
  }

  lemma NotHeld(g: Ground, blk: nat, a: nat)
    requires OnlyHeld(g, blk) && a != blk && a in g.ord && a in g.st
    ensures Placed(g, a)
  {
  }

  lemma HeldPlace(g: Ground, blk: nat)
    requires OnlyHeld(g, blk)
    ensures HeldAt(g, blk) && blk in g.ord && blk in g.st
  {
  }

  lemma KeysAgree(m: Mem)
    requires Sound(m)
    ensures m.g.ord.Keys == m.g.st.Keys == m.g.home.Keys
  {
  }

  lemma OrderBound(m: Mem, x: nat)
    requires Sound(m) && x in m.g.ord
    ensures x in m.g.st && x in m.g.home && m.g.home[x] in m.pools && m.g.home[x] <= x
    ensures ORDER_MIN <= m.g.ord[x] <= m.pools[m.g.home[x]].order <= MAX_ORDER
  {
    TilesFit(m.g, m.pools, x);
  }

  /** Two held buddies joined. */
  lemma SoundJoin(m: Mem, x: nat)
    requires Sound(m) && HeldAt(m.g, x) && HeldAt(m.g, x + Pow2(m.g.ord[x])) && LowerBuddy(m.g, x)
    requires m.g.home[x] in m.pools && m.g.ord[x] < m.pools[m.g.home[x]].order
    ensures Sound(m.(g := MergeHeld(m.g, x)))
  {
    hide Books, TilesOK, Canonical, SamePlaces, Pow2;
    MergeKeeps(m.g, m.pools, x);
    MergeSamePlaces(m.g, x);
    SoundSame(m, MergeHeld(m.g, x));
  }

  /** `x` joined with its buddy into the held block `low` of the next order. */
  ghost predicate Joined(g: Ground, n: Mem, x: nat, low: nat) {
    && Sound(n) && HeadersOK(n.g, n.pools) && OnlyHeld(n.g, low) && SameUsed(g, n.g)
    && x in g.ord && x in g.home && low in n.g.ord && low in n.g.home
    && n.g.ord[low] == g.ord[x] + 1 && n.g.home[low] == g.home[x] <= low
  }

  /** One turn of the coalescing loop, the buddy `y` of `x` just taken off its list. */
  lemma TakenBuddy(m: Mem, g: Ground, x: nat, y: nat)
    requires Sound(m) && HeadersOK(g, m.pools) && OnlyHeld(g, x) && m.g == Put(g, y, Held)
    requires y in g.st && g.st[y].Free? && x in g.ord && y in g.ord && g.ord[y] == g.ord[x]
    requires x in g.home && g.home[x] in m.pools && g.home[x] <= x && g.ord[x] < m.pools[g.home[x]].order
    requires y == BuddyOf(x, g.ord[x], g.home[x])
    ensures var low := if y < x then y else x;
            low in m.g.ord && Joined(g, m.(g := MergeHeld(m.g, low)), x, low)
  {
    hide Sound, HeadersOK, SameUsed, Pow2, BuddyOf, LowerBuddy, HeldAt, OnlyHeld, MergeHeld;
    var low := if y < x then y else x;
    BuddiesHeld(m, g, x, y);
    MergedOnly(g, y, x, low);
    PutUnused(g, y, Held);
    SoundJoin(m, low);
    MergeUnused(m.g, low);
    SameUsedTrans(g, m.g, MergeHeld(m.g, low));
    KeysAgree(m);
    KeysAgree(m.(g := MergeHeld(m.g, low)));
    HeadersSame(g, MergeHeld(m.g, low), m.pools);
  }

  lemma MergedOnly(g: Ground, y: nat, x: nat, low: nat)
    requires OnlyHeld(g, x) && y in g.ord && y in g.st && x in g.ord && x in g.home && x != y && g.ord[y] == g.ord[x]
    requires low in g.ord && low in g.home && low == (if y < x then y else x) && g.home[low] == g.home[x]
    requires (if y < x then x else y) == low + Pow2(g.ord[low])
    ensures var u := MergeHeld(Put(g, y, Held), low);
            && OnlyHeld(u, low) && low in u.ord && low in u.home
            && u.ord[low] == g.ord[x] + 1 && u.home[low] == g.home[x]
  {
    hide Pow2;
  }

  lemma BuddiesHeld(m: Mem, g: Ground, x: nat, y: nat)
    requires Sound(m) && OnlyHeld(g, x) && m.g == Put(g, y, Held)
    requires y in g.st && x in g.ord && y in g.ord && g.ord[y] == g.ord[x]
    requires x in g.home && g.home[x] in m.pools && g.home[x] <= x && g.ord[x] < m.pools[g.home[x]].order
    requires y == BuddyOf(x, g.ord[x], g.home[x])
    ensures var low := if y < x then y else x;
            && low in m.g.ord && m.g.ord[low] == g.ord[x] && low in m.g.home && m.g.home[low] == g.home[x] <= low
            && LowerBuddy(m.g, low) && HeldAt(m.g, low) && HeldAt(m.g, low + Pow2(g.ord[x]))
            && y != x && (if y < x then x else y) == low + Pow2(g.ord[x])
  {
    hide Sound, Pow2, FlipBit;
    BuddyPair(m, x);
  }

  /** The buddy address of a block is that of a settled neighbour. */
  lemma BuddyPair(m: Mem, x: nat)
    requires Sound(m) && x in m.g.ord && x in m.g.home && m.g.home[x] in m.pools
    requires m.g.home[x] <= x && m.g.ord[x] < m.pools[m.g.home[x]].order
    ensures var y := BuddyOf(x, m.g.ord[x], m.g.home[x]);
            && y in m.g.ord && y in m.g.st && y in m.g.home && y != x
            && m.g.ord[y] <= m.g.ord[x] && m.g.home[y] == m.g.home[x]
            && (x < y ==> y == x + Pow2(m.g.ord[x]))
            && (y < x ==> x == y + Pow2(m.g.ord[x]) && BuddyOf(y, m.g.ord[x], m.g.home[x]) == x)
  {
    BuddyOfBlock(m.g, m.pools, x);
  }

  // ----- splitting -----

  /** The block `x` of `g` cut in two, both halves in transit, the upper one at `y`. */
  ghost predicate Halved(g: Ground, n: Mem, x: nat, y: nat, heads: Pools) {
    && Sound(n) && HeadersOK(n.g, heads) && SameUsed(g, n.g)
    && HeldAt(n.g, x) && HeldAt(n.g, y) && x != y
    && (forall a :: a in n.g.st && a != x && a != y ==> n.g.st[a] != Held)
    && x in g.ord && g.ord[x] > 0 && n.g.ord[x] == n.g.ord[y] == g.ord[x] - 1
    && x in g.home && x in n.g.home && n.g.home[x] == g.home[x]
    && Alone(n, y)
  }

  lemma SplitSound(m: Mem, x: nat)
    requires Sound(m) && HeldAt(m.g, x) && m.g.ord[x] > ORDER_MIN
    ensures x in m.g.home && x + Pow2(m.g.ord[x] - 1) !in m.g.ord
    ensures Sound(m.(g := SplitHeld(m.g, x)))
  {
    hide Books, Canonical, SamePlaces, Pow2, HeapsOK, PoolsOK, Tiled;
    SplitKeeps(m.g, m.pools, x);
    SplitSamePlaces(m.g, x);
    SoundSame(m, SplitHeld(m.g, x));
  }

  lemma SplitAlone(m: Mem, x: nat)
    requires Sound(m) && HeldAt(m.g, x) && m.g.ord[x] > ORDER_MIN && x in m.g.home
    ensures Alone(m.(g := SplitHeld(m.g, x)), x + Pow2(m.g.ord[x] - 1))
  {
    hide Sound, Pow2, BuddyOf, TilesOK;
    OrderBound(m, x);
    SoundTiles(m);
    RightHalfBuddy(m.g, m.pools, x);
  }

  lemma SoundTiles(m: Mem)
    requires Sound(m)
    ensures TilesOK(m.g, m.pools)
  {
  }

  lemma SplitStep(m: Mem, x: nat, heads: Pools)
    requires Sound(m) && HeadersOK(m.g, heads) && OnlyHeld(m.g, x) && m.g.ord[x] > ORDER_MIN
    ensures x in m.g.home
    ensures Halved(m.g, m.(g := SplitHeld(m.g, x)), x, x + Pow2(m.g.ord[x] - 1), heads)
  {
    hide Sound, HeadersOK, SameUsed, Pow2, Alone;
    SplitSound(m, x);
    SplitAlone(m, x);
    var u := SplitHeld(m.g, x);
    KeysAgree(m);
    KeysAgree(m.(g := u));
    SplitUnused(m.g, x);
    HeadersSame(m.g, u, heads);
  }

  lemma SplitInsert(g: Ground, n: Mem, x: nat, y: nat, h: nat, heads: Pools)
    requires Halved(g, n, x, y, heads) && h in n.avail
    ensures n.g.ord[y] <= MAX_ORDER && Head(h, n.g.ord[y]) in n.lists
    ensures var u := Inserted(n, y, h);
            Sound(u) && HeadersOK(u.g, heads) && OnlyHeld(u.g, x) && SameUsed(g, u.g)
  {
    hide Sound, HeadersOK, SameUsed, Alone;
    OrderBound(n, y);
    SoundInsert(n, y, h);
    PutUnused(n.g, y, Free(h));
    SameUsedTrans(g, n.g, Put(n.g, y, Free(h)));
    KeysAgree(n);
    HeadersSame(n.g, Inserted(n, y, h).g, heads);
  }

  // ----- moves between the places of blocks that are not free -----

  ghost predicate SettledAt(g: Ground, x: nat) { Placed(g, x) && !g.st[x].Free? }

  function Moved(m: Mem, x: nat, s: Status, rc: map<nat, nat>, slabs: Slabs, foreign: Queues): Mem {
    m.(rc := rc, slabs := slabs, foreign := foreign, g := Put(m.g, x, s))
  }

  lemma BooksMoved(m: Mem, x: nat, s: Status, rc: map<nat, nat>, slabs: Slabs, foreign: Queues)
    requires Books(m) && SettledAt(m.g, x) && !s.Free? && (rc == m.rc || rc == m.rc[x := 1])
    requires SlabsOK(slabs, Put(m.g, x, s)) && ForeignOK(foreign, Put(m.g, x, s))
    ensures Books(Moved(m, x, s, rc, slabs, foreign))
  {
    hide ListsOK, SlabsOK, ForeignOK, AvailOK;
    ListsPut(m.lists, m.g, x, s);
  }

  lemma SoundMoved(m: Mem, x: nat, s: Status, rc: map<nat, nat>, slabs: Slabs, foreign: Queues)
    requires Sound(m) && SettledAt(m.g, x) && !s.Free? && (rc == m.rc || rc == m.rc[x := 1])
    requires SlabsOK(slabs, Put(m.g, x, s)) && ForeignOK(foreign, Put(m.g, x, s))
    requires slabs.Keys == m.slabs.Keys && foreign.Keys == m.foreign.Keys
    ensures Sound(Moved(m, x, s, rc, slabs, foreign))
  {
    hide Books, TilesOK, Canonical, HeapsOK, SlabsOK, ForeignOK;
    BooksMoved(m, x, s, rc, slabs, foreign);
    HeapsKeys(m, Moved(m, x, s, rc, slabs, foreign));
    PutTiles(m.g, m.pools, x, s);
    if m.calm { CanonicalPut(m.g, m.pools, x, s); }
  }

  lemma HeapsKeys(m: Mem, u: Mem)
    requires HeapsOK(m) && u.avail == m.avail && u.lists == m.lists && u.slabs.Keys == m.slabs.Keys
    requires u.foreign.Keys == m.foreign.Keys && u.tracked == m.tracked && u.pools == m.pools
    ensures HeapsOK(u)
  {
  }

  /** Moves leave every pool header in its place. */
  lemma HeadersMoved(g: Ground, pools: Pools, x: nat, s: Status)
    requires HeadersOK(g, pools) && x in g.ord && x in g.st && g.st[x] != Header && s != Header
    ensures HeadersOK(Put(g, x, s), pools)
  {
  }

  function SlabWith(slabs: Slabs, h: nat, i: nat, stack: seq<nat>): Slabs
    requires h in slabs && i < |slabs[h]|
  {
    slabs[h := slabs[h][i := stack]]
  }

  lemma SlabPush(slabs: Slabs, g: Ground, x: nat, h: nat)
    requires SlabsOK(slabs, g) && SettledAt(g, x) && !g.st[x].Slab? && h in slabs
    requires ORDER_MIN <= g.ord[x] < ORDER_MIN + SLAB_ORDERS && |slabs[h][g.ord[x] - ORDER_MIN]| < SLAB_CACHE
    ensures var i := g.ord[x] - ORDER_MIN;
            SlabsOK(SlabWith(slabs, h, i, slabs[h][i] + [x]), Put(g, x, Slab(h)))
  {
    var i := g.ord[x] - ORDER_MIN;
    var l := slabs[h][i];
    assert x in l <==> IsSlab(g, x, h, ORDER_MIN + i);
    assert forall a :: a in l + [x] <==> a in l || a == x;
    var u := SlabWith(slabs, h, i, l + [x]);
    forall k, j, a | k in u && 0 <= j < SLAB_ORDERS
      ensures a in u[k][j] <==> IsSlab(Put(g, x, Slab(h)), a, k, ORDER_MIN + j)
    {
      assert a in slabs[k][j] <==> IsSlab(g, a, k, ORDER_MIN + j);
    }
  }

  lemma SlabTop(slabs: Slabs, g: Ground, h: nat, i: nat)
    requires SlabsOK(slabs, g) && h in slabs && i < SLAB_ORDERS && slabs[h][i] != []
    ensures var x := slabs[h][i][|slabs[h][i]| - 1];
            x in g.ord && x in g.st && g.st[x] == Slab(h) && g.ord[x] == ORDER_MIN + i
  {
    var x := slabs[h][i][|slabs[h][i]| - 1];
    assert x in slabs[h][i];
    assert IsSlab(g, x, h, ORDER_MIN + i);
  }

  lemma SlabPop(slabs: Slabs, g: Ground, h: nat, i: nat, s: Status)
    requires SlabsOK(slabs, g) && h in slabs && i < SLAB_ORDERS && slabs[h][i] != [] && !s.Slab?
    ensures var l := slabs[h][i];
            SlabsOK(SlabWith(slabs, h, i, l[..|l| - 1]), Put(g, l[|l| - 1], s))
  {
    SlabTop(slabs, g, h, i);
    var l := slabs[h][i];
    var x := l[|l| - 1];
    var u := SlabWith(slabs, h, i, l[..|l| - 1]);
    assert l == l[..|l| - 1] + [x];
    assert forall a :: a in l[..|l| - 1] <==> a in l && a != x;
    forall k, j, a | k in u && 0 <= j < SLAB_ORDERS
      ensures a in u[k][j] <==> IsSlab(Put(g, x, s), a, k, ORDER_MIN + j)
    {
      assert a in slabs[k][j] <==> IsSlab(g, a, k, ORDER_MIN + j);
    }
  }

  lemma ForeignPush(foreign: Queues, g: Ground, x: nat, h: nat)
    requires ForeignOK(foreign, g) && SettledAt(g, x) && !g.st[x].Foreign? && h in foreign
    ensures ForeignOK(foreign[h := [x] + foreign[h]], Put(g, x, Foreign(h)))
  {
    var l := foreign[h];
    var u := foreign[h := [x] + l];
    assert x in l <==> IsForeign(g, x, h);
    assert forall a :: a in [x] + l <==> a in l || a == x;
    forall k, a | k in u
      ensures a in u[k] <==> IsForeign(Put(g, x, Foreign(h)), a, k)
    {
      assert a in foreign[k] <==> IsForeign(g, a, k);
    }
  }

  lemma ForeignFirst(foreign: Queues, g: Ground, h: nat)
    requires ForeignOK(foreign, g) && h in foreign && foreign[h] != []
    ensures var x := foreign[h][0]; x in g.ord && x in g.st && g.st[x] == Foreign(h)
  {
    assert foreign[h][0] in foreign[h];
    assert IsForeign(g, foreign[h][0], h);
  }

  lemma ForeignPop(foreign: Queues, g: Ground, h: nat, s: Status)
    requires ForeignOK(foreign, g) && h in foreign && foreign[h] != [] && !s.Foreign?
    ensures ForeignOK(foreign[h := foreign[h][1..]], Put(g, foreign[h][0], s))
  {
    ForeignFirst(foreign, g, h);
    var l := foreign[h];
    var x := l[0];
    var u := foreign[h := l[1..]];
    assert l == [x] + l[1..];
    assert forall a :: a in l[1..] <==> a in l && a != x;
    forall k, a | k in u
      ensures a in u[k] <==> IsForeign(Put(g, x, s), a, k)
    {
      assert a in foreign[k] <==> IsForeign(g, a, k);
    }
  }

  // ----- what users hold -----

  /** The blocks in use, with their orders: what the callers of the allocator see. */
  ghost function LiveBlocks(g: Ground): map<nat, nat> {
    map a | a in g.ord && a in g.st && g.st[a] == Live :: g.ord[a]
  }

  lemma SameUsedLive(g: Ground, u: Ground)
    requires SameUsed(g, u) && g.ord.Keys == g.st.Keys == g.home.Keys && u.ord.Keys == u.st.Keys == u.home.Keys
    ensures LiveBlocks(u) == LiveBlocks(g)
  {
    var l, k := LiveBlocks(g), LiveBlocks(u);
    forall a
      ensures a in l <==> a in k
      ensures a in l ==> l[a] == k[a]
    {
      assert Used(g, a) <==> Used(u, a);
    }
  }

  /** No two blocks in use share an address. */
  lemma LiveDisjoint(m: Mem, x: nat, y: nat)
    requires Sound(m) && x in LiveBlocks(m.g) && y in LiveBlocks(m.g) && x < y
    ensures x + Pow2(LiveBlocks(m.g)[x]) <= y
  {
    hide Books, Canonical, HeapsOK;
    BlocksDisjoint(m.g, m.pools, x, y);
  }

  // ----- a new pool -----

  /** The order of the region asked of the system for a block of order `k`: one more
      than the block, so that the header fits beside it. */
  function PoolOrderFor(k: nat): (r: nat)
    ensures r > k && r >= POOL_ORDER && (r == POOL_ORDER || r == k + 1)
  {
    if k >= POOL_ORDER then k + 1 else POOL_ORDER
  }

  /** The region received, its header bytes written, not yet cut. */
  function Received(m: Mem, b: nat, p: Pool): Mem {
    m.(rc := m.rc[b := 1], order := m.order[b := ORDER_MIN], pools := m.pools[b := p], g := WithPool(m.g, b, p.order))
  }

  lemma ReceivedCanonical(g: Ground, pools: Pools, b: nat, p: Pool)
    requires TilesOK(g, pools) && Canonical(g, pools) && b !in pools && b !in g.ord
    requires TilesOK(WithPool(g, b, p.order), pools[b := p])
    ensures Canonical(WithPool(g, b, p.order), pools[b := p])
  {
    hide Tiled, Pow2, FlipBit, PoolsOK;
    var u := WithPool(g, b, p.order);
    forall x, y | x in u.ord && y in u.ord && u.ord[x] < pools[b := p][u.home[x]].order
      ensures !FreeBuddies(u, x, y)
    {
      if x != b && y != b { assert !FreeBuddies(g, x, y); }
    }
  }

  lemma ReceivedBooks(m: Mem, b: nat, p: Pool)
    requires Books(m) && b !in m.g.ord
    ensures Books(Received(m, b, p))
  {
    hide ListsOK, SlabsOK, ForeignOK, AvailOK;
    NewPoolSame(m.g, b, p.order);
    ListsSame(m.lists, m.g, WithPool(m.g, b, p.order));
    SlabsSame(m.slabs, m.g, WithPool(m.g, b, p.order));
    ForeignSame(m.foreign, m.g, WithPool(m.g, b, p.order));
  }

  lemma ReceivedHeaps(m: Mem, b: nat, p: Pool)
    requires HeapsOK(m)
    ensures HeapsOK(Received(m, b, p))
  {
  }

  lemma ReceivedOnly(m: Mem, b: nat, p: Pool)
    requires NothingHeld(m.g) && b !in m.g.ord && m.g.ord.Keys == m.g.st.Keys == m.g.home.Keys
    ensures var u := WithPool(m.g, b, p.order); OnlyHeld(u, b) && SameUsed(m.g, u)
  {
  }

  lemma ReceivedKeeps(m: Mem, b: nat, p: Pool)
    requires Settled(m) && Unused(m.pools, b, p.order) && POOL_ORDER <= p.order <= MAX_ORDER
    ensures var u := Received(m, b, p);
            && Sound(u) && HeadersOK(u.g, m.pools) && OnlyHeld(u.g, b)
            && LiveBlocks(u.g) == LiveBlocks(m.g) && u.g.ord.Keys == u.g.st.Keys == u.g.home.Keys
            && b in u.g.ord && u.g.ord[b] == p.order && b in u.g.home && u.g.home[b] == b
  {
    hide Books, TilesOK, Canonical, Unused, HeadersOK, SameUsed, OnlyHeld, NothingHeld, LiveBlocks, HeapsOK;
    var u := Received(m, b, p);
    NewPoolKeeps(m.g, m.pools, b, p);
    ReceivedBooks(m, b, p);
    ReceivedHeaps(m, b, p);
    if m.calm { ReceivedCanonical(m.g, m.pools, b, p); }
    KeysAgree(m);
    KeysAgree(u);
    ReceivedOnly(m, b, p);
    HeadersSame(m.g, u.g, m.pools);
    SameUsedLive(m.g, u.g);
  }

  lemma TrackedKeeps(m: Mem, h: nat, b: nat)
    requires HeapsOK(m) && h in m.tracked && |m.tracked[h]| < MAX_POOLS && b in m.pools
    ensures HeapsOK(m.(tracked := m.tracked[h := m.tracked[h] + [b]]))
  {
    var t := m.tracked[h := m.tracked[h] + [b]];
    assert t.Keys == m.tracked.Keys;
  }

  /** All the upper halves are on free lists; the block left at the base is the header. */
  lemma PoolCut(m: Mem, heads: Pools, b: nat, p: Pool, h: nat)
    requires Sound(m) && HeadersOK(m.g, heads) && OnlyHeld(m.g, b) && m.pools == heads[b := p]
    requires m.g.ord[b] == ORDER_MIN && b in m.rc && m.rc[b] == 1 && b in m.order && m.order[b] == ORDER_MIN
    requires h in m.tracked && |m.tracked[h]| < MAX_POOLS
    ensures var u := m.(g := Put(m.g, b, Header), tracked := m.tracked[h := m.tracked[h] + [b]]);
            Settled(u) && LiveBlocks(u.g) == LiveBlocks(m.g)
  {
    hide BytesOK, ListsOK, SlabsOK, ForeignOK, AvailOK, TilesOK, Canonical, HeapsOK;
    SoundHandOut(m, b, Header);
    assert m.rc[b := 1] == m.rc && m.order[b := ORDER_MIN] == m.order;
    TrackedKeeps(m.(g := Put(m.g, b, Header)), h, b);
    LiveNotPut(m.g, b, Header);
  }

  lemma LiveNotPut(g: Ground, x: nat, s: Status)
    requires HeldAt(g, x) && s != Live
    ensures LiveBlocks(Put(g, x, s)) == LiveBlocks(g)
  {
  }

  lemma HasTables(m: Mem, h: nat)
    requires Sound(m) && h in m.avail
    ensures h in m.tracked && h in m.slabs && h in m.foreign
  {
    hide TilesOK, Books, Canonical;
  }

  /** The cut so far: one block of each order from `low` to `top - 1` in front of its list. */
  ghost predicate CascadeAdded(lists0: Lists, lists: Lists, h: nat, base: nat, low: nat, top: nat) {
    && lists.Keys == lists0.Keys
    && (forall j: nat :: low <= j < top ==>
          Head(h, j) in lists0 && lists[Head(h, j)] == [base + Pow2(j)] + lists0[Head(h, j)])
    && (forall n :: n in lists0 && !(n.Head? && n.heap == h && low <= n.order < top) ==> lists[n] == lists0[n])
  }

  lemma CascadeStep(lists0: Lists, lists: Lists, h: nat, base: nat, low: nat, top: nat)
    requires CascadeAdded(lists0, lists, h, base, low, top) && 0 < low <= top && Head(h, low - 1) in lists
    ensures var hd := Head(h, low - 1);
            CascadeAdded(lists0, lists[hd := [base + Pow2(low - 1)] + lists[hd]], h, base, low - 1, top)
  {
    hide Pow2;
  }

  lemma SettledParts(m: Mem)
    requires Settled(m)
    ensures Sound(m) && HeadersOK(m.g, m.pools) && NothingHeld(m.g)
  {
  }

  // ----- looking for memory -----

  /** The exponent of the least power of two not below `n`. */
  function CeilLog2(n: nat): (r: nat)
    ensures n <= Pow2(r) && (r > 0 ==> Pow2(r - 1) < n)
  {
    if n <= 1 then 0 else
      var h := CeilLog2((n + 1) / 2);
      assert h > 0 ==> 2 * Pow2(h - 1) == Pow2(h);
      h + 1
  }

  const BLOCK_HEADER: nat := 32

  /** ray_order_for_size: the least order whose blocks hold the header and the data. */
  function OrderForSize(size: nat): (r: nat)
    ensures r >= ORDER_MIN && size + BLOCK_HEADER <= Pow2(r)
    ensures r > ORDER_MIN ==> Pow2(r - 1) < size + BLOCK_HEADER
  {
    var k := CeilLog2(size + BLOCK_HEADER);
    if k < ORDER_MIN then
      Pow2Monotone(k, ORDER_MIN);
      ORDER_MIN
    else k
  }

  lemma ClearBitKeeps(m: Mem, h: nat, o: nat)
    requires Settled(m) && h in m.avail && Head(h, o) in m.lists && m.lists[Head(h, o)] == []
    ensures Settled(m.(avail := m.avail[h := m.avail[h] - {o}]))
  {
    hide TilesOK, Canonical, BytesOK, ListsOK, SlabsOK, ForeignOK, HeadersOK, NothingHeld, HeapsOK;
    var hd := Head(h, o);
    HeapsUpdate(m, h, m.avail[h] - {o}, hd, m.lists[hd]);
    assert m.lists[hd := m.lists[hd]] == m.lists;
  }

  /** A set bit of a heap is a real order; a non-empty list has its bit. */
  lemma BitFacts(m: Mem, h: nat)
    requires Sound(m) && h in m.avail
    ensures forall o :: o in m.avail[h] ==> o <= MAX_ORDER
    ensures forall o: nat :: o <= MAX_ORDER ==> Head(h, o) in m.lists && (m.lists[Head(h, o)] != [] ==> o in m.avail[h])
  {
    hide TilesOK, Canonical, BytesOK, ListsOK, SlabsOK, ForeignOK;
  }

  lemma ListedIsFree(m: Mem, h: nat, o: nat)
    requires Sound(m) && Head(h, o) in m.lists && m.lists[Head(h, o)] != []
    ensures var x := m.lists[Head(h, o)][0]; IsFree(m.g, x, h, o)
  {
    hide TilesOK, Canonical, BytesOK, SlabsOK, ForeignOK, HeapsOK;
    assert m.lists[Head(h, o)][0] in m.lists[Head(h, o)];
  }

  /** A block handed out joins those in use. */
  lemma LivePut(g: Ground, x: nat)
    requires x in g.ord && x in g.st && g.st[x] != Live
    ensures x !in LiveBlocks(g) && LiveBlocks(Put(g, x, Live)) == LiveBlocks(g)[x := g.ord[x]]
  {
  }

  lemma LiveGone(g: Ground, x: nat, s: Status)
    requires x in g.ord && x in g.st && s != Live
    ensures LiveBlocks(Put(g, x, s)) == LiveBlocks(g) - {x}
  {
  }

  /** The whole of a pool's addresses lies under its base. */
  lemma AlignedDown(b: nat, j: nat, k: nat)
    requires Aligned(b, k) && j <= k
    ensures Aligned(b, j)
  {
    Pow2Add(j, k - j);
    var q := b / Pow2(k);
    assert b == Pow2(k) * q;
    assert b == (Pow2(k - j) * q) * Pow2(j);
    Multiples(Pow2(k - j) * q, Pow2(j));
  }

  lemma HomeFacts(m: Mem, x: nat)
    requires Sound(m) && x in m.g.ord
    ensures x in m.g.home && m.g.home[x] in m.pools && Aligned(m.g.home[x], POOL_ORDER)
    ensures m.g.home[x] <= x < m.g.home[x] + Pow2(m.pools[m.g.home[x]].order)
    ensures forall b :: b in m.pools && b <= x < b + Pow2(m.pools[b].order) ==> b == m.g.home[x]
  {
    hide Canonical, Books, HeapsOK, Pow2, Tiled;
    AlignedDown(m.g.home[x], POOL_ORDER, m.pools[m.g.home[x]].order);
    forall b | b in m.pools && b <= x < b + Pow2(m.pools[b].order)
      ensures b == m.g.home[x]
    {
      OtherPool(m.pools, b, m.g.home[x], x);
    }
  }

  lemma QuotientBounds(a: nat, n: nat)
    requires n > 0
    ensures (a / n) * n <= a < (a / n) * n + n
    ensures a % n == a - (a / n) * n
  {
  }

  lemma MulMonotone(p: nat, q: nat, n: nat)
    requires p <= q
    ensures p * n <= q * n
  {
    assert q * n == p * n + (q - p) * n;
  }

  lemma MulLater(p: nat, q: nat, n: nat)
    ensures p < q ==> p * n + n <= q * n
  {
    if p < q { MulMonotone(p + 1, q, n); }
  }

  lemma DivMonotone(a: nat, b: nat, n: nat)
    requires n > 0 && a <= b
    ensures a / n <= b / n
  {
    QuotientBounds(a, n);
    QuotientBounds(b, n);
    MulLater(b / n, a / n, n);
  }

  /** Stepping down by whole strides from one multiple of the stride to another. */
  lemma StrideDown(base: nat, home: nat, stride: nat)
    requires stride > 0 && base % stride == 0 && home % stride == 0 && home < base
    ensures home + stride <= base && (base - stride) % stride == 0
  {
    var p, q := base / stride, home / stride;
    QuotientBounds(base, stride);
    QuotientBounds(home, stride);
    assert p > q;
    MulMonotone(q + 1, p, stride);
    assert (q + 1) * stride == home + stride;
    Multiples(p - 1, stride);
    assert (p - 1) * stride == base - stride;
  }

  /** Rounding down to the stride does not pass below the pool. */
  lemma MaskFacts(x: nat, home: nat, stride: nat)
    requires stride > 0 && home % stride == 0 && home <= x
    ensures home <= x - x % stride && (x - x % stride) % stride == 0
  {
    var p, q := x / stride, home / stride;
    QuotientBounds(x, stride);
    QuotientBounds(home, stride);
    Multiples(p, stride);
    DivMonotone(home, x, stride);
    MulMonotone(q, p, stride);
  }

  lemma TrackedArePools(m: Mem, h: nat)
    requires Sound(m) && h in m.avail
    ensures h in m.tracked && forall b :: b in m.tracked[h] ==> b in m.pools
  {
    hide TilesOK, Canonical, Books;
  }

  // ----- a new heap -----

  ghost predicate EmptyLists(lists0: Lists, lists: Lists, h: nat, n: nat) {
    && (forall nd :: nd in lists <==> nd in lists0 || (nd.Head? && nd.heap == h && nd.order < n))
    && (forall nd :: nd in lists0 ==> nd in lists && lists[nd] == lists0[nd])
    && (forall i: nat :: i < n ==> Head(h, i) in lists && (Head(h, i) !in lists0 ==> lists[Head(h, i)] == []))
    && (forall i: nat :: Head(h, i) !in lists0)
  }

  lemma EmptyStart(lists: Lists, h: nat)
    requires forall i: nat :: Head(h, i) !in lists
    ensures EmptyLists(lists, lists, h, 0)
  {
  }

  lemma EmptyStep(lists0: Lists, lists: Lists, h: nat, n: nat)
    requires EmptyLists(lists0, lists, h, n)
    ensures Head(h, n) !in lists && EmptyLists(lists0, lists[Head(h, n) := []], h, n + 1)
  {
  }

  lemma NoHeapNoLists(m: Mem, h: nat)
    requires Settled(m) && h !in m.avail
    ensures forall i: nat :: Head(h, i) !in m.lists
  {
    hide TilesOK, Canonical, Books, HeadersOK;
  }

  lemma NewHeapHeaps(m: Mem, u: Mem, h: nat)
    requires HeapsOK(m) && h !in m.avail && EmptyLists(m.lists, u.lists, h, MAX_ORDER + 1)
    requires u.avail == m.avail[h := {}] && u.slabs == m.slabs[h := [[], [], [], [], []]]
    requires u.foreign == m.foreign[h := []] && u.tracked == m.tracked[h := []] && u.pools == m.pools
    ensures HeapsOK(u)
  {
    assert u.slabs.Keys == u.avail.Keys == u.foreign.Keys == u.tracked.Keys;
    forall n | n in u.lists
      ensures n.Head? && n.heap in u.avail && n.order <= MAX_ORDER
    {
    }
    forall k: nat, o: nat | k in u.avail && o <= MAX_ORDER
      ensures Head(k, o) in u.lists
    {
    }
  }

  lemma NewHeapLists(m: Mem, lists: Lists, h: nat)
    requires HeapsOK(m) && ListsOK(m.lists, m.g) && h !in m.avail && EmptyLists(m.lists, lists, h, MAX_ORDER + 1)
    ensures ListsOK(lists, m.g) && AvailOK(m.avail, m.lists) ==> AvailOK(m.avail[h := {}], lists)
    ensures ListsOK(lists, m.g)
  {
    forall k, o, a | Head(k, o) in lists
      ensures a in lists[Head(k, o)] <==> IsFree(m.g, a, k, o)
    {
    }
  }

  lemma NewHeapSlabs(m: Mem, h: nat)
    requires HeapsOK(m) && SlabsOK(m.slabs, m.g) && ForeignOK(m.foreign, m.g) && h !in m.avail
    ensures SlabsOK(m.slabs[h := [[], [], [], [], []]], m.g) && ForeignOK(m.foreign[h := []], m.g)
  {
    var u, v := m.slabs[h := [[], [], [], [], []]], m.foreign[h := []];
    forall k, i, a | k in u && 0 <= i < SLAB_ORDERS
      ensures a in u[k][i] <==> IsSlab(m.g, a, k, ORDER_MIN + i)
    {
    }
    forall k, a | k in v
      ensures a in v[k] <==> IsForeign(m.g, a, k)
    {
    }
  }

  lemma NewHeapKeeps(m: Mem, u: Mem, h: nat)
    requires Settled(m) && h !in m.avail && EmptyLists(m.lists, u.lists, h, MAX_ORDER + 1)
    requires u.avail == m.avail[h := {}] && u.slabs == m.slabs[h := [[], [], [], [], []]]
    requires u.foreign == m.foreign[h := []] && u.tracked == m.tracked[h := []] && u.pools == m.pools
    requires u.rc == m.rc && u.order == m.order && u.g == m.g && u.calm == m.calm
    ensures Settled(u)
  {
    hide TilesOK, Canonical, BytesOK, ListsOK, SlabsOK, ForeignOK, AvailOK, HeadersOK, NothingHeld, HeapsOK, EmptyLists;
    NewHeapHeaps(m, u, h);
    NewHeapLists(m, u.lists, h);
    NewHeapSlabs(m, h);
  }

  ghost predicate NothingListed(lists: Lists, h: nat, o: nat) {
    Head(h, o) in lists && lists[Head(h, o)] == []
  }

  /** Why an allocation fails: no free block is large enough, and the pool table is
      full, the pool would be too large, or the system refuses. */
  ghost predicate NoMemory(lists: Lists, tracked: map<nat, seq<nat>>, h: nat, k: nat, grant: Option<nat>) {
    && (forall o: nat :: k <= o <= MAX_ORDER ==> NothingListed(lists, h, o))
    && h in tracked
    && (|tracked[h]| >= MAX_POOLS || PoolOrderFor(k) > MAX_ORDER || grant.None?)
  }

  /** A pool just cut leaves a free block one order below its own. */
  lemma CascadeTop(lists0: Lists, lists: Lists, h: nat, base: nat, top: nat)
    requires CascadeAdded(lists0, lists, h, base, ORDER_MIN, top) && ORDER_MIN < top <= MAX_ORDER
    ensures !NothingListed(lists, h, top - 1)
  {
    hide Pow2;
  }

  /** The bits of order `k` and up. */
  function Masked(bits: set<nat>, k: nat): set<nat> { set o | o in bits && k <= o }

  /** What a set of candidate bits says: all real orders, and none missing. */
  ghost predicate Tells(bits: set<nat>, lists: Lists, h: nat, k: nat) {
    && (forall o :: o in bits ==> k <= o <= MAX_ORDER)
    && (forall o: nat :: k <= o <= MAX_ORDER ==> o in bits || NothingListed(lists, h, o))
  }

  lemma MaskTells(m: Mem, h: nat, k: nat)
    requires Settled(m) && h in m.avail
    ensures Tells(Masked(m.avail[h], k), m.lists, h, k)
  {
    hide Sound;
    BitFacts(m, h);
  }

  lemma MaskDrop(bits: set<nat>, k: nat, o: nat)
    ensures Masked(bits - {o}, k) == Masked(bits, k) - {o}
  {
  }

  lemma TellsSome(bits: set<nat>, lists: Lists, h: nat, k: nat, o: nat)
    requires Tells(bits, lists, h, k) && k <= o <= MAX_ORDER && !NothingListed(lists, h, o)
    ensures bits != {}
  {
    assert o in bits;
  }

  /** No candidate is left, so no list has a block; after a pool was added one does. */
  lemma NothingLeft(lists: Lists, h: nat, k: nat, top: nat, asked: bool)
    requires Tells({}, lists, h, k) && (asked ==> k <= top <= MAX_ORDER && !NothingListed(lists, h, top))
    ensures !asked && forall o: nat :: k <= o <= MAX_ORDER ==> NothingListed(lists, h, o)
  {
    if asked { TellsSome({}, lists, h, k, top); }
  }

  lemma LowestTells(bits: set<nat>, lists: Lists, h: nat, k: nat, o: nat)
    requires Tells(bits, lists, h, k) && o in bits && forall b :: b in bits ==> o <= b
    ensures k <= o <= MAX_ORDER && forall j: nat :: k <= j < o ==> NothingListed(lists, h, j)
    ensures NothingListed(lists, h, o) ==> Tells(bits - {o}, lists, h, k)
  {
  }

  lemma MemoryOrNot(lists: Lists, tracked: map<nat, seq<nat>>, h: nat, k: nat, grant: Option<nat>, ok: bool)
    requires forall o: nat :: k <= o <= MAX_ORDER ==> NothingListed(lists, h, o)
    requires h in tracked && ok == (|tracked[h]| < MAX_POOLS && PoolOrderFor(k) <= MAX_ORDER && grant.Some?)
    ensures ok <==> !NoMemory(lists, tracked, h, k, grant)
  {
  }

  lemma ListSeen(lists: Lists, tracked: map<nat, seq<nat>>, h: nat, k: nat, grant: Option<nat>, o: nat)
    requires k <= o <= MAX_ORDER && Head(h, o) in lists
    ensures NothingListed(lists, h, o) <==> lists[Head(h, o)] == []
    ensures lists[Head(h, o)] != [] ==> !NoMemory(lists, tracked, h, k, grant)
  {
    assert NothingListed(lists, h, o) <==> lists[Head(h, o)] == [];
  }

  ghost predicate NoSlab(slabs: Slabs, h: nat, k: nat) {
    h in slabs && (k < ORDER_MIN + SLAB_ORDERS ==>
      ORDER_MIN <= k && k - ORDER_MIN < |slabs[h]| && slabs[h][k - ORDER_MIN] == [])
  }

  lemma StackFacts(m: Mem, h: nat)
    requires Settled(m) && h in m.avail
    ensures h in m.slabs && |m.slabs[h]| == SLAB_ORDERS
    ensures forall i: nat :: i < SLAB_ORDERS ==> |m.slabs[h][i]| <= SLAB_CACHE
  {
    hide TilesOK, Canonical, BytesOK, ListsOK, ForeignOK, AvailOK, HeadersOK, NothingHeld;
  }

  lemma TakenLive(g0: Ground, g: Ground, v: nat, k: nat)
    requires SameUsed(g0, g) && OnlyHeld(g, v) && g.ord[v] == k
    requires g0.ord.Keys == g0.st.Keys == g0.home.Keys && g.ord.Keys == g.st.Keys == g.home.Keys
    ensures v !in LiveBlocks(g0) && LiveBlocks(Put(g, v, Live)) == LiveBlocks(g0)[v := k]
  {
    hide SameUsed;
    SameUsedLive(g0, g);
    LivePut(g, v);
  }

  function SlabPopped(slabs: Slabs, h: nat, i: nat): Slabs
    requires h in slabs && i < |slabs[h]| && slabs[h][i] != []
  {
    var l := slabs[h][i];
    SlabWith(slabs, h, i, l[..|l| - 1])
  }

  ghost predicate SlabAt(m: Mem, h: nat, i: nat, v: nat) {
    && h in m.slabs && i < SLAB_ORDERS && |m.slabs[h]| == SLAB_ORDERS && m.slabs[h][i] != []
    && v == m.slabs[h][i][|m.slabs[h][i]| - 1]
  }

  lemma SlabTopFacts(m: Mem, h: nat, i: nat, v: nat)
    requires Settled(m) && SlabAt(m, h, i, v)
    ensures v in m.g.ord && v in m.g.st && v in m.g.home && m.g.st[v] == Slab(h) && m.g.ord[v] == ORDER_MIN + i
    ensures v in m.order && m.order[v] == m.g.ord[v]
  {
    hide Sound, HeadersOK;
    SlabsOf(m);
    SlabTop(m.slabs, m.g, h, i);
    KeysAgree(m);
    HeaderBytes(m, v);
  }

  /** The top of a slab stack taken off: into use, or in transit. */
  lemma SlabTaken(m: Mem, h: nat, i: nat, v: nat, s: Status, rc: map<nat, nat>)
    requires Settled(m) && SlabAt(m, h, i, v) && (s == Live || s == Held) && (rc == m.rc || rc == m.rc[v := 1])
    ensures var u := Moved(m, v, s, rc, SlabPopped(m.slabs, h, i), m.foreign);
            && Sound(u) && HeadersOK(u.g, u.pools)
            && (s == Live ==> NothingHeld(u.g)) && (s == Held ==> OnlyHeld(u.g, v))
  {
    hide Sound, HeadersOK, SlabWith, SlabsOK, ForeignOK;
    SlabsOf(m);
    SlabTopFacts(m, h, i, v);
    SlabPop(m.slabs, m.g, h, i, s);
    ForeignPut(m.foreign, m.g, v, s);
    SlabKeys(m.slabs, h, i, m.slabs[h][i][..|m.slabs[h][i]| - 1]);
    SoundMoved(m, v, s, rc, SlabPopped(m.slabs, h, i), m.foreign);
    HeadersMoved(m.g, m.pools, v, s);
  }

  lemma SlabKeys(slabs: Slabs, h: nat, i: nat, l: seq<nat>)
    requires h in slabs && i < |slabs[h]|
    ensures SlabWith(slabs, h, i, l).Keys == slabs.Keys
  {
  }

  lemma SlabsOf(m: Mem)
    requires Sound(m)
    ensures SlabsOK(m.slabs, m.g) && ForeignOK(m.foreign, m.g)
  {
  }

  // ----- giving blocks back -----

  lemma LiveFacts(m: Mem, v: nat)
    requires Sound(m) && v in LiveBlocks(m.g)
    ensures v in m.g.ord && v in m.g.st && v in m.g.home && m.g.st[v] == Live && m.g.home[v] in m.pools
    ensures v in m.order && m.order[v] == m.g.ord[v] && v in m.rc && LiveBlocks(m.g)[v] == m.g.ord[v]
  {
    hide Sound;
    KeysAgree(m);
    HeaderBytes(m, v);
    HomeFacts(m, v);
  }

  ghost predicate SlabRoom(slabs: Slabs, h: nat, k: nat) {
    && h in slabs && ORDER_MIN <= k < ORDER_MIN + SLAB_ORDERS && k - ORDER_MIN < |slabs[h]|
    && |slabs[h][k - ORDER_MIN]| < SLAB_CACHE
  }

  function SlabPushed(slabs: Slabs, h: nat, i: nat, v: nat): Slabs
    requires h in slabs && i < |slabs[h]|
  {
    SlabWith(slabs, h, i, slabs[h][i] + [v])
  }

  /** Writing a reference count of one over a block that is in use. */
  lemma SettledRc(m: Mem, v: nat)
    requires Settled(m) && v in m.g.ord && v in m.g.st && m.g.st[v] == Live
    ensures Settled(m.(rc := m.rc[v := 1]))
  {
    hide TilesOK, Canonical, ListsOK, SlabsOK, ForeignOK, AvailOK, HeadersOK, NothingHeld, HeapsOK;
    HeapsGround(m, m.(rc := m.rc[v := 1]));
  }

  lemma SlabGiven(m: Mem, h: nat, v: nat)
    requires Settled(m) && v in m.g.ord && v in m.g.st && m.g.st[v] == Live && SlabRoom(m.slabs, h, m.g.ord[v])
    ensures Settled(Moved(m, v, Slab(h), m.rc, SlabPushed(m.slabs, h, m.g.ord[v] - ORDER_MIN, v), m.foreign))
  {
    hide Sound, HeadersOK, SlabWith, SlabsOK, ForeignOK;
    var i := m.g.ord[v] - ORDER_MIN;
    SlabsOf(m);
    SlabPush(m.slabs, m.g, v, h);
    ForeignPut(m.foreign, m.g, v, Slab(h));
    SlabKeys(m.slabs, h, i, m.slabs[h][i] + [v]);
    SoundMoved(m, v, Slab(h), m.rc, SlabPushed(m.slabs, h, i, v), m.foreign);
    HeadersMoved(m.g, m.pools, v, Slab(h));
  }

  lemma ForeignGiven(m: Mem, h: nat, v: nat)
    requires Settled(m) && v in m.g.ord && v in m.g.st && m.g.st[v] == Live && h in m.foreign
    ensures Settled(Moved(m, v, Foreign(h), m.rc, m.slabs, m.foreign[h := [v] + m.foreign[h]]))
  {
    hide Sound, HeadersOK, SlabsOK, ForeignOK;
    SlabsOf(m);
    ForeignPush(m.foreign, m.g, v, h);
    SlabsPut(m.slabs, m.g, v, Foreign(h));
    assert m.foreign[h := [v] + m.foreign[h]].Keys == m.foreign.Keys;
    SoundMoved(m, v, Foreign(h), m.rc, m.slabs, m.foreign[h := [v] + m.foreign[h]]);
    HeadersMoved(m.g, m.pools, v, Foreign(h));
  }

  lemma InTransit(m: Mem, v: nat)
    requires Settled(m) && v in m.g.ord && v in m.g.st && m.g.st[v] == Live
    ensures var u := m.(g := Put(m.g, v, Held)); Sound(u) && HeadersOK(u.g, u.pools) && OnlyHeld(u.g, v)
  {
    hide Sound, HeadersOK, SlabsOK, ForeignOK;
    SlabsOf(m);
    SlabsPut(m.slabs, m.g, v, Held);
    ForeignPut(m.foreign, m.g, v, Held);
    SoundMoved(m, v, Held, m.rc, m.slabs, m.foreign);
    HeadersMoved(m.g, m.pools, v, Held);
  }

  /** The first block of a foreign queue taken off it. */
  lemma ForeignTaken(m: Mem, h: nat)
    requires Settled(m) && h in m.foreign && m.foreign[h] != []
    ensures var v := m.foreign[h][0];
            && v in m.g.ord && v in m.g.st && v in m.g.home && m.g.st[v] == Foreign(h)
            && v in m.order && m.order[v] == m.g.ord[v]
            && var u := Moved(m, v, Held, m.rc, m.slabs, m.foreign[h := m.foreign[h][1..]]);
               Sound(u) && HeadersOK(u.g, u.pools) && OnlyHeld(u.g, v)
  {
    hide Sound, HeadersOK, SlabsOK, ForeignOK;
    var v := m.foreign[h][0];
    SlabsOf(m);
    ForeignFirst(m.foreign, m.g, h);
    KeysAgree(m);
    HeaderBytes(m, v);
    ForeignPop(m.foreign, m.g, h, Held);
    SlabsPut(m.slabs, m.g, v, Held);
    assert m.foreign[h := m.foreign[h][1..]].Keys == m.foreign.Keys;
    SoundMoved(m, v, Held, m.rc, m.slabs, m.foreign[h := m.foreign[h][1..]]);
    HeadersMoved(m.g, m.pools, v, Held);
  }

  /** Where a freed block of order `k` goes. */
  ghost predicate FreedTo(local: bool, v: nat, k: nat, h: nat, slabs0: Slabs, slabs: Slabs, foreign0: Queues,
                          foreign: Queues) {
    && h in slabs0 && h in foreign0
    && foreign == (if local then foreign0 else foreign0[h := [v] + foreign0[h]])
    && slabs == (if local && SlabRoom(slabs0, h, k) then SlabPushed(slabs0, h, k - ORDER_MIN, v) else slabs0)
  }

  lemma FreedCases(h: nat, v: nat, k: nat, slabs: Slabs, foreign: Queues)
    requires h in slabs && h in foreign && |slabs[h]| == SLAB_ORDERS
    ensures SlabRoom(slabs, h, k) <==>
            ORDER_MIN <= k < ORDER_MIN + SLAB_ORDERS && |slabs[h][k - ORDER_MIN]| < SLAB_CACHE
    ensures SlabRoom(slabs, h, k) ==>
              FreedTo(true, v, k, h, slabs, SlabPushed(slabs, h, k - ORDER_MIN, v), foreign, foreign)
    ensures !SlabRoom(slabs, h, k) ==> FreedTo(true, v, k, h, slabs, slabs, foreign, foreign)
    ensures FreedTo(false, v, k, h, slabs, slabs, foreign, foreign[h := [v] + foreign[h]])
  {
  }

  /** What freeing a block in use relies on, before and after its count is reset. */
  lemma FreeFacts(m: Mem, h: nat, v: nat)
    requires Settled(m) && h in m.avail && v in LiveBlocks(m.g)
    ensures v in m.g.ord && v in m.g.home && m.g.home[v] in m.pools && v in m.order && m.order[v] == m.g.ord[v]
    ensures LiveBlocks(m.g)[v] == m.g.ord[v]
    ensures h in m.slabs && h in m.foreign && |m.slabs[h]| == SLAB_ORDERS
    ensures Settled(m.(rc := m.rc[v := 1])) && Sound(m.(rc := m.rc[v := 1]))
  {
    hide Sound;
    HasTables(m, h);
    StackFacts(m, h);
    LiveFacts(m, v);
    SettledRc(m, v);
  }

  lemma LiveUnmoved(g: Ground, x: nat, s: Status)
    requires x in g.ord && x in g.st && g.st[x] != Live && s != Live
    ensures LiveBlocks(Put(g, x, s)) == LiveBlocks(g)
  {
  }

  lemma QueuedBlock(m: Mem, h: nat)
    requires Settled(m) && h in m.foreign && m.foreign[h] != []
    ensures Sound(m)
    ensures var x := m.foreign[h][0];
            && x in m.g.ord && x in m.g.st && x in m.g.home && m.g.st[x] == Foreign(h)
            && x in m.order && m.order[x] == m.g.ord[x]
  {
    hide Sound;
    SlabsOf(m);
    ForeignFirst(m.foreign, m.g, h);
    KeysAgree(m);
    HeaderBytes(m, m.foreign[h][0]);
  }

  /** Only the stacks of `h` differ, and those under index `n` are empty. */
  ghost predicate StacksBelow(slabs0: Slabs, slabs: Slabs, h: nat, n: nat) {
    && h in slabs0 && h in slabs && |slabs[h]| == SLAB_ORDERS && slabs == slabs0[h := slabs[h]]
    && forall j: nat :: j < n && j < SLAB_ORDERS ==> slabs[h][j] == []
  }

  lemma PoppedStacks(slabs0: Slabs, slabs: Slabs, h: nat, i: nat)
    requires StacksBelow(slabs0, slabs, h, i) && i < SLAB_ORDERS && slabs[h][i] != []
    ensures var u := SlabPopped(slabs, h, i);
            StacksBelow(slabs0, u, h, i) && |u[h][i]| < |slabs[h][i]|
  {
  }

  // ----- merging one heap into another -----

  function SlabMoved(slabs: Slabs, dst: nat, src: nat, i: nat): Slabs
    requires src in slabs && dst in slabs && src != dst && i < |slabs[src]| && i < |slabs[dst]| && slabs[src][i] != []
  {
    SlabPushed(SlabPopped(slabs, src, i), dst, i, slabs[src][i][|slabs[src][i]| - 1])
  }

  lemma SlabHandedOver(m: Mem, dst: nat, src: nat, i: nat, v: nat)
    requires Settled(m) && SlabAt(m, src, i, v) && dst in m.slabs && src != dst
    requires |m.slabs[dst]| == SLAB_ORDERS && |m.slabs[dst][i]| < SLAB_CACHE
    ensures v in m.g.ord && v in m.g.st
    ensures Settled(Moved(m, v, Slab(dst), m.rc, SlabMoved(m.slabs, dst, src, i), m.foreign))
    ensures LiveBlocks(Put(m.g, v, Slab(dst))) == LiveBlocks(m.g)
  {
    hide Sound, HeadersOK;
    SlabTopFacts(m, src, i, v);
    SlabTaken(m, src, i, v, Live, m.rc);
    var u := Moved(m, v, Live, m.rc, SlabPopped(m.slabs, src, i), m.foreign);
    SlabGiven(u, dst, v);
    assert Put(u.g, v, Slab(dst)) == Put(m.g, v, Slab(dst));
    LiveUnmoved(m.g, v, Slab(dst));
  }

  ghost predicate TwoCaches(slabs: Slabs, dst: nat, src: nat, n: nat) {
    && src in slabs && dst in slabs && src != dst && |slabs[src]| == |slabs[dst]| == SLAB_ORDERS
    && forall j: nat :: j < n && j < SLAB_ORDERS ==> slabs[src][j] == []
  }

  lemma MovedStacks(slabs: Slabs, dst: nat, src: nat, i: nat)
    requires TwoCaches(slabs, dst, src, i) && i < SLAB_ORDERS && slabs[src][i] != []
    ensures var u := SlabMoved(slabs, dst, src, i); TwoCaches(u, dst, src, i) && |u[src][i]| < |slabs[src][i]|
  {
  }

  lemma DrainedStacks(slabs: Slabs, dst: nat, src: nat, i: nat)
    requires TwoCaches(slabs, dst, src, i) && i < SLAB_ORDERS && slabs[src][i] != []
    ensures var u := SlabPopped(slabs, src, i); TwoCaches(u, dst, src, i) && |u[src][i]| < |slabs[src][i]|
  {
  }

  /** The free blocks of order `o` on `src`'s list now on `dst`'s. */
  function Adopted(g: Ground, src: nat, dst: nat, o: nat): Ground {
    g.(st := map a | a in g.st :: if a in g.ord && g.ord[a] == o && g.st[a] == Free(src) then Free(dst) else g.st[a])
  }

  lemma AdoptedTiles(g: Ground, pools: Pools, src: nat, dst: nat, o: nat)
    requires TilesOK(g, pools)
    ensures TilesOK(Adopted(g, src, dst, o), pools)
    ensures Canonical(g, pools) ==> Canonical(Adopted(g, src, dst, o), pools)
  {
    hide Tiled, Pow2, PoolsOK, FlipBit;
    var u := Adopted(g, src, dst, o);
    assert u.st.Keys == g.st.Keys;
    if Canonical(g, pools) {
      forall x, y | x in u.ord && y in u.ord && u.ord[x] < pools[u.home[x]].order
        ensures !FreeBuddies(u, x, y)
      {
        assert !FreeBuddies(g, x, y);
      }
    }
  }

  lemma AdoptedLists(lists: Lists, g: Ground, src: nat, dst: nat, o: nat)
    requires ListsOK(lists, g) && src != dst && Head(src, o) in lists && Head(dst, o) in lists
    ensures ListsOK(lists[Head(dst, o) := lists[Head(src, o)] + lists[Head(dst, o)]][Head(src, o) := []],
                    Adopted(g, src, dst, o))
  {
    var u := Adopted(g, src, dst, o);
    var s, d := Head(src, o), Head(dst, o);
    var r := lists[s] + lists[d];
    assert forall a :: a in r <==> a in lists[s] || a in lists[d];
    assert Distinct(r) by {
      forall i, j | 0 <= i < j < |r|
        ensures r[i] != r[j]
      {
        if i < |lists[s]| <= j {
          assert r[i] in lists[s] && r[j] in lists[d];
          assert IsFree(g, r[i], src, o) && IsFree(g, r[j], dst, o);
        }
      }
    }
    var v := lists[d := r][s := []];
    forall h, k, a | Head(h, k) in v
      ensures a in v[Head(h, k)] <==> IsFree(u, a, h, k)
    {
      assert a in lists[Head(h, k)] <==> IsFree(g, a, h, k);
      assert a in lists[s] <==> IsFree(g, a, src, o);
    }
  }

  lemma AdoptedOthers(m: Mem, src: nat, dst: nat, o: nat)
    requires BytesOK(m.rc, m.order, m.g) && HeadersOK(m.g, m.pools) && NothingHeld(m.g)
    ensures var u := Adopted(m.g, src, dst, o);
            BytesOK(m.rc, m.order, u) && HeadersOK(u, m.pools) && NothingHeld(u) && LiveBlocks(u) == LiveBlocks(m.g)
  {
    assert LiveBlocks(Adopted(m.g, src, dst, o)) == LiveBlocks(m.g);
  }

  lemma AdoptedQueues(slabs: Slabs, foreign: Queues, g: Ground, src: nat, dst: nat, o: nat)
    requires SlabsOK(slabs, g) && ForeignOK(foreign, g)
    ensures var u := Adopted(g, src, dst, o); SlabsOK(slabs, u) && ForeignOK(foreign, u)
  {
    var u := Adopted(g, src, dst, o);
    assert forall a, h, k :: IsSlab(u, a, h, k) <==> IsSlab(g, a, h, k);
    assert forall a, h :: IsForeign(u, a, h) <==> IsForeign(g, a, h);
  }

  /** The state after splicing the lists of order `o`. */
  function SplicedMem(m: Mem, dst: nat, src: nat, o: nat): Mem
    requires Head(src, o) in m.lists && Head(dst, o) in m.lists && dst in m.avail
  {
    m.(lists := m.lists[Head(dst, o) := m.lists[Head(src, o)] + m.lists[Head(dst, o)]][Head(src, o) := []],
       avail := m.avail[dst := m.avail[dst] + {o}], g := Adopted(m.g, src, dst, o))
  }

  lemma SplicedHeaps(m: Mem, dst: nat, src: nat, o: nat)
    requires HeapsOK(m) && AvailOK(m.avail, m.lists) && Head(src, o) in m.lists && Head(dst, o) in m.lists
             && dst in m.avail
    ensures HeapsOK(SplicedMem(m, dst, src, o))
    ensures AvailOK(SplicedMem(m, dst, src, o).avail, SplicedMem(m, dst, src, o).lists)
  {
    assert m.avail[dst := m.avail[dst] + {o}].Keys == m.avail.Keys;
  }

  lemma Spliced(m: Mem, dst: nat, src: nat, o: nat)
    requires Settled(m) && src != dst && Head(src, o) in m.lists && Head(dst, o) in m.lists && dst in m.avail
    ensures Settled(SplicedMem(m, dst, src, o))
    ensures LiveBlocks(SplicedMem(m, dst, src, o).g) == LiveBlocks(m.g)
  {
    hide TilesOK, Canonical, BytesOK, ListsOK, SlabsOK, ForeignOK, AvailOK, HeadersOK, NothingHeld, HeapsOK, Adopted,
         LiveBlocks;
    AdoptedTiles(m.g, m.pools, src, dst, o);
    AdoptedLists(m.lists, m.g, src, dst, o);
    AdoptedOthers(m, src, dst, o);
    AdoptedQueues(m.slabs, m.foreign, m.g, src, dst, o);
    SplicedHeaps(m, dst, src, o);
  }

  lemma TwoLists(m: Mem, src: nat, dst: nat, o: nat)
    requires Settled(m) && src in m.avail && dst in m.avail && o <= MAX_ORDER
    ensures Head(src, o) in m.lists && Head(dst, o) in m.lists
  {
    hide Sound;
    HasList(m, src, o);
    HasList(m, dst, o);
  }

  lemma EmptyIs(lists: Lists, h: nat, o: nat)
    requires Head(h, o) in lists && lists[Head(h, o)] == []
    ensures NothingListed(lists, h, o)
  {
  }

  lemma StillEmpty(lists: Lists, u: Lists, dst: nat, src: nat, o: nat)
    requires src != dst && Head(src, o) in lists && Head(dst, o) in lists
    requires forall j: nat :: j < o ==> NothingListed(lists, src, j)
    requires u == lists[Head(dst, o) := lists[Head(src, o)] + lists[Head(dst, o)]][Head(src, o) := []]
    ensures forall j: nat :: j < o + 1 ==> NothingListed(u, src, j)
  {
    forall j: nat | j < o + 1
      ensures NothingListed(u, src, j)
    {
      if j < o { assert NothingListed(lists, src, j); }
    }
  }

  /** Blocks are never smaller than the least order. */
  lemma SmallOrdersEmpty(m: Mem, h: nat)
    requires Settled(m) && h in m.avail
    ensures forall o: nat :: o < ORDER_MIN ==> NothingListed(m.lists, h, o)
  {
    hide Sound;
    forall o: nat | o < ORDER_MIN
      ensures NothingListed(m.lists, h, o)
    {
      HasList(m, h, o);
      if m.lists[Head(h, o)] != [] {
        ListedIsFree(m, h, o);
        OrderBound(m, m.lists[Head(h, o)][0]);
      }
    }
  }

  lemma NoBits(m: Mem, h: nat)
    requires Settled(m) && h in m.avail && forall o: nat :: o <= MAX_ORDER ==> NothingListed(m.lists, h, o)
    ensures Settled(m.(avail := m.avail[h := {}]))
  {
    hide TilesOK, Canonical, BytesOK, ListsOK, SlabsOK, ForeignOK, HeadersOK, NothingHeld;
    var u := m.avail[h := {}];
    assert u.Keys == m.avail.Keys;
    forall k, o | Head(k, o) in m.lists
      ensures k in u && (m.lists[Head(k, o)] != [] ==> o in u[k])
    {
      if k == h { assert NothingListed(m.lists, h, o); }
    }
  }

  /** The pools of the list `bs` owned by heap `h`. */
  function Owned(pools: Pools, bs: seq<nat>, h: nat): Pools {
    map b | b in pools :: if b in bs then Pool(pools[b].order, h) else pools[b]
  }

  function Fitting(t: seq<nat>, more: seq<nat>): (r: seq<nat>) {
    if more == [] then t
    else
      var u := Fitting(t, more[..|more| - 1]);
      if |u| < MAX_POOLS then u + [more[|more| - 1]] else u
  }

  lemma OwnedNone(pools: Pools, h: nat)
    ensures Owned(pools, [], h) == pools
  {
  }

  lemma FittingNone(t: seq<nat>)
    ensures Fitting(t, []) == t
  {
  }

  lemma OwnedNext(pools: Pools, bs: seq<nat>, i: nat, h: nat)
    requires i < |bs| && bs[i] in pools
    ensures var u := Owned(pools, bs[..i], h);
            bs[i] in u && Owned(pools, bs[..i + 1], h) == u[bs[i] := u[bs[i]].(owner := h)]
  {
    assert bs[..i + 1] == bs[..i] + [bs[i]];
  }

  lemma FittingNext(t: seq<nat>, bs: seq<nat>, i: nat)
    requires i < |bs|
    ensures Fitting(t, bs[..i + 1]) ==
            if |Fitting(t, bs[..i])| < MAX_POOLS then Fitting(t, bs[..i]) + [bs[i]] else Fitting(t, bs[..i])
  {
    assert bs[..i + 1][..i] == bs[..i];
  }

  lemma PoolTables(m: Mem, dst: nat, src: nat)
    requires Settled(m) && src in m.avail && dst in m.avail
    ensures src in m.tracked && dst in m.tracked && |m.tracked[dst]| <= MAX_POOLS
    ensures forall b :: b in m.tracked[src] ==> b in m.pools
  {
    hide TilesOK, Canonical, Books, HeadersOK;
  }

  lemma OwnerTiles(g: Ground, pools: Pools, b: nat, h: nat)
    requires TilesOK(g, pools) && b in pools
    ensures TilesOK(g, pools[b := pools[b].(owner := h)])
    ensures Canonical(g, pools) ==> Canonical(g, pools[b := pools[b].(owner := h)])
  {
    hide Tiled, Pow2, BuddyOf;
    var u := pools[b := pools[b].(owner := h)];
    if Canonical(g, pools) {
      forall x, y | x in g.ord && y in g.ord && g.ord[x] < u[g.home[x]].order
        ensures !FreeBuddies(g, x, y)
      {
        assert g.ord[x] < pools[g.home[x]].order;
      }
    }
  }

  /** A pool changes owner, and its entry is copied to the new owner's table if it fits. */
  lemma PoolMoves(m: Mem, b: nat, h: nat)
    requires Settled(m) && b in m.pools && h in m.tracked
    ensures var u := m.(pools := m.pools[b := m.pools[b].(owner := h)]);
            && Settled(u)
            && (|m.tracked[h]| < MAX_POOLS ==> Settled(u.(tracked := m.tracked[h := m.tracked[h] + [b]])))
  {
    hide TilesOK, Canonical, BytesOK, ListsOK, SlabsOK, ForeignOK, AvailOK, NothingHeld;
    OwnerTiles(m.g, m.pools, b, h);
    OwnerHeaders(m.g, m.pools, b, h);
    var u := m.(pools := m.pools[b := m.pools[b].(owner := h)]);
    if |m.tracked[h]| < MAX_POOLS { TrackedKeeps(u, h, b); }
  }

  lemma OwnerHeaders(g: Ground, pools: Pools, b: nat, h: nat)
    requires HeadersOK(g, pools) && b in pools
    ensures HeadersOK(g, pools[b := pools[b].(owner := h)])
  {
  }

  lemma TableCleared(m: Mem, h: nat)
    requires Settled(m) && h in m.tracked
    ensures Settled(m.(tracked := m.tracked[h := []]))
  {
    hide TilesOK, Canonical, BytesOK, ListsOK, SlabsOK, ForeignOK, AvailOK, HeadersOK, NothingHeld;
    assert m.tracked[h := []].Keys == m.tracked.Keys;
  }

  /** No pool is in two tables, or twice in one. */
  ghost predicate TablesApart(tracked: map<nat, seq<nat>>) {
    && (forall h :: h in tracked ==> Distinct(tracked[h]))
    && (forall h, k, b :: h in tracked && k in tracked && b in tracked[h] && b in tracked[k] ==> h == k)
  }

  lemma ApartAdd(m: Mem, h: nat, b: nat, k: nat)
    requires Settled(m) && h in m.tracked && Unused(m.pools, b, k)
    ensures TablesApart(m.tracked) ==> TablesApart(m.tracked[h := m.tracked[h] + [b]])
  {
    hide TilesOK, Books, Canonical, HeadersOK, NothingHeld, Unused;
    FreshBase(m.pools, b, k);
    var t := m.tracked[h] + [b];
    assert forall x :: x in t <==> x in m.tracked[h] || x == b;
    assert b !in m.tracked[h];
  }

  lemma FreshBase(pools: Pools, b: nat, k: nat)
    requires Unused(pools, b, k)
    ensures b !in pools
  {
  }

  lemma ApartMoved(t: map<nat, seq<nat>>, u: map<nat, seq<nat>>, dst: nat, src: nat)
    requires t.Keys == u.Keys && src in t && dst in t && src != dst && u[src] == [] && u[dst] == Fitting(t[dst], t[src])
    requires forall k :: k in u && k != dst && k != src ==> u[k] == t[k]
    ensures TablesApart(t) ==> TablesApart(u)
  {
    if TablesApart(t) {
      assert forall x :: x in t[dst] ==> x !in t[src];
      FittingMembers(t[dst], t[src]);
      forall h, k, b | h in u && k in u && b in u[h] && b in u[k]
        ensures h == k
      {
        var h0, k0 := CameFrom(t, u, dst, src, h, b), CameFrom(t, u, dst, src, k, b);
        assert h0 == k0;
      }
    }
  }

  /** The table that held `b` before the move. */
  ghost function CameFrom(t: map<nat, seq<nat>>, u: map<nat, seq<nat>>, dst: nat, src: nat, h: nat, b: nat): (k: nat)
    requires t.Keys == u.Keys && src in t && dst in t && src != dst && u[src] == [] && u[dst] == Fitting(t[dst], t[src])
    requires forall k :: k in u && k != dst && k != src ==> u[k] == t[k]
    requires h in u && b in u[h] && forall x :: x in u[dst] ==> x in t[dst] || x in t[src]
    ensures k in t && b in t[k] && (k == h || (h == dst && k == src && b !in t[dst]))
  {
    if h == dst && b !in t[dst] then src else h
  }

  lemma {:induction false} FittingMembers(t: seq<nat>, more: seq<nat>)
    requires Distinct(t) && Distinct(more) && forall x :: x in t ==> x !in more
    ensures Distinct(Fitting(t, more)) && forall x :: x in Fitting(t, more) ==> x in t || x in more
  {
    if more != [] {
      var init, last := more[..|more| - 1], more[|more| - 1];
      FittingMembers(t, init);
      assert last in more && last !in init;
      assert forall x :: x in init ==> x in more;
    }
  }
}
