/** The byte counters of the heaps: what each must equal, and what each step of the
    allocator does to the blocks it is charged for. */
module HeapBytes {
  import opened Tiles
  import opened FreeLists
  import opened HeapModel
  import opened HeapSteps
  import opened Sums

  ghost predicate IsCharged(g: Ground, pools: Pools, h: nat, x: nat) {
    && x in g.ord && x in g.st && x in g.home && (g.st[x] == Live || g.st[x].Foreign?)
    && g.home[x] in pools && pools[g.home[x]].owner == h
  }

  /** The blocks of heap `h`'s own pools that are in use or queued for return. */
  ghost function Charged(g: Ground, pools: Pools, h: nat): Weights {
    map x | x in g.ord && IsCharged(g, pools, h, x) :: Pow2(g.ord[x])
  }

  /** Each counter is the total size of the blocks its heap is charged for. */
  ghost predicate Balanced(bytes: map<nat, int>, g: Ground, pools: Pools) {
    forall h :: h in bytes ==> bytes[h] == Sum(Charged(g, pools, h))
  }

  ghost predicate InPlace(g: Ground, pools: Pools, x: nat)
    requires x in g.st && x in g.home
  {
    && (g.st[x].Free? || g.st[x].Slab? ==> g.home[x] in pools && pools[g.home[x]].owner == g.st[x].h)
    && (g.st[x].Foreign? ==> g.home[x] in pools && pools[g.home[x]].owner != g.st[x].h)
  }

  /** Free and cached blocks are with the heap that owns their pool, queued ones are not. */
  ghost predicate AtHome(g: Ground, pools: Pools) {
    forall x :: x in g.st && x in g.home ==> InPlace(g, pools, x)
  }

  ghost predicate StillFree(g: Ground, u: Ground, x: nat)
    requires x in u.st && x in u.home
  {
    x in g.st && x in g.home && g.st[x] == u.st[x] && g.home[x] == u.home[x]
  }

  /** From `g` to `u`, only heap `h` has gained free blocks, and only in the pool at `b`. */
  ghost predicate Grown(g: Ground, u: Ground, h: nat, b: nat) {
    forall x :: x in u.st && x in u.home && u.st[x].Free? ==>
      StillFree(g, u, x) || (u.st[x] == Free(h) && u.home[x] == b)
  }

  lemma GrownRefl(g: Ground, h: nat, b: nat)
    ensures Grown(g, g, h, b)
  {
  }

  lemma GrownTrans(g: Ground, u: Ground, w: Ground, h: nat, b: nat)
    requires Grown(g, u, h, b) && Grown(u, w, h, b)
    ensures Grown(g, w, h, b)
  {
    forall x | x in w.st && x in w.home && w.st[x].Free?
      ensures StillFree(g, w, x) || (w.st[x] == Free(h) && w.home[x] == b)
    {
      assert StillFree(u, w, x) || (w.st[x] == Free(h) && w.home[x] == b);
    }
  }

  lemma GrownTaken(g: Ground, x: nat, s: Status, h: nat, b: nat)
    requires !s.Free?
    ensures Grown(g, Put(g, x, s), h, b)
  {
  }

  lemma GrownPut(g: Ground, x: nat, h: nat, b: nat)
    requires x in g.home && g.home[x] == b
    ensures Grown(g, Put(g, x, Free(h)), h, b)
  {
  }

  lemma GrownMerge(g: Ground, x: nat, h: nat, b: nat)
    requires x in g.ord
    ensures Grown(g, MergeHeld(g, x), h, b)
  {
    hide Merge, Pow2;
  }

  lemma GrownSplit(g: Ground, x: nat, h: nat, b: nat)
    requires x in g.ord && x in g.home && g.ord[x] > 0
    ensures Grown(g, SplitHeld(g, x), h, b)
  {
    hide Split, Pow2;
  }

  lemma AtHomeGrown(g: Ground, u: Ground, pools: Pools, h: nat, b: nat)
    requires AtHome(g, pools) && SameUsed(g, u) && Grown(g, u, h, b) && b in pools && pools[b].owner == h
    requires u.ord.Keys == u.st.Keys == u.home.Keys
    ensures AtHome(u, pools)
  {
    forall x | x in u.st && x in u.home
      ensures InPlace(u, pools, x)
    {
      if u.st[x].Free? {
        if StillFree(g, u, x) { assert InPlace(g, pools, x); }
      } else if u.st[x] != Held {
        assert Used(u, x) && Used(g, x);
        assert InPlace(g, pools, x);
      }
    }
  }

  /** Free and transit blocks may come and go: no heap is charged for them. */
  lemma ChargedSame(g: Ground, u: Ground, pools: Pools, h: nat)
    requires SameUsed(g, u)
    ensures Charged(u, pools, h) == Charged(g, pools, h)
  {
    forall x
      ensures IsCharged(g, pools, h, x) <==> IsCharged(u, pools, h, x)
      ensures IsCharged(g, pools, h, x) ==> u.ord[x] == g.ord[x]
    {
      assert Used(g, x) <==> Used(u, x);
    }
  }

  lemma BalancedSame(bytes: map<nat, int>, g: Ground, u: Ground, pools: Pools)
    requires Balanced(bytes, g, pools) && SameUsed(g, u)
    ensures Balanced(bytes, u, pools)
  {
    hide SameUsed, Charged;
    forall h | h in bytes
      ensures bytes[h] == Sum(Charged(u, pools, h))
    {
      ChargedSame(g, u, pools, h);
    }
  }

  ghost predicate Chargeable(s: Status) { s == Live || s.Foreign? }

  /** A block handed out is charged to the owner of its pool. */
  lemma BalancedCharge(bytes: map<nat, int>, g: Ground, pools: Pools, x: nat, h: nat, s: Status)
    requires Balanced(bytes, g, pools) && x in g.ord && x in g.st && x in g.home && h in bytes
    requires !Chargeable(g.st[x]) && Chargeable(s) && g.home[x] in pools && pools[g.home[x]].owner == h
    ensures Balanced(bytes[h := bytes[h] + Pow2(g.ord[x])], Put(g, x, s), pools)
  {
    hide Pow2;
    var u := Put(g, x, s);
    forall k | k in bytes
      ensures k != h ==> Charged(u, pools, k) == Charged(g, pools, k)
    {
    }
    assert Charged(u, pools, h) == Charged(g, pools, h)[x := Pow2(g.ord[x])];
    SumPut(Charged(g, pools, h), x, Pow2(g.ord[x]));
  }

  /** A block returned is no longer charged to the owner of its pool. */
  lemma BalancedCredit(bytes: map<nat, int>, g: Ground, pools: Pools, x: nat, h: nat, s: Status)
    requires Balanced(bytes, g, pools) && x in g.ord && x in g.st && x in g.home && h in bytes
    requires Chargeable(g.st[x]) && !Chargeable(s) && g.home[x] in pools && pools[g.home[x]].owner == h
    ensures Balanced(bytes[h := bytes[h] - Pow2(g.ord[x])], Put(g, x, s), pools)
  {
    hide Pow2;
    var u := Put(g, x, s);
    forall k | k in bytes
      ensures k != h ==> Charged(u, pools, k) == Charged(g, pools, k)
    {
    }
    assert Charged(u, pools, h) == Charged(g, pools, h) - {x};
    SumTake(Charged(g, pools, h), x);
  }

  /** Queued instead of in use, or cached instead of in transit: no counter changes. */
  lemma BalancedMove(bytes: map<nat, int>, g: Ground, pools: Pools, x: nat, s: Status)
    requires Balanced(bytes, g, pools) && x in g.ord && x in g.st && (Chargeable(g.st[x]) <==> Chargeable(s))
    ensures Balanced(bytes, Put(g, x, s), pools)
  {
    hide Charged;
    forall h | h in bytes
      ensures bytes[h] == Sum(Charged(Put(g, x, s), pools, h))
    {
      ChargedMove(g, pools, x, s, h);
    }
  }

  lemma ChargedMove(g: Ground, pools: Pools, x: nat, s: Status, h: nat)
    requires x in g.ord && x in g.st && (Chargeable(g.st[x]) <==> Chargeable(s))
    ensures Charged(Put(g, x, s), pools, h) == Charged(g, pools, h)
  {
    hide Pow2;
  }

  lemma AtHomePut(g: Ground, pools: Pools, x: nat, s: Status)
    requires AtHome(g, pools) && x in g.st && (x in g.home ==> InPlace(Put(g, x, s), pools, x))
    ensures AtHome(Put(g, x, s), pools)
  {
    forall y | y in Put(g, x, s).st && y in g.home
      ensures InPlace(Put(g, x, s), pools, y)
    {
      assert y != x ==> InPlace(g, pools, y);
    }
  }

  /** A new pool brings no charged blocks. */
  lemma NewPoolBytes(bytes: map<nat, int>, g: Ground, pools: Pools, b: nat, p: Pool)
    requires b !in pools && forall x :: x in g.home ==> g.home[x] in pools
    ensures Balanced(bytes, g, pools) ==> Balanced(bytes, g, pools[b := p])
    ensures AtHome(g, pools) ==> AtHome(g, pools[b := p])
  {
    hide Pow2;
    if Balanced(bytes, g, pools) {
      forall h | h in bytes
        ensures bytes[h] == Sum(Charged(g, pools[b := p], h))
      {
        assert Charged(g, pools[b := p], h) == Charged(g, pools, h);
      }
    }
    if AtHome(g, pools) {
      forall x | x in g.st && x in g.home
        ensures InPlace(g, pools[b := p], x)
      {
        assert InPlace(g, pools, x);
      }
    }
  }

  /** Splitting the held block `x` and listing its upper half with heap `h`. */
  lemma GrownHalf(g: Ground, x: nat, h: nat)
    requires x in g.ord && x in g.home && g.ord[x] > 0
    ensures Grown(g, Put(SplitHeld(g, x), x + Pow2(g.ord[x] - 1), Free(h)), h, g.home[x])
  {
    hide Grown, Pow2, Split;
    var y := x + Pow2(g.ord[x] - 1);
    GrownSplit(g, x, h, g.home[x]);
    GrownPut(SplitHeld(g, x), y, h, g.home[x]);
    GrownTrans(g, SplitHeld(g, x), Put(SplitHeld(g, x), y, Free(h)), h, g.home[x]);
  }

  function Charge(counts: map<nat, int>, h: nat, n: int): map<nat, int> {
    if h in counts then counts[h := counts[h] + n] else counts
  }

  function Credit(counts: map<nat, int>, h: nat, n: int): map<nat, int> {
    if h in counts then counts[h := counts[h] - n] else counts
  }

  ghost function SizeAt(g: Ground, x: nat): nat { if x in g.ord then Pow2(g.ord[x]) else 0 }

  /** `h` is the owner of the pool that `x` lies in. */
  ghost predicate OwnedBy(g: Ground, pools: Pools, x: nat, h: nat) {
    x in g.home && g.home[x] in pools && pools[g.home[x]].owner == h
  }

  function CountOf(counts: map<nat, int>, h: nat): int { if h in counts then counts[h] else 0 }

  /** No counter is off: free blocks are with the heap that owns their pool, and the
      owners are live. */
  ghost predicate Accounted(counts: map<nat, int>, g: Ground, pools: Pools, registry: set<nat>, heaps: set<nat>) {
    && AtHome(g, pools) && Balanced(counts, g, pools)
    && registry == heaps == counts.Keys && forall b :: b in pools ==> pools[b].owner in registry
  }

  /** What merging and listing in one pool does not disturb, if its owner does it. */
  lemma KeepsExact(counts: map<nat, int>, g: Ground, u: Ground, pools: Pools, r: set<nat>, heaps: set<nat>, h: nat,
                   b: nat)
    requires Accounted(counts, g, pools, r, heaps)
    requires SameUsed(g, u) && Grown(g, u, h, b) && b in pools && pools[b].owner == h
    requires u.ord.Keys == u.st.Keys == u.home.Keys
    ensures Accounted(counts, u, pools, r, heaps)
  {
    hide AtHome, Balanced, SameUsed, Grown;
    AtHomeGrown(g, u, pools, h, b);
    BalancedSame(counts, g, u, pools);
  }

  /** The owner of a block that settles it elsewhere than in use is credited. */
  lemma Credited(counts: map<nat, int>, g: Ground, pools: Pools, r: set<nat>, heaps: set<nat>, x: nat, h: nat,
                 s: Status)
    requires Accounted(counts, g, pools, r, heaps) && x in g.ord && x in g.st && x in g.home
             && (s == Held || s == Slab(h))
    requires Chargeable(g.st[x]) && OwnedBy(g, pools, x, h)
    ensures Accounted(Credit(counts, h, SizeAt(g, x)), Put(g, x, s), pools, r, heaps)
  {
    hide AtHome, Balanced, Pow2;
    AtHomePut(g, pools, x, s);
    BalancedCredit(counts, g, pools, x, h, s);
  }

  lemma QueuedKeeps(counts: map<nat, int>, g: Ground, pools: Pools, r: set<nat>, heaps: set<nat>, x: nat, h: nat)
    requires Accounted(counts, g, pools, r, heaps) && x in g.ord && x in g.st && x in g.home
    requires g.st[x] == Live && g.home[x] in pools && !OwnedBy(g, pools, x, h)
    ensures Accounted(counts, Put(g, x, Foreign(h)), pools, r, heaps)
  {
    hide AtHome, Balanced;
    AtHomePut(g, pools, x, Foreign(h));
    BalancedMove(counts, g, pools, x, Foreign(h));
  }

  /** A cached block belongs to the heap that caches it. */
  lemma TakenKeeps(counts: map<nat, int>, g: Ground, pools: Pools, r: set<nat>, heaps: set<nat>, x: nat, h: nat)
    requires Accounted(counts, g, pools, r, heaps) && x in g.ord && x in g.st && x in g.home && g.st[x] == Slab(h)
    ensures OwnedBy(g, pools, x, h)
    ensures Accounted(counts, Put(g, x, Held), pools, r, heaps)
  {
    hide Balanced;
    assert InPlace(g, pools, x);
    AtHomePut(g, pools, x, Held);
    BalancedMove(counts, g, pools, x, Held);
  }

  lemma ChargeCached(counts: map<nat, int>, g: Ground, pools: Pools, r: set<nat>, heaps: set<nat>, x: nat, h: nat)
    requires Accounted(counts, g, pools, r, heaps) && x in g.ord && x in g.st && x in g.home && g.st[x] == Slab(h)
    ensures Accounted(Charge(counts, h, SizeAt(g, x)), Put(g, x, Live), pools, r, heaps)
  {
    hide Balanced, Pow2;
    assert InPlace(g, pools, x);
    AtHomePut(g, pools, x, Live);
    BalancedCharge(counts, g, pools, x, h, Live);
  }

  /** From the list of its owner, split, and handed out. */
  lemma ChargeListed(counts: map<nat, int>, g0: Ground, g: Ground, pools: Pools, r: set<nat>, heaps: set<nat>, x: nat,
                     h: nat)
    requires Accounted(counts, g0, pools, r, heaps) && x in g0.st && x in g0.home && g0.st[x] == Free(h)
    requires SameUsed(g0, g) && x in g.home && g.home[x] == g0.home[x] && Grown(Put(g0, x, Held), g, h, g.home[x])
    requires g.ord.Keys == g.st.Keys == g.home.Keys && HeldAt(g, x)
    ensures Accounted(Charge(counts, h, SizeAt(g, x)), Put(g, x, Live), pools, r, heaps)
  {
    hide Balanced, Pow2, SameUsed, Grown;
    assert InPlace(g0, pools, x);
    GrownTaken(g0, x, Held, h, g.home[x]);
    GrownTrans(g0, Put(g0, x, Held), g, h, g.home[x]);
    KeepsExact(counts, g0, g, pools, r, heaps, h, g.home[x]);
    AtHomePut(g, pools, x, Live);
    BalancedCharge(counts, g, pools, x, h, Live);
  }

  /** A queued block's owner is another live heap. */
  lemma QueuedAway(counts: map<nat, int>, g: Ground, pools: Pools, r: set<nat>, heaps: set<nat>, x: nat, h: nat)
    requires Accounted(counts, g, pools, r, heaps) && x in g.st && x in g.home && g.st[x] == Foreign(h)
    ensures g.home[x] in pools && pools[g.home[x]].owner != h && pools[g.home[x]].owner in r
  {
    assert InPlace(g, pools, x);
  }

  lemma NewHeapBytes(counts: map<nat, int>, g: Ground, pools: Pools, r: set<nat>, heaps: set<nat>, h: nat)
    requires Accounted(counts, g, pools, r, heaps) && h !in heaps
    ensures Accounted(counts[h := 0], g, pools, r + {h}, heaps + {h})
  {
    hide AtHome;
    assert Charged(g, pools, h) == map[];
  }

  /** The region just received: its one block is in transit. */
  lemma FreshPoolBytes(m: Mem, counts: map<nat, int>, r: set<nat>, b: nat, p: Pool)
    requires Settled(m) && Unused(m.pools, b, p.order) && POOL_ORDER <= p.order <= MAX_ORDER
    requires Accounted(counts, m.g, m.pools, r, m.avail.Keys) && p.owner in m.avail
    ensures Accounted(counts, WithPool(m.g, b, p.order), m.pools[b := p], r, m.avail.Keys)
  {
    hide Sound, HeadersOK, NothingHeld, Unused, AtHome, Balanced, WithPool, SameUsed;
    SettledParts(m);
    SoundTiles(m);
    NewPoolKeeps(m.g, m.pools, b, p);
    KeysAgree(m);
    ReceivedOnly(m, b, p);
    HomesArePools(m);
    NewPoolBytes(counts, m.g, m.pools, b, p);
    AtHomeWith(m.g, m.pools[b := p], b, p.order);
    BalancedSame(counts, m.g, WithPool(m.g, b, p.order), m.pools[b := p]);
  }

  lemma HomesArePools(m: Mem)
    requires Sound(m)
    ensures forall x :: x in m.g.home ==> m.g.home[x] in m.pools
  {
    hide Books, HeapsOK, Canonical, Pow2, Tiled, PoolsOK;
  }

  lemma AtHomeWith(g: Ground, pools: Pools, b: nat, k: nat)
    requires AtHome(g, pools)
    ensures AtHome(WithPool(g, b, k), pools)
  {
    var u := WithPool(g, b, k);
    forall x | x in u.st && x in u.home
      ensures InPlace(u, pools, x)
    {
      assert x != b && x in g.st && x in g.home ==> InPlace(g, pools, x);
    }
  }

  /** The region cut onto its owner's lists, the block left at its base the header. */
  lemma PoolBytes(m: Mem, counts: map<nat, int>, r: set<nat>, g1: Ground, b: nat, h: nat)
    requires Sound(m) && b in m.pools && m.pools[b].owner == h && HeldAt(m.g, b)
    requires Accounted(counts, g1, m.pools, r, m.avail.Keys) && SameUsed(g1, m.g) && Grown(g1, m.g, h, b)
    ensures Accounted(counts, Put(m.g, b, Header), m.pools, r, m.avail.Keys)
  {
    hide Sound, AtHome, Balanced, SameUsed, Grown;
    KeysAgree(m);
    KeepsExact(counts, g1, m.g, m.pools, r, m.avail.Keys, h, b);
    AtHomePut(m.g, m.pools, b, Header);
    BalancedMove(counts, m.g, m.pools, b, Header);
  }
}
