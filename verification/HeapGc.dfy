/** Giving oversized pools back to the system: a pool goes only when the bytes found
    free in it leave room for nothing but its header. */
module HeapGc {
  import opened Tiles
  import opened FreeLists
  import opened HeapModel
  import opened HeapSteps
  import opened HeapBytes
  import opened HeapMerge
  import opened HeapReturn
  import opened Heap
  import opened Sums

  const REGISTRY_SIZE: nat := 1024

  /** On a free list or in a slab cache of heap `h`. */
  ghost predicate Idle(g: Ground, h: nat, x: nat) { x in g.st && (g.st[x] == HeapModel.Free(h) || g.st[x] == Slab(h)) }

  ghost predicate AllIdle(g: Ground, pools: Pools, b: nat, h: nat)
    requires b in pools
  {
    forall x :: x in g.ord && b < x < b + Pow2(pools[b].order) ==> Idle(g, h, x)
  }

  // ----- counting -----

  ghost function Idles(g: Ground, h: nat, lo: nat, hi: nat): Weights {
    map x | x in g.ord && lo <= x < hi && Idle(g, h, x) :: Pow2(g.ord[x])
  }

  ghost function Others(g: Ground, h: nat, lo: nat, hi: nat): Weights {
    map x | x in g.ord && lo <= x < hi && !Idle(g, h, x) :: Pow2(g.ord[x])
  }

  lemma IdleOrNot(g: Ground, h: nat, lo: nat, hi: nat)
    ensures Sum(TileSizes(g.ord, lo, hi)) == Sum(Idles(g, h, lo, hi)) + Sum(Others(g, h, lo, hi))
  {
    hide Sum, Pow2;
    assert TileSizes(g.ord, lo, hi) == Idles(g, h, lo, hi) + Others(g, h, lo, hi);
    SumJoin(Idles(g, h, lo, hi), Others(g, h, lo, hi));
  }

  /** The header is never idle; if something else is not, more than the header is missing. */
  lemma MoreThanHeader(g: Ground, h: nat, lo: nat, hi: nat)
    requires lo < hi && lo in g.ord && g.ord[lo] == ORDER_MIN && !Idle(g, h, lo)
    ensures Sum(Others(g, h, lo, hi)) >= Pow2(ORDER_MIN)
    ensures Sum(Others(g, h, lo, hi)) == Pow2(ORDER_MIN) <==> forall x :: x in g.ord && lo < x < hi ==> Idle(g, h, x)
  {
    hide Sum, Pow2, Idle;
    var m := Others(g, h, lo, hi);
    SumTake(m, lo);
    if x :| x in g.ord && lo < x < hi && !Idle(g, h, x) {
      SumTake(m - {lo}, x);
    } else {
      assert m - {lo} == map[];
      NoSum();
    }
  }

  lemma NoSum()
    ensures Sum(map[]) == 0
  {
  }

  lemma WholePool(g: Ground, pools: Pools, b: nat)
    requires TilesOK(g, pools) && HeadersOK(g, pools) && b in pools
    ensures Sum(TileSizes(g.ord, b, b + Pow2(pools[b].order))) == Pow2(pools[b].order) >= Pow2(ORDER_MIN)
    ensures b in g.ord && g.ord[b] == ORDER_MIN && b in g.st && g.st[b] == Header
  {
    hide Pow2, Tiled, Sum, TileSizes, PoolsOK, HeadersOK, InPool;
    TilesFill(g.ord, b, pools[b].order);
    PoolsHead(g, pools, b);
    Pow2Monotone(ORDER_MIN, pools[b].order);
  }

  lemma PoolsHead(g: Ground, pools: Pools, b: nat)
    requires TilesOK(g, pools) && HeadersOK(g, pools) && b in pools
    ensures b in g.ord && g.ord[b] == ORDER_MIN <= pools[b].order && b in g.st && g.st[b] == Header
  {
    hide Tiled, InPool;
  }

  /** The count that decides: the idle bytes of a pool reach its capacity without the
      header exactly when every other block of it is idle. */
  lemma FullMeansIdle(g: Ground, pools: Pools, b: nat, h: nat)
    requires TilesOK(g, pools) && HeadersOK(g, pools) && b in pools
    ensures Sum(Idles(g, h, b, b + Pow2(pools[b].order))) >= Pow2(pools[b].order) - Pow2(ORDER_MIN) <==>
            AllIdle(g, pools, b, h)
  {
    hide Pow2, TilesOK, HeadersOK, Sum, Idles, Others, TileSizes;
    var hi := b + Pow2(pools[b].order);
    WholePool(g, pools, b);
    IdleOrNot(g, h, b, hi);
    MoreThanHeader(g, h, b, hi);
  }

  ghost function Within(s: seq<nat>, lo: nat, hi: nat, size: nat): Weights {
    map x | x in s && lo <= x < hi :: size
  }

  lemma {:induction false} BytesInSum(s: seq<nat>, lo: nat, hi: nat, size: nat)
    requires Distinct(s)
    ensures BytesIn(s, lo, hi, size) == Sum(Within(s, lo, hi, size))
  {
    hide Sum, Within;
    if s == [] {
      WithinNone(lo, hi, size);
      NoSum();
    } else {
      BytesInSum(s[..|s| - 1], lo, hi, size);
      WithinNext(s, lo, hi, size);
    }
  }

  lemma WithinNone(lo: nat, hi: nat, size: nat)
    ensures Within([], lo, hi, size) == map[]
  {
  }

  lemma WithinNext(s: seq<nat>, lo: nat, hi: nat, size: nat)
    requires s != [] && Distinct(s)
    ensures var init, last := s[..|s| - 1], s[|s| - 1];
            Sum(Within(s, lo, hi, size)) == Sum(Within(init, lo, hi, size)) + if lo <= last < hi then size else 0
  {
    hide Sum;
    var init, last := s[..|s| - 1], s[|s| - 1];
    assert s == init + [last] && last !in init;
    if lo <= last < hi {
      assert Within(s, lo, hi, size) == Within(init, lo, hi, size)[last := size];
      SumPut(Within(init, lo, hi, size), last, size);
    } else {
      assert Within(s, lo, hi, size) == Within(init, lo, hi, size);
    }
  }

  ghost function ListedBelow(g: Ground, h: nat, lo: nat, hi: nat, o: nat): Weights {
    map x | x in g.ord && lo <= x < hi && x in g.st && g.st[x] == HeapModel.Free(h) && g.ord[x] < o :: Pow2(g.ord[x])
  }

  ghost function CachedBelow(g: Ground, h: nat, lo: nat, hi: nat, o: nat): Weights {
    map x | x in g.ord && lo <= x < hi && x in g.st && g.st[x] == Slab(h) && g.ord[x] < o :: Pow2(g.ord[x])
  }

  lemma ListFacts(m: Mem, h: nat, o: nat)
    requires Settled(m) && Head(h, o) in m.lists
    ensures Distinct(m.lists[Head(h, o)]) && forall x :: x in m.lists[Head(h, o)] <==> IsFree(m.g, x, h, o)
  {
    hide TilesOK, HeadersOK, NothingHeld, Canonical, SlabsOK, ForeignOK, AvailOK, BytesOK, HeapsOK;
  }

  lemma StackIs(m: Mem, h: nat, i: nat)
    requires Settled(m) && h in m.slabs && i < SLAB_ORDERS
    ensures |m.slabs[h]| == SLAB_ORDERS && Distinct(m.slabs[h][i])
    ensures forall x :: x in m.slabs[h][i] <==> IsSlab(m.g, x, h, ORDER_MIN + i)
  {
    hide TilesOK, HeadersOK, NothingHeld, Canonical, ListsOK, ForeignOK, AvailOK, BytesOK, HeapsOK;
  }

  /** One more list counted. */
  lemma ListStep(m: Mem, h: nat, lo: nat, hi: nat, o: nat)
    requires Settled(m) && Head(h, o) in m.lists
    ensures Sum(ListedBelow(m.g, h, lo, hi, o + 1)) ==
            Sum(ListedBelow(m.g, h, lo, hi, o)) + BytesIn(m.lists[Head(h, o)], lo, hi, Pow2(o))
  {
    hide Settled, Sum, Pow2, BytesIn;
    var s := m.lists[Head(h, o)];
    ListFacts(m, h, o);
    BytesInSum(s, lo, hi, Pow2(o));
    assert ListedBelow(m.g, h, lo, hi, o + 1) == ListedBelow(m.g, h, lo, hi, o) + Within(s, lo, hi, Pow2(o));
    SumJoin(ListedBelow(m.g, h, lo, hi, o), Within(s, lo, hi, Pow2(o)));
  }

  lemma StackStep(m: Mem, h: nat, lo: nat, hi: nat, i: nat)
    requires Settled(m) && h in m.slabs && i < SLAB_ORDERS
    ensures |m.slabs[h]| == SLAB_ORDERS
    ensures Sum(CachedBelow(m.g, h, lo, hi, ORDER_MIN + i + 1)) ==
            Sum(CachedBelow(m.g, h, lo, hi, ORDER_MIN + i)) + BytesIn(m.slabs[h][i], lo, hi, Pow2(ORDER_MIN + i))
  {
    hide Settled, Sum, Pow2, BytesIn;
    var o := ORDER_MIN + i;
    StackIs(m, h, i);
    var s := m.slabs[h][i];
    BytesInSum(s, lo, hi, Pow2(o));
    assert CachedBelow(m.g, h, lo, hi, o + 1) == CachedBelow(m.g, h, lo, hi, o) + Within(s, lo, hi, Pow2(o));
    SumJoin(CachedBelow(m.g, h, lo, hi, o), Within(s, lo, hi, Pow2(o)));
  }

  lemma OrdersBounded(m: Mem, x: nat)
    requires Settled(m) && x in m.g.ord
    ensures x in m.g.st && ORDER_MIN <= m.g.ord[x] <= MAX_ORDER
    ensures m.g.st[x].Slab? ==> m.g.ord[x] < ORDER_MIN + SLAB_ORDERS
  {
    hide Sound;
    SettledParts(m);
    OrderBound(m, x);
    SlabsOf(m);
  }

  lemma CountStart(m: Mem, h: nat, lo: nat, hi: nat)
    requires Settled(m)
    ensures Sum(ListedBelow(m.g, h, lo, hi, ORDER_MIN)) == 0 && Sum(CachedBelow(m.g, h, lo, hi, ORDER_MIN)) == 0
  {
    hide Settled, Sum, Pow2;
    forall x | x in m.g.ord
      ensures m.g.ord[x] >= ORDER_MIN
    {
      OrdersBounded(m, x);
    }
    assert ListedBelow(m.g, h, lo, hi, ORDER_MIN) == map[] && CachedBelow(m.g, h, lo, hi, ORDER_MIN) == map[];
    NoSum();
  }

  lemma CountEnd(m: Mem, h: nat, lo: nat, hi: nat)
    requires Settled(m)
    ensures Sum(Idles(m.g, h, lo, hi)) ==
            Sum(ListedBelow(m.g, h, lo, hi, MAX_ORDER + 1)) + Sum(CachedBelow(m.g, h, lo, hi, ORDER_MIN + SLAB_ORDERS))
  {
    hide Settled, Sum, Pow2;
    var a, c := ListedBelow(m.g, h, lo, hi, MAX_ORDER + 1), CachedBelow(m.g, h, lo, hi, ORDER_MIN + SLAB_ORDERS);
    forall x | x in m.g.ord
      ensures m.g.ord[x] <= MAX_ORDER && x in m.g.st && (m.g.st[x].Slab? ==> m.g.ord[x] < ORDER_MIN + SLAB_ORDERS)
    {
      OrdersBounded(m, x);
    }
    assert Idles(m.g, h, lo, hi) == a + c;
    SumJoin(a, c);
  }

  /** A queued block inside the pool is not idle. */
  lemma QueuedNotIdle(m: Mem, b: nat, h: nat, k: nat, x: nat)
    requires Settled(m) && b in m.pools && k in m.foreign && x in m.foreign[k] && b <= x < b + Pow2(m.pools[b].order)
    ensures !AllIdle(m.g, m.pools, b, h)
  {
    hide TilesOK, Canonical, ListsOK, SlabsOK, AvailOK, BytesOK, HeapsOK, Pow2, NothingHeld;
    assert IsForeign(m.g, x, k);
    assert x != b;
  }

  // ----- the scan -----

  method CountListed(a: Allocator, h: nat, lo: nat, hi: nat) returns (n: nat)
    requires a.Valid() && h in a.avail
    ensures n == Sum(ListedBelow(a.g, h, lo, hi, MAX_ORDER + 1))
  {
    hide Settled, Linked, Sum, ListedBelow, Pow2;
    ghost var m := a.Now();
    CountStart(m, h, lo, hi);
    n := 0;
    var o := ORDER_MIN;
    while o <= MAX_ORDER
      invariant ORDER_MIN <= o <= MAX_ORDER + 1 && n == Sum(ListedBelow(m.g, h, lo, hi, o))
    {
      HasList(m, h, o) by { SettledParts(m); }
      var more := a.fl.BytesWithin(Head(h, o), lo, hi, Pow2(o));
      ListStep(m, h, lo, hi, o);
      n := n + more;
      o := o + 1;
    }
  }

  method CountCached(a: Allocator, h: nat, lo: nat, hi: nat) returns (n: nat)
    requires a.Valid() && h in a.avail
    ensures n == Sum(CachedBelow(a.g, h, lo, hi, ORDER_MIN + SLAB_ORDERS))
  {
    hide Settled, Linked, Sum, CachedBelow, Pow2;
    ghost var m := a.Now();
    CountStart(m, h, lo, hi);
    StackFacts(m, h);
    n := 0;
    var i := 0;
    while i < SLAB_ORDERS
      invariant 0 <= i <= SLAB_ORDERS && n == Sum(CachedBelow(m.g, h, lo, hi, ORDER_MIN + i))
    {
      var stack, j := a.slabs[h][i], 0;
      ghost var n0 := n;
      while j < |stack|
        invariant 0 <= j <= |stack| && n == n0 + BytesIn(stack[..j], lo, hi, Pow2(ORDER_MIN + i))
      {
        if lo <= stack[j] < hi { n := n + Pow2(ORDER_MIN + i); }
        assert stack[..j + 1][..j] == stack[..j];
        j := j + 1;
      }
      assert stack[..j] == stack;
      StackStep(m, h, lo, hi, i);
      i := i + 1;
    }
  }

  /** Whether any other registered heap has a block of the region queued. */
  method QueuedElsewhere(a: Allocator, h: nat, lo: nat, hi: nat) returns (found: bool)
    requires a.Valid()
    ensures found <==> exists k ::
              k in a.registry && k < REGISTRY_SIZE && k != h && k in a.foreign && HasWithin(a.foreign[k], lo, hi)
  {
    hide Settled, Linked, HasWithin;
    ghost var m := a.Now();
    found := false;
    var k := 0;
    while k < REGISTRY_SIZE && !found
      invariant k <= REGISTRY_SIZE
      invariant !found ==> forall j: nat :: j < k && j in a.registry && j != h && j in a.foreign ==>
                  !HasWithin(a.foreign[j], lo, hi)
      invariant found ==> exists j ::
                  j in a.registry && j < REGISTRY_SIZE && j != h && j in a.foreign && HasWithin(a.foreign[j], lo, hi)
    {
      if k in a.registry && k != h {
        HasTables(m, k) by { SettledParts(m); }
        found := AnyWithin(a.foreign[k], lo, hi);
      }
      k := k + 1;
    }
  }

  method AnyWithin(s: seq<nat>, lo: nat, hi: nat) returns (found: bool)
    ensures found == HasWithin(s, lo, hi)
  {
    hide HasWithin;
    HasNone(lo, hi);
    var j := 0;
    while j < |s|
      invariant 0 <= j <= |s| && !HasWithin(s[..j], lo, hi)
    {
      HasNext(s, j, lo, hi);
      if lo <= s[j] < hi {
        HasMore(s, j + 1, lo, hi);
        return true;
      }
      j := j + 1;
    }
    assert s[..j] == s;
    found := false;
  }

  lemma HasMore(s: seq<nat>, i: nat, lo: nat, hi: nat)
    requires i <= |s| && HasWithin(s[..i], lo, hi)
    ensures HasWithin(s, lo, hi)
  {
    var x :| x in s[..i] && lo <= x < hi;
    assert x in s;
  }

  /** The verdict of the count on the pool at `b`. */
  lemma CountTells(m: Mem, h: nat, b: nat)
    requires Settled(m) && b in m.pools
    ensures var k := m.pools[b].order;
            var hi := b + Pow2(k);
            var found := Sum(ListedBelow(m.g, h, b, hi, MAX_ORDER + 1))
              + Sum(CachedBelow(m.g, h, b, hi, ORDER_MIN + SLAB_ORDERS));
            found >= Pow2(k) - Pow2(ORDER_MIN) <==> AllIdle(m.g, m.pools, b, h)
  {
    hide Sound, Sum, ListedBelow, CachedBelow, Idles, Pow2, AllIdle, TilesOK, HeadersOK, NothingHeld;
    CountEnd(m, h, b, b + Pow2(m.pools[b].order));
    SoundTiles(m);
    FullMeansIdle(m.g, m.pools, b, h);
  }

  /** The test before a pool is given up: all the bytes its heap has free or cached in
      it, against its capacity; and no block of it in another heap's queue. The count
      alone already tells whether everything but the header is idle. */
  method OnlyIdle(a: Allocator, h: nat, b: nat) returns (r: bool)
    requires a.Valid() && h in a.avail && b in a.pools
    ensures r == AllIdle(a.g, a.pools, b, h)
  {
    hide Settled, Linked, Sum, ListedBelow, CachedBelow, Pow2, AllIdle, HasWithin;
    var hi := b + Pow2(a.pools[b].order);
    var capacity := Pow2(a.pools[b].order) - Pow2(ORDER_MIN);
    var listed := CountListed(a, h, b, hi);
    var cached := CountCached(a, h, b, hi);
    var queued := QueuedElsewhere(a, h, b, hi);
    CountTells(a.Now(), h, b);
    if queued { QueuedSomewhere(a.Now(), a.registry, b, h, hi); }
    r := !(listed + cached < capacity || queued);
  }

  lemma QueuedSomewhere(m: Mem, registry: set<nat>, b: nat, h: nat, hi: nat)
    requires Settled(m) && b in m.pools && hi == b + Pow2(m.pools[b].order)
    requires exists k ::
               k in registry && k < REGISTRY_SIZE && k != h && k in m.foreign && HasWithin(m.foreign[k], b, hi)
    ensures !AllIdle(m.g, m.pools, b, h)
  {
    hide Settled, AllIdle, Pow2;
    var k :| k in registry && k < REGISTRY_SIZE && k != h && k in m.foreign && HasWithin(m.foreign[k], b, hi);
    var x :| x in m.foreign[k] && b <= x < hi;
    QueuedNotIdle(m, b, h, k, x);
  }

  // ----- giving a pool up -----

  function WithoutPool(g: Ground, lo: nat, hi: nat): Ground {
    Ground(map x | x in g.ord && !(lo <= x < hi) :: g.ord[x],
           map x | x in g.st && !(lo <= x < hi) :: g.st[x],
           map x | x in g.home && !(lo <= x < hi) :: g.home[x])
  }

  ghost function End(pools: Pools, b: nat): nat
    requires b in pools
  {
    b + Pow2(pools[b].order)
  }

  lemma GoneTiles(g: Ground, pools: Pools, b: nat)
    requires TilesOK(g, pools) && b in pools
    ensures TilesOK(WithoutPool(g, b, End(pools, b)), pools - {b})
  {
    hide Pow2, Tiled;
    var u, ps := WithoutPool(g, b, End(pools, b)), pools - {b};
    forall c | c in ps
      ensures Tiled(u.ord, c, ps[c].order)
    {
      GoneOthers(g, pools, b, c);
    }
  }

  lemma GoneCanonical(g: Ground, pools: Pools, b: nat)
    requires TilesOK(g, pools) && b in pools && Canonical(g, pools)
    requires TilesOK(WithoutPool(g, b, End(pools, b)), pools - {b})
    ensures Canonical(WithoutPool(g, b, End(pools, b)), pools - {b})
  {
    hide Pow2, Tiled, BuddyOf, PoolsOK;
    var u, ps := WithoutPool(g, b, End(pools, b)), pools - {b};
    forall x, y | x in u.ord && y in u.ord && u.ord[x] < ps[u.home[x]].order
      ensures !FreeBuddies(u, x, y)
    {
      assert !FreeBuddies(g, x, y);
    }
  }

  lemma GoneOthers(g: Ground, pools: Pools, b: nat, c: nat)
    requires TilesOK(g, pools) && b in pools && c in pools && c != b
    ensures Tiled(WithoutPool(g, b, End(pools, b)).ord, c, pools[c].order)
  {
    hide Pow2, Tiled;
    TiledFrame(g.ord, WithoutPool(g, b, End(pools, b)).ord, c, pools[c].order);
  }

  /** Blocks inside the pool: the header, or idle with heap `h`. */
  ghost predicate Clear(g: Ground, lo: nat, hi: nat, h: nat) {
    forall x :: x in g.ord && x in g.st && lo <= x < hi ==> g.st[x] == Header || Idle(g, h, x)
  }

  lemma ClearPool(m: Mem, b: nat, h: nat)
    requires Settled(m) && b in m.pools && AllIdle(m.g, m.pools, b, h)
    ensures Clear(m.g, b, End(m.pools, b), h)
  {
    hide Sound, Pow2, NothingHeld;
  }

  /** The lists of heap `h` below order `n` without the blocks of the region. */
  ghost predicate Swept(l0: Lists, l: Lists, h: nat, lo: nat, hi: nat, n: nat) {
    && l.Keys == l0.Keys
    && forall nd :: nd in l0 ==>
         l[nd] == if nd.Head? && nd.heap == h && ORDER_MIN <= nd.order < n then Outside(l0[nd], lo, hi) else l0[nd]
  }

  lemma GoneLists(l0: Lists, l: Lists, g: Ground, h: nat, lo: nat, hi: nat)
    requires ListsOK(l0, g) && Swept(l0, l, h, lo, hi, MAX_ORDER + 1) && Clear(g, lo, hi, h)
    requires forall x :: x in g.ord ==> ORDER_MIN <= g.ord[x] <= MAX_ORDER
    ensures ListsOK(l, WithoutPool(g, lo, hi))
  {
    hide Outside;
    var u := WithoutPool(g, lo, hi);
    forall nd | nd in l
      ensures Distinct(l[nd])
    {
      OutsideMembers(l0[nd], lo, hi);
    }
    forall k, o, x | Head(k, o) in l
      ensures x in l[Head(k, o)] <==> IsFree(u, x, k, o)
    {
      OutsideMembers(l0[Head(k, o)], lo, hi);
      assert x in l0[Head(k, o)] <==> IsFree(g, x, k, o);
    }
    forall x | x in u.ord && x in u.st && u.st[x].Free?
      ensures Head(u.st[x].h, u.ord[x]) in l
    {
      assert x in g.ord && x in g.st;
    }
  }

  ghost predicate SweptStacks(s0: Slabs, s: Slabs, h: nat, lo: nat, hi: nat, n: nat) {
    && s.Keys == s0.Keys && h in s0 && |s[h]| == |s0[h]| == SLAB_ORDERS
    && (forall k :: k in s0 && k != h ==> s[k] == s0[k])
    && forall i: nat :: i < SLAB_ORDERS ==> s[h][i] == if i < n then Outside(s0[h][i], lo, hi) else s0[h][i]
  }

  lemma GoneSlabs(s0: Slabs, s: Slabs, g: Ground, h: nat, lo: nat, hi: nat)
    requires SlabsOK(s0, g) && SweptStacks(s0, s, h, lo, hi, SLAB_ORDERS) && Clear(g, lo, hi, h)
    ensures SlabsOK(s, WithoutPool(g, lo, hi))
  {
    hide Outside;
    var u := WithoutPool(g, lo, hi);
    forall k, i | k in s && 0 <= i < SLAB_ORDERS
      ensures |s[k][i]| <= SLAB_CACHE && Distinct(s[k][i])
      ensures forall x :: x in s[k][i] <==> IsSlab(u, x, k, ORDER_MIN + i)
    {
      OutsideMembers(s0[k][i], lo, hi);
      assert forall x :: x in s0[k][i] <==> IsSlab(g, x, k, ORDER_MIN + i);
    }
  }

  lemma GoneForeign(q: Queues, g: Ground, h: nat, lo: nat, hi: nat)
    requires ForeignOK(q, g) && Clear(g, lo, hi, h)
    ensures ForeignOK(q, WithoutPool(g, lo, hi))
  {
    var u := WithoutPool(g, lo, hi);
    forall k, x | k in q
      ensures x in q[k] <==> IsForeign(u, x, k)
    {
      assert x in q[k] <==> IsForeign(g, x, k);
    }
  }

  /** A heap drops the bit of an order only when its list of it is empty. */
  ghost predicate BitsKept(a0: map<nat, set<nat>>, a: map<nat, set<nat>>, l: Lists, h: nat) {
    && a.Keys == a0.Keys && h in a0 && a[h] <= a0[h]
    && (forall k :: k in a0 && k != h ==> a[k] == a0[k])
    && forall o :: o in a0[h] && Head(h, o) in l && l[Head(h, o)] != [] ==> o in a[h]
  }

  lemma GoneAvail(m: Mem, avail: map<nat, set<nat>>, l: Lists, h: nat, lo: nat, hi: nat, n: nat)
    requires AvailOK(m.avail, m.lists) && Swept(m.lists, l, h, lo, hi, n) && BitsKept(m.avail, avail, l, h)
    ensures AvailOK(avail, l)
  {
    hide Outside;
    forall k, o | Head(k, o) in l
      ensures k in avail && (l[Head(k, o)] != [] ==> o in avail[k])
    {
      OutsideMembers(m.lists[Head(k, o)], lo, hi);
      if l[Head(k, o)] != [] { assert l[Head(k, o)][0] in l[Head(k, o)]; }
    }
  }

  function SwapRemoved(t: seq<nat>, p: nat): seq<nat>
    requires p < |t|
  {
    t[p := t[|t| - 1]][..|t| - 1]
  }

  /** The last entry takes the place of the removed one; nothing else changes. */
  lemma SwapMembers(t: seq<nat>, p: nat)
    requires p < |t| && Distinct(t)
    ensures Distinct(SwapRemoved(t, p)) && forall x :: x in SwapRemoved(t, p) <==> x in t && x != t[p]
  {
    var u := SwapRemoved(t, p);
    forall x | x in t && x != t[p]
      ensures x in u
    {
      var i :| 0 <= i < |t| && t[i] == x;
      assert u[if i == |t| - 1 then p else i] == x;
    }
  }

  function Unmapped(m: Mem, h: nat, p: nat, lists: Lists, avail: map<nat, set<nat>>, slabs: Slabs): Mem
    requires h in m.tracked && p < |m.tracked[h]| && m.tracked[h][p] in m.pools
  {
    var b := m.tracked[h][p];
    m.(lists := lists, avail := avail, slabs := slabs, tracked := m.tracked[h := SwapRemoved(m.tracked[h], p)],
       pools := m.pools - {b}, g := WithoutPool(m.g, b, b + Pow2(m.pools[b].order)))
  }

  /** Everything that must hold of what was swept before a pool is given up. */
  ghost predicate ReadyToGo(m: Mem, h: nat, p: nat, lists: Lists, avail: map<nat, set<nat>>, slabs: Slabs) {
    && h in m.tracked && h in m.avail && p < |m.tracked[h]| && m.tracked[h][p] in m.pools
    && var b := m.tracked[h][p];
       && AllIdle(m.g, m.pools, b, h)
       && Swept(m.lists, lists, h, b, End(m.pools, b), MAX_ORDER + 1)
       && SweptStacks(m.slabs, slabs, h, b, End(m.pools, b), SLAB_ORDERS)
       && BitsKept(m.avail, avail, lists, h)
  }

  lemma UnmappedBooks(m: Mem, h: nat, p: nat, lists: Lists, avail: map<nat, set<nat>>, slabs: Slabs)
    requires Settled(m) && ReadyToGo(m, h, p, lists, avail, slabs)
    ensures Books(Unmapped(m, h, p, lists, avail, slabs))
  {
    hide ListsOK, SlabsOK, ForeignOK, AvailOK, TilesOK, Canonical, HeapsOK, NothingHeld, HeadersOK,
      AllIdle, Clear, Swept, SweptStacks, BitsKept, Pow2;
    var b := m.tracked[h][p];
    ClearPool(m, b, h);
    forall x | x in m.g.ord
      ensures ORDER_MIN <= m.g.ord[x] <= MAX_ORDER
    {
      OrdersBounded(m, x);
    }
    GoneLists(m.lists, lists, m.g, h, b, End(m.pools, b));
    GoneSlabs(m.slabs, slabs, m.g, h, b, End(m.pools, b));
    GoneForeign(m.foreign, m.g, h, b, End(m.pools, b));
    GoneAvail(m, avail, lists, h, b, End(m.pools, b), MAX_ORDER + 1);
  }

  lemma UnmappedHeaps(m: Mem, h: nat, p: nat, lists: Lists, avail: map<nat, set<nat>>, slabs: Slabs)
    requires HeapsOK(m) && TablesApart(m.tracked) && ReadyToGo(m, h, p, lists, avail, slabs)
    ensures HeapsOK(Unmapped(m, h, p, lists, avail, slabs))
    ensures TablesApart(Unmapped(m, h, p, lists, avail, slabs).tracked)
  {
    hide AllIdle, Pow2, Outside, SwapRemoved;
    var b := m.tracked[h][p];
    SwapMembers(m.tracked[h], p);
    SwapShorter(m.tracked[h], p);
    var t := m.tracked[h := SwapRemoved(m.tracked[h], p)];
    assert t.Keys == m.tracked.Keys;
    forall k, c | k in t && c in t[k]
      ensures c in m.pools - {b}
    {
      assert c in m.tracked[k] && b in m.tracked[h];
    }
  }

  lemma SwapShorter(t: seq<nat>, p: nat)
    requires p < |t|
    ensures |SwapRemoved(t, p)| == |t| - 1
    ensures forall q: nat :: q < p && q < |t| - 1 ==> SwapRemoved(t, p)[q] == t[q]
  {
  }

  lemma UnmappedHeaders(m: Mem, h: nat, p: nat, lists: Lists, avail: map<nat, set<nat>>, slabs: Slabs)
    requires Settled(m) && ReadyToGo(m, h, p, lists, avail, slabs)
    ensures var u := Unmapped(m, h, p, lists, avail, slabs);
            && HeadersOK(u.g, u.pools) && NothingHeld(u.g) && LiveBlocks(u.g) == LiveBlocks(m.g)
  {
    hide Sound, HeadersOK, Swept, SweptStacks, BitsKept, Pow2, AllIdle, Clear, LiveBlocks, NothingHeld, WithoutPool;
    var b := m.tracked[h][p];
    ClearPool(m, b, h);
    GoneHeaders(m, b);
    GoneLive(m.g, h, b, End(m.pools, b));
  }

  lemma GoneLive(g: Ground, h: nat, lo: nat, hi: nat)
    requires Clear(g, lo, hi, h)
    ensures LiveBlocks(WithoutPool(g, lo, hi)) == LiveBlocks(g)
    ensures NothingHeld(g) ==> NothingHeld(WithoutPool(g, lo, hi))
  {
  }

  lemma GoneHeaders(m: Mem, b: nat)
    requires Settled(m) && b in m.pools
    ensures HeadersOK(WithoutPool(m.g, b, End(m.pools, b)), m.pools - {b})
  {
    hide Sound, NothingHeld, Pow2, End;
    BasesApart(m, b);
    var u := WithoutPool(m.g, b, End(m.pools, b));
    forall x | x in u.st && u.st[x] == Header
      ensures x in m.pools && x != b
    {
    }
  }

  lemma BasesApart(m: Mem, b: nat)
    requires Sound(m) && b in m.pools
    ensures b < End(m.pools, b) && forall c :: c in m.pools && c != b ==> !(b <= c < End(m.pools, b))
  {
    hide Books, Canonical, HeapsOK, Pow2, Tiled;
  }

  /** The pool is gone, its blocks with it; every other block is where it was. */
  lemma UnmappedKeeps(m: Mem, h: nat, p: nat, lists: Lists, avail: map<nat, set<nat>>, slabs: Slabs)
    requires Settled(m) && TablesApart(m.tracked) && ReadyToGo(m, h, p, lists, avail, slabs)
    ensures var u := Unmapped(m, h, p, lists, avail, slabs);
            Settled(u) && TablesApart(u.tracked) && LiveBlocks(u.g) == LiveBlocks(m.g)
  {
    hide Books, TilesOK, Canonical, HeapsOK, NothingHeld, HeadersOK, ReadyToGo, Pow2, TablesApart, LiveBlocks,
         WithoutPool;
    UnmappedParts(m, h, p, lists, avail, slabs);
    UnmappedBooks(m, h, p, lists, avail, slabs);
    UnmappedHeaps(m, h, p, lists, avail, slabs);
    UnmappedHeaders(m, h, p, lists, avail, slabs);
    GoneTiles(m.g, m.pools, m.tracked[h][p]);
    if m.calm { GoneCanonical(m.g, m.pools, m.tracked[h][p]); }
  }

  lemma UnmappedParts(m: Mem, h: nat, p: nat, lists: Lists, avail: map<nat, set<nat>>, slabs: Slabs)
    requires ReadyToGo(m, h, p, lists, avail, slabs)
    ensures h in m.tracked && p < |m.tracked[h]| && m.tracked[h][p] in m.pools
  {
  }

  /** No counter is touched: nothing in the pool was charged to anyone. */
  lemma UnmappedBytes(m: Mem, counts: map<nat, int>, r: set<nat>, h: nat, b: nat)
    requires Settled(m) && b in m.pools && AllIdle(m.g, m.pools, b, h)
    requires Accounted(counts, m.g, m.pools, r, m.avail.Keys)
    ensures Accounted(counts, WithoutPool(m.g, b, End(m.pools, b)), m.pools - {b}, r, m.avail.Keys)
  {
    hide Sound, HeadersOK, NothingHeld, AllIdle, Pow2;
    ClearPool(m, b, h);
    HomeOrRange(m, b);
    GoneBytes(m.g, m.pools, counts, b, End(m.pools, b), h);
  }

  lemma HomeOrRange(m: Mem, b: nat)
    requires Settled(m) && b in m.pools
    ensures m.g.ord.Keys == m.g.st.Keys == m.g.home.Keys
    ensures forall x :: x in m.g.ord ==> (m.g.home[x] == b <==> b <= x < End(m.pools, b))
  {
    hide Sound, HeadersOK, NothingHeld, Pow2;
    SettledParts(m);
    KeysAgree(m);
    forall x | x in m.g.ord
      ensures m.g.home[x] == b <==> b <= x < End(m.pools, b)
    {
      HomeFacts(m, x);
    }
  }

  lemma GoneBytes(g: Ground, pools: Pools, counts: map<nat, int>, b: nat, hi: nat, h: nat)
    requires Clear(g, b, hi, h) && g.ord.Keys == g.st.Keys == g.home.Keys
    requires forall x :: x in g.ord ==> (g.home[x] == b <==> b <= x < hi)
    ensures Balanced(counts, g, pools) ==> Balanced(counts, WithoutPool(g, b, hi), pools - {b})
    ensures AtHome(g, pools) ==> AtHome(WithoutPool(g, b, hi), pools - {b})
  {
    hide Charged, WithoutPool, Clear;
    forall k
      ensures Charged(WithoutPool(g, b, hi), pools - {b}, k) == Charged(g, pools, k)
    {
      GoneCharged(g, pools, b, hi, h, k);
    }
    if AtHome(g, pools) { GoneAtHome(g, pools, b, hi); }
  }

  lemma GoneCharged(g: Ground, pools: Pools, b: nat, hi: nat, h: nat, k: nat)
    requires Clear(g, b, hi, h) && g.ord.Keys == g.st.Keys == g.home.Keys
    requires forall x :: x in g.ord ==> (g.home[x] == b <==> b <= x < hi)
    ensures Charged(WithoutPool(g, b, hi), pools - {b}, k) == Charged(g, pools, k)
  {
    hide Pow2;
  }

  lemma GoneAtHome(g: Ground, pools: Pools, b: nat, hi: nat)
    requires AtHome(g, pools) && g.ord.Keys == g.st.Keys == g.home.Keys
    requires forall x :: x in g.ord ==> (g.home[x] == b <==> b <= x < hi)
    ensures AtHome(WithoutPool(g, b, hi), pools - {b})
  {
    var u, ps := WithoutPool(g, b, hi), pools - {b};
    forall x | x in u.st && x in u.home
      ensures InPlace(u, ps, x)
    {
      assert InPlace(g, pools, x);
    }
  }

  // ----- the sweep -----

  /** Unlinks the pool's blocks from every list of its heap; a list emptied so gives up
      its bit. */
  method SweepLists(a: Allocator, h: nat, lo: nat, hi: nat)
    requires a.Valid() && h in a.avail
    modifies a`avail, a.fl
    ensures a.fl.Valid() && Swept(old(a.fl.lists), a.fl.lists, h, lo, hi, MAX_ORDER + 1)
    ensures BitsKept(old(a.avail), a.avail, a.fl.lists, h)
  {
    hide Settled, Linked, Outside, HasWithin, Swept, BitsKept;
    ghost var m := a.Now();
    SweepStart(m.lists, m.avail, h, lo, hi);
    var o := ORDER_MIN;
    while o <= MAX_ORDER
      invariant ORDER_MIN <= o <= MAX_ORDER + 1 && a.fl.Valid() && a.avail.Keys == m.avail.Keys
      invariant Swept(m.lists, a.fl.lists, h, lo, hi, o)
      invariant BitsKept(m.avail, a.avail, a.fl.lists, h)
    {
      ListThere(m, a.fl.lists, h, lo, hi, o);
      ghost var lists, avail := a.fl.lists, a.avail;
      var any := a.fl.RemoveWithin(Head(h, o), lo, hi);
      var empty := a.fl.IsEmpty(Head(h, o));
      if any && empty { a.avail := a.avail[h := a.avail[h] - {o}]; }
      SweepStep(m.lists, lists, m.avail, avail, h, lo, hi, o, any && empty);
      o := o + 1;
    }
  }

  lemma SweepStart(l: Lists, a: map<nat, set<nat>>, h: nat, lo: nat, hi: nat)
    requires h in a
    ensures Swept(l, l, h, lo, hi, ORDER_MIN) && BitsKept(a, a, l, h)
  {
  }

  lemma ListThere(m: Mem, l: Lists, h: nat, lo: nat, hi: nat, o: nat)
    requires Settled(m) && h in m.avail && o <= MAX_ORDER && Swept(m.lists, l, h, lo, hi, o)
    ensures Head(h, o) in m.lists && Head(h, o) in l && l[Head(h, o)] == m.lists[Head(h, o)]
  {
    hide Settled;
    HasList(m, h, o) by { SettledParts(m); }
  }

  lemma SweepStep(l0: Lists, l: Lists, a0: map<nat, set<nat>>, a: map<nat, set<nat>>, h: nat, lo: nat, hi: nat,
                  o: nat, clear: bool)
    requires Swept(l0, l, h, lo, hi, o) && BitsKept(a0, a, l, h) && o >= ORDER_MIN
    requires Head(h, o) in l && (clear ==> Outside(l[Head(h, o)], lo, hi) == [])
    ensures h in a
    ensures var u := l[Head(h, o) := Outside(l[Head(h, o)], lo, hi)];
            && Swept(l0, u, h, lo, hi, o + 1)
            && BitsKept(a0, if clear then a[h := a[h] - {o}] else a, u, h)
  {
    hide Outside;
    OutsideLength(l[Head(h, o)], lo, hi);
    var b := if clear then a[h := a[h] - {o}] else a;
    assert b.Keys == a.Keys;
  }

  lemma OutsideLength(s: seq<nat>, lo: nat, hi: nat)
    ensures Outside(s, lo, hi) != [] ==> s != []
  {
  }

  /** Packs each slab stack of the heap over the entries of the pool. */
  method SweepStacks(a: Allocator, h: nat, lo: nat, hi: nat)
    requires h in a.slabs && |a.slabs[h]| == SLAB_ORDERS
    modifies a`slabs
    ensures SweptStacks(old(a.slabs), a.slabs, h, lo, hi, SLAB_ORDERS)
  {
    hide Outside, Settled, Linked;
    var i := 0;
    while i < SLAB_ORDERS
      invariant 0 <= i <= SLAB_ORDERS && SweptStacks(old(a.slabs), a.slabs, h, lo, hi, i)
    {
      var stack := a.slabs[h][i];
      var kept := Packed(stack, lo, hi);
      a.slabs := a.slabs[h := a.slabs[h][i := kept]];
      i := i + 1;
    }
  }

  method Packed(stack: seq<nat>, lo: nat, hi: nat) returns (kept: seq<nat>)
    ensures kept == Outside(stack, lo, hi)
  {
    hide Outside;
    kept := [];
    OutsideNone(lo, hi);
    var j := 0;
    while j < |stack|
      invariant 0 <= j <= |stack| && kept == Outside(stack[..j], lo, hi)
    {
      OutsideNext(stack, j, lo, hi);
      if !(lo <= stack[j] < hi) { kept := kept + [stack[j]]; }
      j := j + 1;
    }
    assert stack[..j] == stack;
  }

  lemma OutsideNone(lo: nat, hi: nat)
    ensures Outside([], lo, hi) == []
  {
  }

  /** Every trace of [lo, hi) off the lists and out of the caches of heap `h`. */
  method SweepPool(a: Allocator, h: nat, lo: nat, hi: nat)
    requires a.Valid() && h in a.avail
    modifies a`avail, a`slabs, a.fl
    ensures a.fl.Valid() && Swept(old(a.fl.lists), a.fl.lists, h, lo, hi, MAX_ORDER + 1)
            && a.avail.Keys == old(a.avail).Keys
    ensures BitsKept(old(a.avail), a.avail, a.fl.lists, h)
    ensures h in old(a.slabs) && SweptStacks(old(a.slabs), a.slabs, h, lo, hi, SLAB_ORDERS)
  {
    hide Settled, Linked, Swept, BitsKept, SweptStacks;
    StackFacts(a.Now(), h);
    ghost var avail := a.avail;
    SweepLists(a, h, lo, hi);
    SweepStacks(a, h, lo, hi);
    BitKeys(avail, a.avail, a.fl.lists, h);
  }

  /** Gives up the pool in entry `p` of heap `h`'s table. */
  method Unmap(a: Allocator, h: nat, p: nat)
    requires a.Valid() && TablesApart(a.tracked) && h in a.avail && h in a.tracked && p < |a.tracked[h]|
    requires a.tracked[h][p] in a.pools && AllIdle(a.g, a.pools, a.tracked[h][p], h)
    modifies a`avail, a`slabs, a`tracked, a`pools, a`g, a.fl
    ensures a.Valid() && TablesApart(a.tracked) && a.avail.Keys == old(a.avail).Keys
    ensures h in old(a.tracked) && p < |old(a.tracked)[h]| && old(a.tracked)[h][p] in old(a.pools)
    ensures a.tracked == old(a.tracked)[h := SwapRemoved(old(a.tracked)[h], p)]
    ensures a.pools == old(a.pools) - {old(a.tracked)[h][p]}
    ensures a.g == WithoutPool(old(a.g), old(a.tracked)[h][p], End(old(a.pools), old(a.tracked)[h][p]))
    ensures LiveBlocks(a.g) == LiveBlocks(old(a.g)) && (old(a.Exact()) ==> a.Exact())
  {
    hide Settled, Linked, LiveBlocks, Pow2, AllIdle, Swept, SweptStacks, BitsKept, Accounted, WithoutPool, TablesApart;
    ghost var m := a.Now();
    var b := a.tracked[h][p];
    var hi := b + Pow2(a.pools[b].order);
    SweepPool(a, h, b, hi);
    UnmappedKeeps(m, h, p, a.fl.lists, a.avail, a.slabs);
    if old(a.Exact()) { UnmappedBytes(m, a.bytes, a.registry, h, b); }
    a.pools := a.pools - {b};
    a.tracked := a.tracked[h := SwapRemoved(a.tracked[h], p)];
    a.g := WithoutPool(a.g, b, hi);
  }

  lemma BitKeys(a0: map<nat, set<nat>>, a: map<nat, set<nat>>, l: Lists, h: nat)
    requires BitsKept(a0, a, l, h)
    ensures a.Keys == a0.Keys
  {
  }

  // ----- all tables -----

  ghost predicate SameAt(g: Ground, u: Ground, x: nat) {
    && (x in g.ord <==> x in u.ord) && (x in g.ord ==> u.ord[x] == g.ord[x])
    && (x in g.st <==> x in u.st) && (x in g.st ==> u.st[x] == g.st[x])
    && (x in g.home <==> x in u.home) && (x in g.home ==> u.home[x] == g.home[x])
  }

  /** An oversized pool with nothing but idle blocks. */
  ghost predicate Spare(m: Mem, h: nat, b: nat) {
    b in m.pools && m.pools[b].order > POOL_ORDER && AllIdle(m.g, m.pools, b, h)
  }

  ghost predicate SpareOfSome(m: Mem, b: nat) { exists h :: InTable(m.tracked, h, b) && Spare(m, h, b) }

  ghost predicate InTable(tracked: map<nat, seq<nat>>, h: nat, b: nat) { h in tracked && b in tracked[h] }

  /** From `m` to `n` some spare pools have gone; nothing else has moved, and the tables
      list what they did, less the pools that went. */
  ghost predicate Gave(m: Mem, n: Mem) {
    && (forall b :: b in n.pools ==> b in m.pools && n.pools[b] == m.pools[b])
    && (forall b :: b in m.pools && b !in n.pools ==> SpareOfSome(m, b))
    && (forall x :: x in m.g.home && m.g.home[x] in n.pools ==> SameAt(m.g, n.g, x))
    && (forall x :: x in n.g.home ==> x in m.g.home && SameAt(m.g, n.g, x))
    && n.foreign == m.foreign && LiveBlocks(n.g) == LiveBlocks(m.g)
    && n.tracked.Keys == m.tracked.Keys
    && (forall h: nat, b: nat :: InTable(n.tracked, h, b) <==> InTable(m.tracked, h, b) && b in n.pools)
    && (forall h :: h in m.tracked && m.tracked[h] != [] ==> n.tracked[h] != [])
  }

  /** No pool of the table can be given up, or it is the last one. */
  ghost predicate NoneLeft(m: Mem, h: nat) {
    h in m.tracked && (|m.tracked[h]| <= 1 || forall q: nat :: q < |m.tracked[h]| ==> !Spare(m, h, m.tracked[h][q]))
  }

  lemma GaveRefl(m: Mem)
    requires HeapsOK(m)
    ensures Gave(m, m)
  {
    hide LiveBlocks, SpareOfSome;
    assert forall h: nat, b: nat :: InTable(m.tracked, h, b) ==> b in m.pools;
  }

  /** Giving up other pools does not make a pool spare. */
  lemma SpareBack(m: Mem, n: Mem, h: nat, b: nat)
    requires Settled(m) && Gave(m, n) && Spare(n, h, b)
    ensures Spare(m, h, b)
  {
    hide Settled, LiveBlocks, Pow2, SpareOfSome;
    HomeOrRange(m, b);
    forall x | x in m.g.ord && b < x < b + Pow2(m.pools[b].order)
      ensures Idle(m.g, h, x)
    {
      assert SameAt(m.g, n.g, x);
    }
  }

  lemma GaveTrans(m: Mem, n: Mem, w: Mem)
    requires Settled(m) && Gave(m, n) && Gave(n, w)
    ensures Gave(m, w)
  {
    hide Settled, LiveBlocks, SpareOfSome, SameAt;
    forall b | b in m.pools && b !in w.pools
      ensures SpareOfSome(m, b)
    {
      if b in n.pools { SpareBefore(m, n, b); }
    }
    forall x | x in m.g.home && m.g.home[x] in w.pools
      ensures SameAt(m.g, w.g, x)
    {
      SameAtTrans(m.g, n.g, w.g, x);
    }
    forall x | x in w.g.home
      ensures x in m.g.home && SameAt(m.g, w.g, x)
    {
      SameAtTrans(m.g, n.g, w.g, x);
    }
    forall h: nat, b: nat
      ensures InTable(w.tracked, h, b) <==> InTable(m.tracked, h, b) && b in w.pools
    {
      assert InTable(n.tracked, h, b) <==> InTable(m.tracked, h, b) && b in n.pools;
    }
  }

  lemma SameAtTrans(g: Ground, u: Ground, w: Ground, x: nat)
    ensures SameAt(g, u, x) && SameAt(u, w, x) ==> SameAt(g, w, x)
    ensures SameAt(g, u, x) && x in g.home ==> x in u.home && u.home[x] == g.home[x]
  {
  }

  lemma SpareBefore(m: Mem, n: Mem, b: nat)
    requires Settled(m) && Gave(m, n) && SpareOfSome(n, b) && b in n.pools
    ensures SpareOfSome(m, b)
  {
    hide Settled, Spare, LiveBlocks;
    var h :| InTable(n.tracked, h, b) && Spare(n, h, b);
    SpareBack(m, n, h, b);
    assert InTable(m.tracked, h, b);
  }

  /** A table that was gone through stays so while other tables are. */
  lemma NoneLeftKept(m: Mem, n: Mem, h: nat)
    requires Settled(m) && Gave(m, n) && NoneLeft(m, h) && h in n.tracked && n.tracked[h] == m.tracked[h]
    ensures NoneLeft(n, h)
  {
    hide Settled, Gave, Spare;
    forall q: nat | q < |n.tracked[h]| && Spare(n, h, n.tracked[h][q])
      ensures Spare(m, h, m.tracked[h][q])
    {
      SpareBack(m, n, h, n.tracked[h][q]);
    }
  }

  /** One pool given up. */
  lemma GaveOne(m: Mem, n: Mem, h: nat, p: nat)
    requires Settled(m) && TablesApart(m.tracked) && h in m.tracked && p < |m.tracked[h]| && |m.tracked[h]| > 1
    requires m.tracked[h][p] in m.pools && Spare(m, h, m.tracked[h][p])
    requires n.tracked == m.tracked[h := SwapRemoved(m.tracked[h], p)] && n.pools == m.pools - {m.tracked[h][p]}
    requires n.g == WithoutPool(m.g, m.tracked[h][p], End(m.pools, m.tracked[h][p]))
    requires n.foreign == m.foreign && LiveBlocks(n.g) == LiveBlocks(m.g)
    ensures Gave(m, n)
  {
    hide Sound, HeadersOK, NothingHeld, LiveBlocks, Spare, End, SwapRemoved;
    var b := m.tracked[h][p];
    assert InTable(m.tracked, h, b) && SpareOfSome(m, b);
    HomeOrRange(m, b);
    SwapMembers(m.tracked[h], p);
    SwapShorter(m.tracked[h], p);
    assert n.tracked.Keys == m.tracked.Keys;
    forall k: nat, c: nat
      ensures InTable(n.tracked, k, c) <==> InTable(m.tracked, k, c) && c in n.pools
    {
      if k in m.tracked { TrackedArePools(m, k) by { TablesThere(m, k); } }
    }
  }

  lemma TablesThere(m: Mem, k: nat)
    requires Settled(m) && k in m.tracked
    ensures Sound(m) && k in m.avail
  {
    hide TilesOK, Books, Canonical, HeadersOK, NothingHeld;
  }

  /** Gives up every spare pool of one heap's table, but never its last pool; the entry
      swapped into a freed place is looked at in its turn. */
  method ReclaimTable(a: Allocator, h: nat)
    requires a.Valid() && TablesApart(a.tracked) && h in a.avail
    modifies a`avail, a`slabs, a`tracked, a`pools, a`g, a.fl
    ensures a.Valid() && TablesApart(a.tracked) && a.avail.Keys == old(a.avail).Keys
    ensures Gave(old(a.Now()), a.Now()) && NoneLeft(a.Now(), h) && (old(a.Exact()) ==> a.Exact())
    ensures forall k :: k in a.tracked && k != h ==> k in old(a.tracked) && a.tracked[k] == old(a.tracked)[k]
  {
    hide Settled, Linked, Accounted, TablesApart, Gave, Spare, Pow2, LiveBlocks;
    ghost var m := a.Now();
    HasTables(m, h) by { SettledParts(m); }
    GaveRefl(m) by { SettledHeaps(m); }
    var p := 0;
    while p < |a.tracked[h]|
      invariant a.Valid() && TablesApart(a.tracked) && a.avail.Keys == old(a.avail).Keys && h in a.tracked
      invariant 0 <= p <= |a.tracked[h]| && Gave(m, a.Now()) && (old(a.Exact()) ==> a.Exact())
      invariant forall k :: k in a.tracked && k != h ==> k in m.tracked && a.tracked[k] == m.tracked[k]
      invariant |a.tracked[h]| <= 1 || forall q: nat :: q < p ==> !Spare(a.Now(), h, a.tracked[h][q])
      decreases |a.tracked[h]| - p
    {
      p := ReclaimEntry(a, h, p, m);
    }
  }

  lemma SettledHeaps(m: Mem)
    requires Settled(m)
    ensures HeapsOK(m)
  {
  }

  /** One entry: passed over, or given up. */
  method ReclaimEntry(a: Allocator, h: nat, p: nat, ghost m: Mem) returns (next: nat)
    requires a.Valid() && TablesApart(a.tracked) && h in a.avail && h in a.tracked && p < |a.tracked[h]|
    requires Settled(m) && Gave(m, a.Now())
    requires |a.tracked[h]| <= 1 || forall q: nat :: q < p ==> !Spare(a.Now(), h, a.tracked[h][q])
    modifies a`avail, a`slabs, a`tracked, a`pools, a`g, a.fl
    ensures a.Valid() && TablesApart(a.tracked) && a.avail.Keys == old(a.avail).Keys && h in a.tracked
            && h in old(a.tracked)
    ensures Gave(m, a.Now()) && (old(a.Exact()) ==> a.Exact())
    ensures forall k :: k in a.tracked && k != h ==> k in old(a.tracked) && a.tracked[k] == old(a.tracked)[k]
    ensures next <= |a.tracked[h]| && |a.tracked[h]| - next == |old(a.tracked)[h]| - p - 1
    ensures |a.tracked[h]| <= 1 || forall q: nat :: q < next ==> !Spare(a.Now(), h, a.tracked[h][q])
  {
    hide Settled, Linked, Accounted, TablesApart, Gave, AllIdle, Pow2, LiveBlocks, SwapRemoved, WithoutPool;
    ghost var m1 := a.Now();
    TrackedArePools(m1, h) by { SettledParts(m1); }
    var b := a.tracked[h][p];
    if a.pools[b].order <= POOL_ORDER || |a.tracked[h]| <= 1 { return p + 1; }
    var idle := OnlyIdle(a, h, b);
    if !idle { return p + 1; }
    Unmap(a, h, p);
    GaveOne(m1, a.Now(), h, p);
    EarlierEntries(m1, a.Now(), h, p);
    GaveTrans(m, m1, a.Now());
    next := p;
  }

  lemma EarlierEntries(m: Mem, n: Mem, h: nat, p: nat)
    requires Settled(m) && Gave(m, n) && h in m.tracked && p < |m.tracked[h]|
    requires n.tracked == m.tracked[h := SwapRemoved(m.tracked[h], p)]
    requires forall q: nat :: q < p ==> !Spare(m, h, m.tracked[h][q])
    ensures |n.tracked[h]| == |m.tracked[h]| - 1
    ensures forall q: nat :: q < p && q < |n.tracked[h]| ==> !Spare(n, h, n.tracked[h][q])
  {
    hide Settled, Gave, Spare, SwapRemoved;
    SwapShorter(m.tracked[h], p);
    forall q: nat | q < p && q < |n.tracked[h]| && Spare(n, h, n.tracked[h][q])
      ensures Spare(m, h, m.tracked[h][q])
    {
      SpareBack(m, n, h, n.tracked[h][q]);
    }
  }

  /** ray_heap_gc, the reclaiming of oversized pools: the tables of all registered heaps. */
  method ReclaimPools(a: Allocator)
    requires a.Valid() && TablesApart(a.tracked)
    modifies a`avail, a`slabs, a`tracked, a`pools, a`g, a.fl
    ensures a.Valid() && TablesApart(a.tracked) && a.avail.Keys == old(a.avail).Keys
    ensures Gave(old(a.Now()), a.Now()) && (old(a.Exact()) ==> a.Exact())
    ensures forall h: nat :: h < REGISTRY_SIZE && h in a.registry ==> NoneLeft(a.Now(), h)
  {
    hide Settled, Linked, Accounted, TablesApart, Gave, NoneLeft;
    ghost var m := a.Now();
    GaveRefl(m) by { SettledHeaps(m); }
    var h := 0;
    while h < REGISTRY_SIZE
      invariant 0 <= h <= REGISTRY_SIZE && a.Valid() && TablesApart(a.tracked) && a.avail.Keys == old(a.avail).Keys
      invariant Gave(m, a.Now()) && (old(a.Exact()) ==> a.Exact())
      invariant forall k: nat :: k < h && k in a.registry ==> NoneLeft(a.Now(), k)
    {
      if h in a.registry {
        ghost var n := a.Now();
        ReclaimTable(a, h);
        GaveTrans(m, n, a.Now());
        OthersKept(n, a.Now(), a.registry, h);
      }
      h := h + 1;
    }
  }

  lemma OthersKept(m: Mem, n: Mem, registry: set<nat>, h: nat)
    requires Settled(m) && Gave(m, n) && forall k: nat :: k < h && k in registry ==> NoneLeft(m, k)
    requires forall k :: k in n.tracked && k != h ==> k in m.tracked && n.tracked[k] == m.tracked[k]
    ensures forall k: nat :: k < h && k in registry ==> NoneLeft(n, k)
  {
    hide Settled, Spare, SpareOfSome, LiveBlocks;
    forall k: nat | k < h && k in registry
      ensures NoneLeft(n, k)
    {
      assert NoneLeft(m, k);
      NoneLeftKept(m, n, k);
    }
  }

  // ----- empty caches -----

  /** Nothing is cached by heap `h`: its stacks are empty, and no block is marked as cached. */
  ghost predicate NoneCached(m: Mem, h: nat) {
    && h in m.slabs && m.slabs[h] == [[], [], [], [], []]
    && forall x :: x in m.g.st ==> m.g.st[x] != Slab(h)
  }

  lemma StackMarks(m: Mem, h: nat)
    requires Settled(m) && h in m.slabs
    ensures |m.slabs[h]| == SLAB_ORDERS && m.g.st.Keys == m.g.ord.Keys
    ensures forall i, x :: 0 <= i < SLAB_ORDERS && x in m.slabs[h][i] ==> x in m.g.st && m.g.st[x] == Slab(h)
    ensures forall x :: x in m.g.st && m.g.st[x] == Slab(h) ==>
              ORDER_MIN <= m.g.ord[x] < ORDER_MIN + SLAB_ORDERS && x in m.slabs[h][m.g.ord[x] - ORDER_MIN]
  {
    hide TilesOK, Canonical, ListsOK, BytesOK, AvailOK, HeapsOK, HeadersOK, NothingHeld, ForeignOK;
    KeysAgree(m);
    forall i, x | 0 <= i < SLAB_ORDERS && x in m.slabs[h][i]
      ensures x in m.g.st && m.g.st[x] == Slab(h)
    {
      assert IsSlab(m.g, x, h, ORDER_MIN + i);
    }
    forall x | x in m.g.st && m.g.st[x] == Slab(h)
      ensures ORDER_MIN <= m.g.ord[x] < ORDER_MIN + SLAB_ORDERS && x in m.slabs[h][m.g.ord[x] - ORDER_MIN]
    {
      var i := m.g.ord[x] - ORDER_MIN;
      assert IsSlab(m.g, x, h, ORDER_MIN + i);
    }
  }

  lemma FirstMarked(m: Mem, h: nat, i: nat)
    requires Settled(m) && h in m.slabs && i < SLAB_ORDERS && i < |m.slabs[h]| && m.slabs[h][i] != []
    ensures exists x :: x in m.g.st && m.g.st[x] == Slab(h)
  {
    hide Settled;
    StackMarks(m, h);
    var x := m.slabs[h][i][0];
    assert x in m.slabs[h][i];
    assert x in m.g.st && m.g.st[x] == Slab(h);
  }

  /** The stacks and the marks agree. */
  lemma CachesAgree(m: Mem, h: nat)
    requires Settled(m) && h in m.slabs
    ensures m.slabs[h] == [[], [], [], [], []] <==> NoneCached(m, h)
    ensures (forall x :: x in m.g.st ==> m.g.st[x] != Slab(h)) <==> NoneCached(m, h)
  {
    hide Settled;
    if m.slabs[h] == [[], [], [], [], []] {
      assert forall i :: 0 <= i < SLAB_ORDERS ==> |m.slabs[h][i]| == 0;
      StackMarks(m, h);
    } else {
      assert |m.slabs[h]| == SLAB_ORDERS by { StackMarks(m, h); }
      var i: nat :| i < SLAB_ORDERS && m.slabs[h][i] != [];
      FirstMarked(m, h, i);
    }
  }

  lemma MarkedBlocks(m: Mem)
    requires Settled(m)
    ensures m.g.st.Keys == m.g.home.Keys
  {
    hide Sound, HeadersOK, NothingHeld;
    KeysAgree(m);
  }

  /** Giving up pools caches nothing. */
  lemma GaveCaches(m: Mem, n: Mem, h: nat)
    requires Settled(m) && Settled(n) && Gave(m, n) && NoneCached(m, h) && h in n.slabs
    ensures NoneCached(n, h)
  {
    hide Settled, LiveBlocks, SpareOfSome;
    MarkedBlocks(m);
    MarkedBlocks(n);
    CachesAgree(n, h);
  }

  /** ray_heap_gc: queued blocks back to their owners, caches emptied, and, unless workers
      are running, listed blocks back to their owners too and spare pools to the system.
      `m` is the state in which the walks over the lists start; `kept` says that they kept
      to their lists, and otherwise where they lost them. */
  method Collect(a: Allocator, h: nat) returns (kept: bool, ghost m: Mem, ghost at: nat, ghost order: nat)
    requires a.Valid() && TablesApart(a.tracked) && h in a.avail
    modifies a`rc, a`order, a`avail, a`slabs, a`foreign, a`g, a`bytes, a`tracked, a`pools, a.fl
    ensures a.Valid() && TablesApart(a.tracked) && a.avail.Keys == old(a.avail).Keys
    ensures LiveBlocks(a.g) == LiveBlocks(old(a.g)) && (old(a.Exact()) ==> a.Exact())
    ensures h in old(a.foreign) && a.foreign == if a.parallel then old(a.foreign) else old(a.foreign)[h := []]
    ensures h in a.slabs && a.slabs[h] == [[], [], [], [], []] && forall x :: x in a.g.st ==> a.g.st[x] != Slab(h)
    ensures forall k :: NoneCached(old(a.Now()), k) ==> NoneCached(a.Now(), k)
    ensures h in old(a.slabs)
    ensures old(a.slabs)[h] == [[], [], [], [], []] && old(a.foreign)[h] == [] ==> m == old(a.Now())
    ensures Settled(m) && h in m.avail && a.registry <= m.avail.Keys
    ensures kept <==> a.parallel || Walks(m, h, a.registry, ORDER_MIN).Some?
    ensures a.calm || NoPair(m, h, a.registry) || (old(a.Exact()) && Complete(old(a.pools), old(a.tracked))) ==> kept
    ensures !kept ==> Astray(a.Now(), h, a.registry, at, order)
    ensures Complete(old(a.pools), old(a.tracked)) ==> Complete(a.pools, a.tracked)
    ensures forall b :: b in old(a.pools) && b !in a.pools ==> !a.parallel && old(a.pools)[b].order > POOL_ORDER
    ensures forall b :: b in a.pools ==> b in old(a.pools) && a.pools[b] == old(a.pools)[b]
    ensures kept && !a.parallel ==> forall k: nat :: k < REGISTRY_SIZE && k in a.registry ==> NoneLeft(a.Now(), k)
  {
    hide Settled, Linked, Accounted, TablesApart, NoneLeft, LiveBlocks, Walks, NoPair, Astray, Complete;
    var safe := !a.parallel;
    FlushOwn(a, h, safe);
    m := a.Now();
    kept, at, order := true, 0, 0;
    if safe { kept, at, order := ReturnAndReclaim(a, h); }
    assert NoneCached(a.Now(), h);
  }

  /** The queue, if that is safe, and the caches. */
  method FlushOwn(a: Allocator, h: nat, safe: bool)
    requires a.Valid() && h in a.avail
    modifies a`rc, a`order, a`avail, a`slabs, a`foreign, a`g, a`bytes, a.fl
    ensures a.Valid() && a.avail.Keys == old(a.avail).Keys
    ensures LiveBlocks(a.g) == LiveBlocks(old(a.g)) && (old(a.Exact()) ==> a.Exact())
    ensures h in old(a.foreign) && a.foreign == if safe then old(a.foreign)[h := []] else old(a.foreign)
    ensures h in old(a.slabs) && a.slabs == old(a.slabs)[h := [[], [], [], [], []]]
    ensures NoneCached(a.Now(), h) && forall k :: NoneCached(old(a.Now()), k) ==> NoneCached(a.Now(), k)
    ensures old(a.slabs)[h] == [[], [], [], [], []] && old(a.foreign)[h] == [] ==> a.Now() == old(a.Now())
  {
    hide Settled, Linked, Accounted, LiveBlocks;
    HasTables(a.Now(), h) by { SettledParts(a.Now()); }
    a.FlushForeign(h, safe);
    a.FlushSlabs(h);
    CachesStay(old(a.Now()), a.Now(), h);
  }

  lemma CachesStay(m: Mem, n: Mem, h: nat)
    requires Settled(m) && Settled(n) && h in n.slabs && n.slabs == m.slabs[h := [[], [], [], [], []]]
    ensures NoneCached(n, h) && forall k :: NoneCached(m, k) ==> NoneCached(n, k)
  {
    hide Settled;
    CachesAgree(n, h);
    forall k | NoneCached(m, k)
      ensures NoneCached(n, k)
    {
      CachesAgree(n, k);
    }
  }

  /** The phases for which the workers must be idle. */
  method ReturnAndReclaim(a: Allocator, h: nat) returns (kept: bool, ghost at: nat, ghost order: nat)
    requires a.Valid() && TablesApart(a.tracked) && h in a.avail && !a.parallel
    modifies a`rc, a`order, a`avail, a`slabs, a`g, a`tracked, a`pools, a.fl
    ensures a.Valid() && TablesApart(a.tracked) && a.avail.Keys == old(a.avail).Keys
    ensures LiveBlocks(a.g) == LiveBlocks(old(a.g)) && (old(a.Exact()) ==> a.Exact())
    ensures kept <==> Walks(old(a.Now()), h, a.registry, ORDER_MIN).Some?
    ensures a.calm || NoPair(old(a.Now()), h, a.registry) ==> kept
    ensures old(a.Exact()) && Complete(old(a.pools), old(a.tracked)) ==> kept
    ensures !kept ==> Astray(a.Now(), h, a.registry, at, order)
    ensures Complete(old(a.pools), old(a.tracked)) ==> Complete(a.pools, a.tracked)
    ensures forall k :: NoneCached(old(a.Now()), k) ==> NoneCached(a.Now(), k)
    ensures forall b :: b in old(a.pools) && b !in a.pools ==> old(a.pools)[b].order > POOL_ORDER
    ensures forall b :: b in a.pools ==> b in old(a.pools) && a.pools[b] == old(a.pools)[b]
    ensures kept ==> forall k: nat :: k < REGISTRY_SIZE && k in a.registry ==> NoneLeft(a.Now(), k)
  {
    hide Settled, Linked, Accounted, TablesApart, NoneLeft, LiveBlocks, Gave, Walks, NoPair, Astray, Away, Complete,
         NoneCached;
    ghost var m := a.Now();
    kept, at, order := ReturnForeign(a, h);
    if a.calm { CalmNoPair(m, h, a.registry); }
    SameCaches(m, a.Now());
    if !kept { return; }
    ghost var n := a.Now();
    ReclaimPools(a);
    GaveMeans(n, a.Now());
    AllGaveCaches(n, a.Now());
    if Complete(n.pools, n.tracked) { GaveComplete(n, a.Now()); }
  }

  lemma SameCaches(m: Mem, n: Mem)
    requires Settled(m) && Settled(n) && n.slabs == m.slabs
    ensures forall k :: NoneCached(m, k) ==> NoneCached(n, k)
  {
    hide Settled;
    forall k | NoneCached(m, k)
      ensures NoneCached(n, k)
    {
      CachesAgree(n, k);
    }
  }

  lemma AllGaveCaches(m: Mem, n: Mem)
    requires Settled(m) && Settled(n) && Gave(m, n) && n.avail.Keys == m.avail.Keys
    ensures forall k :: NoneCached(m, k) ==> NoneCached(n, k)
  {
    hide Settled, Gave;
    SettledHeaps(m);
    SettledHeaps(n);
    forall k | NoneCached(m, k)
      ensures NoneCached(n, k)
    {
      GaveCaches(m, n, k);
    }
  }

  lemma GaveComplete(m: Mem, n: Mem)
    requires Gave(m, n) && Complete(m.pools, m.tracked)
    ensures Complete(n.pools, n.tracked)
  {
    hide LiveBlocks, SameAt, SpareOfSome;
    forall b | b in n.pools
      ensures n.pools[b].owner in n.tracked && b in n.tracked[n.pools[b].owner]
    {
      assert InTable(m.tracked, n.pools[b].owner, b);
      assert InTable(n.tracked, n.pools[b].owner, b);
    }
  }

  /** What users see of it: no block in use or queued is touched, standard pools stay. */
  lemma GaveMeans(m: Mem, n: Mem)
    requires Gave(m, n)
    ensures n.foreign == m.foreign && LiveBlocks(n.g) == LiveBlocks(m.g)
    ensures forall b :: b in m.pools && b !in n.pools ==> m.pools[b].order > POOL_ORDER
    ensures forall b :: b in n.pools ==> b in m.pools && n.pools[b] == m.pools[b]
  {
    hide LiveBlocks, AllIdle;
  }
}
