/** A run that ends with a collection going astray: a heap is merged while the parallel
    flag is up, and two buddies of a third heap's pool stay apart on its lists. */
module HeapAstray {
  import opened Tiles
  import opened FreeLists
  import opened HeapModel
  import opened HeapSteps
  import opened HeapBytes
  import opened HeapMerge
  import opened HeapReturn
  import opened HeapPairs
  import opened HeapStale
  import opened Heap
  import opened HeapGc
  import opened Options

  const NO_SLABS: seq<seq<nat>> := [[], [], [], [], []]

  lemma SmallPowers()
    ensures Pow2(11) == 2048 && Pow2(12) == 4096 && Pow2(13) == 8192
  {
    assert Pow2(5) == 32;
    assert Pow2(10) == 1024;
    assert Pow2(12) == 2 * Pow2(11);
  }

  lemma OrderOf4000()
    ensures OrderForSize(4000) == 12
  {
    var r := OrderForSize(4000);
    SmallPowers();
    if r < 12 { Pow2Monotone(r, 11); }
    if r > 12 { Pow2Monotone(12, r - 1); }
  }

  ghost predicate Empty(m: Mem, h: nat) {
    && h in m.slabs && m.slabs[h] == NO_SLABS && h in m.foreign && m.foreign[h] == []
    && h in m.tracked && m.tracked[h] == []
  }

  /** Nothing is listed, cached, queued or tracked; there are heaps 0, 1 and 2. */
  ghost predicate ThreeHeaps(m: Mem) {
    HeapsUpTo(m, 3)
  }

  ghost predicate HeapsUpTo(m: Mem, k: nat) {
    && (forall h: nat :: h in m.avail <==> h < k) && (forall h: nat :: h in m.tracked <==> h < k)
    && (forall n :: n in m.lists ==> m.lists[n] == [])
    && (forall h: nat :: h < k ==> Empty(m, h))
    && m.pools == map[]
  }

  /** The lists of heap 2 of orders 12 and 13; no other heap lists anything. */
  ghost predicate Lists2(lists: Lists, l12: seq<nat>, l13: seq<nat>) {
    && Head(2, 12) in lists && lists[Head(2, 12)] == l12 && Head(2, 13) in lists && lists[Head(2, 13)] == l13
    && forall n :: n in lists && !(n.Head? && n.heap == 2) ==> lists[n] == []
  }

  lemma FirstDrawn(m: Mem, n: Mem, base: nat, v: nat)
    requires Settled(m) && ThreeHeaps(m) && Drawn(m, n, 2, 12, Some(base), v)
    ensures Lists2(n.lists, [], [base + 8192]) && n.pools == map[base := Pool(25, 2)]
            && n.tracked == m.tracked[2 := [base]]
  {
    hide Settled, Pow2, CascadeAdded;
    var s: Mem, found: nat :| DrawnVia(m, s, n, 2, 12, Some(base), v, found);
    assert Empty(m, 2) && m.tracked[2] + [base] == [base];
    assert PoolAdded(m, s, 2, 12, Some(base));
    SmallPowers();
    SettledParts(m);
    HasList(m, 2, 12);
    HasList(m, 2, 13);
    CutLists(m.lists, s.lists, n.lists, base, v, found);
  }

  lemma CutLists(l0: Lists, l1: Lists, l2: Lists, base: nat, v: nat, found: nat)
    requires (forall n :: n in l0 ==> l0[n] == []) && Head(2, 12) in l0 && Head(2, 13) in l0
    requires CascadeAdded(l0, l1, 2, base, ORDER_MIN, 25) && found >= 12
    requires forall o: nat :: 12 <= o < found ==> NothingListed(l1, 2, o)
    requires FromList(l1, l2, 2, v, 12, found)
    ensures Lists2(l2, [], [base + Pow2(13)])
  {
    hide Pow2;
    assert l1[Head(2, 12)] == [base + Pow2(12)];
    assert !NothingListed(l1, 2, 12);
  }

  lemma SecondDrawn(m: Mem, n: Mem, base: nat, v: nat)
    requires Lists2(m.lists, [], [base + 8192]) && Drawn(m, n, 2, 12, None, v)
    ensures v == base + 8192 && Lists2(n.lists, [base + 12288], []) && n.pools == m.pools && n.tracked == m.tracked
  {
    hide Pow2;
    var s: Mem, found: nat :| DrawnVia(m, s, n, 2, 12, None, v, found);
    SmallPowers();
    assert !NothingListed(s.lists, 2, 13);
    assert n.lists[Head(2, 12)] == [v + Pow2(12)] + [];
  }

  lemma ThirdDrawn(m: Mem, n: Mem, base: nat, v: nat)
    requires Lists2(m.lists, [base + 12288], []) && Drawn(m, n, 2, 12, None, v)
    ensures v == base + 12288 && Lists2(n.lists, [], []) && n.pools == m.pools && n.tracked == m.tracked
  {
    hide Pow2;
    var s: Mem, found: nat :| DrawnVia(m, s, n, 2, 12, None, v, found);
    assert !NothingListed(s.lists, 2, 12);
  }

  /** Two buddies of heap 2's pool queued by heap 1; nobody lists, caches or queues
      anything else but heap 2. */
  ghost predicate Queued(m: Mem, base: nat, x: nat, y: nat) {
    && Lists2(m.lists, [], []) && m.avail.Keys == {0, 1, 2} && m.pools == map[base := Pool(25, 2)]
    && 0 in m.slabs && m.slabs[0] == NO_SLABS && 1 in m.slabs && m.slabs[1] == NO_SLABS
    && 0 in m.foreign && m.foreign[0] == [] && 1 in m.foreign && m.foreign[1] == [y, x]
    && 0 in m.tracked && m.tracked[0] == [] && 1 in m.tracked && m.tracked[1] == []
    && x == base + 8192 && y == base + 12288 && x in m.g.ord && y in m.g.ord && m.g.ord[x] == m.g.ord[y] == 12
  }

  /** With whom the blocks are then. */
  lemma QueuedPlaces(m: Mem, base: nat, x: nat, y: nat, v: nat)
    requires Settled(m) && Queued(m, base, x, y) && v in m.g.st && v in m.g.ord
    ensures m.g.st[v] != HeapModel.Free(0) && m.g.st[v] != HeapModel.Free(1)
    ensures m.g.st[v] != Slab(0) && m.g.st[v] != Slab(1) && m.g.st[v] != Foreign(0)
    ensures m.g.st[v] == Foreign(1) <==> v == x || v == y
  {
    hide Pow2, TilesOK, HeadersOK, Canonical, BytesOK, AvailOK;
    assert forall i :: 0 <= i < SLAB_ORDERS ==> NO_SLABS[i] == [];
    if m.g.st[v].Free? { assert IsFree(m.g, v, m.g.st[v].h, m.g.ord[v]); }
    if m.g.st[v].Slab? {
      var i := m.g.ord[v] - ORDER_MIN;
      assert IsSlab(m.g, v, m.g.st[v].h, ORDER_MIN + i);
      assert v in m.slabs[m.g.st[v].h][i];
    }
    assert IsForeign(m.g, v, 0) <==> v in m.foreign[0];
    assert IsForeign(m.g, v, 1) <==> v in m.foreign[1];
  }

  /** The pair on the lists of heap 0, and nothing else with it. */
  ghost predicate LeftApart(m: Mem, base: nat, x: nat, y: nat) {
    && m.avail.Keys == {0, 1, 2} && m.pools == map[base := Pool(25, 2)] && 0 in m.tracked && m.tracked[0] == []
    && 0 in m.slabs && m.slabs[0] == NO_SLABS && 0 in m.foreign && m.foreign[0] == []
    && x == base + 8192 && y == base + 12288 && IsFree(m.g, x, 0, 12) && IsFree(m.g, y, 0, 12)
    && Head(0, 12) in m.lists && (m.lists[Head(0, 12)] == [x, y] || m.lists[Head(0, 12)] == [y, x])
  }

  /** What a merge with the flag up did to the places of blocks. */
  ghost predicate TookOver(m: Mem, n: Mem) {
    && Adopts(m.g, n.g, 1, 0) && n.foreign == m.foreign[1 := []] && n.pools == m.pools
    && n.avail.Keys == m.avail.Keys && 0 in n.tracked && n.tracked[0] == []
  }

  lemma PlacesAfter(m: Mem, n: Mem, base: nat, x: nat, y: nat, v: nat)
    requires Settled(m) && Settled(n) && Queued(m, base, x, y) && TookOver(m, n) && v in n.g.st && v in n.g.ord
    ensures n.g.st[v] == HeapModel.Free(0) <==> v == x || v == y
    ensures n.g.st[v] != Slab(0)
    ensures n.g.ord[v] == m.g.ord[v]
  {
    hide Settled, Pow2, Lists2;
    KeysAgree(m) by { SettledParts(m); }
    QueuedPlaces(m, base, x, y, v);
    if v == x || v == y {
      NotQueued(n, v);
      NotCached(n, v);
    }
  }

  lemma NotQueued(n: Mem, v: nat)
    requires Settled(n) && 1 in n.foreign && n.foreign[1] == [] && v in n.g.st && v in n.g.ord
    ensures n.g.st[v] != Foreign(1)
  {
    hide TilesOK, HeadersOK, Canonical, BytesOK, ListsOK, SlabsOK;
    assert IsForeign(n.g, v, 1) <==> v in n.foreign[1];
  }

  lemma NotCached(n: Mem, v: nat)
    requires Settled(n) && v in n.g.st && v in n.g.ord && n.g.ord[v] == 12
    ensures !n.g.st[v].Slab?
  {
    hide TilesOK, HeadersOK, Canonical, BytesOK, ListsOK, ForeignOK;
  }

  /** Only those two are on the list. */
  lemma PairListed(m: Mem, n: Mem, base: nat, x: nat, y: nat)
    requires Settled(m) && Settled(n) && Queued(m, base, x, y) && TookOver(m, n)
    ensures IsFree(n.g, x, 0, 12) && IsFree(n.g, y, 0, 12) && Head(0, 12) in n.lists
    ensures n.lists[Head(0, 12)] == [x, y] || n.lists[Head(0, 12)] == [y, x]
  {
    hide Settled, Pow2, Lists2;
    SettledParts(m);
    SettledParts(n);
    KeysAgree(m);
    KeysAgree(n);
    HasList(n, 0, 12);
    ListDistinct(n, Head(0, 12));
    PlacesAfter(m, n, base, x, y, x);
    PlacesAfter(m, n, base, x, y, y);
    var s := n.lists[Head(0, 12)];
    ListTold(n, 0, 12, x);
    ListTold(n, 0, 12, y);
    forall v: nat | v in s
      ensures v == x || v == y
    {
      ListTold(n, 0, 12, v);
      PlacesAfter(m, n, base, x, y, v);
    }
    TwoOnly(s, x, y);
  }

  lemma TwoOnly(s: seq<nat>, x: nat, y: nat)
    requires Distinct(s) && x in s && y in s && x != y && forall v: nat :: v in s ==> v == x || v == y
    ensures s == [x, y] || s == [y, x]
  {
    var i :| 0 <= i < |s| && s[i] == x;
    var j :| 0 <= j < |s| && s[j] == y;
    OneOf(s, x, y, i, j, 0);
    OneOf(s, x, y, i, j, 1);
    OneOf(s, x, y, i, j, 2);
  }

  lemma OneOf(s: seq<nat>, x: nat, y: nat, i: nat, j: nat, k: nat)
    requires Distinct(s) && i < |s| && j < |s| && s[i] == x && s[j] == y && forall v: nat :: v in s ==> v == x || v == y
    ensures k < |s| ==> k == i || k == j
  {
    if k < |s| { assert s[k] in s; }
  }

  lemma CachesEmpty(m: Mem, n: Mem, base: nat, x: nat, y: nat)
    requires Settled(m) && Settled(n) && Queued(m, base, x, y) && TookOver(m, n)
    ensures 0 in n.slabs && n.slabs[0] == NO_SLABS
  {
    hide Settled, Pow2, Lists2, Queued, TookOver;
    SettledParts(n);
    HeapsThere(m, n, base, x, y);
    StackFacts(n, 0);
    forall i: nat | i < SLAB_ORDERS
      ensures n.slabs[0][i] == []
    {
      if n.slabs[0][i] != [] {
        var v := n.slabs[0][i][0];
        CacheTold(n, 0, i, v);
        PlacesAfter(m, n, base, x, y, v);
      }
    }
  }

  lemma CacheTold(n: Mem, h: nat, i: nat, v: nat)
    requires Settled(n) && h in n.slabs && i < SLAB_ORDERS && i < |n.slabs[h]| && v in n.slabs[h][i]
    ensures v in n.g.ord && v in n.g.st && n.g.st[v] == Slab(h)
  {
    hide TilesOK, HeadersOK, Canonical, BytesOK, ListsOK, ForeignOK;
  }

  lemma HeapsThere(m: Mem, n: Mem, base: nat, x: nat, y: nat)
    requires Queued(m, base, x, y) && TookOver(m, n)
    ensures 0 in n.avail && 1 in n.avail && 2 in n.avail
  {
    hide Pow2, Lists2;
  }

  lemma Buddies12(base: nat)
    ensures BuddyOf(base + 8192, 12, base) == base + 12288 && BuddyOf(base + 12288, 12, base) == base + 8192
  {
    SmallPowers();
    assert FlipBit(8192, 12) == 12288 && FlipBit(12288, 12) == 8192;
  }

  lemma PairHalf(m: Mem, base: nat, x: nat, y: nat)
    requires Sound(m) && m.pools == map[base := Pool(25, 2)] && 0 in m.tracked && m.tracked[0] == []
    requires IsFree(m.g, x, 0, 12) && IsFree(m.g, y, 0, 12) && base <= x && BuddyOf(x, 12, base) == y
    ensures IsPair(m, 0, x, y) && Returnable(m, 0, {0, 1, 2}, x)
  {
    hide Sound, Pow2, BuddyOf;
    HomeFacts(m, x);
    assert m.g.home[x] == base;
  }

  lemma PairOf(m: Mem, base: nat, x: nat, y: nat)
    requires Settled(m) && LeftApart(m, base, x, y)
    ensures IsPair(m, 0, x, y) && IsPair(m, 0, y, x)
    ensures Returnable(m, 0, {0, 1, 2}, x) && Returnable(m, 0, {0, 1, 2}, y)
  {
    hide Settled, Sound, IsPair, Returnable, BuddyOf;
    SettledParts(m);
    Buddies12(base);
    PairHalf(m, base, x, y);
    PairHalf(m, base, y, x);
  }

  /** Whichever of the two is visited first, the other is the block ahead of it. */
  lemma PairTrips(m: Mem, base: nat, x: nat, y: nat)
    requires Settled(m) && LeftApart(m, base, x, y)
    ensures Walks(m, 0, {0, 1, 2}, ORDER_MIN).None?
  {
    hide Settled, Pow2, IsPair, Returnable, Walks;
    PairOf(m, base, x, y);
    if m.lists[Head(0, 12)] == [x, y] {
      WalksTrip(m, 0, {0, 1, 2}, ORDER_MIN, x, y, 12);
    } else {
      WalksTrip(m, 0, {0, 1, 2}, ORDER_MIN, y, x, 12);
    }
  }

  /** Heaps 0, 1 and 2. */
  method Start() returns (a: Allocator)
    ensures fresh(a) && fresh(a.fl) && a.Valid() && TablesApart(a.tracked) && ThreeHeaps(a.Now())
            && a.registry == {0, 1, 2}
    ensures LiveBlocks(a.g) == map[]
  {
    hide Settled, Linked, Accounted, EmptyLists, HeapsUpTo;
    a := new Allocator();
    NoHeaps(a.Now());
    for h := 0 to 3
      invariant fresh(a) && fresh(a.fl) && a.Valid() && HeapsUpTo(a.Now(), h) && LiveBlocks(a.g) == map[]
      invariant forall k: nat :: k in a.registry <==> k < h
    {
      ghost var m := a.Now();
      NotYet(m, h);
      a.InitHeap(h);
      OneMore(m, a.Now(), h);
    }
    TablesEmpty(a.Now(), 3);
    assert a.registry == {0, 1, 2};
  }

  lemma NoHeaps(m: Mem)
    requires m.avail == map[] && m.tracked == map[] && m.lists == map[] && m.pools == map[]
    ensures HeapsUpTo(m, 0)
  {
    assert m.avail.Keys == {} && m.tracked.Keys == {} && m.lists.Keys == {};
  }

  lemma NotYet(m: Mem, k: nat)
    requires HeapsUpTo(m, k)
    ensures k !in m.avail
  {
  }

  lemma OneMore(m: Mem, n: Mem, k: nat)
    requires HeapsUpTo(m, k) && EmptyLists(m.lists, n.lists, k, MAX_ORDER + 1) && n.pools == m.pools
    requires n.avail == m.avail[k := {}] && n.slabs == m.slabs[k := NO_SLABS]
    requires n.foreign == m.foreign[k := []] && n.tracked == m.tracked[k := []]
    ensures HeapsUpTo(n, k + 1)
  {
    forall h: nat | h < k + 1
      ensures Empty(n, h)
    {
      assert h < k ==> Empty(m, h);
    }
  }

  lemma TablesEmpty(m: Mem, k: nat)
    requires HeapsUpTo(m, k)
    ensures TablesApart(m.tracked)
  {
    forall h | h in m.tracked
      ensures m.tracked[h] == []
    {
      assert Empty(m, h);
    }
  }

  /** Heap 2 has the one pool, and heaps 0 and 1 have nothing. */
  ghost predicate OnePool(m: Mem, base: nat) {
    && m.avail.Keys == {0, 1, 2} && m.pools == map[base := Pool(25, 2)] && Empty(m, 0) && Empty(m, 1)
    && 2 in m.slabs && 2 in m.tracked && m.tracked[2] == [base]
  }

  lemma BeforeFirst(m: Mem, base: nat)
    requires ThreeHeaps(m) && Aligned(base, POOL_ORDER)
    ensures 2 in m.avail && NoSlab(m.slabs, 2, 12) && !NoMemory(m.lists, m.tracked, 2, 12, Some(base))
    ensures Unused(m.pools, base, PoolOrderFor(12))
  {
    hide Aligned;
    assert Empty(m, 2);
  }

  lemma AfterFirst(m: Mem, n: Mem, base: nat, v: nat)
    requires Settled(m) && ThreeHeaps(m) && Drawn(m, n, 2, 12, Some(base), v)
    requires n.avail.Keys == m.avail.Keys && n.slabs == m.slabs && n.foreign == m.foreign
    ensures OnePool(n, base) && Lists2(n.lists, [], [base + 8192])
  {
    hide Settled, Lists2, Drawn;
    FirstDrawn(m, n, base, v);
    assert Empty(m, 0) && Empty(m, 1) && Empty(m, 2);
    assert m.avail.Keys == {0, 1, 2};
  }

  lemma Sufficient(m: Mem, base: nat, l12: seq<nat>, l13: seq<nat>)
    requires OnePool(m, base) && Lists2(m.lists, l12, l13) && (l12 != [] || l13 != [])
    ensures 2 in m.avail && NoSlab(m.slabs, 2, 12) && !NoMemory(m.lists, m.tracked, 2, 12, None)
  {
    if l12 != [] { assert !NothingListed(m.lists, 2, 12); } else { assert !NothingListed(m.lists, 2, 13); }
  }

  lemma PoolStays(m: Mem, n: Mem, base: nat)
    requires OnePool(m, base) && n.avail.Keys == m.avail.Keys && n.slabs == m.slabs && n.foreign == m.foreign
    requires n.pools == m.pools && n.tracked == m.tracked
    ensures OnePool(n, base)
  {
  }

  /** Heap 2 hands out three blocks of 4000 bytes from its first pool, at `base`; the
      second and the third are buddies. */
  method ThreeBlocks(a: Allocator, base: nat) returns (x: nat, y: nat)
    requires a.Valid() && ThreeHeaps(a.Now()) && Aligned(base, POOL_ORDER)
    modifies a, a.fl
    ensures a.Valid() && a.registry == old(a.registry) && (old(TablesApart(a.tracked)) ==> TablesApart(a.tracked))
    ensures x in LiveBlocks(a.g) && LiveBlocks(a.g)[x] == 12 && y in LiveBlocks(a.g) && LiveBlocks(a.g)[y] == 12
    ensures x == base + 8192 && y == base + 12288 && OnePool(a.Now(), base) && Lists2(a.fl.lists, [], [])
  {
    hide Settled, Linked, Accounted, LiveBlocks, TablesApart, Drawn, Lists2, Aligned, Pow2, HeapsUpTo, OrderForSize,
         NoMemory, NoSlab, Unused, OnePool, Popped;
    OrderOf4000();
    ghost var m := a.Now();
    BeforeFirst(m, base);
    var p := a.Alloc(2, 4000, Some(base));
    ghost var m1 := a.Now();
    AfterFirst(m, m1, base, p.value);
    x, y := BothBuddies(a, base);
  }

  method BothBuddies(a: Allocator, base: nat) returns (x: nat, y: nat)
    requires a.Valid() && OnePool(a.Now(), base) && Lists2(a.fl.lists, [], [base + 8192])
    modifies a, a.fl
    ensures a.Valid() && a.registry == old(a.registry) && (old(TablesApart(a.tracked)) ==> TablesApart(a.tracked))
    ensures x in LiveBlocks(a.g) && LiveBlocks(a.g)[x] == 12 && y in LiveBlocks(a.g) && LiveBlocks(a.g)[y] == 12
    ensures x == base + 8192 && y == base + 12288 && OnePool(a.Now(), base) && Lists2(a.fl.lists, [], [])
  {
    hide Settled, Linked, Accounted, LiveBlocks, TablesApart, Drawn, Lists2, Pow2, OrderForSize, NoMemory, NoSlab,
         Unused, OnePool, Popped;
    OrderOf4000();
    ghost var m1 := a.Now();
    Sufficient(m1, base, [], [base + 8192]);
    var q := a.Alloc(2, 4000, None);
    ghost var m2 := a.Now();
    SecondDrawn(m1, m2, base, q.value);
    PoolStays(m1, m2, base);
    Sufficient(m2, base, [base + 12288], []);
    var r := a.Alloc(2, 4000, None);
    ThirdDrawn(m2, a.Now(), base, r.value);
    PoolStays(m2, a.Now(), base);
    x, y := q.value, r.value;
  }

  /** Heap 1 frees a block of heap 2's pool: it is queued. */
  method QueueOne(a: Allocator, base: nat, v: nat)
    requires a.Valid() && a.pools == map[base := Pool(25, 2)] && 1 in a.avail && v in LiveBlocks(a.g)
    modifies a, a.fl
    ensures a.Valid() && a.registry == old(a.registry) && a.tracked == old(a.tracked)
            && a.avail.Keys == old(a.avail).Keys
    ensures a.fl.lists == old(a.fl.lists) && a.g == Put(old(a.g), v, Foreign(1)) && a.pools == old(a.pools)
    ensures 1 in old(a.foreign) && a.foreign == old(a.foreign)[1 := [v] + old(a.foreign)[1]] && a.slabs == old(a.slabs)
    ensures LiveBlocks(a.g) == LiveBlocks(old(a.g)) - {v}
  {
    hide Settled, Linked, Accounted, LiveBlocks, Put;
    a.FreeBlock(1, v);
  }

  /** Heap 1 frees both: they are queued, the second in front. */
  method QueueBoth(a: Allocator, base: nat, x: nat, y: nat)
    requires a.Valid() && OnePool(a.Now(), base) && Lists2(a.fl.lists, [], []) && x == base + 8192 && y == base + 12288
    requires x in LiveBlocks(a.g) && LiveBlocks(a.g)[x] == 12 && y in LiveBlocks(a.g) && LiveBlocks(a.g)[y] == 12
    modifies a, a.fl
    ensures a.Valid() && a.registry == old(a.registry) && a.tracked == old(a.tracked) && Queued(a.Now(), base, x, y)
  {
    hide Settled, Linked, Accounted, Lists2, Put, LiveBlocks, Queued;
    ghost var m := a.Now();
    QueueOne(a, base, x);
    ghost var m1 := a.Now();
    QueueOne(a, base, y);
    QueuedIs(m, m1, a.Now(), base, x, y);
  }

  lemma QueuedIs(m: Mem, m1: Mem, n: Mem, base: nat, x: nat, y: nat)
    requires OnePool(m, base) && Lists2(m.lists, [], []) && x == base + 8192 && y == base + 12288
    requires x in LiveBlocks(m.g) && LiveBlocks(m.g)[x] == 12 && y in LiveBlocks(m.g) && LiveBlocks(m.g)[y] == 12
    requires m1.g == Put(m.g, x, Foreign(1)) && n.g == Put(m1.g, y, Foreign(1)) && n.lists == m.lists
    requires n.avail.Keys == m.avail.Keys && n.pools == m.pools && n.tracked == m.tracked && n.slabs == m.slabs
    requires 1 in m.foreign && m1.foreign == m.foreign[1 := [x] + m.foreign[1]]
    requires n.foreign == m1.foreign[1 := [y] + m1.foreign[1]]
    ensures Queued(n, base, x, y)
  {
    hide Lists2;
    assert m1.foreign[1] == [x];
    assert n.foreign[1] == [y, x];
  }

  /** The run. Heap 1 is merged into heap 0 while the flag is up, so its queued blocks are
      listed by heap 0 as they are; when heap 0 collects, the walk over its list hands the
      first to heap 2, and with it merges away the second, where it goes on. */
  method LedAstray(base: nat) returns (a: Allocator, kept: bool, ghost at: nat, ghost order: nat)
    requires Aligned(base, POOL_ORDER)
    ensures !kept && a.Valid() && Astray(a.Now(), 0, a.registry, at, order)
    ensures exists z: nat :: BeyondRepair(a.Now(), Memory(a), 0, a.registry, z, at, order)
  {
    hide Settled, Linked, Accounted, LiveBlocks, TablesApart, Aligned, Astray, Walks, NoPair, Complete, BeyondRepair;
    hide Queued, LeftApart, OnePool, Lists2, HeapsUpTo, Adopts;
    a := Start();
    var x, y := ThreeBlocks(a, base);
    QueueBoth(a, base, x, y);
    MergeApart(a, base, x, y);
    ghost var m := a.Now();
    ApartQuiet(m, base, x, y);
    PairTrips(m, base, x, y);
    ghost var n: Mem;
    kept, n, at, order := Collect(a, 0);
    LostForGood(a, 0, at, order);
  }

  lemma ApartQuiet(m: Mem, base: nat, x: nat, y: nat)
    requires LeftApart(m, base, x, y)
    ensures 0 in m.avail && 0 in m.slabs && m.slabs[0] == NO_SLABS && 0 in m.foreign && m.foreign[0] == []
  {
  }

  /** ray_heap_merge between the raising and the lowering of the flag. */
  method MergeApart(a: Allocator, base: nat, x: nat, y: nat)
    requires a.Valid() && Queued(a.Now(), base, x, y) && TablesApart(a.tracked)
    modifies a, a.fl
    ensures a.Valid() && a.registry == old(a.registry) && TablesApart(a.tracked) && !a.parallel
    ensures LeftApart(a.Now(), base, x, y)
  {
    hide Settled, Linked, Accounted, LiveBlocks, TablesApart, Queued, LeftApart, NothingListed, Adopts;
    ghost var m0 := a.Now();
    a.SetParallel(true);
    ghost var m := a.Now();
    QueuedCalm(m0, m, base, x, y);
    a.Merge(0, 1);
    a.SetParallel(false);
    Merged01(m, a.Now(), base, x, y);
  }

  lemma QueuedCalm(m0: Mem, m: Mem, base: nat, x: nat, y: nat)
    requires Queued(m0, base, x, y) && m == m0.(calm := m.calm)
    ensures Queued(m, base, x, y) && 0 in m.avail && 1 in m.avail
  {
    hide Lists2;
  }

  lemma Merged01(m: Mem, n: Mem, base: nat, x: nat, y: nat)
    requires Settled(m) && Settled(n) && Queued(m, base, x, y) && Adopts(m.g, n.g, 1, 0)
    requires n.avail.Keys == m.avail.Keys && 1 in m.foreign && n.foreign == m.foreign[1 := []]
    requires 0 in m.tracked && 1 in m.tracked && n.pools == Owned(m.pools, m.tracked[1], 0)
    requires n.tracked == m.tracked[0 := Fitting(m.tracked[0], m.tracked[1])][1 := []]
    ensures LeftApart(n, base, x, y)
  {
    hide Settled, Adopts, Lists2;
    OwnedNone(m.pools, 0);
    FittingNone(m.tracked[0]);
    assert TookOver(m, n);
    PairListed(m, n, base, x, y);
    CachesEmpty(m, n, base, x, y);
  }
}
