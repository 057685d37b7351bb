/** The allocator: per-heap free lists, slab caches and foreign queues over self-aligned
    pools, with headers kept inside the blocks. All heaps are fields of one object, so
    that a step taken for one heap may touch another's lists, as it does in memory. */
module Heap {
  import opened Tiles
  import opened FreeLists
  import opened HeapModel
  import opened HeapSteps
  import opened HeapBytes
  import opened HeapMerge
  import opened Sums
  import opened Options

  class Allocator {
    /** The header bytes of blocks, by address. */
    var rc: map<nat, nat>
    var order: map<nat, nat>
    const fl: FreeList
    var avail: map<nat, set<nat>>
    var slabs: Slabs
    var foreign: Queues
    /** Pool headers, by base address, and each heap's table of pools. */
    var pools: Pools
    var tracked: map<nat, seq<nat>>
    var registry: set<nat>
    /** Each heap's count of the bytes it has handed out. */
    var bytes: map<nat, int>
    var parallel: bool
    ghost var g: Ground
    /** The parallel flag has been 0 throughout. */
    ghost var calm: bool

    ghost function Now(): Mem
      reads this, fl
    {
      Mem(rc, order, fl.lists, avail, slabs, foreign, tracked, pools, g, calm)
    }

    ghost predicate Valid()
      reads this, fl
    {
      fl.Valid() && Settled(Now()) && (calm ==> !parallel) && registry <= avail.Keys
    }

    /** The counters `counts` would be right as things stand. */
    ghost predicate ExactWith(counts: map<nat, int>)
      reads this
    {
      Accounted(counts, g, pools, registry, avail.Keys)
    }

    ghost predicate Exact()
      reads this
    {
      ExactWith(bytes)
    }

    // What a step that assigns some fields only does to the state as a whole.

    twostate lemma GroundOnly()
      requires unchanged(this`rc, this`order, this`avail, this`slabs, this`foreign, this`tracked, this`pools, this`calm)
      requires unchanged(fl)
      ensures Now() == old(Now()).(g := g)
    {
    }

    twostate lemma CountsOnly()
      requires unchanged(this`order, this`avail, this`slabs, this`foreign, this`tracked, this`pools, this`g, this`calm)
               && unchanged(fl)
      ensures Now() == old(Now()).(rc := rc)
    {
    }

    twostate lemma SlabsOnly()
      requires unchanged(this`order, this`avail, this`foreign, this`tracked, this`pools, this`calm) && unchanged(fl)
      ensures Now() == old(Now()).(rc := rc, slabs := slabs, g := g)
    {
    }

    twostate lemma QueuesOnly()
      requires unchanged(this`rc, this`order, this`avail, this`slabs, this`tracked, this`pools, this`calm)
               && unchanged(fl)
      ensures Now() == old(Now()).(foreign := foreign, g := g)
    {
    }

    twostate lemma HeapAdded(h: nat)
      requires unchanged(this`rc, this`order, this`pools, this`g, this`calm)
      requires avail == old(avail)[h := {}] && slabs == old(slabs)[h := [[], [], [], [], []]]
      requires foreign == old(foreign)[h := []] && tracked == old(tracked)[h := []]
      ensures Now() == WithHeap(old(Now()), fl.lists, h)
    {
    }

    twostate lemma OwnersOnly()
      requires unchanged(this`rc, this`order, this`avail, this`slabs, this`foreign, this`g, this`calm) && unchanged(fl)
      ensures Now() == old(Now()).(pools := pools, tracked := tracked)
    {
    }

    twostate lemma ListsOnly()
      requires unchanged(this`rc, this`order, this`slabs, this`foreign, this`tracked, this`pools, this`calm)
      ensures Now() == old(Now()).(lists := fl.lists, avail := avail, g := g)
    {
    }

    constructor ()
      ensures Valid() && fresh(fl)
      ensures Now() == Mem(map[], map[], map[], map[], map[], map[], map[], map[], Ground(map[], map[], map[]), true)
      ensures Exact() && registry == {} && bytes == map[] && !parallel
    {
      hide Settled, Linked, Accounted;
      fl := new FreeList();
      rc, order, avail, slabs, foreign, pools, tracked := map[], map[], map[], map[], map[], map[], map[];
      registry, bytes, parallel := {}, map[], false;
      g, calm := Ground(map[], map[], map[]), true;
      NothingYet();
    }

    /** heap_insert_block: on the list, reference count zero, order stamped, bit set. */
    method InsertBlock(h: nat, x: nat, o: nat)
      requires fl.Valid() && Sound(Now()) && HeldAt(g, x) && g.ord[x] == o <= MAX_ORDER && h in avail
      requires calm ==> Alone(Now(), x)
      modifies this`rc, this`order, this`avail, this`g, fl
      ensures fl.Valid() && Head(h, o) in old(fl.lists) && Now() == Inserted(old(Now()), x, h)
      ensures Sound(Now())
    {
      hide Sound, Linked, Alone;
      SoundInsert(Now(), x, h);
      HeldNotListed(Now(), x);
      fl.Insert(Head(h, o), x);
      rc := rc[x := 0];
      order := order[x := o];
      avail := avail[h := avail[h] + {o}];
      g := Put(g, x, Free(h));
    }

    /** Takes a free block off whatever list holds it; `h` drops its own bit for the
        order if its list of that order is now empty. */
    method Unlink(h: nat, x: nat, o: nat)
      requires fl.Valid() && Sound(Now()) && h in avail
      requires x in g.ord && x in g.st && g.st[x].Free? && g.ord[x] == o <= MAX_ORDER
      modifies this`avail, this`g, fl
      ensures old(g).st[x].Free? && Head(old(g).st[x].h, o) in old(fl.lists) && h in old(avail)
      ensures fl.Valid() && Now() == TakenOff(old(Now()), x, h)
      ensures g == Put(old(g), x, Held) && avail.Keys == old(avail).Keys
    {
      hide Sound, Linked, Without, Put, TakenOff;
      ghost var m := Now();
      SoundTaken(m, x, h);
      HasList(m, h, o);
      fl.Remove(x, Head(g.st[x].h, o));
      var empty := fl.IsEmpty(Head(h, o));
      if empty { avail := avail[h := avail[h] - {o}]; }
      g := Put(g, x, Held);
      ListsOnly(); TakenBy(m, Now(), x, h);
    }

    /** Takes the free buddy off its list and joins it with `blk`; the lower of the two
        is the merged block. */
    method Absorb(h: nat, blk: nat, buddy: nat, o: nat) returns (low: nat)
      requires fl.Valid() && Sound(Now()) && HeadersOK(g, pools) && OnlyHeld(g, blk) && h in avail
      requires Mergeable(Now(), blk) && buddy == BuddyAt(Now(), blk) && o == g.ord[blk]
      modifies this`avail, this`g, fl
      ensures Mergeable(old(Now()), blk) && h in old(avail) && low == Low(old(Now()), blk)
      ensures fl.Valid() && Now() == JoinedWith(old(Now()), h, blk) && Joined(old(g), Now(), blk, low)
      ensures avail.Keys == old(avail).Keys
    {
      hide Sound, Linked, HeadersOK, BuddyOf, Without, Pow2, TakenOff, OnlyHeld, Grown, Joined;
      JoinKeeps(Now(), h, blk);
      Unlink(h, buddy, o);
      low := if buddy < blk then buddy else blk;
      g := MergeHeld(g, low);
    }

    /** heap_coalesce: merge with free buddies as long as there are any, then insert. */
    method Coalesce(h: nat, x: nat, base: nat, poolOrder: nat)
      requires fl.Valid() && Sound(Now()) && HeadersOK(g, pools) && OnlyHeld(g, x) && h in avail
      requires (calm ==> !parallel) && registry <= avail.Keys
      requires x in order && order[x] == g.ord[x]
      requires x in g.home && base == g.home[x] && base in pools && poolOrder == pools[base].order
      modifies this`rc, this`order, this`avail, this`g, fl
      ensures Valid() && Now() == Given(old(Now()), h, x, parallel)
    {
      hide Sound, Linked, HeadersOK, OnlyHeld, Alone, Merged, Listed, JoinedWith, Low, SameUsed, Grown, Joined, FreeAt,
           BuddyAt, Mergeable;
      var o := order[x];
      var blk := x;
      GivenKeeps(Now(), h, x, parallel);
      HeldPlace(g, x);
      OrderBound(Now(), x);
      if !parallel {
        while o < poolOrder
          invariant fl.Valid() && Sound(Now()) && HeadersOK(g, pools) && OnlyHeld(g, blk) && h in avail
          invariant blk in g.ord && g.ord[blk] == o <= poolOrder && blk in g.home && g.home[blk] == base <= blk
          invariant Merged(Now(), h, blk) == Merged(old(Now()), h, x)
          decreases poolOrder - o
        {
          var buddy := BuddyOf(blk, o, base);
          BuddySeen(Now(), blk, buddy);
          if rc[buddy] != 0 || order[buddy] != o { break; }
          MergedStep(Now(), h, blk);
          ghost var g1, blk1 := g, blk;
          blk := Absorb(h, blk, buddy, o);
          JoinedParts(g1, Now(), blk1, blk);
          o := o + 1;
        }
        MergedStop(Now(), h, blk);
      }
      HeldPlace(g, blk);
      ListedKeeps(Now(), h, blk);
      InsertBlock(h, blk, o);
    }

    /** heap_split_block: hand the upper halves to the free lists until the block has
        the wanted order. heap_add_pool cuts a fresh region by the same loop. */
    method SplitBlock(h: nat, x: nat, target: nat, found: nat, ghost heads: Pools)
      requires fl.Valid() && Sound(Now()) && HeadersOK(g, heads) && OnlyHeld(g, x) && h in avail
      requires ORDER_MIN <= target <= found == g.ord[x]
      modifies this`rc, this`order, this`avail, this`g, fl
      ensures fl.Valid() && Sound(Now()) && HeadersOK(g, heads) && OnlyHeld(g, x)
      ensures CutTo(old(Now()), Now(), h, x, found, target)
    {
      hide Sound, Linked, HeadersOK, OnlyHeld, HeldAt, Alone, Pow2, SplitHeld, CutTo, Halving, InHalves, Ready, Listed,
           Inserted;
      HeldPlace(g, x);
      OrderBound(Now(), x);
      ghost var m := Now();
      CutStart(m, h, x);
      var o := found;
      while o > target
        invariant fl.Valid() && Sound(Now()) && HeadersOK(g, heads) && OnlyHeld(g, x) && h in avail
        invariant x in g.ord && target <= o == g.ord[x] && o <= found && CutTo(m, Now(), h, x, found, o)
      {
        o := o - 1;
        var buddy := x + Pow2(o);
        CutStep(m, Now(), h, x, found, heads);
        CutReady(Now(), h, x, heads);
        ReadyParts(InHalves(Now(), x), h, buddy, o);
        HalvingIs(Now(), h, x);
        g := SplitHeld(g, x);
        InsertBlock(h, buddy, o);
        CutOrder(m, Now(), h, x, found, o);
      }
    }

    /** heap_add_pool: `grant` is the self-aligned region the system hands over, if it
        does. The region is cut down to the header by a cascade of halvings. */
    method AddPool(h: nat, k: nat, grant: Option<nat>) returns (ok: bool)
      requires Valid() && h in avail
      requires grant.Some? ==> Unused(pools, grant.value, PoolOrderFor(k))
      modifies this`rc, this`order, this`avail, this`g, this`pools, this`tracked, fl
      ensures Valid() && avail.Keys == old(avail).Keys
      ensures h in old(tracked) && ok == (|old(tracked)[h]| < MAX_POOLS && PoolOrderFor(k) <= MAX_ORDER && grant.Some?)
      ensures !ok ==> Now() == old(Now())
      ensures ok ==> pools == old(pools)[grant.value := Pool(PoolOrderFor(k), h)]
      ensures ok ==> tracked == old(tracked)[h := old(tracked)[h] + [grant.value]]
      ensures ok ==> CascadeAdded(old(fl.lists), fl.lists, h, grant.value, ORDER_MIN, PoolOrderFor(k))
      ensures LiveBlocks(g) == LiveBlocks(old(g))
      ensures old(Exact()) ==> Exact()
      ensures TablesApart(old(tracked)) ==> TablesApart(tracked)
    {
      hide Settled, Linked, Unused, LiveBlocks, CascadeAdded, Accounted, TablesApart;
      HasTables(Now(), h) by { SettledParts(Now()); }
      if |tracked[h]| >= MAX_POOLS { return false; }
      var poolOrder := PoolOrderFor(k);
      if poolOrder > MAX_ORDER { return false; }
      if grant.None? { return false; }
      InstallPool(h, grant.value, poolOrder);
      ok := true;
    }

    /** A region received: header written at its base, the rest cut onto the lists. */
    method InstallPool(h: nat, base: nat, poolOrder: nat)
      requires Valid() && h in avail && h in tracked && |tracked[h]| < MAX_POOLS
      requires POOL_ORDER <= poolOrder <= MAX_ORDER && Unused(pools, base, poolOrder)
      modifies this`rc, this`order, this`avail, this`g, this`pools, this`tracked, fl
      ensures Valid() && avail.Keys == old(avail).Keys
      ensures h in old(tracked) && pools == old(pools)[base := Pool(poolOrder, h)]
      ensures tracked == old(tracked)[h := old(tracked)[h] + [base]]
      ensures CascadeAdded(old(fl.lists), fl.lists, h, base, ORDER_MIN, poolOrder)
      ensures LiveBlocks(g) == LiveBlocks(old(g))
      ensures old(Exact()) ==> Exact()
      ensures TablesApart(old(tracked)) ==> TablesApart(tracked)
    {
      hide Sound, Linked, HeadersOK, SameUsed, OnlyHeld, HeldAt, Unused, LiveBlocks, NothingHeld, CascadeAdded,
           WithPool, Put,
        Accounted, Grown, TablesApart;
      ghost var heads, g0 := pools, g;
      ApartAdd(Now(), h, base, poolOrder);
      if Exact() { FreshPoolBytes(Now(), bytes, registry, base, Pool(poolOrder, h)); }
      WriteHeader(h, base, poolOrder);
      ghost var g1 := g;
      ghost var m := Now();
      SplitBlock(h, base, ORDER_MIN, poolOrder, heads);
      CutParts(m, Now(), h, base, poolOrder, ORDER_MIN);
      KeysAgree(Now());
      SameUsedLive(g1, g);
      PinHeader(h, base, poolOrder, heads, g1);
    }

    /** The region cut down to its first block: that is the header, and the heap's table
        lists the pool. */
    method PinHeader(h: nat, base: nat, poolOrder: nat, ghost heads: Pools, ghost g1: Ground)
      requires fl.Valid() && Sound(Now()) && HeadersOK(g, heads) && OnlyHeld(g, base)
      requires (calm ==> !parallel) && registry <= avail.Keys && h in tracked && |tracked[h]| < MAX_POOLS
      requires base in g.ord && g.ord[base] == ORDER_MIN && pools == heads[base := Pool(poolOrder, h)]
      requires base in rc && rc[base] == 1 && base in order && order[base] == ORDER_MIN
      requires SameUsed(g1, g) && Grown(g1, g, h, base)
      modifies this`g, this`tracked
      ensures Valid() && LiveBlocks(g) == LiveBlocks(old(g))
      ensures tracked == old(tracked)[h := old(tracked)[h] + [base]]
      ensures Accounted(bytes, g1, pools, registry, avail.Keys) ==> Exact()
    {
      hide Sound, Linked, HeadersOK, SameUsed, OnlyHeld, LiveBlocks, NothingHeld, Put, Accounted, Grown, HeldAt;
      HeldPlace(g, base);
      if Accounted(bytes, g1, pools, registry, avail.Keys) { PoolBytes(Now(), bytes, registry, g1, base, h); }
      PoolCut(Now(), heads, base, Pool(poolOrder, h), h);
      tracked := tracked[h := tracked[h] + [base]];
      g := Put(g, base, Header);
    }

    /** The pool header of heap `h` overlaid on the first least-order block of the region. */
    method WriteHeader(h: nat, base: nat, poolOrder: nat)
      requires Valid() && h in avail && POOL_ORDER <= poolOrder <= MAX_ORDER && Unused(pools, base, poolOrder)
      modifies this`rc, this`order, this`g, this`pools
      ensures fl.Valid() && Sound(Now()) && HeadersOK(g, old(pools)) && OnlyHeld(g, base)
      ensures pools == old(pools)[base := Pool(poolOrder, h)]
      ensures base in g.ord && g.ord[base] == poolOrder && g.ord.Keys == g.st.Keys == g.home.Keys
      ensures base in rc && rc[base] == 1 && base in order && order[base] == ORDER_MIN
      ensures LiveBlocks(g) == LiveBlocks(old(g)) && g == WithPool(old(g), base, poolOrder)
      ensures base in g.home && g.home[base] == base
    {
      hide Sound, Linked, HeadersOK, OnlyHeld, Unused, LiveBlocks, NothingHeld, WithPool;
      ReceivedKeeps(Now(), base, Pool(poolOrder, h));
      rc := rc[base := 1];
      order := order[base := ORDER_MIN];
      pools := pools[base := Pool(poolOrder, h)];
      g := WithPool(g, base, poolOrder);
    }

    /** One empty circular list per order. */
    method InitSentinels(h: nat)
      requires fl.Valid() && forall i: nat :: Head(h, i) !in fl.lists
      modifies fl
      ensures fl.Valid() && EmptyLists(old(fl.lists), fl.lists, h, MAX_ORDER + 1)
    {
      hide Linked, EmptyLists;
      ghost var lists := fl.lists;
      EmptyStart(lists, h);
      var i := 0;
      while i <= MAX_ORDER
        invariant i <= MAX_ORDER + 1 && fl.Valid()
        invariant EmptyLists(lists, fl.lists, h, i)
      {
        EmptyStep(lists, fl.lists, h, i);
        fl.Init(Head(h, i));
        i := i + 1;
      }
    }

    /** ray_heap_init: empty free lists, slab stacks, foreign queue and pool table. */
    method InitHeap(h: nat)
      requires Valid() && h !in avail
      modifies this`avail, this`slabs, this`foreign, this`tracked, this`registry, this`bytes, fl
      ensures Valid() && avail == old(avail)[h := {}] && registry == old(registry) + {h}
      ensures bytes == old(bytes)[h := 0] && (old(Exact()) ==> Exact())
      ensures tracked == old(tracked)[h := []] && slabs == old(slabs)[h := [[], [], [], [], []]]
              && foreign == old(foreign)[h := []]
      ensures EmptyLists(old(fl.lists), fl.lists, h, MAX_ORDER + 1)
    {
      hide Settled, Linked, EmptyLists, Accounted;
      ghost var heaps := avail.Keys;
      BlankHeap(h);
      Register(h, heaps);
    }

    /** The structures of a heap, all empty. */
    method BlankHeap(h: nat)
      requires Valid() && h !in avail
      modifies this`avail, this`slabs, this`foreign, this`tracked, fl
      ensures Valid() && avail == old(avail)[h := {}] && avail.Keys == old(avail.Keys) + {h}
      ensures tracked == old(tracked)[h := []] && slabs == old(slabs)[h := [[], [], [], [], []]]
              && foreign == old(foreign)[h := []]
      ensures EmptyLists(old(fl.lists), fl.lists, h, MAX_ORDER + 1)
    {
      hide Settled, Linked, EmptyLists;
      NoHeapNoLists(Now(), h);
      NewHeapKeys(avail, h);
      InitSentinels(h);
      NewHeapSettled(Now().(lists := old(fl.lists)), fl.lists, h);
      slabs := slabs[h := [[], [], [], [], []]];
      foreign := foreign[h := []];
      tracked := tracked[h := []];
      avail := avail[h := {}];
      HeapAdded(h);
    }

    /** The heap entered in the registry, its counter at 0. */
    method Register(h: nat, ghost heaps: set<nat>)
      requires Valid() && h !in heaps && avail.Keys == heaps + {h}
      modifies this`registry, this`bytes
      ensures Valid() && registry == old(registry) + {h} && bytes == old(bytes)[h := 0]
      ensures Accounted(old(bytes), g, pools, old(registry), heaps) ==> Exact()
    {
      hide Settled, Linked, Accounted;
      if Accounted(bytes, g, pools, registry, heaps) { NewHeapBytes(bytes, g, pools, registry, heaps, h); }
      registry := registry + {h};
      bytes := bytes[h := 0];
    }

    /** ray_pool_of: the pool a block lies in. Its stride mask finds a standard pool at
        once; the base of an oversized one is found walking down. */
    method PoolOf(x: nat) returns (base: nat)
      requires Sound(Now()) && x in g.ord
      ensures x in g.home && base == g.home[x] && base in pools
    {
      hide Sound, Pow2;
      HomeFacts(Now(), x);
      var stride := Pow2(POOL_ORDER);
      base := x - x % stride;
      MaskFacts(x, g.home[x], stride);
      if base in pools && pools[base].order == POOL_ORDER { return; }
      while !(base in pools && x < base + Pow2(pools[base].order))
        invariant g.home[x] <= base <= x && base % stride == 0
        decreases base
      {
        StrideDown(base, g.home[x], stride);
        base := base - stride;
      }
    }

    /** heap_find_pool, then the pool header: the pool a block lies in. */
    method Locate(h: nat, x: nat) returns (base: nat)
      requires Sound(Now()) && x in g.ord && h in avail
      ensures x in g.home && base == g.home[x] && base in pools
    {
      hide Sound, Pow2;
      HomeFacts(Now(), x);
      TrackedArePools(Now(), h);
      var i := 0;
      while i < |tracked[h]| {
        base := tracked[h][i];
        if base <= x < base + Pow2(pools[base].order) { return; }
        i := i + 1;
      }
      base := PoolOf(x);
    }

    /** The least candidate order from `k` up: count trailing zeros of the masked bits. */
    method Lowest(bits: set<nat>, k: nat) returns (o: nat)
      requires bits != {} && forall b :: b in bits ==> k <= b <= MAX_ORDER
      ensures o in bits && forall b :: b in bits ==> o <= b
    {
      o := k;
      while o !in bits
        invariant forall b :: b in bits ==> o <= b
        decreases MAX_ORDER + 1 - o
      {
        assert exists b :: b in bits;
        o := o + 1;
      }
    }

    /** The search of ray_alloc for a non-empty list of order `k` or more. Bits may be
        stale; at most one pool is asked for, and then the search does succeed. */
    method FindList(h: nat, k: nat, grant: Option<nat>) returns (r: Option<nat>)
      requires Valid() && h in avail && ORDER_MIN <= k <= MAX_ORDER
      requires grant.Some? ==> Unused(pools, grant.value, PoolOrderFor(k))
      modifies this`rc, this`order, this`avail, this`g, this`pools, this`tracked, fl
      ensures Valid() && avail.Keys == old(avail).Keys && LiveBlocks(g) == LiveBlocks(old(g))
      ensures r.Some? ==> k <= r.value <= MAX_ORDER && Head(h, r.value) in fl.lists && fl.lists[Head(h, r.value)] != []
      ensures r.Some? ==> forall o: nat :: k <= o < r.value ==> NothingListed(fl.lists, h, o)
      ensures r.None? <==> NoMemory(old(fl.lists), old(tracked), h, k, grant)
      ensures r.Some? ==> Supplied(old(Now()), Now(), h, k, grant)
      ensures r.None? ==> pools == old(pools) && tracked == old(tracked)
      ensures old(Exact()) ==> Exact()
      ensures TablesApart(old(tracked)) ==> TablesApart(tracked)
    {
      hide Settled, Linked, LiveBlocks, Unused, Pow2, NoMemory, NothingListed, Masked, Tells, Accounted, TablesApart,
           PoolAdded;
      var candidates := Masked(avail[h], k);
      MaskTells(Now(), h, k);
      var asked := false;
      ghost var top: nat := k;
      ghost var m := Now();
      ghost var s := m;
      while true
        invariant Valid() && avail.Keys == old(avail).Keys && LiveBlocks(g) == LiveBlocks(old(g))
        invariant old(Exact()) ==> Exact()
        invariant TablesApart(old(tracked)) ==> TablesApart(tracked)
        invariant candidates == Masked(avail[h], k) && Tells(candidates, fl.lists, h, k)
        invariant fl.lists == s.lists && tracked == s.tracked && pools == s.pools
        invariant if asked then PoolAdded(m, s, h, k, grant) else s == m
        invariant asked ==> k <= top <= MAX_ORDER && !NothingListed(fl.lists, h, top)
        invariant asked ==> !NoMemory(m.lists, m.tracked, h, k, grant)
        decreases !asked, candidates
      {
        if candidates == {} {
          NothingLeft(fl.lists, h, k, top, asked) by { assert Tells({}, fl.lists, h, k); }
          ghost var n := Now();
          var ok := AskForPool(h, k, grant);
          if !ok { return None; }
          s := Now();
          AddedTo(m, n, s, s, h, k, grant);
          asked := true;
          top := PoolOrderFor(k) - 1;
          candidates := Masked(avail[h], k);
          MaskTells(Now(), h, k);
          TellsSome(candidates, fl.lists, h, k, top);
        }
        var found, empty := Probe(h, k, candidates);
        ListSeen(fl.lists, m.tracked, h, k, grant, found);
        if !empty {
          if asked { AddedTo(m, m, s, Now(), h, k, grant); }
          return Some(found);
        }
        candidates := candidates - {found};
      }
    }

    /** The lowest candidate's list; its bit is dropped if the list is empty. */
    method Probe(h: nat, k: nat, candidates: set<nat>) returns (o: nat, empty: bool)
      requires Valid() && h in avail && candidates != {}
      requires candidates == Masked(avail[h], k) && Tells(candidates, fl.lists, h, k)
      modifies this`avail
      ensures Valid() && avail.Keys == old(avail).Keys && (old(Exact()) ==> Exact())
      ensures o in candidates && k <= o <= MAX_ORDER && Head(h, o) in fl.lists && empty == (fl.lists[Head(h, o)] == [])
      ensures forall j: nat :: k <= j < o ==> NothingListed(fl.lists, h, j)
      ensures empty ==> candidates - {o} == Masked(avail[h], k) && Tells(candidates - {o}, fl.lists, h, k)
      ensures !empty ==> avail == old(avail)
    {
      hide Settled, Linked, Masked, Tells, Accounted, NothingListed;
      o := LowestOf(candidates, h, k);
      empty := fl.IsEmpty(Head(h, o));
      EmptyTold(fl.lists, h, o);
      LowestTells(candidates, fl.lists, h, k, o);
      if empty {
        MaskDrop(avail[h], k, o);
        ClearBit(h, o);
      }
    }

    /** A stale bit dropped. */
    method ClearBit(h: nat, o: nat)
      requires Valid() && h in avail && Head(h, o) in fl.lists && fl.lists[Head(h, o)] == []
      modifies this`avail
      ensures Valid() && avail == old(avail)[h := old(avail)[h] - {o}] && (old(Exact()) ==> Exact())
    {
      hide Settled, Linked, Accounted;
      ClearBitKeeps(Now(), h, o);
      avail := avail[h := avail[h] - {o}];
      assert avail.Keys == old(avail).Keys;
    }

    /** Every list is empty: the system is asked for a pool. */
    method AskForPool(h: nat, k: nat, grant: Option<nat>) returns (ok: bool)
      requires Valid() && h in avail && ORDER_MIN <= k <= MAX_ORDER
      requires grant.Some? ==> Unused(pools, grant.value, PoolOrderFor(k))
      requires forall o: nat :: k <= o <= MAX_ORDER ==> NothingListed(fl.lists, h, o)
      modifies this`rc, this`order, this`avail, this`g, this`pools, this`tracked, fl
      ensures Valid() && avail.Keys == old(avail).Keys && LiveBlocks(g) == LiveBlocks(old(g))
      ensures ok <==> !NoMemory(old(fl.lists), old(tracked), h, k, grant)
      ensures ok ==> PoolOrderFor(k) <= MAX_ORDER && !NothingListed(fl.lists, h, PoolOrderFor(k) - 1)
      ensures ok ==> PoolAdded(old(Now()), Now(), h, k, grant)
      ensures !ok ==> pools == old(pools) && tracked == old(tracked)
      ensures old(Exact()) ==> Exact()
      ensures TablesApart(old(tracked)) ==> TablesApart(tracked)
    {
      hide Settled, Linked, LiveBlocks, Unused, CascadeAdded, PoolOrderFor, Pow2, NoMemory, NothingListed, Accounted,
           TablesApart;
      ghost var lists0, tracked0 := fl.lists, tracked;
      ok := AddPool(h, k, grant);
      MemoryOrNot(lists0, tracked0, h, k, grant, ok);
      if ok { CascadeTop(lists0, fl.lists, h, grant.value, PoolOrderFor(k)); }
    }

    method LowestOf(candidates: set<nat>, h: nat, k: nat) returns (o: nat)
      requires candidates != {} && Tells(candidates, fl.lists, h, k) && Settled(Now()) && h in avail
      ensures o in candidates && (forall b :: b in candidates ==> o <= b) && k <= o <= MAX_ORDER
      ensures Head(h, o) in fl.lists
    {
      hide Sound;
      BitFacts(Now(), h);
      o := Lowest(candidates, k);
    }

    /** ray_alloc: a block of the least order that holds the header and `size` bytes,
        from the slab cache, else from the free lists, else from a new pool. */
    method Alloc(h: nat, size: nat, grant: Option<nat>) returns (r: Option<nat>)
      requires Valid() && h in avail
      requires grant.Some? ==> Unused(pools, grant.value, PoolOrderFor(OrderForSize(size)))
      modifies this`rc, this`order, this`avail, this`slabs, this`g, this`pools, this`tracked, this`bytes, fl
      ensures Valid() && avail.Keys == old(avail).Keys
      ensures bytes == if r.Some? then Charge(old(bytes), h, Pow2(OrderForSize(size))) else old(bytes)
      ensures old(Exact()) ==> Exact()
      ensures TablesApart(old(tracked)) ==> TablesApart(tracked)
      ensures r.Some? ==> r.value !in LiveBlocks(old(g)) && OrderForSize(size) <= MAX_ORDER
      ensures r.Some? ==> LiveBlocks(g) == LiveBlocks(old(g))[r.value := OrderForSize(size)]
      ensures r.None? ==> LiveBlocks(g) == LiveBlocks(old(g))
      ensures r.None? <==> || OrderForSize(size) > MAX_ORDER
                           || (NoSlab(old(slabs), h, OrderForSize(size))
                               && NoMemory(old(fl.lists), old(tracked), h, OrderForSize(size), grant))
      ensures r.Some? && NoSlab(old(slabs), h, OrderForSize(size)) ==>
                slabs == old(slabs) && Drawn(old(Now()), Now(), h, OrderForSize(size), grant, r.value)
      ensures r.Some? && !NoSlab(old(slabs), h, OrderForSize(size)) ==>
                Popped(old(slabs), slabs, h, OrderForSize(size), r.value) && fl.lists == old(fl.lists)
                && pools == old(pools) && tracked == old(tracked)
      ensures r.None? ==> pools == old(pools) && tracked == old(tracked)
    {
      hide Settled, Linked, LiveBlocks, Unused, NoMemory, OrderForSize, PoolOrderFor, Accounted, TablesApart, Pow2,
           Drawn;
      var k := OrderForSize(size);
      if k > MAX_ORDER { return None; }
      StackFacts(Now(), h);
      if k < ORDER_MIN + SLAB_ORDERS && |slabs[h][k - ORDER_MIN]| > 0 {
        var v := TakeSlab(h, k);
        bytes := Charge(bytes, h, Pow2(k));
        return Some(v);
      }
      r := AllocListed(h, k, grant);
    }

    /** The slow path: the least list that has a block, and its first block. */
    method AllocListed(h: nat, k: nat, grant: Option<nat>) returns (r: Option<nat>)
      requires Valid() && h in avail && ORDER_MIN <= k <= MAX_ORDER
      requires grant.Some? ==> Unused(pools, grant.value, PoolOrderFor(k))
      modifies this`rc, this`order, this`avail, this`g, this`pools, this`tracked, this`bytes, fl
      ensures Valid() && avail.Keys == old(avail).Keys
      ensures bytes == if r.Some? then Charge(old(bytes), h, Pow2(k)) else old(bytes)
      ensures old(Exact()) ==> Exact()
      ensures TablesApart(old(tracked)) ==> TablesApart(tracked)
      ensures r.Some? ==> r.value !in LiveBlocks(old(g)) && LiveBlocks(g) == LiveBlocks(old(g))[r.value := k]
      ensures r.Some? ==> Drawn(old(Now()), Now(), h, k, grant, r.value)
      ensures r.None? ==> LiveBlocks(g) == LiveBlocks(old(g)) && pools == old(pools) && tracked == old(tracked)
      ensures r.None? <==> NoMemory(old(fl.lists), old(tracked), h, k, grant)
    {
      hide Settled, Linked, LiveBlocks, Unused, NoMemory, PoolOrderFor, Accounted, TablesApart, Pow2, Drawn, Supplied,
           FromList;
      ghost var m := Now();
      var found := FindList(h, k, grant);
      if found.None? { return None; }
      ghost var s := Now();
      var v := TakeListed(h, found.value, k);
      DrawnFrom(m, s, Now(), h, k, grant, v, found.value);
      bytes := Charge(bytes, h, Pow2(k));
      r := Some(v);
    }

    /** The slab fast path: the top of the stack, its header reset. */
    method TakeSlab(h: nat, k: nat) returns (v: nat)
      requires Valid() && h in slabs && h in avail && ORDER_MIN <= k < ORDER_MIN + SLAB_ORDERS
      requires |slabs[h]| == SLAB_ORDERS && slabs[h][k - ORDER_MIN] != []
      modifies this`rc, this`order, this`slabs, this`g
      ensures Valid() && v !in LiveBlocks(old(g)) && LiveBlocks(g) == LiveBlocks(old(g))[v := k]
      ensures Popped(old(slabs), slabs, h, k, v)
      ensures old(Exact()) ==> ExactWith(Charge(bytes, h, Pow2(k)))
    {
      hide Linked, LiveBlocks, Put, SlabWith, Sound, HeadersOK, NothingHeld, Accounted, Pow2;
      var i := k - ORDER_MIN;
      v := slabs[h][i][|slabs[h][i]| - 1];
      SlabTopFacts(Now(), h, i, v);
      SlabTaken(Now(), h, i, v, Live, rc[v := 1]);
      LivePut(g, v);
      if old(Exact()) { ChargeCached(bytes, g, pools, registry, avail.Keys, v, h); }
      slabs := SlabPopped(slabs, h, i);
      assert order[v := k] == order;
      order := order[v := k];
      rc := rc[v := 1];
      g := Put(g, v, Live);
    }

    /** The first block of a non-empty list, split down to order `k` and handed out. */
    method TakeListed(h: nat, found: nat, k: nat) returns (v: nat)
      requires Valid() && h in avail && ORDER_MIN <= k <= found <= MAX_ORDER
      requires Head(h, found) in fl.lists && fl.lists[Head(h, found)] != []
      modifies this`rc, this`order, this`avail, this`g, fl
      ensures Valid() && avail.Keys == old(avail).Keys
      ensures v !in LiveBlocks(old(g)) && LiveBlocks(g) == LiveBlocks(old(g))[v := k]
      ensures FromList(old(fl.lists), fl.lists, h, v, k, found)
      ensures old(Exact()) ==> ExactWith(Charge(bytes, h, Pow2(k)))
    {
      hide Linked, LiveBlocks, Settled, SameUsed, OnlyHeld, Sound, HeadersOK, Accounted, Pow2, Grown, TakenOff, CutTo,
           FromList, SameRest;
      ghost var m := Now();
      SettledParts(m);
      ListedIsFree(m, h, found);
      v := fl.First(Head(h, found));
      TakenOnly(m, v, h);
      Unlink(h, v, found);
      SplitBlock(h, v, k, found, pools);
      CutFromList(m, Now(), h, v, k, found);
      HeldPlace(g, v);
      if old(Exact()) { ChargeListed(bytes, m.g, g, pools, registry, avail.Keys, v, h); }
      HandOut(v, k);
    }

    /** The header of a block given to a caller: reference count one. */
    method HandOut(v: nat, k: nat)
      requires fl.Valid() && Sound(Now()) && HeadersOK(g, pools) && OnlyHeld(g, v) && g.ord[v] == k
      requires (calm ==> !parallel) && registry <= avail.Keys
      modifies this`rc, this`order, this`g
      ensures Valid() && g == Put(old(g), v, Live)
    {
      hide Linked, Sound;
      SoundHandOut(Now(), v, Live);
      HeadersMoved(g, pools, v, Live);
      order := order[v := k];
      rc := rc[v := 1];
      g := Put(g, v, Live);
    }

    /** The flag that parallel execution raises; once raised, buddies may stay apart. */
    method SetParallel(on: bool)
      requires Valid()
      modifies this`parallel, this`calm
      ensures Valid() && parallel == on && calm == (old(calm) && !on) && (old(Exact()) ==> Exact())
      ensures Now() == old(Now()).(calm := calm)
    {
      hide TilesOK, BytesOK, ListsOK, SlabsOK, ForeignOK, AvailOK, Canonical, Linked, HeadersOK, Accounted;
      parallel := on;
      calm := calm && !on;
    }

    /** ray_heap_push_pending, its first step: no more blocks are returned to this heap. */
    method Unregister(h: nat)
      requires Valid()
      modifies this`registry
      ensures Valid() && registry == old(registry) - {h} && Now() == old(Now())
    {
      hide Settled, Linked;
      registry := registry - {h};
    }

    /** ray_free for a block in use: to the slab cache if it is ours and there is room,
        to the foreign queue if another heap owns its pool, else merged and listed. */
    method FreeBlock(h: nat, v: nat)
      requires Valid() && h in avail && v in LiveBlocks(g)
      modifies this`rc, this`order, this`avail, this`slabs, this`foreign, this`g, this`bytes, fl
      ensures Valid() && avail.Keys == old(avail).Keys && (old(Exact()) ==> Exact())
      ensures LiveBlocks(g) == LiveBlocks(old(g)) - {v}
      ensures v in old(g).home && old(g).home[v] in pools && v in old(g).ord
      ensures FreedTo(OwnedBy(old(g), pools, v, h), v, old(g).ord[v], h, old(slabs), slabs, old(foreign), foreign)
      ensures bytes ==
              if OwnedBy(old(g), pools, v, h) then Credit(old(bytes), h, Pow2(old(g).ord[v])) else old(bytes)
      ensures !OwnedBy(old(g), pools, v, h) ==> g == Put(old(g), v, Foreign(h)) && fl.lists == old(fl.lists)
      ensures OwnedBy(old(g), pools, v, h) && SlabRoom(old(slabs), h, old(g).ord[v]) ==>
                g == Put(old(g), v, Slab(h)) && fl.lists == old(fl.lists)
      ensures OwnedBy(old(g), pools, v, h) && !SlabRoom(old(slabs), h, old(g).ord[v]) ==>
                Now() == Given(old(Now()).(rc := old(rc)[v := 1], g := Put(old(g), v, Held)), h, v, parallel)
    {
      hide Linked, Settled, LiveBlocks, FreedTo, SlabRoom, Sound, Accounted, Given, Pow2;
      FreeFacts(Now(), h, v);
      rc := rc[v := 1];
      CountsOnly();
      var base := PoolOf(v);
      GiveBack(h, v, order[v], base, pools[base].owner == h);
    }

    /** Where the freed block goes, its count reset and its pool found. */
    method GiveBack(h: nat, v: nat, k: nat, base: nat, local: bool)
      requires Valid() && h in avail && v in LiveBlocks(g) && v in g.ord && g.ord[v] == k && LiveBlocks(g)[v] == k
      requires v in g.home && base == g.home[v] && base in pools && h in slabs && h in foreign
               && |slabs[h]| == SLAB_ORDERS
      requires local == (pools[base].owner == h)
      modifies this`rc, this`order, this`avail, this`slabs, this`foreign, this`g, this`bytes, fl
      ensures Valid() && avail.Keys == old(avail).Keys && (old(Exact()) ==> Exact())
      ensures LiveBlocks(g) == LiveBlocks(old(g)) - {v}
      ensures FreedTo(local, v, k, h, old(slabs), slabs, old(foreign), foreign)
      ensures bytes == if local then Credit(old(bytes), h, Pow2(k)) else old(bytes)
      ensures !local ==> g == Put(old(g), v, Foreign(h)) && fl.lists == old(fl.lists)
      ensures local && SlabRoom(old(slabs), h, k) ==> g == Put(old(g), v, Slab(h)) && fl.lists == old(fl.lists)
      ensures local && !SlabRoom(old(slabs), h, k) ==>
                Now() == Given(old(Now()).(g := Put(old(g), v, Held)), h, v, parallel)
    {
      hide Linked, Settled, LiveBlocks, FreedTo, SlabRoom, Sound, Accounted, Pow2, Given;
      FreedCases(h, v, k, slabs, foreign);
      if ORDER_MIN <= k < ORDER_MIN + SLAB_ORDERS && local && |slabs[h][k - ORDER_MIN]| < SLAB_CACHE {
        PushSlab(h, v, k - ORDER_MIN);
        bytes := Credit(bytes, h, Pow2(k));
      } else if !local {
        PushForeign(h, v);
      } else {
        RecycleLive(h, v, base);
        bytes := Credit(bytes, h, Pow2(k));
      }
    }

    method RecycleLive(h: nat, v: nat, base: nat)
      requires Valid() && v in LiveBlocks(g) && h in avail && v in g.home && base == g.home[v] && base in pools
      modifies this`rc, this`order, this`avail, this`g, fl
      ensures Valid() && avail.Keys == old(avail).Keys
      ensures LiveBlocks(g) == LiveBlocks(old(g)) - {v}
      ensures Now() == Given(old(Now()).(g := Put(old(g), v, Held)), h, v, parallel)
      ensures old(Exact()) && OwnedBy(old(g), pools, v, h) ==> ExactWith(Credit(bytes, h, SizeAt(old(g), v)))
    {
      hide Linked, Settled, LiveBlocks, Sound, HeadersOK, OnlyHeld, NothingHeld, Accounted, SameUsed, Grown, Pow2,
           Given;
      SettledParts(Now());
      LiveFacts(Now(), v);
      InTransit(Now(), v);
      LiveGone(g, v, Held);
      ghost var exact := old(Exact()) && OwnedBy(g, pools, v, h);
      if exact { Credited(bytes, g, pools, registry, avail.Keys, v, h, Held); }
      g := Put(g, v, Held);
      GroundOnly();
      ghost var g1 := g;
      Recycle(h, v, base);
      KeysAgree(Now()) by { SettledParts(Now()); }
      if exact { KeepsExact(Credit(bytes, h, SizeAt(old(g), v)), g1, g, pools, registry, avail.Keys, h, base); }
    }

    method PushSlab(h: nat, v: nat, i: nat)
      requires Valid() && v in LiveBlocks(g) && LiveBlocks(g)[v] == ORDER_MIN + i && SlabRoom(slabs, h, ORDER_MIN + i)
      requires OwnedBy(g, pools, v, h)
      modifies this`slabs, this`g
      ensures old(Exact()) ==> ExactWith(Credit(bytes, h, SizeAt(old(g), v)))
      ensures Valid() && LiveBlocks(g) == LiveBlocks(old(g)) - {v} && g == Put(old(g), v, Slab(h))
      ensures h in old(slabs) && i < |old(slabs)[h]| && slabs == SlabPushed(old(slabs), h, i, v)
    {
      hide Linked, Settled, SlabPushed, Accounted, Pow2, LiveBlocks;
      LiveFacts(Now(), v) by { SettledParts(Now()); }
      SlabGiven(Now(), h, v);
      if old(Exact()) { Credited(bytes, g, pools, registry, avail.Keys, v, h, Slab(h)); }
      LiveGone(g, v, Slab(h));
      slabs := SlabPushed(slabs, h, i, v);
      g := Put(g, v, Slab(h));
    }

    method PushForeign(h: nat, v: nat)
      requires Valid() && v in LiveBlocks(g) && h in foreign
      requires v in g.home && g.home[v] in pools && !OwnedBy(g, pools, v, h)
      modifies this`foreign, this`g
      ensures old(Exact()) ==> Exact()
      ensures Valid() && LiveBlocks(g) == LiveBlocks(old(g)) - {v}
      ensures foreign == old(foreign)[h := [v] + old(foreign)[h]] && g == Put(old(g), v, Foreign(h))
    {
      hide Linked, Settled, Accounted, LiveBlocks;
      LiveFacts(Now(), v) by { SettledParts(Now()); }
      ForeignGiven(Now(), h, v);
      if old(Exact()) { QueuedKeeps(bytes, g, pools, registry, avail.Keys, v, h); }
      LiveGone(g, v, Foreign(h));
      foreign := foreign[h := [v] + foreign[h]];
      g := Put(g, v, Foreign(h));
    }

    /** A block in transit merged with its free buddies and listed by heap `h`. */
    method Recycle(h: nat, v: nat, base: nat)
      requires fl.Valid() && Sound(Now()) && HeadersOK(g, pools) && OnlyHeld(g, v) && h in avail
      requires (calm ==> !parallel) && registry <= avail.Keys
      requires v in order && order[v] == g.ord[v] && v in g.home && base == g.home[v] && base in pools
      modifies this`rc, this`order, this`avail, this`g, fl
      ensures Valid() && avail.Keys == old(avail).Keys && LiveBlocks(g) == LiveBlocks(old(g))
      ensures SameUsed(old(g), g) && Grown(old(g), g, h, base) && Now() == Given(old(Now()), h, v, parallel)
    {
      hide Linked, Sound, SameUsed, LiveBlocks, OnlyHeld, HeadersOK, Grown, Given;
      ghost var g0 := g;
      KeysAgree(Now());
      GivenKeeps(Now(), h, v, parallel);
      Coalesce(h, v, base, pools[base].order);
      KeysAgree(Now());
      SameUsedLive(g0, g);
    }

    /** Takes the top of a slab stack of heap `h` and gives it to heap `to`'s free lists. */
    method DrainSlab(h: nat, i: nat, to: nat)
      requires Valid() && h in slabs && to in avail && i < SLAB_ORDERS && |slabs[h]| == SLAB_ORDERS && slabs[h][i] != []
      modifies this`rc, this`order, this`avail, this`slabs, this`g, fl
      ensures Valid() && avail.Keys == old(avail).Keys && LiveBlocks(g) == LiveBlocks(old(g))
      ensures slabs == SlabPopped(old(slabs), h, i)
      ensures var x := old(slabs)[h][i][|old(slabs)[h][i]| - 1];
              Now() == Given(Moved(old(Now()), x, Held, old(rc), slabs, old(foreign)), to, x, parallel)
      ensures old(Exact()) && to == h ==> Exact()
      ensures parallel ==> Adopts(old(g), g, h, to)
    {
      hide Linked, Settled, LiveBlocks, Sound, HeadersOK, OnlyHeld, SlabPopped, Accounted, SameUsed, Grown, Adopts,
           Given;
      var blk := slabs[h][i][|slabs[h][i]| - 1];
      SlabTopFacts(Now(), h, i, blk);
      SlabTaken(Now(), h, i, blk, Held, rc);
      LiveUnmoved(g, blk, Held);
      if old(Exact()) { TakenKeeps(bytes, g, pools, registry, avail.Keys, blk, h); }
      slabs := SlabPopped(slabs, h, i);
      g := Put(g, blk, Held);
      SlabsOnly();
      ghost var g1 := g;
      if parallel { GivenAdopts(Now(), blk, h, to, old(g)); }
      var base := Locate(to, blk);
      Recycle(to, blk, base);
      KeysAgree(Now()) by { SettledParts(Now()); }
      if old(Exact()) && to == h { KeepsExact(bytes, g1, g, pools, registry, avail.Keys, h, base); }
    }

    /** heap_flush_slabs: every cached block back to the free lists. */
    method FlushSlabs(h: nat)
      requires Valid() && h in avail
      modifies this`rc, this`order, this`avail, this`slabs, this`g, fl
      ensures Valid() && avail.Keys == old(avail).Keys && LiveBlocks(g) == LiveBlocks(old(g))
      ensures h in old(slabs) && slabs == old(slabs)[h := [[], [], [], [], []]]
      ensures old(Exact()) ==> Exact()
      ensures old(slabs)[h] == [[], [], [], [], []] ==> Now() == old(Now())
    {
      hide Linked, Settled, LiveBlocks, SlabPopped, Sound, HeadersOK, NothingHeld, Accounted, Given;
      ghost var slabs0, m := slabs, Now();
      SettledParts(Now());
      HasTables(Now(), h);
      StackFacts(Now(), h);
      var i := 0;
      while i < SLAB_ORDERS
        invariant Valid() && avail.Keys == old(avail).Keys && LiveBlocks(g) == LiveBlocks(old(g))
        invariant i <= SLAB_ORDERS && StacksBelow(slabs0, slabs, h, i) && (old(Exact()) ==> Exact())
        invariant slabs0[h] == [[], [], [], [], []] ==> Now() == m
      {
        while slabs[h][i] != []
          invariant Valid() && avail.Keys == old(avail).Keys && LiveBlocks(g) == LiveBlocks(old(g))
          invariant i < SLAB_ORDERS && StacksBelow(slabs0, slabs, h, i) && (old(Exact()) ==> Exact())
          invariant slabs0[h] == [[], [], [], [], []] ==> Now() == m
          decreases |slabs[h][i]|
        {
          ghost var slabs1 := slabs;
          DrainSlab(h, i, h);
          PoppedStacks(slabs0, slabs1, h, i);
        }
        i := i + 1;
      }
      assert slabs[h] == [[], [], [], [], []];
      assert slabs == slabs0[h := [[], [], [], [], []]];
    }

    /** Takes the first block of a foreign queue and gives it to heap `to`. */
    method DrainForeign(h: nat, to: nat, ghost counts: map<nat, int>)
      requires Valid() && h in foreign && foreign[h] != [] && to in avail
      modifies this`rc, this`order, this`avail, this`foreign, this`g, fl
      ensures Valid() && avail.Keys == old(avail).Keys && LiveBlocks(g) == LiveBlocks(old(g))
      ensures foreign == old(foreign)[h := old(foreign)[h][1..]]
      ensures var x := old(foreign)[h][0];
              Now() == Given(Moved(old(Now()), x, Held, old(rc), old(slabs), foreign), to, x, parallel)
      ensures old(ExactWith(counts)) && OwnedBy(old(g), pools, old(foreign)[h][0], to) ==>
                ExactWith(Credit(counts, to, SizeAt(old(g), old(foreign)[h][0])))
      ensures parallel ==> Adopts(old(g), g, h, to)
    {
      hide Linked, Settled, LiveBlocks, Sound, HeadersOK, OnlyHeld, Accounted, SameUsed, Grown, Pow2, Adopts, Given;
      var blk := foreign[h][0];
      ForeignTaken(Now(), h);
      LiveUnmoved(g, blk, Held);
      HomeFacts(Now(), blk) by { SettledParts(Now()); }
      ghost var exact := old(ExactWith(counts)) && OwnedBy(g, pools, blk, to);
      if exact { Credited(counts, g, pools, registry, avail.Keys, blk, to, Held); }
      foreign := foreign[h := foreign[h][1..]];
      g := Put(g, blk, Held);
      QueuesOnly();
      ghost var g1 := g;
      if parallel { GivenAdopts(Now(), blk, h, to, old(g)); }
      var base := Locate(to, blk);
      Recycle(to, blk, base);
      KeysAgree(Now()) by { SettledParts(Now()); }
      if exact { KeepsExact(Credit(counts, to, SizeAt(old(g), blk)), g1, g, pools, registry, avail.Keys, to, base); }
    }

    /** heap_flush_foreign: each queued block back to the heap that owns its pool, or to
        this heap when the owner is gone. */
    method FlushForeign(h: nat, returnToOwner: bool)
      requires Valid() && h in avail
      modifies this`rc, this`order, this`avail, this`foreign, this`g, this`bytes, fl
      ensures Valid() && avail.Keys == old(avail).Keys && LiveBlocks(g) == LiveBlocks(old(g))
      ensures h in old(foreign) && foreign == if returnToOwner then old(foreign)[h := []] else old(foreign)
      ensures old(Exact()) ==> Exact()
      ensures !returnToOwner || old(foreign)[h] == [] ==> Now() == old(Now())
    {
      hide Linked, Settled, LiveBlocks, Sound, HeadersOK, NothingHeld, Accounted, Pow2;
      SettledParts(Now());
      HasTables(Now(), h);
      if !returnToOwner { return; }
      ghost var foreign0, m := foreign, Now();
      while foreign[h] != []
        invariant Valid() && avail.Keys == old(avail).Keys && LiveBlocks(g) == LiveBlocks(old(g))
        invariant h in foreign && foreign == foreign0[h := foreign[h]] && (old(Exact()) ==> Exact())
        invariant foreign0[h] == [] ==> Now() == m
        decreases |foreign[h]|
      {
        ReturnFirst(h);
      }
    }

    /** Which heap takes the first queued block, debited if it is not `h` itself. */
    method OwnerFor(h: nat) returns (to: nat)
      requires Valid() && h in avail && h in foreign && foreign[h] != []
      modifies this`bytes
      ensures Valid() && Now() == old(Now()) && to in avail
      ensures var x := foreign[h][0];
              && x in g.home && g.home[x] in pools && x in g.ord
              && var owner := pools[g.home[x]].owner;
              && to == (if owner in registry then owner else h)
              && bytes == (if to != h then Credit(old(bytes), to, Pow2(g.ord[x])) else old(bytes))
              && (old(Exact()) ==> owner == to != h)
    {
      hide Linked, Settled, LiveBlocks, Accounted, Pow2, Sound;
      QueuedBlock(Now(), h);
      var blk := foreign[h][0];
      var base := PoolOf(blk);
      var owner := pools[base].owner;
      if Exact() { QueuedAway(bytes, g, pools, registry, avail.Keys, blk, h); }
      if owner !in registry || owner == h { return h; }
      bytes := Credit(bytes, owner, Pow2(order[blk]));
      to := owner;
    }

    /** The first queued block to the owner of its pool, whose counter it leaves, or, the
        owner gone, to this heap. */
    method ReturnFirst(h: nat)
      requires Valid() && h in avail && h in foreign && foreign[h] != []
      modifies this`rc, this`order, this`avail, this`foreign, this`g, this`bytes, fl
      ensures Valid() && avail.Keys == old(avail).Keys && LiveBlocks(g) == LiveBlocks(old(g))
      ensures foreign == old(foreign)[h := old(foreign)[h][1..]]
      ensures var x := old(foreign)[h][0];
              && x in old(g).home && old(g).home[x] in pools && x in old(g).ord
              && var owner := pools[old(g).home[x]].owner;
              && bytes == (if owner in registry - {h} then Credit(old(bytes), owner, Pow2(old(g).ord[x]))
                 else old(bytes))
              && Now() == Given(Moved(old(Now()), x, Held, old(rc), old(slabs), foreign),
                                if owner in registry then owner else h, x, parallel)
      ensures old(Exact()) ==> Exact()
    {
      hide Linked, Settled, LiveBlocks, Accounted, Pow2, Sound, Given, Adopts, Moved;
      ghost var counts := bytes;
      var to := OwnerFor(h);
      DrainForeign(h, to, counts);
    }

    /** One cached block of `src` into the cache of `dst`, which has room. */
    method MoveSlab(dst: nat, src: nat, i: nat)
      requires Valid() && src in slabs && dst in slabs && src != dst && i < SLAB_ORDERS
      requires |slabs[src]| == |slabs[dst]| == SLAB_ORDERS && slabs[src][i] != [] && |slabs[dst][i]| < SLAB_CACHE
      modifies this`slabs, this`g
      ensures Valid() && LiveBlocks(g) == LiveBlocks(old(g))
      ensures slabs == SlabMoved(old(slabs), dst, src, i) && Adopts(old(g), g, src, dst)
    {
      hide Linked, Settled, LiveBlocks, SlabPopped, SlabPushed, Adopts;
      var v := slabs[src][i][|slabs[src][i]| - 1];
      SlabTopFacts(Now(), src, i, v);
      AdoptsOne(g, v, Slab(dst), src, dst);
      SlabHandedOver(Now(), dst, src, i, v);
      slabs := SlabMoved(slabs, dst, src, i);
      g := Put(g, v, Slab(dst));
    }

    /** ray_heap_merge, first part: the caches of `src` into those of `dst` as far as
        they fit, the rest to the free lists of `dst`. */
    method MergeSlabs(dst: nat, src: nat)
      requires Valid() && src in avail && dst in avail && src != dst
      modifies this`rc, this`order, this`avail, this`slabs, this`g, fl
      ensures Valid() && avail.Keys == old(avail).Keys && LiveBlocks(g) == LiveBlocks(old(g))
      ensures src in slabs && slabs[src] == [[], [], [], [], []] && (parallel ==> Adopts(old(g), g, src, dst))
    {
      hide Linked, Settled, LiveBlocks, SlabPopped, SlabMoved, Sound, HeadersOK, NothingHeld, Adopts, Given;
      StackFacts(Now(), src);
      StackFacts(Now(), dst);
      AdoptsRefl(g, src, dst);
      var i := 0;
      while i < SLAB_ORDERS
        invariant Valid() && avail.Keys == old(avail).Keys && LiveBlocks(g) == LiveBlocks(old(g))
        invariant parallel ==> Adopts(old(g), g, src, dst)
        invariant i <= SLAB_ORDERS && TwoCaches(slabs, dst, src, i)
      {
        while slabs[src][i] != [] && |slabs[dst][i]| < SLAB_CACHE
          invariant Valid() && avail.Keys == old(avail).Keys && LiveBlocks(g) == LiveBlocks(old(g))
          invariant parallel ==> Adopts(old(g), g, src, dst)
          invariant i < SLAB_ORDERS && TwoCaches(slabs, dst, src, i)
          decreases |slabs[src][i]|
        {
          MovedStacks(slabs, dst, src, i);
          ghost var g1 := g;
          MoveSlab(dst, src, i);
          if parallel { AdoptsTrans(old(g), g1, g, src, dst); }
        }
        while slabs[src][i] != []
          invariant Valid() && avail.Keys == old(avail).Keys && LiveBlocks(g) == LiveBlocks(old(g))
          invariant parallel ==> Adopts(old(g), g, src, dst)
          invariant i < SLAB_ORDERS && TwoCaches(slabs, dst, src, i)
          decreases |slabs[src][i]|
        {
          DrainedStacks(slabs, dst, src, i);
          ghost var g1 := g;
          DrainSlab(src, i, dst);
          if parallel { AdoptsTrans(old(g), g1, g, src, dst); }
        }
        i := i + 1;
      }
      assert slabs[src] == [[], [], [], [], []];
    }

    method MergeForeign(dst: nat, src: nat)
      requires Valid() && src in avail && dst in avail && src != dst
      modifies this`rc, this`order, this`avail, this`foreign, this`g, fl
      ensures Valid() && avail.Keys == old(avail).Keys && LiveBlocks(g) == LiveBlocks(old(g))
      ensures src in old(foreign) && foreign == old(foreign)[src := []] && (parallel ==> Adopts(old(g), g, src, dst))
    {
      hide Linked, Settled, LiveBlocks, Sound, HeadersOK, NothingHeld, Adopts, Given, Moved;
      SettledParts(Now());
      HasTables(Now(), src);
      AdoptsRefl(g, src, dst);
      ghost var foreign0 := foreign;
      while foreign[src] != []
        invariant Valid() && avail.Keys == old(avail).Keys && LiveBlocks(g) == LiveBlocks(old(g))
        invariant src in foreign && foreign == foreign0[src := foreign[src]]
                  && (parallel ==> Adopts(old(g), g, src, dst))
        decreases |foreign[src]|
      {
        ghost var g1 := g;
        DrainForeign(src, dst, bytes);
        if parallel { AdoptsTrans(old(g), g1, g, src, dst); }
      }
    }

    /** The free lists of `src` spliced, order by order, in front of those of `dst`. */
    method MergeLists(dst: nat, src: nat)
      requires Valid() && src in avail && dst in avail && src != dst
      modifies this`avail, this`g, fl
      ensures Valid() && avail.Keys == old(avail).Keys && LiveBlocks(g) == LiveBlocks(old(g))
      ensures avail[src] == {} && forall o: nat :: o <= MAX_ORDER ==> NothingListed(fl.lists, src, o)
      ensures Adopts(old(g), g, src, dst)
    {
      hide Linked, Settled, LiveBlocks, Sound, HeadersOK, NothingHeld, NothingListed, Adopted, Adopts;
      ghost var keys := avail.Keys;
      AdoptsRefl(g, src, dst);
      SmallOrdersEmpty(Now(), src);
      var o := ORDER_MIN;
      while o <= MAX_ORDER
        invariant Valid() && avail.Keys == keys && LiveBlocks(g) == LiveBlocks(old(g))
        invariant ORDER_MIN <= o <= MAX_ORDER + 1 && Adopts(old(g), g, src, dst)
        invariant forall j: nat :: j < o ==> NothingListed(fl.lists, src, j)
      {
        ghost var g1 := g;
        MergeOrder(dst, src, o);
        AdoptsTrans(old(g), g1, g, src, dst);
        o := o + 1;
      }
      NoBits(Now(), src);
      avail := avail[src := {}];
    }

    /** One circular splice, and the bit it calls for. */
    method MergeOrder(dst: nat, src: nat, o: nat)
      requires Valid() && src in avail && dst in avail && src != dst && o <= MAX_ORDER
      requires forall j: nat :: j < o ==> NothingListed(fl.lists, src, j)
      modifies this`avail, this`g, fl
      ensures Valid() && avail.Keys == old(avail).Keys && LiveBlocks(g) == LiveBlocks(old(g))
      ensures forall j: nat :: j < o + 1 ==> NothingListed(fl.lists, src, j)
      ensures Adopts(old(g), g, src, dst)
    {
      hide Linked, Settled, LiveBlocks, NothingListed, Adopted, Adopts;
      AdoptsRefl(g, src, dst);
      TwoLists(Now(), src, dst, o);
      var empty := fl.IsEmpty(Head(src, o));
      if empty {
        EmptyIs(fl.lists, src, o);
        return;
      }
      ghost var lists := fl.lists;
      SpliceOrder(dst, src, o);
      StillEmpty(lists, fl.lists, dst, src, o);
    }

    method SpliceOrder(dst: nat, src: nat, o: nat)
      requires Valid() && dst in avail && src != dst && Head(src, o) in fl.lists && Head(dst, o) in fl.lists
      requires fl.lists[Head(src, o)] != []
      modifies this`avail, this`g, fl
      ensures Valid() && avail.Keys == old(avail).Keys && LiveBlocks(g) == LiveBlocks(old(g))
      ensures Head(src, o) in old(fl.lists) && Head(dst, o) in old(fl.lists)
      ensures fl.lists == old(fl.lists)[Head(dst, o) := old(fl.lists)[Head(src, o)] + old(fl.lists)[Head(dst, o)]]
                                       [Head(src, o) := []]
      ensures Adopts(old(g), g, src, dst)
    {
      hide Linked, Settled, LiveBlocks, Adopted, Adopts;
      AdoptsOrder(g, src, dst, o);
      Spliced(Now(), dst, src, o);
      fl.Splice(Head(dst, o), Head(src, o));
      avail := avail[dst := avail[dst] + {o}];
      g := Adopted(g, src, dst, o);
    }

    method MovePool(dst: nat, b: nat)
      requires Valid() && b in pools && dst in tracked
      modifies this`pools, this`tracked
      ensures Valid() && b in old(pools) && pools == old(pools)[b := old(pools)[b].(owner := dst)]
      ensures dst in old(tracked) && tracked == if |old(tracked)[dst]| < MAX_POOLS
                                                then old(tracked)[dst := old(tracked)[dst] + [b]] else old(tracked)
    {
      hide Linked, Settled;
      PoolMoves(Now(), b, dst);
      pools := pools[b := pools[b].(owner := dst)];
      if |tracked[dst]| < MAX_POOLS {
        tracked := tracked[dst := tracked[dst] + [b]];
      }
      OwnersOnly();
    }

    /** The pools of `src` change owner; their table entries move while there is room. */
    method MergePools(dst: nat, src: nat)
      requires Valid() && src in avail && dst in avail && src != dst
      modifies this`pools, this`tracked
      ensures Valid() && src in old(tracked) && dst in old(tracked) && tracked.Keys == old(tracked).Keys
      ensures pools == Owned(old(pools), old(tracked)[src], dst)
      ensures tracked[src] == []
      ensures tracked[dst] == Fitting(old(tracked)[dst], old(tracked)[src])
      ensures forall k :: k in tracked && k != dst && k != src ==> tracked[k] == old(tracked)[k]
      ensures TablesApart(old(tracked)) ==> TablesApart(tracked)
    {
      hide Linked, Settled, Owned, Fitting, Sound, HeadersOK, NothingHeld, TablesApart;
      ghost var pools0, tracked0 := pools, tracked;
      PoolTables(Now(), dst, src);
      var moving := tracked[src];
      OwnedNone(pools, dst);
      FittingNone(tracked[dst]);
      var i := 0;
      while i < |moving|
        invariant 0 <= i <= |moving| && Valid() && tracked.Keys == tracked0.Keys && tracked[src] == moving
        invariant pools == Owned(pools0, moving[..i], dst) && pools.Keys == pools0.Keys
        invariant tracked[dst] == Fitting(tracked0[dst], moving[..i]) && |tracked[dst]| <= MAX_POOLS
        invariant forall k :: k in tracked && k != dst && k != src ==> tracked[k] == tracked0[k]
      {
        var b := moving[i];
        OwnedNext(pools0, moving, i, dst);
        FittingNext(tracked0[dst], moving, i);
        MovePool(dst, b);
        i := i + 1;
      }
      assert moving[..i] == moving;
      TableCleared(Now(), src);
      tracked := tracked[src := []];
      ApartMoved(tracked0, tracked, dst, src);
    }

    /** ray_heap_merge: everything heap `src` holds becomes heap `dst`'s. */
    method Merge(dst: nat, src: nat)
      requires Valid() && src in avail && dst in avail && src != dst
      modifies this`rc, this`order, this`avail, this`slabs, this`foreign, this`g, this`pools, this`tracked, this`bytes,
               fl
      ensures Valid() && avail.Keys == old(avail).Keys && LiveBlocks(g) == LiveBlocks(old(g))
      ensures bytes == Charge(old(bytes), dst, CountOf(old(bytes), src))
      ensures TablesApart(old(tracked)) ==> TablesApart(tracked)
      ensures src in slabs && slabs[src] == [[], [], [], [], []] && src in old(foreign)
              && foreign == old(foreign)[src := []]
      ensures avail[src] == {} && forall o: nat :: o <= MAX_ORDER ==> NothingListed(fl.lists, src, o)
      ensures src in old(tracked) && dst in old(tracked) && pools == Owned(old(pools), old(tracked)[src], dst)
      ensures tracked == old(tracked)[dst := Fitting(old(tracked)[dst], old(tracked)[src])][src := []]
      ensures parallel ==> Adopts(old(g), g, src, dst)
    {
      hide Linked, Settled, LiveBlocks, NothingListed, Owned, TablesApart, Adopts;
      bytes := Charge(bytes, dst, CountOf(bytes, src));
      MergeBlocks(dst, src);
      MergePools(dst, src);
      assert tracked == old(tracked)[dst := Fitting(old(tracked)[dst], old(tracked)[src])][src := []];
    }

    /** The caches, the queue and the free lists. */
    method MergeBlocks(dst: nat, src: nat)
      requires Valid() && src in avail && dst in avail && src != dst
      modifies this`rc, this`order, this`avail, this`slabs, this`foreign, this`g, fl
      ensures Valid() && avail.Keys == old(avail).Keys && LiveBlocks(g) == LiveBlocks(old(g))
      ensures src in slabs && slabs[src] == [[], [], [], [], []] && src in old(foreign)
              && foreign == old(foreign)[src := []]
      ensures avail[src] == {} && forall o: nat :: o <= MAX_ORDER ==> NothingListed(fl.lists, src, o)
      ensures parallel ==> Adopts(old(g), g, src, dst)
    {
      hide Linked, Settled, LiveBlocks, NothingListed, Adopts;
      MergeSlabs(dst, src);
      ghost var g1 := g;
      MergeForeign(dst, src);
      ghost var g2 := g;
      MergeLists(dst, src);
      if parallel {
        AdoptsTrans(old(g), g1, g2, src, dst);
        AdoptsTrans(old(g), g2, g, src, dst);
      }
    }
  }
}
