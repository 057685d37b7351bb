/** Whole runs: any sequence of calls on any number of heaps, and a client's own record
    of what it holds. */
module HeapRuns {
  import opened Tiles
  import opened FreeLists
  import opened HeapModel
  import opened HeapSteps
  import opened HeapBytes
  import opened HeapMerge
  import opened HeapReturn
  import opened Heap
  import HeapGc
  import HeapTheorems
  import opened Options

  datatype Call =
    | NewHeap(h: nat)
    | Alloc(h: nat, size: nat, grant: Option<nat>)
    | Free(h: nat, v: nat)
    | FlushSlabs(h: nat)
    | FlushForeign(h: nat, returnToOwner: bool)
    | Merge(dst: nat, src: nat)
    | Retire(h: nat)
    | Collect(h: nat)
    | SetParallel(on: bool)

  ghost predicate AddressesApart(held: map<nat, nat>) {
    forall x, y :: x in held && y in held && x < y ==> x + Pow2(held[x]) <= y
  }

  /** A collection about to walk over the lists of heap `h`. */
  datatype Start = Start(m: Mem, h: nat, registry: set<nat>)

  ghost predicate Begins(s: Start) { Settled(s.m) && s.h in s.m.avail && s.registry <= s.m.avail.Keys }

  ghost predicate Kept(s: Start) { Walks(s.m, s.h, s.registry, ORDER_MIN).Some? }

  /** What a call may change: the allocator's books, the heaps that are registered, and the
      flag raised while workers run. */
  datatype World = World(m: Mem, registry: set<nat>, parallel: bool)

  ghost function Here(a: Allocator): World
    reads a, a.fl
  {
    World(a.Now(), a.registry, a.parallel)
  }

  /** The grant a call is served with: aligned, and clear of every pool there is. */
  function Granted(pools: Pools, k: nat, grant: Option<nat>): Option<nat> {
    if grant.Some? && Unused(pools, grant.value, PoolOrderFor(k)) then grant else None
  }

  ghost predicate Opened(m: Mem, n: Mem, h: nat) {
    && n.avail == m.avail[h := {}] && n.tracked == m.tracked[h := []] && n.foreign == m.foreign[h := []]
    && n.slabs == m.slabs[h := [[], [], [], [], []]] && EmptyLists(m.lists, n.lists, h, MAX_ORDER + 1)
    && n.g == m.g && n.pools == m.pools && n.rc == m.rc && n.order == m.order
  }

  /** A block of order `k` handed out by heap `h`, or none to be had. */
  ghost predicate Got(m: Mem, n: Mem, h: nat, k: nat, grant: Option<nat>, r: Option<nat>) {
    && (r.None? <==> k > MAX_ORDER || (NoSlab(m.slabs, h, k) && NoMemory(m.lists, m.tracked, h, k, grant)))
    && LiveBlocks(n.g) == (if r.Some? then LiveBlocks(m.g)[r.value := k] else LiveBlocks(m.g))
    && (r.Some? ==> r.value !in LiveBlocks(m.g))
    && (r.Some? && NoSlab(m.slabs, h, k) ==> n.slabs == m.slabs && Drawn(m, n, h, k, grant, r.value))
    && (r.Some? && !NoSlab(m.slabs, h, k) ==> Popped(m.slabs, n.slabs, h, k, r.value) && n.lists == m.lists)
  }

  /** A block in use returned through heap `h`: cached, merged and listed, or queued. */
  ghost predicate Freed(m: Mem, n: Mem, h: nat, v: nat, parallel: bool) {
    && v in m.g.ord && LiveBlocks(n.g) == LiveBlocks(m.g) - {v} && n.pools == m.pools
    && FreedTo(OwnedBy(m.g, m.pools, v, h), v, m.g.ord[v], h, m.slabs, n.slabs, m.foreign, n.foreign)
    && (OwnedBy(m.g, m.pools, v, h) && !SlabRoom(m.slabs, h, m.g.ord[v]) ==>
          n == Given(m.(rc := m.rc[v := 1], g := Put(m.g, v, Held)), h, v, parallel))
  }

  ghost predicate Uncached(m: Mem, n: Mem, h: nat) {
    && LiveBlocks(n.g) == LiveBlocks(m.g) && n.foreign == m.foreign && n.pools == m.pools
    && h in m.slabs && n.slabs == m.slabs[h := [[], [], [], [], []]]
  }

  ghost predicate SentBack(m: Mem, n: Mem, h: nat) {
    && LiveBlocks(n.g) == LiveBlocks(m.g) && n.slabs == m.slabs && n.pools == m.pools
    && h in m.foreign && n.foreign == m.foreign[h := []]
  }

  /** Everything of `src` is with `dst` but what is in use, and the queue is empty. */
  ghost predicate MergedInto(m: Mem, n: Mem, dst: nat, src: nat) {
    && LiveBlocks(n.g) == LiveBlocks(m.g) && src in m.foreign && n.foreign == m.foreign[src := []]
    && src in n.slabs && n.slabs[src] == [[], [], [], [], []] && src in n.avail && n.avail[src] == {}
    && (forall o: nat :: o <= MAX_ORDER ==> NothingListed(n.lists, src, o))
    && src in m.tracked && dst in m.tracked && n.pools == Owned(m.pools, m.tracked[src], dst)
    && n.tracked == m.tracked[dst := Fitting(m.tracked[dst], m.tracked[src])][src := []]
  }

  /** A collection that kept to its lists: the cache of `h` empty, its queue too unless
      workers run, and then no spare pool but a last one left in a registered heap's table. */
  ghost predicate Collected(w: World, n: Mem, h: nat) {
    && LiveBlocks(n.g) == LiveBlocks(w.m.g) && HeapGc.NoneCached(n, h)
    && h in w.m.foreign && n.foreign == (if w.parallel then w.m.foreign else w.m.foreign[h := []])
    && (!w.parallel ==> forall k: nat :: k < HeapGc.REGISTRY_SIZE && k in w.registry ==> HeapGc.NoneLeft(n, k))
    && (forall b :: b in n.pools ==> b in w.m.pools && n.pools[b] == w.m.pools[b])
    && (forall b :: b in w.m.pools && b !in n.pools ==> !w.parallel && w.m.pools[b].order > POOL_ORDER)
  }

  /** What one call does to the world, and the address it yields. */
  ghost predicate Did(w: World, call: Call, r: Option<nat>, u: World) {
    && (!call.Alloc? ==> r.None?)
    && (!call.NewHeap? && !call.Retire? ==> u.registry == w.registry)
    && (!call.SetParallel? ==> u.parallel == w.parallel)
    && match call
       case NewHeap(h) => if h in w.m.avail then u == w else u.registry == w.registry + {h} && Opened(w.m, u.m, h)
       case Alloc(h, size, grant) =>
         var k := OrderForSize(size);
         if h in w.m.avail then Got(w.m, u.m, h, k, Granted(w.m.pools, k, grant), r) else u == w && r.None?
       case Free(h, v) =>
         if h in w.m.avail && v in LiveBlocks(w.m.g) then Freed(w.m, u.m, h, v, w.parallel) else u == w
       case FlushSlabs(h) =>
         if h in w.m.avail then Uncached(w.m, u.m, h) else u == w
       case FlushForeign(h, returnToOwner) =>
         if h in w.m.avail && returnToOwner then SentBack(w.m, u.m, h) else u == w
       case Merge(dst, src) =>
         if dst in w.m.avail && src in w.m.avail && dst != src then MergedInto(w.m, u.m, dst, src) else u == w
       case Retire(h) => u == w.(registry := w.registry - {h})
       case Collect(h) => if h in w.m.avail then Collected(w, u.m, h) else u == w
       case SetParallel(on) => u == w.(m := w.m.(calm := w.m.calm && !on), parallel := on)
  }

  /** A run: the worlds before, between and after the calls. */
  ghost predicate Runs(trace: seq<World>, calls: seq<Call>, found: seq<Option<nat>>) {
    && |trace| == |found| + 1 && |found| <= |calls|
    && forall i :: 0 <= i < |found| ==> Did(trace[i], calls[i], found[i], trace[i + 1])
  }

  lemma RunsNone(w: World, calls: seq<Call>)
    ensures Runs([w], calls, [])
  {
  }

  lemma RunsOn(trace: seq<World>, calls: seq<Call>, found: seq<Option<nat>>, r: Option<nat>, u: World)
    requires Runs(trace, calls, found) && |found| < |calls| && Did(trace[|found|], calls[|found|], r, u)
    ensures Runs(trace + [u], calls, found + [r])
  {
    hide Did;
  }

  /** Neither a merge nor a retired heap: what keeps blocks with their owners. */
  predicate Homely(call: Call) { !call.Merge? && !call.Retire? }

  ghost predicate Tidy(a: Allocator)
    reads a, a.fl
  {
    a.Exact() && Complete(a.pools, a.tracked)
  }

  /** Serves the calls in order, passing over those that name no heap or no held block;
      a grant is taken only as the system makes it, aligned and not yet in use. The
      client records each block when it gets it and strikes it when it returns it:
      whatever was called, the record is exactly what the allocator has in use, and no
      two blocks of it overlap. Each call did what it is for: `trace` holds the worlds
      between the calls, and `found` the addresses handed out. All calls are served exactly if every collection keeps to
      its lists; `starts` are the states in which their walks begin. They do keep to them
      if the parallel flag was never up, or if no heap was merged or retired, and in any
      run as long as no two buddies of a pool to be given back from are on the lists of
      the collecting heap; otherwise the service ends with the collection that went
      astray. Unless heaps are merged or retired, every heap's byte counter is the size of
      the blocks of its pools that are in use or queued. */
  method Serve(a: Allocator, calls: seq<Call>)
    returns (held: map<nat, nat>, found: seq<Option<nat>>, served: nat, ghost trace: seq<World>,
             ghost starts: seq<Start>, ghost at: nat, ghost order: nat)
    requires a.Valid() && LiveBlocks(a.g) == map[] && TablesApart(a.tracked) && Tidy(a)
    modifies a, a.fl
    ensures served <= |calls| && a.Valid() && held == LiveBlocks(a.g) && AddressesApart(held)
    ensures served == |found| && Runs(trace, calls, found) && trace[0] == old(Here(a))
    ensures served == |calls| ==> trace[served] == Here(a)
    ensures a.calm == (old(a.calm) && forall i :: 0 <= i < served ==> calls[i] != SetParallel(true))
    ensures served == |calls| <==> forall i :: 0 <= i < |starts| ==> Kept(starts[i])
    ensures (forall i :: 0 <= i < |starts| ==> Begins(starts[i]))
    ensures (forall i :: 0 <= i < |starts| ==> NoPair(starts[i].m, starts[i].h, starts[i].registry)) ==>
              served == |calls|
    ensures served < |calls| ==> calls[served].Collect? && Astray(a.Now(), calls[served].h, a.registry, at, order)
    ensures old(a.calm) && (forall i :: 0 <= i < |calls| ==> calls[i] != SetParallel(true)) ==> served == |calls|
    ensures (forall i :: 0 <= i < |calls| ==> Homely(calls[i])) ==> served == |calls| && Tidy(a)
  {
    hide Settled, Linked, LiveBlocks, Accounted, TablesApart, Kept, Begins, NoPair, Astray, Tidy, Did, Runs;
    held, found, served, starts, at, order := map[], [], 0, [], 0, 0;
    trace := [Here(a)];
    RunsNone(trace[0], calls);
    while served < |calls|
      invariant 0 <= served <= |calls| && a.Valid() && held == LiveBlocks(a.g) && TablesApart(a.tracked)
      invariant served == |found| && |trace| == served + 1 && Runs(trace, calls, found)
      invariant trace[0] == old(Here(a)) && trace[served] == Here(a)
      invariant forall i :: 0 <= i < |starts| ==> Kept(starts[i]) && Begins(starts[i])
      invariant a.calm == (old(a.calm) && forall j :: 0 <= j < served ==> calls[j] != SetParallel(true))
      invariant (forall j :: 0 <= j < served ==> Homely(calls[j])) ==> Tidy(a)
    {
      ghost var more: seq<Start>;
      var kept: bool;
      var r: Option<nat>;
      held, r, kept, more, at, order := One(a, calls[served], held);
      starts := starts + more;
      if !kept {
        Apart(a.Now());
        NotKept(starts);
        return;
      }
      RunsOn(trace, calls, found, r, Here(a));
      trace, found, served := trace + [Here(a)], found + [r], served + 1;
    }
    Apart(a.Now());
  }

  /** A start that is not kept has a pair on its lists. */
  lemma NotKept(starts: seq<Start>)
    requires starts != [] && Begins(starts[|starts| - 1]) && !Kept(starts[|starts| - 1])
    ensures var s := starts[|starts| - 1]; !NoPair(s.m, s.h, s.registry)
  {
    hide Settled, Walks, NoPair;
    var s := starts[|starts| - 1];
    WalksPair(s.m, s.h, s.registry);
  }

  lemma Apart(m: Mem)
    requires Settled(m)
    ensures AddressesApart(LiveBlocks(m.g))
  {
    hide Sound;
    forall x, y | x in LiveBlocks(m.g) && y in LiveBlocks(m.g) && x < y
      ensures x + Pow2(LiveBlocks(m.g)[x]) <= y
    {
      LiveDisjoint(m, x, y);
    }
  }

  lemma NewTable(tracked: map<nat, seq<nat>>, h: nat)
    requires TablesApart(tracked)
    ensures TablesApart(tracked[h := []])
  {
  }

  lemma NewComplete(pools: Pools, tracked: map<nat, seq<nat>>, h: nat)
    requires Complete(pools, tracked) && h !in tracked
    ensures Complete(pools, tracked[h := []])
  {
  }

  /** One call; `kept` is false for a collection that went astray. */
  method One(a: Allocator, call: Call, held0: map<nat, nat>)
    returns (held: map<nat, nat>, r: Option<nat>, kept: bool, ghost more: seq<Start>, ghost at: nat, ghost order: nat)
    requires a.Valid() && held0 == LiveBlocks(a.g) && TablesApart(a.tracked)
    modifies a, a.fl
    ensures a.Valid() && held == LiveBlocks(a.g) && TablesApart(a.tracked)
    ensures kept ==> Did(old(Here(a)), call, r, Here(a))
    ensures a.calm == (old(a.calm) && call != SetParallel(true))
    ensures old(Tidy(a)) && Homely(call) ==> Tidy(a) && kept
    ensures |more| <= 1 && (kept <==> forall i :: 0 <= i < |more| ==> Kept(more[i]))
    ensures forall i :: 0 <= i < |more| ==> Begins(more[i])
    ensures !kept ==> call.Collect? && Astray(a.Now(), call.h, a.registry, at, order) && !a.calm
  {
    hide Settled, Linked, LiveBlocks, Unused, Accounted, TablesApart, Complete, Kept, Begins, Astray, Got, Freed,
         Opened, Uncached, SentBack, MergedInto, Collected, Granted;
    held, r, kept, more, at, order := held0, None, true, [], 0, 0;
    match call
    case NewHeap(h) =>
      if h !in a.avail { Open(a, h); }
    case Alloc(h, size, grant) =>
      if h in a.avail { held, r := Get(a, h, size, grant, held0); }
    case Free(h, v) =>
      if h in a.avail && v in held0 {
        GiveUp(a, h, v);
        held := held0 - {v};
      }
    case FlushSlabs(h) =>
      if h in a.avail { Uncache(a, h); }
    case FlushForeign(h, returnToOwner) =>
      if h in a.avail { SendBack(a, h, returnToOwner); }
    case Merge(dst, src) =>
      if dst in a.avail && src in a.avail && dst != src { Join(a, dst, src); }
    case Retire(h) =>
      a.Unregister(h);
    case Collect(h) =>
      if h in a.avail { kept, more, at, order := Gc(a, h); }
    case SetParallel(on) =>
      a.SetParallel(on);
  }

  method GiveUp(a: Allocator, h: nat, v: nat)
    requires a.Valid() && h in a.avail && v in LiveBlocks(a.g)
    modifies a`rc, a`order, a`avail, a`slabs, a`foreign, a`g, a`bytes, a.fl
    ensures a.Valid() && LiveBlocks(a.g) == LiveBlocks(old(a.g)) - {v} && (old(Tidy(a)) ==> Tidy(a))
    ensures Freed(old(a.Now()), a.Now(), h, v, a.parallel)
  {
    hide Settled, Linked, LiveBlocks, Accounted, Complete, FreedTo, SlabRoom, Given, Put, OwnedBy;
    a.FreeBlock(h, v);
  }

  method Uncache(a: Allocator, h: nat)
    requires a.Valid() && h in a.avail
    modifies a`rc, a`order, a`avail, a`slabs, a`g, a.fl
    ensures a.Valid() && LiveBlocks(a.g) == LiveBlocks(old(a.g)) && (old(Tidy(a)) ==> Tidy(a))
    ensures Uncached(old(a.Now()), a.Now(), h)
  {
    hide Settled, Linked, LiveBlocks, Accounted, Complete;
    a.FlushSlabs(h);
  }

  method SendBack(a: Allocator, h: nat, returnToOwner: bool)
    requires a.Valid() && h in a.avail
    modifies a`rc, a`order, a`avail, a`foreign, a`g, a`bytes, a.fl
    ensures a.Valid() && LiveBlocks(a.g) == LiveBlocks(old(a.g)) && (old(Tidy(a)) ==> Tidy(a))
    ensures if returnToOwner then SentBack(old(a.Now()), a.Now(), h) else a.Now() == old(a.Now())
  {
    hide Settled, Linked, LiveBlocks, Accounted, Complete;
    a.FlushForeign(h, returnToOwner);
  }

  method Join(a: Allocator, dst: nat, src: nat)
    requires a.Valid() && src in a.avail && dst in a.avail && src != dst && TablesApart(a.tracked)
    modifies a`rc, a`order, a`avail, a`slabs, a`foreign, a`g, a`pools, a`tracked, a`bytes, a.fl
    ensures a.Valid() && LiveBlocks(a.g) == LiveBlocks(old(a.g)) && TablesApart(a.tracked)
    ensures MergedInto(old(a.Now()), a.Now(), dst, src)
  {
    hide Settled, Linked, LiveBlocks, Accounted, TablesApart, Owned, Fitting, Adopts, NothingListed;
    a.Merge(dst, src);
  }

  method Open(a: Allocator, h: nat)
    requires a.Valid() && h !in a.avail && TablesApart(a.tracked)
    modifies a, a.fl
    ensures a.Valid() && LiveBlocks(a.g) == LiveBlocks(old(a.g)) && TablesApart(a.tracked) && a.calm == old(a.calm)
    ensures Opened(old(a.Now()), a.Now(), h) && a.registry == old(a.registry) + {h} && a.parallel == old(a.parallel)
    ensures old(Tidy(a)) ==> Tidy(a)
  {
    hide Settled, Linked, LiveBlocks, Accounted, TablesApart, Complete, EmptyLists;
    NoTable(a.Now(), h);
    NewTable(a.tracked, h);
    if Complete(a.pools, a.tracked) { NewComplete(a.pools, a.tracked, h); }
    a.InitHeap(h);
  }

  lemma NoTable(m: Mem, h: nat)
    requires Settled(m) && h !in m.avail
    ensures h !in m.tracked
  {
    hide TilesOK, Books, Canonical, HeadersOK;
  }

  method Gc(a: Allocator, h: nat) returns (kept: bool, ghost more: seq<Start>, ghost at: nat, ghost order: nat)
    requires a.Valid() && TablesApart(a.tracked) && h in a.avail
    modifies a, a.fl
    ensures a.Valid() && TablesApart(a.tracked) && LiveBlocks(a.g) == LiveBlocks(old(a.g)) && a.calm == old(a.calm)
    ensures old(Tidy(a)) ==> Tidy(a) && kept
    ensures |more| <= 1 && (kept <==> forall i :: 0 <= i < |more| ==> Kept(more[i]))
    ensures forall i :: 0 <= i < |more| ==> Begins(more[i])
    ensures a.registry == old(a.registry) && a.parallel == old(a.parallel)
    ensures kept ==> Collected(old(Here(a)), a.Now(), h)
    ensures !kept ==> Astray(a.Now(), h, a.registry, at, order) && !a.calm
  {
    hide Settled, Linked, LiveBlocks, Accounted, TablesApart, Complete, Walks, NoPair, Astray, HeapGc.NoneLeft;
    ghost var m: Mem;
    kept, m, at, order := HeapGc.Collect(a, h);
    more := [];
    if !a.parallel {
      more := [Start(m, h, a.registry)];
      assert Kept(more[0]) <==> kept;
    }
  }

  method Get(a: Allocator, h: nat, size: nat, grant: Option<nat>, held0: map<nat, nat>)
    returns (held: map<nat, nat>, r: Option<nat>)
    requires a.Valid() && h in a.avail && held0 == LiveBlocks(a.g) && TablesApart(a.tracked)
    modifies a, a.fl
    ensures a.Valid() && held == LiveBlocks(a.g) && a.calm == old(a.calm) && TablesApart(a.tracked)
    ensures a.registry == old(a.registry) && a.parallel == old(a.parallel)
    ensures Got(old(a.Now()), a.Now(), h, OrderForSize(size), Granted(old(a.pools), OrderForSize(size), grant), r)
    ensures old(Tidy(a)) ==> Tidy(a)
  {
    hide Settled, Linked, LiveBlocks, Unused, NoMemory, Accounted, TablesApart, Complete, Drawn, NoSlab, Popped;
    held := held0;
    ghost var m := a.Now();
    var order := OrderForSize(size);
    var granted := Granted(a.pools, order, grant);
    r := a.Alloc(h, size, granted);
    if r.Some? {
      held := held[r.value := order];
      if NoSlab(m.slabs, h, order) && Complete(m.pools, m.tracked) {
        DrawnComplete(m, a.Now(), h, order, granted, r.value);
      }
    }
  }

  lemma DrawnComplete(m: Mem, n: Mem, h: nat, k: nat, grant: Option<nat>, v: nat)
    requires Drawn(m, n, h, k, grant, v) && Complete(m.pools, m.tracked)
    ensures Complete(n.pools, n.tracked)
  {
    hide CascadeAdded, FromList, NothingListed;
    var s: Mem, found: nat :| DrawnVia(m, s, n, h, k, grant, v, found);
  }

  ghost predicate Swept(m: Mem, h: nat) { HeapGc.NoneCached(m, h) && h in m.foreign && m.foreign[h] == [] }

  /** Every heap collected once nothing is in use, the parallel flag never having been up:
      all free memory is in one piece again, each pool its header and one listed block of
      each order; and no spare oversized pool is left in a registered heap's table unless
      it is the last there. */
  method CollectAll(a: Allocator, heaps: seq<nat>)
    requires a.Valid() && TablesApart(a.tracked) && a.calm && !a.parallel && LiveBlocks(a.g) == map[]
    requires heaps != [] && forall h :: h in heaps <==> h in a.avail
    modifies a, a.fl
    ensures a.Valid() && a.avail.Keys == old(a.avail).Keys && LiveBlocks(a.g) == map[]
    ensures forall b :: b in a.pools ==> HeapTheorems.Cascade(a.Now(), b)
    ensures forall k: nat :: k < HeapGc.REGISTRY_SIZE && k in a.registry ==> HeapGc.NoneLeft(a.Now(), k)
    ensures forall b :: b in old(a.pools) && b !in a.pools ==> old(a.pools)[b].order > POOL_ORDER
  {
    hide Settled, Linked, LiveBlocks, TablesApart, Accounted, Complete, Walks, NoPair, Astray, HeapTheorems.Cascade;
    hide HeapGc.NoneLeft;
    var i := 0;
    while i < |heaps|
      invariant 0 <= i <= |heaps| && a.Valid() && TablesApart(a.tracked) && a.calm && !a.parallel
      invariant a.avail.Keys == old(a.avail).Keys && LiveBlocks(a.g) == map[] && a.registry == old(a.registry)
      invariant forall j :: 0 <= j < i ==> Swept(a.Now(), heaps[j])
      invariant i > 0 ==> forall k: nat :: k < HeapGc.REGISTRY_SIZE && k in a.registry ==> HeapGc.NoneLeft(a.Now(), k)
      invariant forall b :: b in old(a.pools) && b !in a.pools ==> old(a.pools)[b].order > POOL_ORDER
      invariant forall b :: b in a.pools ==> b in old(a.pools) && a.pools[b] == old(a.pools)[b]
    {
      assert heaps[i] in heaps;
      ghost var m, at, order;
      var kept;
      kept, m, at, order := HeapGc.Collect(a, heaps[i]);
      i := i + 1;
    }
    AllSwept(a.Now(), heaps);
    HeapTheorems.AllReturned(a.Now());
  }

  lemma AllSwept(m: Mem, heaps: seq<nat>)
    requires Settled(m) && (forall h :: h in heaps <==> h in m.avail) && forall j :: 0 <= j < |heaps| ==>
               Swept(m, heaps[j])
    ensures forall h, i: nat :: h in m.slabs && i < |m.slabs[h]| ==> m.slabs[h][i] == []
    ensures forall h :: h in m.foreign ==> m.foreign[h] == []
  {
    hide Settled, HeapTheorems.Cascade;
    HeapKeys(m);
    forall h | h in m.avail
      ensures Swept(m, h)
    {
      var j :| 0 <= j < |heaps| && heaps[j] == h;
    }
  }

  lemma HeapKeys(m: Mem)
    requires Settled(m)
    ensures m.slabs.Keys == m.avail.Keys == m.foreign.Keys
  {
    hide TilesOK, Canonical, ListsOK, BytesOK, AvailOK, SlabsOK, ForeignOK, HeadersOK, NothingHeld;
  }
}
