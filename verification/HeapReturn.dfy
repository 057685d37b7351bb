/** The second phase of a collection: blocks on a heap's lists that belong to pools of
    other heaps go back to the owners of those pools. The walk over a list looks one
    block ahead before it hands a block over, and handing over may merge that very block
    away; this module says exactly when that happens and what follows. */
module HeapReturn {
  import opened Tiles
  import opened FreeLists
  import opened HeapModel
  import opened HeapSteps
  import opened HeapBytes
  import opened HeapMerge
  import opened HeapTheorems
  import opened Heap
  import opened Options

  // ----- what one turn does -----

  /** `x` lies in a pool that is not in the table of heap `h` and whose owner is registered. */
  ghost predicate Returnable(m: Mem, h: nat, registry: set<nat>, x: nat) {
    && x in m.g.home && h in m.tracked && m.g.home[x] in m.pools
    && m.g.home[x] !in m.tracked[h] && m.pools[m.g.home[x]].owner in registry
  }

  /** `x` is such a block, free, and handing it over is well defined. */
  ghost predicate Sendable(m: Mem, h: nat, registry: set<nat>, x: nat) {
    && Returnable(m, h, registry, x) && h in m.avail && x in m.g.ord && x in m.g.st
    && m.g.st[x].Free? && Head(m.g.st[x].h, m.g.ord[x]) in m.lists
  }

  ghost function OwnerOf(m: Mem, x: nat): nat
    requires x in m.g.home && m.g.home[x] in m.pools
  {
    m.pools[m.g.home[x]].owner
  }

  /** The block off its list and handed to the owner of its pool. */
  ghost function Sent(m: Mem, h: nat, registry: set<nat>, x: nat): Mem
    requires Sendable(m, h, registry, x)
  {
    Merged(TakenOff(m, x, h), OwnerOf(m, x), x)
  }

  /** What is left to visit once `x` has been handed over. */
  ghost function Rest(m: Mem, x: nat, todo: seq<nat>): seq<nat> {
    if BelowTop(m, x) then Without(todo, BuddyAt(m, x)) else todo
  }

  lemma {:induction false} WithoutShorter(s: seq<nat>, a: nat)
    ensures |Without(s, a)| <= |s|
  {
    if s != [] && s[0] != a { WithoutShorter(s[1..], a); }
  }

  /** The block ahead is the one that handing `x` over would merge away. */
  ghost predicate BuddyAhead(m: Mem, x: nat, ahead: seq<nat>) {
    ahead != [] && BelowTop(m, x) && ahead[0] == BuddyAt(m, x)
  }

  /** The rest of a walk over one list: the state it ends in, or none if it loses the list. */
  ghost function Walk(m: Mem, h: nat, registry: set<nat>, todo: seq<nat>): Option<Mem>
    decreases |todo|
  {
    if todo == [] then Some(m)
    else if !Sendable(m, h, registry, todo[0]) then Walk(m, h, registry, todo[1..])
    else if BuddyAhead(m, todo[0], todo[1..]) then None
    else
      var rest := Rest(m, todo[0], todo[1..]);
      assert |rest| < |todo| by { if BelowTop(m, todo[0]) { WithoutShorter(todo[1..], BuddyAt(m, todo[0])); } }
      Walk(Sent(m, h, registry, todo[0]), h, registry, rest)
  }

  ghost function ListOf(m: Mem, h: nat, o: nat): seq<nat> {
    if Head(h, o) in m.lists then m.lists[Head(h, o)] else []
  }

  /** The walks over the lists of order `o` and up, one after the other. */
  ghost function Walks(m: Mem, h: nat, registry: set<nat>, o: nat): Option<Mem>
    decreases MAX_ORDER + 1 - o
  {
    if o > MAX_ORDER then Some(m)
    else
      match Walk(m, h, registry, ListOf(m, h, o))
      case None => None
      case Some(n) => Walks(n, h, registry, o + 1)
  }

  // ----- a turn keeps the books -----

  lemma SentKeeps(m: Mem, h: nat, registry: set<nat>, x: nat)
    requires Settled(m) && Sendable(m, h, registry, x) && registry <= m.avail.Keys
    ensures var u := Sent(m, h, registry, x);
            && Settled(u) && SameUsed(m.g, u.g) && SameRest(m, u) && LiveBlocks(u.g) == LiveBlocks(m.g)
            && Grown(m.g, u.g, OwnerOf(m, x), m.g.home[x])
  {
    hide Settled, Sound, SameUsed, Grown, Merged, TakenOff, LiveBlocks, HeadersOK, OnlyHeld;
    var t, w := TakenOff(m, x, h), OwnerOf(m, x);
    var u := Merged(t, w, x);
    TakenOnly(m, x, h);
    MergedKeeps(t, w, x);
    SameUsedTrans(m.g, t.g, u.g);
    GrownTaken(m.g, x, Held, w, m.g.home[x]);
    GrownTrans(m.g, t.g, u.g, w, m.g.home[x]);
    SettledParts(m);
    SettledParts(u);
    KeysAgree(m);
    KeysAgree(u);
    SameUsedLive(m.g, u.g);
  }

  /** Blocks other than the merged one that are free were free before, as they are. */
  ghost predicate OthersSame(g: Ground, u: Ground, z: nat) {
    forall v :: v in u.ord && v in u.st && v in u.home && u.st[v].Free? && v != z ==>
      v in g.ord && v in g.st && v in g.home && g.ord[v] == u.ord[v] && g.st[v] == u.st[v] && g.home[v] == u.home[v]
  }

  lemma {:induction false} MergedOthers(m: Mem, h: nat, x: nat)
    requires HeldAt(m.g, x)
    ensures OthersSame(m.g, Merged(m, h, x).g, End(m, h, x))
    decreases if x in m.g.ord then MAX_ORDER - m.g.ord[x] else 0
  {
    hide JoinedWith, Low, OthersSame, FreeSame, FreeAt, BuddyAt;
    if h in m.avail && Mergeable(m, x) {
      var u, low := JoinedWith(m, h, x), Low(m, x);
      JoinOthers(m, h, x);
      MergedOthers(u, h, low);
      OthersTrans(m.g, u.g, Merged(m, h, x).g, End(m, h, x));
    } else {
      ListedOthers(m, h, x);
    }
  }

  lemma ListedOthers(m: Mem, h: nat, x: nat)
    ensures OthersSame(m.g, HeapMerge.Listed(m, h, x).g, x)
  {
  }

  ghost predicate FreeSame(g: Ground, u: Ground) {
    forall v :: v in u.ord && v in u.st && v in u.home && u.st[v].Free? ==>
      v in g.ord && v in g.st && v in g.home && g.ord[v] == u.ord[v] && g.st[v] == u.st[v] && g.home[v] == u.home[v]
  }

  lemma JoinOthers(m: Mem, h: nat, x: nat)
    requires h in m.avail && Mergeable(m, x) && HeldAt(m.g, x)
    ensures Mergeable(m, x) && BelowTop(m, x) && FreeSame(m.g, JoinedWith(m, h, x).g)
            && HeldAt(JoinedWith(m, h, x).g, Low(m, x))
    ensures Low(m, x) in JoinedWith(m, h, x).g.ord
            && JoinedWith(m, h, x).g.ord[Low(m, x)] == m.g.ord[x] + 1 <= MAX_ORDER
  {
    hide Pow2, BuddyOf;
  }

  lemma OthersTrans(g: Ground, u: Ground, w: Ground, z: nat)
    requires FreeSame(g, u) && OthersSame(u, w, z)
    ensures OthersSame(g, w, z)
  {
  }

  // ----- no two buddies -----

  /** No two buddies are both on the lists of heap `h` in a pool it would give back from. */
  ghost predicate NoPair(m: Mem, h: nat, registry: set<nat>) {
    forall x, y :: IsPair(m, h, x, y) ==> !Returnable(m, h, registry, x)
  }

  ghost predicate IsPair(m: Mem, h: nat, x: nat, y: nat) {
    BelowTop(m, x) && y == BuddyAt(m, x) && IsFree(m.g, x, h, m.g.ord[x]) && IsFree(m.g, y, h, m.g.ord[x])
  }

  /** Buddies never left apart leave no pair. */
  lemma CalmNoPair(m: Mem, h: nat, registry: set<nat>)
    requires Settled(m) && m.calm
    ensures NoPair(m, h, registry)
  {
    hide BuddyOf, Books, HeapsOK, HeadersOK, NothingHeld, Tiled, PoolsOK;
    forall x, y
      ensures !IsPair(m, h, x, y)
    {
      assert IsPair(m, h, x, y) ==> FreeBuddies(m.g, x, y);
    }
  }

  /** Every pool is in the table of its owner. */
  ghost predicate Complete(pools: Pools, tracked: map<nat, seq<nat>>) {
    forall b :: b in pools ==> pools[b].owner in tracked && b in tracked[pools[b].owner]
  }

  /** With complete tables and every free block at home there is nothing to give back. */
  lemma CompleteNoPair(m: Mem, h: nat, registry: set<nat>)
    requires Complete(m.pools, m.tracked) && AtHome(m.g, m.pools)
    ensures NoPair(m, h, registry)
  {
    hide BuddyOf;
    forall x, y | IsPair(m, h, x, y)
      ensures !Returnable(m, h, registry, x)
    {
      assert InPlace(m.g, m.pools, x);
    }
  }

  /** The block listed in the end has no free buddy of its order. */
  lemma {:induction false} EndAlone(m: Mem, h: nat, x: nat)
    requires HeldAt(m.g, x)
    ensures var u, z := Merged(m, h, x), End(m, h, x);
            h in m.avail && BelowTop(u, z) && BuddyAt(u, z) != z ==> !FreeAt(u, BuddyAt(u, z), u.g.ord[z])
    decreases if x in m.g.ord then MAX_ORDER - m.g.ord[x] else 0
  {
    hide JoinedWith, Low, BuddyOf;
    if h in m.avail && Mergeable(m, x) {
      var u, low := JoinedWith(m, h, x), Low(m, x);
      JoinOthers(m, h, x);
      EndAlone(u, h, low);
      assert u.avail.Keys == m.avail.Keys by { JoinRest(m, h, x); }
    }
  }

  lemma SentOthers(m: Mem, h: nat, registry: set<nat>, x: nat)
    requires Settled(m) && Sendable(m, h, registry, x) && registry <= m.avail.Keys
    ensures OthersSame(m.g, Sent(m, h, registry, x).g, End(TakenOff(m, x, h), OwnerOf(m, x), x))
    ensures var u := Sent(m, h, registry, x).g;
            x in u.ord && x in u.st && x in u.home && u.st[x].Free? ==> x == End(TakenOff(m, x, h), OwnerOf(m, x), x)
  {
    hide Settled, Merged, End, OthersSame, TakenOff;
    var t, w := TakenOff(m, x, h), OwnerOf(m, x);
    TakenGround(m, x, h);
    MergedOthers(t, w, x);
    OthersBack(m.g, x, Merged(t, w, x).g, End(t, w, x));
  }

  lemma OthersBack(g: Ground, x: nat, u: Ground, z: nat)
    requires x in g.ord && x in g.st && OthersSame(Put(g, x, Held), u, z)
    ensures OthersSame(g, u, z)
    ensures x in u.ord && x in u.st && x in u.home && u.st[x].Free? ==> x == z
  {
  }

  /** Handing a block over makes no new pair. */
  lemma SentNoPair(m: Mem, h: nat, registry: set<nat>, x: nat)
    requires Settled(m) && Sendable(m, h, registry, x) && registry <= m.avail.Keys && NoPair(m, h, registry)
    ensures NoPair(Sent(m, h, registry, x), h, registry)
  {
    hide Settled, Sent, OthersSame, End, TakenOff, IsPair, Merged, OnlyHeld, Sound, SameUsed, Grown;
    var u, z := Sent(m, h, registry, x), End(TakenOff(m, x, h), OwnerOf(m, x), x);
    SentKeeps(m, h, registry, x);
    SentOthers(m, h, registry, x);
    forall p, q | IsPair(u, h, p, q)
      ensures !Returnable(u, h, registry, p)
    {
      PairPlaces(u, h, p, q);
      if p == z || q == z {
        PairNotEnd(m, h, registry, x, p, q);
      } else {
        PairBefore(m, u, h, z, p, q);
      }
    }
  }

  lemma PairPlaces(u: Mem, h: nat, p: nat, q: nat)
    requires Settled(u) && IsPair(u, h, p, q)
    ensures p != q && p in u.g.ord && p in u.g.st && p in u.g.home && q in u.g.ord && q in u.g.st && q in u.g.home
    ensures u.g.st[p] == u.g.st[q] == HeapModel.Free(h) && u.g.ord[p] == u.g.ord[q] && u.g.home[p] == u.g.home[q] <= q
    ensures BelowTop(u, q) && BuddyAt(u, q) == p && FreeAt(u, p, u.g.ord[p]) && FreeAt(u, q, u.g.ord[p])
  {
    hide Sound, BuddyOf;
    BuddyPair(u, p);
    KeysAgree(u);
    BuddyBack(u, p);
    FreeIsListed(u, p);
    FreeIsListed(u, q);
  }

  lemma BuddyBack(u: Mem, p: nat)
    requires Sound(u) && BelowTop(u, p)
    ensures var q := BuddyAt(u, p); u.g.home[p] <= q && BuddyOf(q, u.g.ord[p], u.g.home[p]) == p
  {
    hide Sound, Books, HeapsOK, Canonical, BuddyOf;
    SoundTiles(u);
    BuddyOfBlock(u.g, u.pools, p);
  }

  lemma PairBefore(m: Mem, u: Mem, h: nat, z: nat, p: nat, q: nat)
    requires Settled(u) && IsPair(u, h, p, q) && p != z && q != z
    requires OthersSame(m.g, u.g, z) && u.pools == m.pools
    ensures IsPair(m, h, p, q) && p in m.g.home && p in u.g.home && m.g.home[p] == u.g.home[p]
  {
    hide Settled, BuddyOf;
    PairPlaces(u, h, p, q);
  }

  lemma PairNotEnd(m: Mem, h: nat, registry: set<nat>, x: nat, p: nat, q: nat)
    requires Settled(m) && Sendable(m, h, registry, x) && registry <= m.avail.Keys
    requires Settled(Sent(m, h, registry, x)) && IsPair(Sent(m, h, registry, x), h, p, q)
    ensures p != End(TakenOff(m, x, h), OwnerOf(m, x), x) && q != End(TakenOff(m, x, h), OwnerOf(m, x), x)
  {
    hide Settled, BuddyOf, FreeAt, Merged, TakenOff, IsPair, BuddyAt;
    TakenGround(m, x, h);
    TakenKeys(m, x, h);
    EndAlone(TakenOff(m, x, h), OwnerOf(m, x), x);
    PairPlaces(Sent(m, h, registry, x), h, p, q);
    PairHead(Sent(m, h, registry, x), h, p, q);
  }

  lemma PairHead(u: Mem, h: nat, p: nat, q: nat)
    requires IsPair(u, h, p, q)
    ensures BelowTop(u, p) && BuddyAt(u, p) == q
  {
    hide BuddyOf;
  }

  // ----- the walk keeps to the list when there is no pair -----

  ghost predicate AllListed(m: Mem, h: nat, o: nat, s: seq<nat>) {
    Distinct(s) && forall x :: x in s ==> IsFree(m.g, x, h, o)
  }

  lemma NotAhead(m: Mem, h: nat, registry: set<nat>, o: nat, todo: seq<nat>)
    requires NoPair(m, h, registry) && AllListed(m, h, o, todo) && todo != [] && Sendable(m, h, registry, todo[0])
    ensures !BuddyAhead(m, todo[0], todo[1..])
  {
    hide BuddyOf;
    var x := todo[0];
    assert x in todo;
    if |todo| > 1 {
      var y := todo[1];
      assert y in todo;
      assert BuddyAhead(m, x, todo[1..]) ==> IsPair(m, h, x, y);
    }
  }

  // ----- what a turn does to the list being walked -----

  lemma {:induction false} WithoutNone(s: seq<nat>, a: nat)
    requires a !in s
    ensures Without(s, a) == s
  {
    if s != [] { WithoutNone(s[1..], a); }
  }

  lemma {:induction false} WithoutBoth(s: seq<nat>, t: seq<nat>, a: nat)
    requires a !in s || a !in t
    ensures Without(s + t, a) == Without(s, a) + Without(t, a)
  {
    if s == [] {
      assert s + t == t;
    } else {
      assert (s + t)[1..] == s[1..] + t;
      if s[0] == a { WithoutNone(t, a); } else { WithoutBoth(s[1..], t, a); }
    }
  }

  /** The list is what the walk has passed and what it has yet to visit. */
  ghost predicate AtList(m: Mem, h: nat, o: nat, done: seq<nat>, todo: seq<nat>) {
    Head(h, o) in m.lists && m.lists[Head(h, o)] == done + todo && Distinct(done + todo)
  }

  lemma Passed(m: Mem, h: nat, o: nat, done: seq<nat>, todo: seq<nat>)
    requires AtList(m, h, o, done, todo) && todo != []
    ensures AtList(m, h, o, done + [todo[0]], todo[1..])
  {
    assert done + todo == done + [todo[0]] + todo[1..];
  }

  /** What has been passed, once `x` has been handed over. */
  ghost function DoneAfter(m: Mem, h: nat, registry: set<nat>, x: nat, done: seq<nat>): seq<nat>
    requires Sendable(m, h, registry, x)
  {
    (if OwnerOf(m, x) == h && !Mergeable(TakenOff(m, x, h), x) then [x] else []) + Rest(m, x, done)
  }

  lemma WithoutMiddle(s: seq<nat>, x: nat, t: seq<nat>)
    requires Distinct(s + ([x] + t))
    ensures Without(s + ([x] + t), x) == s + t && Distinct(s + t)
  {
    var l := s + ([x] + t);
    assert l[|s|] == x;
    WithoutAt(l, x, |s|);
    assert Cut(l, |s|) == s + t;
    CutMembers(l, |s|);
  }

  lemma TakenList(m: Mem, x: nat, h: nat, o: nat, done: seq<nat>, rest: seq<nat>)
    requires Settled(m) && AtList(m, h, o, done, [x] + rest) && IsFree(m.g, x, h, o) && h in m.avail
    ensures Head(m.g.st[x].h, m.g.ord[x]) in m.lists && AtList(TakenOff(m, x, h), h, o, done, rest)
  {
    hide Settled, Without, TakenOff, Distinct;
    TakenGround(m, x, h);
    WithoutMiddle(done, x, rest);
  }

  /** What merging does to the list of the block's own order: the buddy goes, or the
      block itself is listed. */
  lemma MergedList(t: Mem, w: nat, x: nat, h: nat, s: seq<nat>)
    requires Sound(t) && OnlyHeld(t.g, x) && x in t.g.ord && w in t.avail && Head(h, t.g.ord[x]) in t.lists
    requires s == t.lists[Head(h, t.g.ord[x])]
    ensures var n := Head(h, t.g.ord[x]);
            && n in Merged(t, w, x).lists
            && Merged(t, w, x).lists[n] == (if w == h && !Mergeable(t, x) then [x] else []) + Rest(t, x, s)
  {
    hide Sound, BuddyOf, OnlyHeld, Merged, Without;
    var n := Head(h, t.g.ord[x]);
    OrderBound(t, x);
    HasList(t, w, t.g.ord[x]);
    MergedLists(t, w, x, n);
    if BelowTop(t, x) {
      BuddyPair(t, x);
      var y := BuddyAt(t, x);
      assert y in s <==> IsFree(t.g, y, h, t.g.ord[x]) by { ListTold(t, h, t.g.ord[x], y); }
      if y !in s { WithoutNone(s, y); }
      if t.g.st[y].Free? { FreeIsListed(t, y); }
    }
  }

  lemma ListTold(m: Mem, h: nat, o: nat, y: nat)
    requires Sound(m) && Head(h, o) in m.lists
    ensures y in m.lists[Head(h, o)] <==> IsFree(m.g, y, h, o)
  {
    hide TilesOK, Canonical, HeapsOK;
  }

  lemma RestBoth(m: Mem, x: nat, s: seq<nat>, t: seq<nat>)
    requires Distinct(s + t)
    ensures Rest(m, x, s + t) == Rest(m, x, s) + Rest(m, x, t)
  {
    hide BuddyOf, BelowTop;
    if BelowTop(m, x) {
      var y := BuddyAt(m, x);
      if y in s {
        var i :| 0 <= i < |s| && s[i] == y;
        forall j | 0 <= j < |t|
          ensures t[j] != y
        {
          assert (s + t)[i] == y && (s + t)[|s| + j] == t[j];
        }
      }
      WithoutBoth(s, t, y);
    }
  }

  lemma RestSame(m: Mem, t: Mem, x: nat, s: seq<nat>)
    requires t.pools == m.pools && t.g.ord == m.g.ord && t.g.home == m.g.home
    ensures Rest(t, x, s) == Rest(m, x, s)
  {
  }

  /** A handed-over block leaves the list, and so does its buddy if it was there. */
  lemma SentList(m: Mem, h: nat, registry: set<nat>, o: nat, done: seq<nat>, todo: seq<nat>)
    requires Settled(m) && registry <= m.avail.Keys && AtList(m, h, o, done, todo) && todo != []
    requires Sendable(m, h, registry, todo[0]) && IsFree(m.g, todo[0], h, o)
    ensures AtList(Sent(m, h, registry, todo[0]), h, o, DoneAfter(m, h, registry, todo[0], done),
                   Rest(m, todo[0], todo[1..]))
  {
    hide Settled, Sound, BuddyOf, Mergeable, Distinct, Merged, TakenOff, Rest, OnlyHeld, SameUsed, Grown;
    var x, rest, n := todo[0], todo[1..], Head(h, o);
    var t, w := TakenOff(m, x, h), OwnerOf(m, x);
    assert todo == [x] + rest;
    TakenList(m, x, h, o, done, rest);
    TakenOnly(m, x, h);
    TakenGround(m, x, h);
    MergedList(t, w, x, h, done + rest);
    RestSame(m, t, x, done + rest);
    RestBoth(m, x, done, rest);
    SentKeeps(m, h, registry, x);
    ListDistinct(Sent(m, h, registry, x), n);
    assert DoneAfter(m, h, registry, x, done) + Rest(m, x, rest) ==
           (if w == h && !Mergeable(t, x) then [x] else []) + (Rest(m, x, done) + Rest(m, x, rest));
  }

  lemma ListDistinct(m: Mem, n: Node)
    requires Settled(m) && n in m.lists
    ensures Distinct(m.lists[n])
  {
    hide TilesOK, Canonical, HeadersOK;
  }

  // ----- no pair, no going astray -----

  lemma AtIsListed(m: Mem, h: nat, o: nat, done: seq<nat>, todo: seq<nat>)
    requires Settled(m) && AtList(m, h, o, done, todo)
    ensures AllListed(m, h, o, todo)
  {
    hide Settled;
    SettledParts(m);
    forall x | x in todo
      ensures IsFree(m.g, x, h, o)
    {
      assert x in done + todo;
      ListTold(m, h, o, x);
    }
    forall i, j | 0 <= i < j < |todo|
      ensures todo[i] != todo[j]
    {
      assert (done + todo)[|done| + i] == todo[i] && (done + todo)[|done| + j] == todo[j];
    }
  }

  lemma {:induction false} WalkKept(m: Mem, h: nat, registry: set<nat>, o: nat, done: seq<nat>, todo: seq<nat>)
    requires Settled(m) && registry <= m.avail.Keys && NoPair(m, h, registry) && AtList(m, h, o, done, todo)
    ensures var n := Walk(m, h, registry, todo);
            n.Some? && Settled(n.value) && NoPair(n.value, h, registry) && SameRest(m, n.value)
    decreases |todo|
  {
    hide Settled, NoPair, AtList, Sent, Sendable, Rest, BuddyAhead, SameUsed, Grown;
    if todo != [] {
      var x := todo[0];
      AtIsListed(m, h, o, done, todo);
      assert x in todo;
      if Sendable(m, h, registry, x) {
        NotAhead(m, h, registry, o, todo);
        SentKeeps(m, h, registry, x);
        SentNoPair(m, h, registry, x);
        SentList(m, h, registry, o, done, todo);
        RestShorter(m, x, todo[1..]);
        var u := Sent(m, h, registry, x);
        WalkKept(u, h, registry, o, DoneAfter(m, h, registry, x, done), Rest(m, x, todo[1..]));
        RestTrans(m, u, Walk(m, h, registry, todo).value);
      } else {
        Passed(m, h, o, done, todo);
        WalkKept(m, h, registry, o, done + [x], todo[1..]);
      }
    }
  }

  lemma RestShorter(m: Mem, x: nat, s: seq<nat>)
    ensures |Rest(m, x, s)| <= |s|
  {
    if BelowTop(m, x) { WithoutShorter(s, BuddyAt(m, x)); }
  }

  /** With no pair of buddies on its lists a heap's walks all keep to their lists. */
  lemma {:induction false} WalksKept(m: Mem, h: nat, registry: set<nat>, o: nat)
    requires Settled(m) && h in m.avail && registry <= m.avail.Keys && NoPair(m, h, registry)
    ensures Walks(m, h, registry, o).Some?
    decreases MAX_ORDER + 1 - o
  {
    hide Settled, NoPair, Walk;
    if o <= MAX_ORDER {
      SettledParts(m);
      HasList(m, h, o);
      ListDistinct(m, Head(h, o));
      assert [] + m.lists[Head(h, o)] == m.lists[Head(h, o)];
      WalkKept(m, h, registry, o, [], m.lists[Head(h, o)]);
      WalksKept(Walk(m, h, registry, m.lists[Head(h, o)]).value, h, registry, o + 1);
    }
  }

  // ----- the walk that goes astray -----

  /** The address `y` that the walk stands at next, that of a block of order `o` when it
      was looked up, now lies in a larger free block of the owner. Its old header bytes are
      still there unless the larger block starts at `y`. */
  ghost predicate Astray(m: Mem, h: nat, registry: set<nat>, y: nat, o: nat) {
    exists z: nat :: Returnable(m, h, registry, z) && Inside(m, OwnerOf(m, z), z, y, o)
  }

  ghost predicate Inside(m: Mem, w: nat, z: nat, y: nat, o: nat) {
    && z in m.g.ord && z in m.g.st && m.g.st[z] == HeapModel.Free(w) && ORDER_MIN <= o < m.g.ord[z] && Aligned(y, o)
    && z <= y && y + Pow2(o) <= z + Pow2(m.g.ord[z]) && (y != z ==> y in m.order && m.order[y] == o)
  }

  lemma JoinedInside(m: Mem, w: nat, x: nat)
    requires Sound(m) && HeadersOK(m.g, m.pools) && OnlyHeld(m.g, x) && w in m.avail && Mergeable(m, x)
    requires BuddyAt(m, x) in m.order && m.order[BuddyAt(m, x)] == m.g.ord[x]
    ensures Inside(Merged(m, w, x), w, End(m, w, x), BuddyAt(m, x), m.g.ord[x])
  {
    hide Sound, HeadersOK, OnlyHeld, BuddyOf, Aligned, JoinedWith, Low, SameUsed, Grown, Pow2, Merged;
    var u, low, y := JoinedWith(m, w, x), Low(m, x), BuddyAt(m, x);
    HeldPlace(m.g, x);
    OrderBound(m, x);
    JoinKeeps(m, w, x);
    JoinRest(m, w, x);
    JoinCovers(m, w, x);
    MergedEnd(u, w, low);
    MergedStep(m, w, x);
    BlockAligned(m.g, m.pools, y) by { SoundTiles(m); BuddyPair(m, x); }
    BuddyPair(m, x);
  }

  lemma SentEnd(m: Mem, h: nat, registry: set<nat>, x: nat)
    requires Settled(m) && Sendable(m, h, registry, x) && registry <= m.avail.Keys
    ensures var u, z := Sent(m, h, registry, x), End(TakenOff(m, x, h), OwnerOf(m, x), x);
            && z in u.g.st && u.g.st[z] == HeapModel.Free(OwnerOf(m, x))
            && z in u.g.home && u.g.home[z] == m.g.home[x]
  {
    hide Settled, TakenOff, Merged, End, Sound, OnlyHeld, HeadersOK, SameUsed;
    TakenOnly(m, x, h);
    TakenGround(m, x, h);
    MergedEnd(TakenOff(m, x, h), OwnerOf(m, x), x);
  }

  /** Handing `x` over with its buddy ahead leaves the walk inside the merged block. */
  lemma SentAstray(m: Mem, h: nat, registry: set<nat>, o: nat, x: nat, y: nat)
    requires Settled(m) && Sendable(m, h, registry, x) && registry <= m.avail.Keys
    requires IsFree(m.g, x, h, o) && IsFree(m.g, y, h, o) && BelowTop(m, x) && y == BuddyAt(m, x)
    ensures Astray(Sent(m, h, registry, x), h, registry, y, o)
  {
    hide Settled, Sound, HeadersOK, OnlyHeld, BuddyOf, Inside, SameUsed, Merged, TakenOff, End;
    var t, w := TakenOff(m, x, h), OwnerOf(m, x);
    TakenOnly(m, x, h);
    TakenGround(m, x, h);
    BuddyPair(m, x) by { SettledParts(m); }
    HeaderBytes(m, y) by { SettledParts(m); }
    FreeIsListed(t, y);
    JoinedInside(t, w, x);
    SentKeeps(m, h, registry, x);
    SentEnd(m, h, registry, x);
    var u, z := Sent(m, h, registry, x), End(t, w, x);
    assert Returnable(u, h, registry, z) && OwnerOf(u, z) == w && Inside(u, w, z, y, o);
  }

  // ----- what a walk that keeps to its list achieves -----

  /** Free on a list of heap `h`, in a pool that `h` should give back from. */
  ghost predicate Away(m: Mem, h: nat, registry: set<nat>, x: nat) {
    && x in m.g.ord && x in m.g.st && m.g.st[x] == HeapModel.Free(h)
    && Returnable(m, h, registry, x) && OwnerOf(m, x) != h
  }

  /** Such blocks are only left among those still to be visited. */
  ghost predicate Pending(m: Mem, h: nat, registry: set<nat>, o: nat, todo: seq<nat>) {
    forall x :: Away(m, h, registry, x) ==> m.g.ord[x] > o || (m.g.ord[x] == o && x in todo)
  }

  lemma AwaySendable(m: Mem, h: nat, registry: set<nat>, x: nat)
    requires Settled(m) && x in m.g.ord && x in m.g.st && m.g.st[x] == HeapModel.Free(h)
             && Returnable(m, h, registry, x)
    ensures Sendable(m, h, registry, x)
  {
    hide Sound;
    FreeIsListed(m, x);
    HeadHeap(m, Head(h, m.g.ord[x]));
  }

  lemma HeadHeap(m: Mem, n: Node)
    requires Settled(m) && n in m.lists
    ensures n.Head? && n.heap in m.avail && n.order <= MAX_ORDER
  {
    hide TilesOK, Canonical, Books, HeadersOK;
  }

  lemma SkipPending(m: Mem, h: nat, registry: set<nat>, o: nat, todo: seq<nat>)
    requires Settled(m) && AllListed(m, h, o, todo) && Pending(m, h, registry, o, todo)
    requires todo != [] && !Sendable(m, h, registry, todo[0])
    ensures Pending(m, h, registry, o, todo[1..])
  {
    hide Settled, Sendable;
    forall x | Away(m, h, registry, x) && m.g.ord[x] == o
      ensures x in todo[1..]
    {
      AwaySendable(m, h, registry, x);
    }
  }

  /** What is away after a turn was away before it. */
  lemma AwayBefore(m: Mem, h: nat, registry: set<nat>, x: nat, v: nat)
    requires Settled(m) && Sendable(m, h, registry, x) && registry <= m.avail.Keys
    requires Away(Sent(m, h, registry, x), h, registry, v)
    ensures Away(m, h, registry, v) && v != x && m.g.ord[v] == Sent(m, h, registry, x).g.ord[v]
  {
    hide Settled, Sent, End, TakenOff, Merged, SameUsed, OnlyHeld, Sound;
    var t, w := TakenOff(m, x, h), OwnerOf(m, x);
    var z := End(t, w, x);
    SentKeeps(m, h, registry, x);
    SentOthers(m, h, registry, x);
    SentEnd(m, h, registry, x);
  }

  lemma SentPending(m: Mem, h: nat, registry: set<nat>, o: nat, done: seq<nat>, todo: seq<nat>)
    requires Settled(m) && registry <= m.avail.Keys && AtList(m, h, o, done, todo) && todo != []
    requires Pending(m, h, registry, o, todo) && Sendable(m, h, registry, todo[0]) && IsFree(m.g, todo[0], h, o)
    ensures Pending(Sent(m, h, registry, todo[0]), h, registry, o, Rest(m, todo[0], todo[1..]))
  {
    hide Settled, Sent, Sendable, Rest, Returnable, Sound, SameUsed, Grown;
    var x := todo[0];
    var u := Sent(m, h, registry, x);
    SentList(m, h, registry, o, done, todo);
    SentKeeps(m, h, registry, x);
    forall v | Away(u, h, registry, v)
      ensures v in u.g.ord && (u.g.ord[v] > o || (u.g.ord[v] == o && v in Rest(m, x, todo[1..])))
    {
      AwayBefore(m, h, registry, x, v);
      if u.g.ord[v] == o { StillThere(m, h, registry, o, done, todo, v); }
    }
  }

  lemma StillThere(m: Mem, h: nat, registry: set<nat>, o: nat, done: seq<nat>, todo: seq<nat>, v: nat)
    requires Settled(m) && registry <= m.avail.Keys && AtList(m, h, o, done, todo) && v in todo && v != todo[0]
    requires Sendable(m, h, registry, todo[0]) && IsFree(m.g, todo[0], h, o)
    requires IsFree(Sent(m, h, registry, todo[0]).g, v, h, o)
    ensures v in Rest(m, todo[0], todo[1..])
  {
    hide Settled, Sent, Sendable, Rest, Sound, SameUsed, Grown;
    var x := todo[0];
    var u := Sent(m, h, registry, x);
    SentList(m, h, registry, o, done, todo);
    SentKeeps(m, h, registry, x);
    SettledParts(u);
    ListTold(u, h, o, v);
    DoneMembers(m, h, registry, x, done);
    var i :| 0 <= i < |todo| && todo[i] == v;
    forall j | 0 <= j < |done|
      ensures done[j] != v
    {
      assert (done + todo)[j] == done[j] && (done + todo)[|done| + i] == v;
    }
  }

  lemma {:induction false} WithoutIn(s: seq<nat>, a: nat)
    ensures forall v :: v in Without(s, a) ==> v in s
  {
    if s != [] && s[0] != a { WithoutIn(s[1..], a); }
  }

  lemma DoneMembers(m: Mem, h: nat, registry: set<nat>, x: nat, done: seq<nat>)
    requires Sendable(m, h, registry, x)
    ensures forall v :: v in DoneAfter(m, h, registry, x, done) ==> v in done || v == x
  {
    hide Mergeable, TakenOff;
    if BelowTop(m, x) { WithoutIn(done, BuddyAt(m, x)); }
  }

  lemma {:induction false} WalkGives(m: Mem, h: nat, registry: set<nat>, o: nat, done: seq<nat>, todo: seq<nat>)
    requires Settled(m) && registry <= m.avail.Keys && AtList(m, h, o, done, todo) && Pending(m, h, registry, o, todo)
    ensures var n := Walk(m, h, registry, todo);
            n.Some? ==> Settled(n.value) && SameRest(m, n.value) && SameUsed(m.g, n.value.g)
                        && Pending(n.value, h, registry, o, [])
    decreases |todo|
  {
    hide Settled, Pending, AtList, Sent, Sendable, Rest, BuddyAhead, SameUsed, Grown;
    if todo != [] {
      var x := todo[0];
      AtIsListed(m, h, o, done, todo);
      assert x in todo;
      if !Sendable(m, h, registry, x) {
        SkipPending(m, h, registry, o, todo);
        Passed(m, h, o, done, todo);
        WalkGives(m, h, registry, o, done + [x], todo[1..]);
      } else if !BuddyAhead(m, x, todo[1..]) {
        var u := Sent(m, h, registry, x);
        SentKeeps(m, h, registry, x);
        SentPending(m, h, registry, o, done, todo);
        SentList(m, h, registry, o, done, todo);
        RestShorter(m, x, todo[1..]);
        WalkGives(u, h, registry, o, DoneAfter(m, h, registry, x, done), Rest(m, x, todo[1..]));
        var n := Walk(m, h, registry, todo);
        if n.Some? {
          RestTrans(m, u, n.value);
          SameUsedTrans(m.g, u.g, n.value.g);
        }
      }
    } else {
      SameUsedRefl(m.g);
    }
  }

  ghost predicate FromOrder(m: Mem, h: nat, registry: set<nat>, o: nat) {
    forall x :: Away(m, h, registry, x) ==> m.g.ord[x] >= o
  }

  lemma PendingStart(m: Mem, h: nat, registry: set<nat>, o: nat)
    requires Settled(m) && h in m.avail && o <= MAX_ORDER && FromOrder(m, h, registry, o)
    ensures AtList(m, h, o, [], ListOf(m, h, o)) && Pending(m, h, registry, o, ListOf(m, h, o))
  {
    hide Settled, Returnable, Sound;
    SettledParts(m);
    HasList(m, h, o);
    ListDistinct(m, Head(h, o));
    assert [] + m.lists[Head(h, o)] == m.lists[Head(h, o)];
    forall x | Away(m, h, registry, x) && m.g.ord[x] == o
      ensures x in m.lists[Head(h, o)]
    {
      ListTold(m, h, o, x);
    }
  }

  lemma PendingEnd(m: Mem, h: nat, registry: set<nat>, o: nat)
    requires Pending(m, h, registry, o, [])
    ensures FromOrder(m, h, registry, o + 1)
  {
    hide Returnable;
  }

  lemma AllPending(m: Mem, h: nat, registry: set<nat>)
    requires Settled(m)
    ensures FromOrder(m, h, registry, ORDER_MIN)
    ensures FromOrder(m, h, registry, MAX_ORDER + 1) ==> forall x :: !Away(m, h, registry, x)
  {
    hide Sound, Returnable;
    forall x | Away(m, h, registry, x)
      ensures ORDER_MIN <= m.g.ord[x] <= MAX_ORDER
    {
      OrderBound(m, x);
    }
  }

  lemma {:induction false} WalksGive(m: Mem, h: nat, registry: set<nat>, o: nat)
    requires Settled(m) && h in m.avail && registry <= m.avail.Keys && FromOrder(m, h, registry, o)
    requires o <= MAX_ORDER + 1
    ensures var n := Walks(m, h, registry, o);
            n.Some? ==> Settled(n.value) && SameRest(m, n.value) && SameUsed(m.g, n.value.g)
                        && FromOrder(n.value, h, registry, MAX_ORDER + 1)
    decreases MAX_ORDER + 1 - o
  {
    hide Settled, Pending, FromOrder, Walk, SameUsed, ListOf, AtList;
    if o <= MAX_ORDER {
      PendingStart(m, h, registry, o);
      WalkGives(m, h, registry, o, [], ListOf(m, h, o));
      var u := Walk(m, h, registry, ListOf(m, h, o));
      if u.Some? {
        PendingEnd(u.value, h, registry, o);
        WalksGive(u.value, h, registry, o + 1);
        var n := Walks(m, h, registry, o);
        if n.Some? {
          RestTrans(m, u.value, n.value);
          SameUsedTrans(m.g, u.value.g, n.value.g);
        }
      }
    } else {
      SameUsedRefl(m.g);
    }
  }

  /** Walks that keep to their lists give every such block back and touch no block in use,
      cached or queued. */
  lemma WalksMean(m: Mem, h: nat, registry: set<nat>)
    requires Settled(m) && h in m.avail && registry <= m.avail.Keys && Walks(m, h, registry, ORDER_MIN).Some?
    ensures var n := Walks(m, h, registry, ORDER_MIN).value;
            && Settled(n) && SameRest(m, n) && LiveBlocks(n.g) == LiveBlocks(m.g)
            && forall x :: !Away(n, h, registry, x)
  {
    hide Settled, FromOrder, Walks, SameUsed, LiveBlocks, Away;
    AllPending(m, h, registry);
    WalksGive(m, h, registry, ORDER_MIN);
    var n := Walks(m, h, registry, ORDER_MIN).value;
    AllPending(n, h, registry);
    SettledParts(m);
    SettledParts(n);
    KeysAgree(m);
    KeysAgree(n);
    SameUsedLive(m.g, n.g);
  }

  // ----- the walk itself -----

  /** heap_find_pool: whether the pool of `x` is in the table of heap `h`. */
  method FindPool(a: Allocator, h: nat, x: nat) returns (found: bool)
    requires Sound(a.Now()) && x in a.g.ord && h in a.avail
    ensures h in a.tracked && x in a.g.home && a.g.home[x] in a.pools && found == (a.g.home[x] in a.tracked[h])
  {
    hide Sound, Pow2;
    HomeFacts(a.Now(), x);
    TrackedArePools(a.Now(), h);
    var i := 0;
    while i < |a.tracked[h]|
      invariant 0 <= i <= |a.tracked[h]| && a.g.home[x] !in a.tracked[h][..i]
    {
      var base := a.tracked[h][i];
      if base <= x < base + Pow2(a.pools[base].order) { return true; }
      assert a.tracked[h][..i + 1] == a.tracked[h][..i] + [base];
      i := i + 1;
    }
    assert a.tracked[h][..i] == a.tracked[h];
    found := false;
  }

  lemma SentExact(counts: map<nat, int>, m: Mem, h: nat, registry: set<nat>, x: nat)
    requires Settled(m) && Sendable(m, h, registry, x) && registry <= m.avail.Keys
    requires Accounted(counts, m.g, m.pools, registry, m.avail.Keys)
    ensures Accounted(counts, Sent(m, h, registry, x).g, m.pools, registry, m.avail.Keys)
  {
    hide Settled, Accounted, Sent, Sound, SameUsed, Grown;
    SentKeeps(m, h, registry, x);
    KeysAgree(Sent(m, h, registry, x)) by { SettledParts(Sent(m, h, registry, x)); }
    KeepsExact(counts, m.g, Sent(m, h, registry, x).g, m.pools, registry, m.avail.Keys, OwnerOf(m, x), m.g.home[x]);
  }

  /** A block off this heap's list and merged onto the lists of its owner. */
  method SendHome(a: Allocator, h: nat, x: nat, o: nat, owner: nat)
    requires a.Valid() && h in a.avail && !a.parallel && Sendable(a.Now(), h, a.registry, x)
    requires a.g.ord[x] == o && owner == OwnerOf(a.Now(), x)
    modifies a`rc, a`order, a`avail, a`g, a.fl
    ensures Sendable(old(a.Now()), h, a.registry, x) && a.avail.Keys == old(a.avail).Keys
            && LiveBlocks(a.g) == LiveBlocks(old(a.g))
    ensures a.Valid() && a.Now() == Sent(old(a.Now()), h, a.registry, x) && (old(a.Exact()) ==> a.Exact())
  {
    hide Settled, Sound, Linked, Accounted, SameUsed, Grown, Merged, TakenOff, HeadersOK, OnlyHeld, LiveBlocks;
    ghost var m := a.Now();
    SettledParts(m);
    OrderBound(m, x);
    HeaderBytes(m, x);
    TakenOnly(m, x, h);
    TakenGround(m, x, h);
    SentKeeps(m, h, a.registry, x);
    if a.Exact() { SentExact(a.bytes, m, h, a.registry, x); }
    a.Unlink(h, x, o);
    var base := a.Locate(owner, x);
    a.Recycle(owner, x, base);
  }

  /** One turn of the walk, the next block already looked up. It tells whether that block
      was merged away. */
  method Visit(a: Allocator, h: nat, x: nat, o: nat, ahead: Node) returns (astray: bool)
    requires a.Valid() && h in a.avail && !a.parallel && IsFree(a.g, x, h, o)
    modifies a`rc, a`order, a`avail, a`g, a.fl
    ensures a.Valid() && a.avail.Keys == old(a.avail).Keys && (old(a.Exact()) ==> a.Exact())
    ensures LiveBlocks(a.g) == LiveBlocks(old(a.g))
    ensures if Sendable(old(a.Now()), h, a.registry, x)
            then a.Now() == Sent(old(a.Now()), h, a.registry, x)
                 && (astray <==> BelowTop(old(a.Now()), x) && ahead == Block(BuddyAt(old(a.Now()), x)))
            else a.Now() == old(a.Now()) && !astray
  {
    hide Settled, Sound, Linked, Accounted, Sent, BuddyOf, LiveBlocks;
    ghost var m := a.Now();
    SettledParts(m);
    OrderBound(m, x);
    var mine := FindPool(a, h, x);
    if mine { return false; }
    var base := a.PoolOf(x);
    var owner := a.pools[base].owner;
    if owner !in a.registry { return false; }
    AwaySendable(m, h, a.registry, x);
    astray := o < a.pools[base].order && ahead == Block(BuddyOf(x, o, base));
    SendHome(a, h, x, o, owner);
  }

  /** The walk over the list of one order. It gives up where it loses the list, after the
      turn that merged the next block away: what the code does from there is not a matter
      of lists any more. */
  method ReturnOrder(a: Allocator, h: nat, o: nat) returns (kept: bool, ghost at: nat)
    requires a.Valid() && h in a.avail && !a.parallel && ORDER_MIN <= o <= MAX_ORDER
    modifies a`rc, a`order, a`avail, a`g, a.fl
    ensures a.Valid() && a.avail.Keys == old(a.avail).Keys && (old(a.Exact()) ==> a.Exact())
    ensures LiveBlocks(a.g) == LiveBlocks(old(a.g))
    ensures var n := Walk(old(a.Now()), h, a.registry, ListOf(old(a.Now()), h, o));
            if kept then n == Some(a.Now()) else n == None && Astray(a.Now(), h, a.registry, at, o)
  {
    hide Settled, Linked, Accounted, Sent, Sendable, Rest, BuddyOf, AtList, Astray, LiveBlocks;
    ghost var m, hd := a.Now(), Head(h, o);
    ListThere(m, h, o);
    a.fl.Links(hd);
    var blk := a.fl.next[Head(h, o)];
    ghost var done: seq<nat>, todo := [], ListOf(m, h, o);
    while blk != Head(h, o)
      invariant a.Valid() && a.avail.Keys == old(a.avail).Keys && (old(a.Exact()) ==> a.Exact())
      invariant LiveBlocks(a.g) == LiveBlocks(old(a.g))
      invariant AtList(a.Now(), h, o, done, todo) && blk == (if todo == [] then hd else Block(todo[0]))
      invariant Walk(a.Now(), h, a.registry, todo) == Walk(m, h, a.registry, ListOf(m, h, o))
      decreases |todo|
    {
      ghost var n, x0, rest := a.Now(), todo[0], todo[1..];
      AtIsListed(n, h, o, done, todo);
      assert x0 in todo;
      AheadOf(a, h, o, done, todo);
      var x := blk.addr;
      var ahead := a.fl.next[blk];
      var astray := Visit(a, h, x, o, ahead);
      if astray {
        SentAstray(n, h, a.registry, o, x, rest[0]);
        return false, rest[0];
      }
      if Sendable(n, h, a.registry, x) {
        SentList(n, h, a.registry, o, done, todo);
        RestHead(n, x, rest);
        RestShorter(n, x, rest);
        done, todo := DoneAfter(n, h, a.registry, x, done), Rest(n, x, rest);
      } else {
        Passed(n, h, o, done, todo);
        done, todo := done + [x], rest;
      }
      blk := ahead;
    }
    kept, at := true, 0;
  }

  lemma ListThere(m: Mem, h: nat, o: nat)
    requires Settled(m) && h in m.avail && o <= MAX_ORDER
    ensures Head(h, o) in m.lists && AtList(m, h, o, [], ListOf(m, h, o))
  {
    hide Settled;
    SettledParts(m);
    HasList(m, h, o);
    ListDistinct(m, Head(h, o));
    assert [] + m.lists[Head(h, o)] == m.lists[Head(h, o)];
  }

  /** What the block's forward link says. */
  lemma AheadOf(a: Allocator, h: nat, o: nat, done: seq<nat>, todo: seq<nat>)
    requires a.fl.Valid() && AtList(a.Now(), h, o, done, todo) && todo != []
    ensures Block(todo[0]) in a.fl.next
    ensures a.fl.next[Block(todo[0])] == if |todo| > 1 then Block(todo[1]) else Head(h, o)
  {
    hide Linked;
    a.fl.RingHere(Head(h, o), |done|);
  }

  /** What comes next stays next, unless it is the buddy. */
  lemma RestHead(m: Mem, x: nat, rest: seq<nat>)
    requires !BuddyAhead(m, x, rest)
    ensures (Rest(m, x, rest) == [] <==> rest == []) && (rest != [] ==> Rest(m, x, rest)[0] == rest[0])
  {
  }

  /** heap_return_foreign_freelist: the lists of heap `h` walked one after the other. If no
      walk loses its list, every listed block that lies in a pool of another registered
      heap, and not in one of the table of `h`, is with its owner. */
  method ReturnForeign(a: Allocator, h: nat) returns (kept: bool, ghost at: nat, ghost order: nat)
    requires a.Valid() && h in a.avail && !a.parallel
    modifies a`rc, a`order, a`avail, a`g, a.fl
    ensures a.Valid() && a.avail.Keys == old(a.avail).Keys && (old(a.Exact()) ==> a.Exact())
    ensures kept <==> Walks(old(a.Now()), h, a.registry, ORDER_MIN).Some?
    ensures kept ==> Walks(old(a.Now()), h, a.registry, ORDER_MIN) == Some(a.Now())
    ensures kept ==> LiveBlocks(a.g) == LiveBlocks(old(a.g)) && forall x :: !Away(a.Now(), h, a.registry, x)
    ensures !kept ==> Astray(a.Now(), h, a.registry, at, order) && LiveBlocks(a.g) == LiveBlocks(old(a.g))
    ensures NoPair(old(a.Now()), h, a.registry) ==> kept
    ensures old(a.Exact()) && Complete(a.pools, a.tracked) ==> kept
  {
    hide Settled, Linked, Accounted, Walk, Astray, NoPair, LiveBlocks, Away, Complete;
    ghost var m := a.Now();
    if a.Exact() && Complete(a.pools, a.tracked) { ExactNoPair(m, h, a.bytes, a.registry); }
    var o := ORDER_MIN;
    while o <= MAX_ORDER
      invariant ORDER_MIN <= o <= MAX_ORDER + 1 && a.Valid() && a.avail.Keys == old(a.avail).Keys
      invariant (old(a.Exact()) ==> a.Exact()) && LiveBlocks(a.g) == LiveBlocks(old(a.g))
      invariant Walks(a.Now(), h, a.registry, o) == Walks(m, h, a.registry, ORDER_MIN)
    {
      kept, at := ReturnOrder(a, h, o);
      if !kept {
        WalksPair(m, h, a.registry);
        return false, at, o;
      }
      o := o + 1;
    }
    WalksMean(m, h, a.registry);
    kept, at, order := true, 0, 0;
  }

  lemma WalksPair(m: Mem, h: nat, registry: set<nat>)
    requires Settled(m) && h in m.avail && registry <= m.avail.Keys && Walks(m, h, registry, ORDER_MIN).None?
    ensures !NoPair(m, h, registry)
  {
    hide Settled, Walks, NoPair;
    if NoPair(m, h, registry) {
      WalksKept(m, h, registry, ORDER_MIN);
    }
  }

  lemma ExactNoPair(m: Mem, h: nat, counts: map<nat, int>, registry: set<nat>)
    requires Accounted(counts, m.g, m.pools, registry, m.avail.Keys) && Complete(m.pools, m.tracked)
    ensures NoPair(m, h, registry)
  {
    hide NoPair, Complete, AtHome, Balanced;
    CompleteNoPair(m, h, registry);
  }
}
