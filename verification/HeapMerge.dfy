/** What handing a block in transit to a heap does to the whole state: the mergings with
    free buddies, one order after another, and the listing at the end. */
module HeapMerge {
  import opened Tiles
  import opened FreeLists
  import opened HeapModel
  import opened HeapSteps
  import opened HeapBytes
  import opened Options

  /** `x` off the list that holds it; heap `h` drops its bit of the order if its own
      list of that order is then empty. */
  ghost function TakenOff(m: Mem, x: nat, h: nat): Mem
    requires x in m.g.ord && x in m.g.st && m.g.st[x].Free? && Head(m.g.st[x].h, m.g.ord[x]) in m.lists && h in m.avail
  {
    Unlinked(m, x, h, NothingListed(Unlinked(m, x, h, false).lists, h, m.g.ord[x]))
  }

  /** A free block of order `o` starts at `y`. */
  ghost predicate FreeAt(m: Mem, y: nat, o: nat) {
    y in m.g.ord && y in m.g.st && m.g.ord[y] == o && m.g.st[y].Free? && Head(m.g.st[y].h, o) in m.lists
  }

  ghost predicate BelowTop(m: Mem, x: nat) {
    && x in m.g.ord && x in m.g.home && m.g.home[x] in m.pools && m.g.home[x] <= x
    && m.g.ord[x] < m.pools[m.g.home[x]].order <= MAX_ORDER
  }

  ghost function BuddyAt(m: Mem, x: nat): nat
    requires BelowTop(m, x)
  {
    BuddyOf(x, m.g.ord[x], m.g.home[x])
  }

  /** The buddy of `x` is free and of its order. */
  ghost predicate Mergeable(m: Mem, x: nat) {
    BelowTop(m, x) && BuddyAt(m, x) != x && FreeAt(m, BuddyAt(m, x), m.g.ord[x])
  }

  ghost function Low(m: Mem, x: nat): nat
    requires BelowTop(m, x)
  {
    if BuddyAt(m, x) < x then BuddyAt(m, x) else x
  }

  /** The free buddy off its list and joined with `x`. */
  ghost function JoinedWith(m: Mem, h: nat, x: nat): Mem
    requires Mergeable(m, x) && h in m.avail
  {
    var u := TakenOff(m, BuddyAt(m, x), h);
    u.(g := MergeHeld(u.g, Low(m, x)))
  }

  /** Merged as far as it goes, then listed with heap `h`. */
  ghost function Merged(m: Mem, h: nat, x: nat): Mem
    decreases if x in m.g.ord then MAX_ORDER - m.g.ord[x] else 0
  {
    if h in m.avail && Mergeable(m, x) then Merged(JoinedWith(m, h, x), h, Low(m, x))
    else Listed(m, h, x)
  }

  ghost function Listed(m: Mem, h: nat, x: nat): Mem {
    if x in m.g.ord && h in m.avail && Head(h, m.g.ord[x]) in m.lists then Inserted(m, x, h) else m
  }

  lemma SoundTaken(m: Mem, x: nat, h: nat)
    requires Sound(m) && x in m.g.ord && x in m.g.st && m.g.st[x].Free? && h in m.avail
    ensures Head(m.g.st[x].h, m.g.ord[x]) in m.lists && x in m.lists[Head(m.g.st[x].h, m.g.ord[x])]
    ensures Sound(TakenOff(m, x, h))
  {
    hide Sound, Without;
    FreeIsListed(m, x);
    SoundUnlink(m, x, h, NothingListed(Unlinked(m, x, h, false).lists, h, m.g.ord[x]));
  }

  lemma TakenKeys(m: Mem, x: nat, h: nat)
    requires x in m.g.ord && x in m.g.st && m.g.st[x].Free? && Head(m.g.st[x].h, m.g.ord[x]) in m.lists && h in m.avail
    ensures TakenOff(m, x, h).avail.Keys == m.avail.Keys
  {
  }

  /** One turn of the coalescing loop. */
  lemma JoinKeeps(m: Mem, h: nat, x: nat)
    requires Sound(m) && HeadersOK(m.g, m.pools) && OnlyHeld(m.g, x) && h in m.avail && Mergeable(m, x)
    ensures var u := JoinedWith(m, h, x);
            && Joined(m.g, u, x, Low(m, x)) && Grown(m.g, u.g, h, m.g.home[x]) && u.avail.Keys == m.avail.Keys
  {
    hide Sound, HeadersOK, OnlyHeld, BuddyOf, TakenOff, Grown, Joined;
    var y, low := BuddyAt(m, x), Low(m, x);
    HeldPlace(m.g, x);
    SoundTaken(m, y, h);
    TakenKeys(m, y, h);
    TakenGround(m, y, h);
    TakenBuddy(TakenOff(m, y, h), m.g, x, y);
    GrownTaken(m.g, y, Held, h, m.g.home[x]);
    GrownMerge(Put(m.g, y, Held), low, h, m.g.home[x]);
    GrownTrans(m.g, Put(m.g, y, Held), MergeHeld(Put(m.g, y, Held), low), h, m.g.home[x]);
  }

  lemma TakenGround(m: Mem, x: nat, h: nat)
    requires x in m.g.ord && x in m.g.st && m.g.st[x].Free? && Head(m.g.st[x].h, m.g.ord[x]) in m.lists && h in m.avail
    ensures var u := TakenOff(m, x, h);
            && u == m.(lists := u.lists, avail := u.avail, g := Put(m.g, x, Held))
            && u.lists == m.lists[Head(m.g.st[x].h, m.g.ord[x]) := Without(m.lists[Head(m.g.st[x].h, m.g.ord[x])], x)]
  {
  }

  /** Unlinking, then looking at the heap's own list. */
  lemma TakenBy(m: Mem, n: Mem, x: nat, h: nat)
    requires x in m.g.ord && x in m.g.st && m.g.st[x].Free? && Head(m.g.st[x].h, m.g.ord[x]) in m.lists && h in m.avail
    requires n == m.(lists := n.lists, avail := n.avail, g := n.g) && n.g == Put(m.g, x, Held)
    requires n.lists == m.lists[Head(m.g.st[x].h, m.g.ord[x]) := Without(m.lists[Head(m.g.st[x].h, m.g.ord[x])], x)]
    requires n.avail ==
             if NothingListed(n.lists, h, m.g.ord[x]) then m.avail[h := m.avail[h] - {m.g.ord[x]}] else m.avail
    ensures n == TakenOff(m, x, h)
  {
  }

  /** The loop stops where nothing is left to merge with. */
  lemma NotMergeable(m: Mem, x: nat)
    requires Sound(m) && OnlyHeld(m.g, x) && !Mergeable(m, x)
    ensures Alone(m, x)
  {
    hide Sound, BuddyOf;
    HeldPlace(m.g, x);
    OrderBound(m, x);
    if m.g.ord[x] < m.pools[m.g.home[x]].order {
      BuddyPair(m, x);
      var y := BuddyAt(m, x);
      if m.g.ord[y] == m.g.ord[x] && m.g.st[y].Free? { FreeIsListed(m, y); }
    }
  }

  /** What a listing or merging leaves alone. */
  ghost predicate SameRest(m: Mem, n: Mem) {
    && n.slabs == m.slabs && n.foreign == m.foreign && n.tracked == m.tracked && n.pools == m.pools
    && n.calm == m.calm && n.avail.Keys == m.avail.Keys
  }

  lemma ListedKeeps(m: Mem, h: nat, x: nat)
    requires Sound(m) && HeadersOK(m.g, m.pools) && OnlyHeld(m.g, x) && h in m.avail && (m.calm ==> Alone(m, x))
    ensures x in m.g.ord && Head(h, m.g.ord[x]) in m.lists && Listed(m, h, x) == Inserted(m, x, h)
    ensures var u := Listed(m, h, x);
            && x in m.g.home && Settled(u) && SameUsed(m.g, u.g) && Grown(m.g, u.g, h, m.g.home[x]) && SameRest(m, u)
  {
    hide Sound, Settled, HeadersOK, OnlyHeld, SameUsed, Grown, Alone;
    HeldPlace(m.g, x);
    OrderBound(m, x);
    SettledInsert(m, x, h);
    GrownPut(m.g, x, h, m.g.home[x]);
  }

  /** A block in transit merged and listed: all is settled again, no block in use, cached
      or queued has moved, and only `h` has gained a free block, in the same pool. */
  lemma {:induction false} MergedKeeps(m: Mem, h: nat, x: nat)
    requires Sound(m) && HeadersOK(m.g, m.pools) && OnlyHeld(m.g, x) && h in m.avail
    ensures var u := Merged(m, h, x);
            && x in m.g.home && Settled(u) && SameUsed(m.g, u.g) && Grown(m.g, u.g, h, m.g.home[x]) && SameRest(m, u)
    decreases if x in m.g.ord then MAX_ORDER - m.g.ord[x] else 0
  {
    hide Sound, Settled, HeadersOK, OnlyHeld, SameUsed, Grown, Alone, JoinedWith, Low, Listed, BuddyAt, FreeAt;
    if Mergeable(m, x) {
      var u, low := JoinedWith(m, h, x), Low(m, x);
      JoinKeeps(m, h, x);
      JoinRest(m, h, x);
      MergedKeeps(u, h, low);
      var w := Merged(u, h, low);
      SameUsedTrans(m.g, u.g, w.g);
      GrownTrans(m.g, u.g, w.g, h, m.g.home[x]);
    } else {
      NotMergeable(m, x);
      ListedKeeps(m, h, x);
    }
  }

  lemma JoinRest(m: Mem, h: nat, x: nat)
    requires h in m.avail && Mergeable(m, x)
    ensures var u := JoinedWith(m, h, x);
            && SameRest(m, u) && u.rc == m.rc && u.order == m.order
            && Low(m, x) in u.g.ord && u.g.ord[Low(m, x)] == m.g.ord[x] + 1
  {
    hide BuddyOf;
    TakenKeys(m, BuddyAt(m, x), h);
  }

  /** Merging takes no block off a list of a lower order, nor lists one there. */
  lemma {:induction false} MergedAbove(m: Mem, h: nat, x: nat, n: Node)
    requires x in m.g.ord && n in m.lists && n.Head? && n.order < m.g.ord[x]
    ensures n in Merged(m, h, x).lists && Merged(m, h, x).lists[n] == m.lists[n]
    decreases MAX_ORDER - m.g.ord[x]
  {
    hide BuddyOf, Without, MergeHeld;
    if h in m.avail && Mergeable(m, x) {
      JoinRest(m, h, x);
      MergedAbove(JoinedWith(m, h, x), h, Low(m, x), n);
    }
  }

  /** The first turn is the only one to touch the lists of the block's own order. */
  lemma MergedLists(m: Mem, h: nat, x: nat, n: Node)
    requires x in m.g.ord && h in m.avail && n in m.lists && n.Head? && n.order == m.g.ord[x]
    requires Head(h, m.g.ord[x]) in m.lists
    ensures var u := Merged(m, h, x);
            && n in u.lists
            && u.lists[n] == if Mergeable(m, x) then JoinedWith(m, h, x).lists[n]
                             else if n.heap == h then [x] + m.lists[n] else m.lists[n]
  {
    hide BuddyOf, Without;
    if Mergeable(m, x) {
      JoinRest(m, h, x);
      MergedAbove(JoinedWith(m, h, x), h, Low(m, x), n);
    }
  }

  /** Where the merged block starts. */
  ghost function End(m: Mem, h: nat, x: nat): nat
    decreases if x in m.g.ord then MAX_ORDER - m.g.ord[x] else 0
  {
    if h in m.avail && Mergeable(m, x) then End(JoinedWith(m, h, x), h, Low(m, x)) else x
  }

  /** The block listed in the end covers `x`, and only its header bytes are new. */
  ghost predicate EndsAt(m: Mem, u: Mem, h: nat, x: nat, z: nat) {
    && z in u.g.ord && z in u.g.st && u.g.st[z] == HeapModel.Free(h) && x in m.g.ord && m.g.ord[x] <= u.g.ord[z]
    && z <= x && x + Pow2(m.g.ord[x]) <= z + Pow2(u.g.ord[z])
    && u.rc == m.rc[z := 0] && u.order == m.order[z := u.g.ord[z]]
    && x in m.g.home && z in u.g.home && u.g.home[z] == m.g.home[x]
  }

  lemma {:induction false} MergedEnd(m: Mem, h: nat, x: nat)
    requires Sound(m) && HeadersOK(m.g, m.pools) && OnlyHeld(m.g, x) && h in m.avail
    ensures EndsAt(m, Merged(m, h, x), h, x, End(m, h, x))
    decreases if x in m.g.ord then MAX_ORDER - m.g.ord[x] else 0
  {
    hide Sound, HeadersOK, OnlyHeld, Alone, JoinedWith, Low, Listed, BuddyAt, FreeAt, SameUsed, Grown;
    HeldPlace(m.g, x);
    OrderBound(m, x);
    if Mergeable(m, x) {
      var u, low := JoinedWith(m, h, x), Low(m, x);
      JoinKeeps(m, h, x);
      JoinRest(m, h, x);
      JoinCovers(m, h, x);
      MergedEnd(u, h, low);
    } else {
      NotMergeable(m, x);
      ListedKeeps(m, h, x);
    }
  }

  /** The joined block covers both buddies. */
  lemma JoinCovers(m: Mem, h: nat, x: nat)
    requires Sound(m) && h in m.avail && Mergeable(m, x)
    ensures var y, low, o := BuddyAt(m, x), Low(m, x), m.g.ord[x];
            low <= x && low <= y && x + Pow2(o) <= low + Pow2(o + 1) && y + Pow2(o) <= low + Pow2(o + 1)
  {
    hide Sound, BuddyOf;
    BuddyPair(m, x);
  }

  /** What becomes of a block handed to heap `h`; with the parallel flag up it is listed
      as it is. */
  ghost function Given(m: Mem, h: nat, x: nat, parallel: bool): Mem {
    if parallel then Listed(m, h, x) else Merged(m, h, x)
  }

  lemma GivenKeeps(m: Mem, h: nat, x: nat, parallel: bool)
    requires Sound(m) && HeadersOK(m.g, m.pools) && OnlyHeld(m.g, x) && h in m.avail && (m.calm ==> !parallel)
    ensures var u := Given(m, h, x, parallel);
            && x in m.g.home && Settled(u) && SameUsed(m.g, u.g) && Grown(m.g, u.g, h, m.g.home[x]) && SameRest(m, u)
  {
    hide Sound, Settled, HeadersOK, OnlyHeld, SameUsed, Grown, Alone, Listed, Merged;
    MergedKeeps(m, h, x);
    if parallel { ListedKeeps(m, h, x); }
  }

  // ----- what the coalescing loop sees -----

  /** The header bytes at the buddy's address tell whether it can be merged. */
  lemma BuddySeen(m: Mem, x: nat, y: nat)
    requires Sound(m) && OnlyHeld(m.g, x) && x in m.g.ord && x in m.g.home && m.g.home[x] in m.pools && m.g.home[x] <= x
    requires m.g.ord[x] < m.pools[m.g.home[x]].order && y == BuddyOf(x, m.g.ord[x], m.g.home[x])
    ensures BelowTop(m, x) && y == BuddyAt(m, x) && y in m.rc && y in m.order
    ensures Mergeable(m, x) <==> m.rc[y] == 0 && m.order[y] == m.g.ord[x]
  {
    hide Sound, BuddyOf;
    OrderBound(m, x);
    BuddyPair(m, x);
    NotHeld(m.g, x, y);
    HeaderBytes(m, y);
    if m.g.st[y].Free? { FreeIsListed(m, y); }
  }

  lemma MergedStep(m: Mem, h: nat, x: nat)
    requires h in m.avail && Mergeable(m, x)
    ensures Merged(m, h, x) == Merged(JoinedWith(m, h, x), h, Low(m, x))
  {
    hide JoinedWith, Low, Mergeable;
  }

  lemma MergedStop(m: Mem, h: nat, x: nat)
    requires Sound(m) && OnlyHeld(m.g, x) && x in m.g.ord && x in m.g.home && m.g.home[x] in m.pools
    requires m.g.ord[x] < m.pools[m.g.home[x]].order ==> !Mergeable(m, x)
    ensures !Mergeable(m, x) && Merged(m, h, x) == Listed(m, h, x) && Alone(m, x)
  {
    hide Sound, Alone, Listed, FreeAt, BuddyAt;
    NotMergeable(m, x);
  }

  lemma JoinedParts(g: Ground, n: Mem, x: nat, low: nat)
    requires Joined(g, n, x, low)
    ensures Sound(n) && HeadersOK(n.g, n.pools) && OnlyHeld(n.g, low) && x in g.ord && x in g.home
    ensures low in n.g.ord && low in n.g.home && n.g.ord[low] == g.ord[x] + 1 && n.g.home[low] == g.home[x] <= low
  {
  }

  /** The first block of a list taken off it, nothing else in transit. */
  lemma TakenOnly(m: Mem, x: nat, h: nat)
    requires Settled(m) && x in m.g.ord && x in m.g.st && m.g.st[x].Free? && h in m.avail
    ensures Head(m.g.st[x].h, m.g.ord[x]) in m.lists
    ensures var u := TakenOff(m, x, h);
            && Sound(u) && HeadersOK(u.g, u.pools) && OnlyHeld(u.g, x) && SameUsed(m.g, u.g) && SameRest(m, u)
            && u.g == Put(m.g, x, Held)
  {
    hide Sound, SameUsed, Without, TakenOff;
    SettledParts(m);
    SoundTaken(m, x, h);
    TakenGround(m, x, h);
    TakenKeys(m, x, h);
    PutUnused(m.g, x, Held);
    HeadersMoved(m.g, m.pools, x, Held);
  }

  // ----- cutting a block down -----

  /** The block at `x`, of order `top` in `m0`, cut down to order `o`: the upper halves
      stand in front of the lists of heap `h`, and nothing else has changed. */
  ghost predicate CutTo(m0: Mem, m: Mem, h: nat, x: nat, top: nat, o: nat) {
    && SameUsed(m0.g, m.g) && SameRest(m0, m) && x in m.g.ord && m.g.ord[x] == o
    && x in m0.g.home && x in m.g.home && m.g.home[x] == m0.g.home[x] && Grown(m0.g, m.g, h, m0.g.home[x])
    && CascadeAdded(m0.lists, m.lists, h, x, o, top)
    && (x in m0.rc && x in m0.order ==> x in m.rc && x in m.order && m.rc[x] == m0.rc[x] && m.order[x] == m0.order[x])
  }

  lemma CutStart(m: Mem, h: nat, x: nat)
    requires x in m.g.ord && x in m.g.home
    ensures CutTo(m, m, h, x, m.g.ord[x], m.g.ord[x])
  {
    hide SameUsed, Grown;
    SameUsedRefl(m.g);
    GrownRefl(m.g, h, m.g.home[x]);
  }

  ghost function InHalves(m: Mem, x: nat): Mem {
    if x in m.g.ord && x in m.g.home && m.g.ord[x] > 0 then m.(g := SplitHeld(m.g, x)) else m
  }

  /** The upper half of `x` split off and listed. */
  ghost function Halving(m: Mem, h: nat, x: nat): Mem {
    if x in m.g.ord && m.g.ord[x] > 0 then Listed(InHalves(m, x), h, x + Pow2(m.g.ord[x] - 1)) else m
  }

  ghost predicate Ready(n: Mem, h: nat, y: nat, o: nat) {
    && Sound(n) && HeldAt(n.g, y) && n.g.ord[y] == o <= MAX_ORDER && (n.calm ==> Alone(n, y))
    && h in n.avail && Head(h, o) in n.lists
  }

  /** The upper half of `x` is ready to be listed. */
  lemma CutReady(m: Mem, h: nat, x: nat, heads: Pools)
    requires Sound(m) && HeadersOK(m.g, heads) && OnlyHeld(m.g, x) && h in m.avail
    requires x in m.g.ord && ORDER_MIN < m.g.ord[x]
    ensures x in m.g.home && InHalves(m, x) == m.(g := SplitHeld(m.g, x))
    ensures Ready(InHalves(m, x), h, x + Pow2(m.g.ord[x] - 1), m.g.ord[x] - 1)
  {
    hide Sound, HeadersOK, OnlyHeld, SameUsed, Alone, Pow2, Put, HeldAt, Inserted, SplitHeld;
    SplitStep(m, x, heads);
    SplitInsert(m.g, m.(g := SplitHeld(m.g, x)), x, x + Pow2(m.g.ord[x] - 1), h, heads);
    OrderBound(m, x);
  }

  lemma ReadyParts(n: Mem, h: nat, y: nat, o: nat)
    requires Ready(n, h, y, o)
    ensures Sound(n) && HeldAt(n.g, y) && n.g.ord[y] == o <= MAX_ORDER && (n.calm ==> Alone(n, y))
    ensures h in n.avail && Head(h, o) in n.lists && Listed(n, h, y) == Inserted(n, y, h)
  {
    hide Sound, Alone;
  }

  /** One turn of the splitting loop: with the upper half listed the lower one is one
      order less. */
  lemma CutStep(m0: Mem, m: Mem, h: nat, x: nat, top: nat, heads: Pools)
    requires Sound(m) && HeadersOK(m.g, heads) && OnlyHeld(m.g, x) && h in m.avail
    requires x in m.g.ord && ORDER_MIN < m.g.ord[x] <= top && CutTo(m0, m, h, x, top, m.g.ord[x])
    ensures var u := Halving(m, h, x);
            Sound(u) && HeadersOK(u.g, heads) && OnlyHeld(u.g, x) && CutTo(m0, u, h, x, top, m.g.ord[x] - 1)
  {
    hide Sound, HeadersOK, OnlyHeld, SameUsed, Grown, CascadeAdded, Alone, Pow2, Put, HeldAt, Halving, InHalves,
         SplitHeld, SameRest, Inserted;
    var u := Halving(m, h, x);
    CutReady(m, h, x, heads);
    ReadyParts(InHalves(m, x), h, x + Pow2(m.g.ord[x] - 1), m.g.ord[x] - 1);
    SplitStep(m, x, heads);
    SplitInsert(m.g, m.(g := SplitHeld(m.g, x)), x, x + Pow2(m.g.ord[x] - 1), h, heads);
    HalvingIs(m, h, x);
    HalfListed(m, h, x);
    SameUsedTrans(m0.g, m.g, u.g);
    GrownHalf(m.g, x, h);
    GrownTrans(m0.g, m.g, u.g, h, m0.g.home[x]);
    CascadeStep(m0.lists, m.lists, h, x, m.g.ord[x], top);
    RestTrans(m0, m, u);
  }

  lemma HalvingIs(m: Mem, h: nat, x: nat)
    requires x in m.g.ord && x in m.g.home && m.g.ord[x] > 0
    ensures InHalves(m, x) == m.(g := SplitHeld(m.g, x))
    ensures Halving(m, h, x) == Listed(InHalves(m, x), h, x + Pow2(m.g.ord[x] - 1))
  {
    hide Pow2, SplitHeld, Listed;
  }

  lemma RestTrans(m: Mem, n: Mem, u: Mem)
    requires SameRest(m, n) && SameRest(n, u)
    ensures SameRest(m, u)
  {
  }

  /** The parts of the state with the upper half listed. */
  lemma HalfListed(m: Mem, h: nat, x: nat)
    requires x in m.g.ord && x in m.g.home && m.g.ord[x] > 0 && h in m.avail && Head(h, m.g.ord[x] - 1) in m.lists
    ensures var o, u := m.g.ord[x] - 1, Halving(m, h, x);
            && u.g == Put(SplitHeld(m.g, x), x + Pow2(o), Free(h)) && SameRest(m, u)
            && u.lists == m.lists[Head(h, o) := [x + Pow2(o)] + m.lists[Head(h, o)]]
            && x in u.g.ord && u.g.ord[x] == o && x in u.g.home && u.g.home[x] == m.g.home[x]
            && (x in m.rc && x in m.order ==>
                 x in u.rc && x in u.order && u.rc[x] == m.rc[x] && u.order[x] == m.order[x])
  {
    hide Pow2;
  }

  lemma CutOrder(m0: Mem, m: Mem, h: nat, x: nat, top: nat, o: nat)
    requires CutTo(m0, m, h, x, top, o)
    ensures x in m.g.ord && m.g.ord[x] == o && m.avail.Keys == m0.avail.Keys
  {
  }

  lemma CutParts(m0: Mem, m: Mem, h: nat, x: nat, top: nat, o: nat)
    requires CutTo(m0, m, h, x, top, o)
    ensures SameUsed(m0.g, m.g) && SameRest(m0, m) && x in m.g.ord && m.g.ord[x] == o
    ensures x in m0.g.home && x in m.g.home && m.g.home[x] == m0.g.home[x] && Grown(m0.g, m.g, h, m0.g.home[x])
    ensures CascadeAdded(m0.lists, m.lists, h, x, o, top)
    ensures x in m0.rc && x in m0.order ==>
              x in m.rc && x in m.order && m.rc[x] == m0.rc[x] && m.order[x] == m0.order[x]
  {
  }

  /** `v`, the first block of heap `h`'s list of order `found`, is off it, and its upper
      halves down to order `k` are in front of the lists of their orders. */
  ghost predicate FromList(lists0: Lists, lists: Lists, h: nat, v: nat, k: nat, found: nat) {
    && Head(h, found) in lists0 && lists0[Head(h, found)] != [] && v == lists0[Head(h, found)][0]
    && CascadeAdded(lists0[Head(h, found) := lists0[Head(h, found)][1..]], lists, h, v, k, found)
  }

  /** A listed block unlinked and cut down, before it is handed out. */
  lemma CutFromList(m: Mem, n: Mem, h: nat, v: nat, k: nat, found: nat)
    requires Settled(m) && Sound(n) && OnlyHeld(n.g, v) && h in m.avail
    requires Head(h, found) in m.lists && m.lists[Head(h, found)] != [] && v == m.lists[Head(h, found)][0]
    requires IsFree(m.g, v, h, found) && CutTo(TakenOff(m, v, h), n, h, v, found, k)
    ensures FromList(m.lists, n.lists, h, v, k, found) && n.avail.Keys == m.avail.Keys && SameUsed(m.g, n.g)
    ensures v !in LiveBlocks(m.g) && LiveBlocks(Put(n.g, v, Live)) == LiveBlocks(m.g)[v := k]
    ensures v in m.g.home && v in n.g.home && n.g.home[v] == m.g.home[v]
            && Grown(Put(m.g, v, Held), n.g, h, n.g.home[v])
    ensures v in n.g.ord && n.g.ord[v] == k && m.g.ord.Keys == m.g.st.Keys == m.g.home.Keys
            && n.g.ord.Keys == n.g.st.Keys == n.g.home.Keys
  {
    hide Settled, Sound, OnlyHeld, SameUsed, Grown, CascadeAdded, TakenOff, LiveBlocks, CutTo;
    var u := TakenOff(m, v, h);
    SettledParts(m);
    TakenOnly(m, v, h);
    TakenGround(m, v, h);
    CutParts(u, n, h, v, found, k);
    SameUsedTrans(m.g, u.g, n.g);
    KeysAgree(m);
    KeysAgree(n);
    TakenLive(m.g, n.g, v, k);
  }

  // ----- where the memory handed out comes from -----

  /** From `m` to `n`, heap `h` has cut the region granted onto its lists. */
  ghost predicate PoolAdded(m: Mem, n: Mem, h: nat, k: nat, grant: Option<nat>) {
    && grant.Some? && h in m.tracked
    && (forall o: nat :: k <= o <= MAX_ORDER ==> NothingListed(m.lists, h, o))
    && CascadeAdded(m.lists, n.lists, h, grant.value, ORDER_MIN, PoolOrderFor(k))
    && n.pools == m.pools[grant.value := Pool(PoolOrderFor(k), h)]
    && n.tracked == m.tracked[h := m.tracked[h] + [grant.value]]
  }

  /** The lists as they were, or with a new pool on them because no list would do. */
  ghost predicate Supplied(m: Mem, n: Mem, h: nat, k: nat, grant: Option<nat>) {
    (n.lists == m.lists && n.tracked == m.tracked && n.pools == m.pools) || PoolAdded(m, n, h, k, grant)
  }

  lemma AddedTo(m: Mem, m1: Mem, n: Mem, n1: Mem, h: nat, k: nat, grant: Option<nat>)
    requires m1.lists == m.lists && m1.tracked == m.tracked && m1.pools == m.pools && PoolAdded(m1, n, h, k, grant)
    requires n1.lists == n.lists && n1.tracked == n.tracked && n1.pools == n.pools
    ensures PoolAdded(m, n1, h, k, grant)
  {
  }

  /** `v` is the first block of the least list of heap `h` that has one of order `k` or
      more, after a pool was added if none had; its upper halves are back on the lists. */
  ghost predicate Drawn(m: Mem, n: Mem, h: nat, k: nat, grant: Option<nat>, v: nat) {
    exists s: Mem, found: nat :: DrawnVia(m, s, n, h, k, grant, v, found)
  }

  ghost predicate DrawnVia(m: Mem, s: Mem, n: Mem, h: nat, k: nat, grant: Option<nat>, v: nat, found: nat) {
    && Supplied(m, s, h, k, grant) && n.pools == s.pools && n.tracked == s.tracked
    && k <= found <= MAX_ORDER && (forall o: nat :: k <= o < found ==> NothingListed(s.lists, h, o))
    && FromList(s.lists, n.lists, h, v, k, found)
  }

  lemma DrawnFrom(m: Mem, s: Mem, n: Mem, h: nat, k: nat, grant: Option<nat>, v: nat, found: nat)
    requires Supplied(m, s, h, k, grant) && n.pools == s.pools && n.tracked == s.tracked
    requires k <= found <= MAX_ORDER && forall o: nat :: k <= o < found ==> NothingListed(s.lists, h, o)
    requires FromList(s.lists, n.lists, h, v, k, found)
    ensures Drawn(m, n, h, k, grant, v)
  {
    hide Supplied, FromList;
    assert DrawnVia(m, s, n, h, k, grant, v, found);
  }

  /** `v` was on top of the stack of its order. */
  ghost predicate Popped(slabs0: Slabs, slabs: Slabs, h: nat, k: nat, v: nat) {
    && h in slabs0 && k >= ORDER_MIN && k - ORDER_MIN < |slabs0[h]| && slabs0[h][k - ORDER_MIN] != []
    && v == slabs0[h][k - ORDER_MIN][|slabs0[h][k - ORDER_MIN]| - 1]
    && slabs == SlabPopped(slabs0, h, k - ORDER_MIN)
  }

  lemma EmptyTold(lists: Lists, h: nat, o: nat)
    requires Head(h, o) in lists
    ensures NothingListed(lists, h, o) <==> lists[Head(h, o)] == []
  {
  }

  // ----- before anything was called -----

  lemma NothingYet()
    ensures Settled(Mem(map[], map[], map[], map[], map[], map[], map[], map[], Ground(map[], map[], map[]), true))
    ensures Accounted(map[], Ground(map[], map[], map[]), map[], {}, {})
  {
  }

  ghost function WithHeap(m: Mem, lists: Lists, h: nat): Mem {
    m.(lists := lists, avail := m.avail[h := {}], slabs := m.slabs[h := [[], [], [], [], []]],
       foreign := m.foreign[h := []], tracked := m.tracked[h := []])
  }

  lemma NewHeapSettled(m: Mem, lists: Lists, h: nat)
    requires Settled(m) && h !in m.avail && EmptyLists(m.lists, lists, h, MAX_ORDER + 1)
    ensures Settled(WithHeap(m, lists, h))
  {
    hide Settled, EmptyLists;
    NewHeapKeeps(m, WithHeap(m, lists, h), h);
  }

  lemma NewHeapKeys(avail: map<nat, set<nat>>, h: nat)
    ensures avail[h := {}].Keys == avail.Keys + {h}
  {
  }

  // ----- one heap taking over from another -----

  ghost predicate OfHeap(s: Status, h: nat) { s == HeapModel.Free(h) || s == Slab(h) || s == Foreign(h) }

  /** No block has changed its bounds; blocks that were with heap `src` may now be listed
      or cached by heap `dst`. */
  ghost predicate Adopts(g: Ground, u: Ground, src: nat, dst: nat) {
    && u.ord == g.ord && u.home == g.home && u.st.Keys == g.st.Keys
    && forall a :: a in g.st ==>
         u.st[a] == g.st[a] || (OfHeap(g.st[a], src) && (u.st[a] == HeapModel.Free(dst) || u.st[a] == Slab(dst)))
  }

  lemma AdoptsRefl(g: Ground, src: nat, dst: nat)
    ensures Adopts(g, g, src, dst)
  {
  }

  lemma AdoptsTrans(g: Ground, u: Ground, w: Ground, src: nat, dst: nat)
    requires Adopts(g, u, src, dst) && Adopts(u, w, src, dst)
    ensures Adopts(g, w, src, dst)
  {
    forall a | a in g.st
      ensures w.st[a] == g.st[a] || (OfHeap(g.st[a], src) && (w.st[a] == HeapModel.Free(dst) || w.st[a] == Slab(dst)))
    {
      assert u.st[a] == g.st[a] || OfHeap(g.st[a], src);
    }
  }

  lemma AdoptsOne(g: Ground, x: nat, s: Status, src: nat, dst: nat)
    requires x in g.st && OfHeap(g.st[x], src) && (s == HeapModel.Free(dst) || s == Slab(dst))
    ensures Adopts(g, Put(g, x, s), src, dst) && Put(Put(g, x, Held), x, s) == Put(g, x, s)
  {
    assert g.st[x := Held][x := s] == g.st[x := s];
  }

  lemma AdoptsOrder(g: Ground, src: nat, dst: nat, o: nat)
    ensures Adopts(g, Adopted(g, src, dst, o), src, dst)
  {
  }

  /** With the flag up a block taken from heap `src` is listed by `dst` as it is. */
  lemma GivenAdopts(m: Mem, x: nat, src: nat, dst: nat, g: Ground)
    requires m.g == Put(g, x, Held) && x in g.st && OfHeap(g.st[x], src) && dst in m.avail && Sound(m) && x in m.g.ord
    ensures Adopts(g, Given(m, dst, x, true).g, src, dst)
  {
    hide Sound, Adopts;
    OrderBound(m, x);
    HasList(m, dst, m.g.ord[x]);
    AdoptsOne(g, x, HeapModel.Free(dst), src, dst);
  }
}
