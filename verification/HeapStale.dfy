/** What the code does with a block that is no longer one: the same steps on the bytes and
    links alone, which no invariant speaks for any more. */
module HeapStale {
  import opened Tiles
  import opened FreeLists
  import opened HeapModel
  import opened HeapSteps
  import opened HeapBytes
  import opened HeapMerge
  import opened HeapTheorems
  import opened HeapReturn
  import opened Heap

  /** The links, header bytes and bits as they lie in memory. */
  datatype Raw = Raw(next: Links, prev: Links, rc: map<nat, nat>, order: map<nat, nat>, avail: map<nat, set<nat>>)

  ghost predicate Describes(m: Mem, r: Raw) {
    Linked(r.next, r.prev, m.lists) && m.rc == r.rc && m.order == r.order && m.avail == r.avail
  }

  /** fl_remove by the block's own two links, and the bit of heap `h`. */
  function RawUnlink(r: Raw, h: nat, x: nat, o: nat): Raw {
    if Block(x) in r.next && Block(x) in r.prev then
      var p, n := r.prev[Block(x)], r.next[Block(x)];
      var next := r.next[p := n];
      var empty := Head(h, o) in next && next[Head(h, o)] == Head(h, o);
      r.(next := next, prev := r.prev[n := p],
         avail := if empty && h in r.avail then r.avail[h := r.avail[h] - {o}] else r.avail)
    else r
  }

  /** heap_insert_block. */
  function RawInsert(r: Raw, h: nat, x: nat, o: nat): Raw {
    if Head(h, o) in r.next && h in r.avail then
      var first := r.next[Head(h, o)];
      Raw(r.next[Block(x) := first][Head(h, o) := Block(x)], r.prev[Block(x) := Head(h, o)][first := Block(x)],
          r.rc[x := 0], r.order[x := o], r.avail[h := r.avail[h] + {o}])
    else r
  }

  /** The header bytes at `y` are those of a free block of order `o`. */
  predicate ReadsFree(r: Raw, y: nat, o: nat) { y in r.rc && y in r.order && r.rc[y] == 0 && r.order[y] == o }

  /** heap_coalesce. */
  function RawCoalesce(r: Raw, h: nat, x: nat, o: nat, base: nat, top: nat): Raw
    requires base <= x
    decreases top - o
  {
    if o < top && ReadsFree(r, BuddyOf(x, o, base), o) then
      var y := BuddyOf(x, o, base);
      RawCoalesce(RawUnlink(r, h, y, o), h, if y < x then y else x, o + 1, base, top)
    else RawInsert(r, h, x, o)
  }

  /** On a state the invariants describe these are the steps of the model: merging on the
      bytes and links gives what `Merged` says. */
  lemma {:induction false} RawIsMerged(m: Mem, r: Raw, h: nat, x: nat)
    requires Sound(m) && HeadersOK(m.g, m.pools) && OnlyHeld(m.g, x) && h in m.avail && Describes(m, r)
    requires x in m.g.ord && x in m.g.home && m.g.home[x] in m.pools && m.g.home[x] <= x
    ensures Describes(Merged(m, h, x), RawCoalesce(r, h, x, m.g.ord[x], m.g.home[x], m.pools[m.g.home[x]].order))
    decreases MAX_ORDER - m.g.ord[x]
  {
    hide Sound, HeadersOK, OnlyHeld, Describes, BuddyOf, RawUnlink, RawInsert, JoinedWith, Low, Listed, Mergeable,
         BuddyAt, SameUsed, Grown, Merged;
    var o, base := m.g.ord[x], m.g.home[x];
    OrderBound(m, x);
    if o < m.pools[base].order {
      var y := BuddyOf(x, o, base);
      BuddySeen(m, x, y);
      ReadsTold(m, r, y, o);
      if Mergeable(m, x) {
        MergedStep(m, h, x);
        JoinKeeps(m, h, x);
        JoinRest(m, h, x);
        RawJoin(m, r, h, x);
        RawIsMerged(JoinedWith(m, h, x), RawUnlink(r, h, y, o), h, Low(m, x));
      } else {
        MergedStop(m, h, x);
        RawListed(m, r, h, x);
      }
    } else {
      MergedStop(m, h, x);
      RawListed(m, r, h, x);
    }
  }

  lemma ReadsTold(m: Mem, r: Raw, y: nat, o: nat)
    requires Describes(m, r)
    ensures ReadsFree(r, y, o) <==> y in m.rc && y in m.order && m.rc[y] == 0 && m.order[y] == o
  {
    hide Linked;
  }

  lemma RawJoin(m: Mem, r: Raw, h: nat, x: nat)
    requires Sound(m) && h in m.avail && Mergeable(m, x) && Describes(m, r)
    ensures var u := JoinedWith(m, h, x);
            && Describes(u, RawUnlink(r, h, BuddyAt(m, x), m.g.ord[x])) && SameRest(m, u)
            && Low(m, x) == if BuddyAt(m, x) < x then BuddyAt(m, x) else x
  {
    hide Sound, BuddyOf, MergeHeld, Linked, TakenOff;
    var y, o := BuddyAt(m, x), m.g.ord[x];
    JoinRest(m, h, x);
    SoundTaken(m, y, h);
    HasList(m, h, o) by { BelowMax(m, x); }
    TakenGround(m, y, h);
    RawTaken(m, r, h, y);
  }

  lemma BelowMax(m: Mem, x: nat)
    requires BelowTop(m, x)
    ensures m.g.ord[x] <= MAX_ORDER
  {
  }

  lemma RawTaken(m: Mem, r: Raw, h: nat, y: nat)
    requires Describes(m, r) && y in m.g.ord && y in m.g.st && m.g.st[y].Free? && h in m.avail
    requires Head(m.g.st[y].h, m.g.ord[y]) in m.lists && y in m.lists[Head(m.g.st[y].h, m.g.ord[y])]
    requires Head(h, m.g.ord[y]) in m.lists
    ensures Describes(TakenOff(m, y, h), RawUnlink(r, h, y, m.g.ord[y]))
  {
    hide Linked, Without;
    var o := m.g.ord[y];
    LinkedRemove(r.next, r.prev, m.lists, Head(m.g.st[y].h, o), y);
    var u := TakenOff(m, y, h);
    HeadTells(RawUnlink(r, h, y, o).next, RawUnlink(r, h, y, o).prev, u.lists, Head(h, o));
  }

  lemma HeadTells(next: Links, prev: Links, lists: Lists, hd: Node)
    requires Linked(next, prev, lists) && hd in lists
    ensures hd in next && (next[hd] == hd <==> lists[hd] == [])
    ensures lists[hd] != [] ==> next[hd] == Block(lists[hd][0])
  {
    RingEnds(next, prev, hd, lists[hd]);
  }

  lemma RawListed(m: Mem, r: Raw, h: nat, x: nat)
    requires Sound(m) && OnlyHeld(m.g, x) && h in m.avail && x in m.g.ord && Describes(m, r)
    ensures Describes(Listed(m, h, x), RawInsert(r, h, x, m.g.ord[x]))
  {
    hide Sound, Linked, OnlyHeld;
    HeldPlace(m.g, x);
    OrderBound(m, x);
    HasList(m, h, m.g.ord[x]);
    HeldNotListed(m, x);
    LinkedInsert(r.next, r.prev, m.lists, Head(h, m.g.ord[x]), x);
  }

  // ----- where two aligned blocks meet, one holds the other -----

  lemma Distribute(t: nat, c: nat, a: nat)
    ensures (t + c) * a == t * a + c * a
  {
  }

  lemma NestedMultiples(q: nat, t: nat, c: nat, a: nat)
    requires q * a < t * a + c * a && t * a < q * a + a
    ensures t * a <= q * a && q * a + a <= t * a + c * a
  {
    Distribute(t, c, a);
    MulLater(q, t, a);
    if t + c <= q { MulMonotone(t + c, q, a); }
    MulMonotone(t, q, a);
    MulMonotone(q + 1, t + c, a);
    Distribute(q, 1, a);
  }

  lemma AsMultiple(x: nat, k: nat) returns (q: nat)
    requires Aligned(x, k)
    ensures x == q * Pow2(k)
  {
    hide Pow2;
    q := x / Pow2(k);
    QuotientBounds(x, Pow2(k));
  }

  lemma PowSplit(p: nat, j: nat, k: nat)
    requires j <= k
    ensures Pow2(k) == Pow2(k - j) * Pow2(j) && p * Pow2(k) == (p * Pow2(k - j)) * Pow2(j)
  {
    Pow2Add(k - j, j);
    Regroup(p, Pow2(k - j), Pow2(j));
  }

  lemma Nested(l: nat, j: nat, z: nat, k: nat)
    requires j <= k && Aligned(l, j) && Aligned(z, k) && l < z + Pow2(k) && z < l + Pow2(j)
    ensures z <= l && l + Pow2(j) <= z + Pow2(k)
  {
    hide Pow2, Aligned;
    var q := AsMultiple(l, j);
    var p := AsMultiple(z, k);
    PowSplit(p, j, k);
    NestedMultiples(q, p * Pow2(k - j), Pow2(k - j), Pow2(j));
  }

  lemma Regroup(p: nat, c: nat, a: nat)
    ensures p * (c * a) == (p * c) * a
  {
  }

  /** The buddy of an aligned offset, and the block the two make. */
  lemma PairAligned(off: nat, j: nat)
    requires Aligned(off, j)
    ensures var f := FlipBit(off, j);
            var l := if f < off then f else off;
            Aligned(f, j) && Aligned(l, j + 1) && (f == l + Pow2(j) || off == l + Pow2(j)) && f != off
  {
    var a := Pow2(j);
    DoublePow(j);
    hide Pow2;
    QuotientBounds(off, a);
    PairMultiples(off / a, a);
  }

  lemma DoublePow(j: nat)
    ensures Pow2(j + 1) == 2 * Pow2(j)
  {
  }

  lemma PairMultiples(q: nat, a: nat)
    requires a > 0
    ensures q % 2 == 0 ==> (q * a) % (2 * a) == 0 && (q * a + a) % a == 0
    ensures q % 2 == 1 ==> q * a >= a && (q * a - a) % (2 * a) == 0 && (q * a - a) % a == 0
  {
    var h := q / 2;
    Multiples(h, 2 * a);
    Regroup(h, 2, a);
    Multiples(q + 1, a);
    Distribute(q, 1, a);
    if q % 2 == 1 {
      Multiples(q - 1, a);
      Distribute(q - 1, 1, a);
    }
  }

  // ----- coalescing from inside a free block -----

  /** Where coalescing from `x` ends: the block `e` of order `j` is in front of its list,
      its header bytes written. */
  ghost predicate EndsWith(r: Raw, u: Raw, h: nat, e: nat, j: nat) {
    && u.rc == r.rc[e := 0] && u.order == r.order[e := j]
    && h in u.avail && Head(h, j) in u.next && u.next[Head(h, j)] == Block(e)
  }

  /** The pair of `x` and its buddy lies inside a larger aligned block that holds `x`. */
  lemma PairInside(x: nat, o: nat, base: nat, z: nat, k: nat)
    requires base <= z < x && o < k && x + Pow2(o) <= z + Pow2(k) && Aligned(x - base, o) && Aligned(z - base, k)
    ensures var y := BuddyOf(x, o, base);
            var l := if y < x then y else x;
            && z <= l <= y && l + Pow2(o + 1) <= z + Pow2(k) && Aligned(l - base, o + 1) && y != x
            && (y != z ==> z < l && o + 1 < k)
  {
    var y := BuddyOf(x, o, base);
    var l := if y < x then y else x;
    PairAligned(x - base, o);
    DoublePow(o);
    hide Pow2, Aligned, FlipBit;
    Nested(l - base, o + 1, z - base, k);
  }

  /** Coalescing that starts strictly inside a free block meets its header before it
      reaches its order: it lists a smaller block inside the free one. */
  lemma {:induction false} RawWithin(r: Raw, h: nat, x: nat, o: nat, base: nat, top: nat, z: nat, k: nat)
    returns (e: nat, j: nat)
    requires base <= z < x && o < k <= top && x + Pow2(o) <= z + Pow2(k) && Aligned(x - base, o) && Aligned(z - base, k)
    requires ReadsFree(r, z, k) && h in r.avail && forall i: nat :: o <= i < k ==> Head(h, i) in r.next
    ensures o <= j < k && z < e && e + Pow2(j) <= z + Pow2(k)
            && EndsWith(r, RawCoalesce(r, h, x, o, base, top), h, e, j)
    decreases top - o
  {
    hide Pow2, Aligned, BuddyOf;
    var y := BuddyOf(x, o, base);
    PairInside(x, o, base, z, k);
    if ReadsFree(r, y, o) {
      var u := RawUnlink(r, h, y, o);
      e, j := RawWithin(u, h, if y < x then y else x, o + 1, base, top, z, k);
    } else {
      e, j := x, o;
    }
  }

  // ----- after the walk has gone astray -----

  /** The walk's turn at address `y`, which it takes for a block of another heap's pool. */
  function RawTurn(r: Raw, h: nat, w: nat, y: nat, o: nat, base: nat, top: nat): Raw
    requires base <= y
  {
    RawCoalesce(RawUnlink(r, h, y, o), w, y, if y in r.order then r.order[y] else 0, base, top)
  }

  lemma AlignedOffset(x: nat, base: nat, o: nat, k: nat)
    requires base <= x && Aligned(x, o) && Aligned(base, k) && o <= k
    ensures Aligned(x - base, o)
  {
    hide Pow2;
    AlignedDown(base, o, k);
    var a := Pow2(o);
    var q := AsMultiple(x, o);
    var t := AsMultiple(base, o);
    if q < t { MulMonotone(q + 1, t, a); Distribute(q, 1, a); }
    Distribute(q - t, t, a);
    Multiples(q - t, a);
  }

  /** Wherever the books are in order and a free block lies inside the aligned stretch of
      order `k` at `z`, a smaller block starts at `z`. */
  lemma StartsAt(m: Mem, base: nat, z: nat, k: nat, e: nat, w: nat, j: nat)
    requires Settled(m) && InPool(m.pools, base, z) && Aligned(z, k) && IsFree(m.g, e, w, j)
    requires z < e && e + Pow2(j) <= z + Pow2(k)
    ensures z in m.order && m.order[z] < k
  {
    hide Settled, Sound, Pow2, InPool, Aligned;
    SettledParts(m);
    SoundTiles(m);
    PoolCovered(m.g, m.pools, base, z);
    var x: nat :| Holds(m.g, m.pools, base, x, z);
    TileOver(m, base, x, z, k, e);
    SettledPlaced(m, z);
    HeaderBytes(m, z);
    BlocksDisjoint(m.g, m.pools, z, e);
    OrderLess(m.g.ord[z], k, z, e);
  }

  lemma SettledPlaced(m: Mem, z: nat)
    requires Settled(m) && z in m.g.ord
    ensures Placed(m.g, z)
  {
    hide Sound, HeadersOK;
    SettledParts(m);
    KeysAgree(m);
  }

  lemma OrderLess(i: nat, k: nat, z: nat, e: nat)
    requires z + Pow2(i) <= e < z + Pow2(k)
    ensures i < k
  {
    if k <= i { Pow2Monotone(k, i); }
  }

  lemma TileOver(m: Mem, base: nat, x: nat, z: nat, k: nat, e: nat)
    requires Settled(m) && Holds(m.g, m.pools, base, x, z) && Aligned(z, k)
    requires e in m.g.ord && z < e < z + Pow2(k)
    ensures x == z
  {
    hide Settled, Sound, Pow2, Aligned, TilesOK;
    SettledParts(m);
    SoundTiles(m);
    BlockAligned(m.g, m.pools, x);
    var i := m.g.ord[x];
    if x < z {
      BlocksDisjoint(m.g, m.pools, x, e);
      if i < k { Nested(x, i, z, k); } else { Nested(z, k, x, i); }
    }
  }

  /** The turn at an address strictly inside a free block of the owner lists a smaller block
      inside it: no state in good order has these links and header bytes. */
  lemma StaleTurn(n: Mem, r: Raw, h: nat, registry: set<nat>, z: nat, y: nat, o: nat)
    requires Settled(n) && Describes(n, r) && registry <= n.avail.Keys
    requires Returnable(n, h, registry, z) && Inside(n, OwnerOf(n, z), z, y, o) && y != z
    ensures n.g.home[z] <= y
    ensures forall m: Mem :: Settled(m) && m.pools == n.pools ==>
              !Describes(m, RawTurn(r, h, OwnerOf(n, z), y, o, n.g.home[z], n.pools[n.g.home[z]].order))
  {
    hide Settled, Sound, Pow2, Aligned, Linked, BuddyOf, RawCoalesce, RawUnlink, EndsWith;
    var base, k, w := n.g.home[z], n.g.ord[z], OwnerOf(n, z);
    var top, u := n.pools[base].order, RawUnlink(r, h, y, o);
    StaleStart(n, r, h, registry, z, y, o);
    var e, j := RawWithin(u, w, y, o, base, top, z, k);
    forall m: Mem | Settled(m) && m.pools == n.pools
      ensures !Describes(m, RawTurn(r, h, w, y, o, base, top))
    {
      if Describes(m, RawTurn(r, h, w, y, o, base, top)) {
        EndListed(m, u, RawTurn(r, h, w, y, o, base, top), w, e, j, z, k);
        StartsAt(m, base, z, k, e, w, j);
      }
    }
  }

  lemma StaleStart(n: Mem, r: Raw, h: nat, registry: set<nat>, z: nat, y: nat, o: nat)
    requires Settled(n) && Describes(n, r) && registry <= n.avail.Keys
    requires Returnable(n, h, registry, z) && Inside(n, OwnerOf(n, z), z, y, o) && y != z
    ensures var base, k, u := n.g.home[z], n.g.ord[z], RawUnlink(r, h, y, o);
            && StalePlace(n, z, y, o) && ReadsFree(u, z, k) && OwnerOf(n, z) in u.avail
            && y in r.order && r.order[y] == o
            && forall i: nat :: o <= i < k ==> Head(OwnerOf(n, z), i) in u.next
  {
    hide Settled, Sound, Pow2, Aligned, Linked, StalePlace, RawUnlink;
    var k, w, u := n.g.ord[z], OwnerOf(n, z), RawUnlink(r, h, y, o);
    StaleGround(n, z, y, o, w);
    SettledParts(n);
    OrderBound(n, z);
    SettledPlaced(n, z);
    HeaderBytes(n, z);
    UnlinkKeeps(r, h, y, o);
    forall i: nat | o <= i < k
      ensures Head(w, i) in u.next
    {
      HasList(n, w, i);
      HeadTells(r.next, r.prev, n.lists, Head(w, i));
    }
  }

  lemma UnlinkKeeps(r: Raw, h: nat, y: nat, o: nat)
    ensures var u := RawUnlink(r, h, y, o);
            u.rc == r.rc && u.order == r.order && u.avail.Keys == r.avail.Keys && r.next.Keys <= u.next.Keys
  {
  }

  /** How `y` lies in the free block at `z`, and that in its pool. */
  ghost predicate StalePlace(n: Mem, z: nat, y: nat, o: nat) {
    && z in n.g.ord && z in n.g.home && n.g.home[z] in n.pools
    && var base, k := n.g.home[z], n.g.ord[z];
       base <= z < y && o < k <= n.pools[base].order <= MAX_ORDER && y + Pow2(o) <= z + Pow2(k)
       && InPool(n.pools, base, z) && Aligned(z, k) && Aligned(y - base, o) && Aligned(z - base, k)
  }

  lemma StaleGround(n: Mem, z: nat, y: nat, o: nat, w: nat)
    requires Settled(n) && Inside(n, w, z, y, o) && y != z
    ensures StalePlace(n, z, y, o)
  {
    hide Settled, Sound, Pow2, Aligned, TilesOK;
    SettledParts(n);
    OrderBound(n, z);
    HomeFacts(n, z);
    SoundTiles(n);
    BlockAligned(n.g, n.pools, z);
    PoolAligned(n.g, n.pools, n.g.home[z]);
    AlignedOffset(z, n.g.home[z], n.g.ord[z], n.pools[n.g.home[z]].order);
    AlignedOffset(y, n.g.home[z], o, n.pools[n.g.home[z]].order);
  }

  lemma PoolAligned(g: Ground, pools: Pools, base: nat)
    requires TilesOK(g, pools) && base in pools
    ensures Aligned(base, pools[base].order)
  {
    hide Pow2, Tiled, Aligned;
  }

  /** What a state would have to look like to fit where coalescing ended. */
  lemma EndListed(m: Mem, r: Raw, u: Raw, w: nat, e: nat, j: nat, z: nat, k: nat)
    requires Settled(m) && Describes(m, u) && EndsWith(r, u, w, e, j) && ReadsFree(r, z, k) && z != e && j <= MAX_ORDER
    ensures IsFree(m.g, e, w, j) && z in m.order && m.order[z] == k
  {
    hide Settled, Sound, Linked;
    SettledParts(m);
    HasList(m, w, j);
    HeadTells(u.next, u.prev, m.lists, Head(w, j));
    ListTold(m, w, j, e);
  }

  /** `i` links further on. */
  function Follow(next: Links, n: Node, i: nat): Node {
    if i == 0 then n
    else
      var p := Follow(next, n, i - 1);
      if p in next then next[p] else p
  }

  ghost predicate NeverMeets(next: Links, n: Node, hd: Node) { forall i: nat :: Follow(next, n, i) != hd }

  ghost predicate OnRing(hd: Node, s: seq<nat>, p: Node) { p == hd || (p.Block? && p.addr in s) }

  lemma NextOnRing(next: Links, prev: Links, hd: Node, s: seq<nat>, p: Node)
    requires Ring(next, prev, hd, s) && OnRing(hd, s, p)
    ensures p in next && OnRing(hd, s, next[p])
  {
    hide Ring;
    RingEnds(next, prev, hd, s);
    if p != hd {
      var k :| 0 <= k < |s| && s[k] == p.addr;
      RingAt(next, prev, hd, s, k);
    }
  }

  /** The links of a ring never lead out of it. */
  lemma {:induction false} StaysOnRing(next: Links, prev: Links, hd: Node, s: seq<nat>, a: nat, i: nat)
    requires Ring(next, prev, hd, s) && a in s
    ensures OnRing(hd, s, Follow(next, Block(a), i))
  {
    hide Ring;
    if i > 0 {
      StaysOnRing(next, prev, hd, s, a, i - 1);
      NextOnRing(next, prev, hd, s, Follow(next, Block(a), i - 1));
    }
  }

  /** A walk that stands on a larger block has left its list: the links from there lead
      round another list and never to the end it waits for. */
  lemma Strays(n: Mem, r: Raw, h: nat, w: nat, y: nat, o: nat)
    requires Settled(n) && Describes(n, r) && Inside(n, w, y, y, o)
    ensures NeverMeets(r.next, Block(y), Head(h, o))
  {
    hide Settled, Sound, Ring, Pow2, Aligned;
    SettledParts(n);
    FreeIsListed(n, y);
    var hd := Head(w, n.g.ord[y]);
    forall i: nat
      ensures Follow(r.next, Block(y), i) != Head(h, o)
    {
      StaysOnRing(r.next, r.prev, hd, n.lists[hd], y, i);
    }
  }

  /** What is left of the lists once the walk goes on at `y`, inside the free block at `z`. */
  ghost predicate BeyondRepair(n: Mem, r: Raw, h: nat, registry: set<nat>, z: nat, y: nat, o: nat) {
    && Returnable(n, h, registry, z) && n.g.home[z] <= y
    && if y == z then NeverMeets(r.next, Block(y), Head(h, o))
       else forall m: Mem :: Settled(m) && m.pools == n.pools ==>
              !Describes(m, RawTurn(r, h, OwnerOf(n, z), y, o, n.g.home[z], n.pools[n.g.home[z]].order))
  }

  /** There is no way back for a walk that has gone astray: either its next turn leaves
      links and header bytes that no state in good order has, or it goes round another
      list and never meets the end of its own. */
  lemma NoWayBack(n: Mem, r: Raw, h: nat, registry: set<nat>, y: nat, o: nat)
    requires Settled(n) && Describes(n, r) && registry <= n.avail.Keys && Astray(n, h, registry, y, o)
    ensures exists z: nat :: BeyondRepair(n, r, h, registry, z, y, o)
  {
    hide Settled, Inside, Describes, NeverMeets, RawTurn;
    var z := AstrayIn(n, h, registry, y, o);
    if y == z {
      Strays(n, r, h, OwnerOf(n, z), y, o);
      OrderBound(n, z) by { SettledParts(n); InsideTile(n, OwnerOf(n, z), z, y, o); }
    } else {
      StaleTurn(n, r, h, registry, z, y, o);
    }
    assert BeyondRepair(n, r, h, registry, z, y, o);
  }

  lemma AstrayIn(n: Mem, h: nat, registry: set<nat>, y: nat, o: nat) returns (z: nat)
    requires Astray(n, h, registry, y, o)
    ensures Returnable(n, h, registry, z) && Inside(n, OwnerOf(n, z), z, y, o)
  {
    z :| Returnable(n, h, registry, z) && Inside(n, OwnerOf(n, z), z, y, o);
  }

  lemma InsideTile(n: Mem, w: nat, z: nat, y: nat, o: nat)
    requires Inside(n, w, z, y, o)
    ensures z in n.g.ord
  {
  }

  ghost function Memory(a: Allocator): Raw
    reads a, a.fl
  {
    Raw(a.fl.next, a.fl.prev, a.rc, a.order, a.avail)
  }

  /** The same of an allocator whose collection has stopped. */
  lemma LostForGood(a: Allocator, h: nat, y: nat, o: nat)
    requires a.Valid() && Astray(a.Now(), h, a.registry, y, o)
    ensures exists z: nat :: BeyondRepair(a.Now(), Memory(a), h, a.registry, z, y, o)
  {
    hide Settled, Linked, Astray, BeyondRepair;
    NoWayBack(a.Now(), Memory(a), h, a.registry, y, o);
  }
}
