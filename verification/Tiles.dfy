/** Buddy tilings: how the tiles of a self-aligned power-of-two region lie, and what
    splitting a tile or merging two buddies does to them. */
module Tiles {

  const ORDER_MIN: nat := 6

  function Pow2(k: nat): (r: nat)
    ensures r >= 1
  {
    if k == 0 then 1 else 2 * Pow2(k - 1)
  }

  lemma {:induction false} Pow2Monotone(j: nat, k: nat)
    requires j <= k
    ensures Pow2(j) <= Pow2(k)
    decreases k
  {
    if j < k { Pow2Monotone(j, k - 1); }
  }

  lemma {:induction false} Pow2Add(j: nat, k: nat)
    ensures Pow2(j + k) == Pow2(j) * Pow2(k)
    decreases k
  {
    if k > 0 {
      Pow2Add(j, k - 1);
      assert Pow2(j + k) == 2 * Pow2(j + k - 1);
      assert Pow2(k) == 2 * Pow2(k - 1);
    }
  }

  /** Start of a tile to its order. */
  type Orders = map<nat, nat>

  /** The tiles starting in [a, a + 2^k) tile it exactly: either one tile is the whole
      region, or both halves are tiled. */
  ghost predicate Tiled(t: Orders, a: nat, k: nat)
    decreases k
  {
    if a in t && t[a] == k then
      k >= ORDER_MIN && forall x :: x in t && a < x ==> x >= a + Pow2(k)
    else k > ORDER_MIN && Tiled(t, a, k - 1) && Tiled(t, a + Pow2(k - 1), k - 1)
  }

  ghost predicate SameWithin(t: Orders, u: Orders, a: nat, n: nat) {
    forall x :: a <= x < a + n ==> (x in t <==> x in u) && (x in t ==> t[x] == u[x])
  }

  lemma {:induction false} TiledFrame(t: Orders, u: Orders, a: nat, k: nat)
    requires Tiled(t, a, k) && SameWithin(t, u, a, Pow2(k))
    ensures Tiled(u, a, k)
    decreases k
  {
    if !(a in t && t[a] == k) {
      TiledFrame(t, u, a, k - 1);
      TiledFrame(t, u, a + Pow2(k - 1), k - 1);
    }
  }

  /** A tile lies within the region, at least of the least order. */
  lemma {:induction false} TileFits(t: Orders, a: nat, k: nat, x: nat)
    requires Tiled(t, a, k) && x in t && a <= x < a + Pow2(k)
    ensures ORDER_MIN <= t[x] <= k
    ensures x + Pow2(t[x]) <= a + Pow2(k)
    ensures t[x] == k ==> x == a
    decreases k
  {
    if !(a in t && t[a] == k) {
      if x < a + Pow2(k - 1) { TileFits(t, a, k - 1, x); } else { TileFits(t, a + Pow2(k - 1), k - 1, x); }
    }
  }

  /** Different tiles do not overlap. */
  lemma {:induction false} TilesDisjoint(t: Orders, a: nat, k: nat, x: nat, y: nat)
    requires Tiled(t, a, k) && x in t && y in t && a <= x < y < a + Pow2(k)
    ensures x + Pow2(t[x]) <= y
    decreases k
  {
    var m := a + Pow2(k - 1);
    if y < m { TilesDisjoint(t, a, k - 1, x, y); }
    else if x >= m { TilesDisjoint(t, m, k - 1, x, y); }
    else { TileFits(t, a, k - 1, x); }
  }

  /** Every address of the region is in some tile. */
  lemma {:induction false} TilesCover(t: Orders, a: nat, k: nat, p: nat) returns (x: nat)
    requires Tiled(t, a, k) && a <= p < a + Pow2(k)
    ensures x in t && a <= x <= p < x + Pow2(t[x]) <= a + Pow2(k)
    decreases k
  {
    if a in t && t[a] == k { x := a; }
    else if p < a + Pow2(k - 1) { x := TilesCover(t, a, k - 1, p); }
    else { x := TilesCover(t, a + Pow2(k - 1), k - 1, p); }
  }

  /** The offset with bit `o` flipped: exclusive or with 2^o. */
  function FlipBit(off: nat, o: nat): (r: nat) {
    if (off / Pow2(o)) % 2 == 0 then off + Pow2(o)
    else
      assert off >= Pow2(o);
      off - Pow2(o)
  }

  function BuddyOf(x: nat, o: nat, base: nat): nat
    requires base <= x
  {
    base + FlipBit(x - base, o)
  }

  predicate Aligned(off: nat, k: nat) { off % Pow2(k) == 0 }

  lemma Multiples(q: nat, n: nat)
    requires n > 0
    ensures (q * n) / n == q && (q * n) % n == 0
  {
    var d, m := (q * n) / n, (q * n) % n;
    assert q * n == n * d + m;
    assert (q - d) * n == m;
    if q > d { AtLeast(q - d, n); }
    if q < d { assert (q - d) * n == -((d - q) * n); AtLeast(d - q, n); }
  }

  lemma AtLeast(q: nat, n: nat)
    requires q > 0
    ensures q * n >= n
  {
  }

  lemma EvenHalves(off: nat, h: nat)
    requires h > 0 && off % (2 * h) == 0
    ensures off % h == 0 && (off / h) % 2 == 0
    ensures (off + h) % h == 0 && ((off + h) / h) % 2 == 1
  {
    var q := off / (2 * h);
    assert off == (2 * h) * q;
    assert off == (2 * q) * h;
    assert off + h == (2 * q + 1) * h;
    Multiples(2 * q, h);
    Multiples(2 * q + 1, h);
  }

  /** Both halves of an aligned block are aligned, and flipping the bit of their
      order swaps them. */
  lemma Halves(off: nat, k: nat)
    requires k > 0 && Aligned(off, k)
    ensures var h := Pow2(k - 1);
            && Aligned(off, k - 1) && Aligned(off + h, k - 1)
            && FlipBit(off, k - 1) == off + h
            && FlipBit(off + h, k - 1) == off
  {
    EvenHalves(off, Pow2(k - 1));
  }

  /** The key fact: the buddy address of a tile is the start of a tile of no larger
      order, so the header bytes found there are those of a real block. */
  lemma {:induction false} BuddyIsTile(t: Orders, base: nat, a: nat, k: nat, x: nat)
    requires Tiled(t, a, k) && x in t && base <= a <= x < a + Pow2(k) && t[x] < k
    requires Aligned(a - base, k)
    ensures var y := BuddyOf(x, t[x], base);
            && y in t && y != x && t[y] <= t[x]
            && a <= y < a + Pow2(k)
            && (x < y ==> y == x + Pow2(t[x]))
            && (y < x ==> x == y + Pow2(t[x]))
            && BuddyOf(y, t[x], base) == x
    decreases k
  {
    var h := Pow2(k - 1);
    Halves(a - base, k);
    if x < a + h {
      TileFits(t, a, k - 1, x);
      if t[x] == k - 1 { FirstTile(t, a + h, k - 1); } else { BuddyIsTile(t, base, a, k - 1, x); }
    } else {
      TileFits(t, a + h, k - 1, x);
      if t[x] == k - 1 { FirstTile(t, a, k - 1); } else { BuddyIsTile(t, base, a + h, k - 1, x); }
    }
  }

  lemma {:induction false} FirstTile(t: Orders, a: nat, k: nat)
    requires Tiled(t, a, k)
    ensures a in t && t[a] <= k
    decreases k
  {
    if !(a in t && t[a] == k) { FirstTile(t, a, k - 1); }
  }

  /** Splitting a tile in two halves. */
  function Split(t: Orders, x: nat): Orders
    requires x in t && t[x] > 0
  {
    t[x := t[x] - 1][x + Pow2(t[x] - 1) := t[x] - 1]
  }

  lemma {:induction false} SplitTiles(t: Orders, a: nat, k: nat, x: nat)
    requires Tiled(t, a, k) && x in t && a <= x < a + Pow2(k) && t[x] > ORDER_MIN
    ensures Tiled(Split(t, x), a, k)
    ensures x + Pow2(t[x] - 1) !in t
    decreases k
  {
    var u := Split(t, x);
    var h := a + Pow2(k - 1);
    TileFits(t, a, k, x);
    if a in t && t[a] == k {
      assert x == a;
      assert Tiled(u, a, k - 1) && Tiled(u, h, k - 1);
    } else if x < h {
      SplitTiles(t, a, k - 1, x);
      TileFits(t, a, k - 1, x);
      TiledFrame(t, u, h, k - 1);
    } else {
      SplitTiles(t, h, k - 1, x);
      TiledFrame(t, u, a, k - 1);
    }
  }

  /** Merging the buddies `x` and `x + 2^o` into one tile. */
  function Merge(t: Orders, x: nat): Orders
    requires x in t
  {
    (t - {x + Pow2(t[x])})[x := t[x] + 1]
  }

  /** Both halves of a region are single tiles: merged, they fill it. */
  lemma MergeWhole(t: Orders, a: nat, k: nat)
    requires k > ORDER_MIN && Tiled(t, a, k) && a in t && t[a] == k - 1
    requires var y := a + Pow2(k - 1); y in t && t[y] == k - 1
    ensures Tiled(Merge(t, a), a, k)
  {
    hide FlipBit;
    var y := a + Pow2(k - 1);
    var u := Merge(t, a);
    assert Tiled(t, a, k - 1) && Tiled(t, y, k - 1);
    forall z | z in u && a < z
      ensures z >= a + Pow2(k)
    {
      assert z in t && z != y;
    }
  }

  /** Two tiles of one half merged: the other half stays as it was. */
  lemma MergeHalf(t: Orders, a: nat, k: nat, x: nat)
    requires k > ORDER_MIN && Tiled(t, a, k - 1) && Tiled(t, a + Pow2(k - 1), k - 1) && x in t && a <= x
    requires if x < a + Pow2(k - 1) then x + Pow2(t[x]) < a + Pow2(k - 1) && Tiled(Merge(t, x), a, k - 1)
             else x + Pow2(t[x]) < a + Pow2(k) && Tiled(Merge(t, x), a + Pow2(k - 1), k - 1)
    ensures Tiled(Merge(t, x), a, k)
  {
    hide Tiled;
    var u := Merge(t, x);
    if x < a + Pow2(k - 1) { TiledFrame(t, u, a + Pow2(k - 1), k - 1); } else { TiledFrame(t, u, a, k - 1); }
    TwoHalves(u, a, k);
  }

  lemma TwoHalves(u: Orders, a: nat, k: nat)
    requires k > ORDER_MIN && Tiled(u, a, k - 1) && Tiled(u, a + Pow2(k - 1), k - 1)
    ensures Tiled(u, a, k)
  {
    FirstTile(u, a, k - 1);
  }

  lemma {:induction false} MergeTiles(t: Orders, base: nat, a: nat, k: nat, x: nat)
    requires Tiled(t, a, k) && x in t && base <= a <= x < a + Pow2(k) && t[x] < k
    requires Aligned(a - base, k)
    requires var y := x + Pow2(t[x]); y in t && t[y] == t[x] && BuddyOf(x, t[x], base) == y
    ensures Tiled(Merge(t, x), a, k)
    decreases k
  {
    hide BuddyOf, Merge, Aligned;
    var h := a + Pow2(k - 1);
    Halves(a - base, k);
    BuddyIsTile(t, base, a, k, x);
    if x < h {
      TileFits(t, a, k - 1, x);
      if t[x] == k - 1 {
        MergeWhole(t, a, k);
      } else {
        BuddyIsTile(t, base, a, k - 1, x);
        MergeTiles(t, base, a, k - 1, x);
        MergeHalf(t, a, k, x);
      }
    } else {
      TileFits(t, h, k - 1, x);
      if t[x] < k - 1 {
        BuddyIsTile(t, base, h, k - 1, x);
        MergeTiles(t, base, h, k - 1, x);
        MergeHalf(t, a, k, x);
      }
    }
  }

  /** The two halves of a tile are each other's buddies. */
  lemma {:induction false} HalvesAreBuddies(t: Orders, base: nat, a: nat, k: nat, x: nat)
    requires Tiled(t, a, k) && x in t && base <= a <= x < a + Pow2(k) && t[x] > ORDER_MIN
    requires Aligned(a - base, k)
    ensures var o := t[x] - 1;
            BuddyOf(x, o, base) == x + Pow2(o) && BuddyOf(x + Pow2(o), o, base) == x
    decreases k
  {
    TileFits(t, a, k, x);
    Halves(a - base, k);
    if t[x] < k {
      var h := a + Pow2(k - 1);
      if x < h { HalvesAreBuddies(t, base, a, k - 1, x); } else { HalvesAreBuddies(t, base, h, k - 1, x); }
    }
  }
}
