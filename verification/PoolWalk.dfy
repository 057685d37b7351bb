/** Finding the pool of a block from the bytes in memory alone: a mask, and for oversized
    pools a walk downward that takes for a pool header whatever looks like one. */
module PoolWalk {
  import opened Options
  import opened Tiles
  import opened HeapModel

  /** What the bytes at an address read as: the pool order a header would have there, and
      the order, mapping and count of a block. */
  datatype Header = Header(poolOrder: nat, order: nat, mmod: nat, rc: nat)

  type Bytes = nat -> Header

  predicate PoolSized(o: nat) { POOL_ORDER <= o <= MAX_ORDER }

  /** What the walk asks of a header below the first one. */
  predicate LooksRight(h: Header, base: nat, v: nat) {
    h.order == ORDER_MIN && h.mmod == 0 && h.rc == 1 && PoolSized(h.poolOrder) && v < base + Pow2(h.poolOrder)
  }

  /** What it asks of the first. */
  predicate LooksFirst(h: Header, base: nat, v: nat) {
    h.poolOrder == POOL_ORDER || (POOL_ORDER < h.poolOrder <= MAX_ORDER && v < base + Pow2(h.poolOrder))
  }

  /** The size of a standard pool, and how far apart pool bases are at least. */
  const STRIDE: nat := 0x200_0000

  lemma StrideIs()
    ensures Pow2(POOL_ORDER) == STRIDE && Pow2(POOL_ORDER + 1) == 2 * STRIDE
  {
    assert Pow2(5) == 32 by { assert Pow2(3) == 8; }
    Pow2Sum(5, 5);
    Pow2Sum(10, 10);
    Pow2Sum(20, 5);
  }

  lemma {:induction false} Pow2Sum(j: nat, k: nat)
    ensures Pow2(j + k) == Pow2(j) * Pow2(k)
    decreases k
  {
    if k > 0 { Pow2Sum(j, k - 1); }
  }

  function Mask(v: nat): nat { v - v % STRIDE }

  /** ray_pool_of. */
  method PoolOf(mem: Bytes, v: nat) returns (r: Option<nat>)
    ensures r == if LooksFirst(mem(Mask(v)), Mask(v), v) then Some(Mask(v)) else Below(mem, Mask(v), v)
  {
    hide Pow2;
    var stride := STRIDE;
    var base: nat := v - v % stride;
    var hdr := mem(base);
    if hdr.poolOrder == POOL_ORDER { return Some(base); }
    if hdr.poolOrder > POOL_ORDER && hdr.poolOrder <= MAX_ORDER && v < base + Pow2(hdr.poolOrder) { return Some(base); }
    while base >= stride
      invariant Below(mem, Mask(v), v) == Below(mem, base, v)
      decreases base
    {
      base := base - stride;
      hdr := mem(base);
      if hdr.order == ORDER_MIN && hdr.mmod == 0 && hdr.rc == 1 {
        if POOL_ORDER <= hdr.poolOrder <= MAX_ORDER && v < base + Pow2(hdr.poolOrder) { return Some(base); }
      }
    }
    var fallback := mem(v - v % stride);
    r := if fallback.poolOrder >= POOL_ORDER && fallback.poolOrder <= MAX_ORDER then Some(v - v % stride) else None;
  }

  /** The walk from below `base` on. */
  function Below(mem: Bytes, base: nat, v: nat): Option<nat>
    decreases base
  {
    if base < STRIDE then if PoolSized(mem(Mask(v)).poolOrder) then Some(Mask(v)) else None
    else if LooksRight(mem(base - STRIDE), base - STRIDE, v) then Some(base - STRIDE)
    else Below(mem, base - STRIDE, v)
  }

  /** Bytes between a pool's header and a block of it that look like another header. */
  ghost predicate Misleads(mem: Bytes, home: nat, v: nat, b: nat) {
    && home < b <= Mask(v) && b % STRIDE == 0
    && if b == Mask(v) then LooksFirst(mem(b), b, v) else LooksRight(mem(b), b, v)
  }

  /** A pool of order `k` at `home`: its header reads as one. */
  ghost predicate PoolAt(mem: Bytes, home: nat, k: nat) {
    home % STRIDE == 0 && PoolSized(k) && mem(home) == Header.Header(k, ORDER_MIN, 0, 1)
  }

  lemma NextMultiple(base: nat, home: nat)
    requires base % STRIDE == 0 && home % STRIDE == 0 && home < base
    ensures base >= STRIDE && home <= base - STRIDE && (base - STRIDE) % STRIDE == 0
  {
  }

  lemma MaskIs(v: nat)
    ensures Mask(v) <= v < Mask(v) + STRIDE && Mask(v) % STRIDE == 0
  {
    hide Pow2;
    var n := STRIDE;
    Multiples(v / n, n);
    assert v == n * (v / n) + v % n;
  }

  lemma MaskAtLeast(home: nat, v: nat)
    requires home % STRIDE == 0 && home <= v
    ensures home <= Mask(v)
  {
    hide Pow2;
    MaskIs(v);
    if home > Mask(v) { NextMultiple(home, Mask(v)); }
  }

  /** The walk comes to the pool of the block if nothing on the way misleads it. */
  lemma {:induction false} WalkFinds(mem: Bytes, home: nat, k: nat, v: nat, base: nat)
    requires PoolAt(mem, home, k) && home <= v < home + Pow2(k) && home < base <= Mask(v) && base % STRIDE == 0
    ensures Below(mem, base, v) == Some(home) <==> forall b: nat :: b < base ==> !Misleads(mem, home, v, b)
    decreases base
  {
    hide Pow2, Mask;
    NextMultiple(base, home);
    var next: nat := base - STRIDE;
    if next == home {
      assert LooksRight(mem(home), home, v);
      forall b: nat | b < base
        ensures !Misleads(mem, home, v, b)
      {
        if home < b && b % STRIDE == 0 { NextMultiple(b, home); }
      }
    } else if LooksRight(mem(next), next, v) {
      assert Misleads(mem, home, v, next);
    } else {
      WalkFinds(mem, home, k, v, next);
      assert !Misleads(mem, home, v, next);
      forall b: nat | next < b < base
        ensures !Misleads(mem, home, v, b)
      {
        if b % STRIDE == 0 { NextMultiple(b, next); }
      }
    }
  }

  /** The pool of a block is found if and only if no 32 MB boundary between its header and
      the block has bytes that look like another header. */
  method FindsExactly(mem: Bytes, home: nat, k: nat, v: nat) returns (r: Option<nat>)
    requires PoolAt(mem, home, k) && home <= v < home + Pow2(k)
    ensures r == Some(home) <==> forall b: nat :: !Misleads(mem, home, v, b)
  {
    hide Pow2, Below;
    r := PoolOf(mem, v);
    MaskAtLeast(home, v);
    MaskIs(v);
    if home == Mask(v) {
      assert LooksFirst(mem(home), home, v);
    } else if LooksFirst(mem(Mask(v)), Mask(v), v) {
      assert Misleads(mem, home, v, Mask(v));
    } else {
      WalkFinds(mem, home, k, v, Mask(v));
      assert !Misleads(mem, home, v, Mask(v));
    }
  }

  /** In particular in a pool of the standard order, whatever its blocks hold. */
  method FindsStandard(mem: Bytes, home: nat, v: nat) returns (r: Option<nat>)
    requires PoolAt(mem, home, POOL_ORDER) && home <= v < home + Pow2(POOL_ORDER)
    ensures r == Some(home)
  {
    hide Pow2;
    StrideIs();
    MaskAtLeast(home, v);
    MaskIs(v);
    if home < Mask(v) { NextMultiple(Mask(v), home); }
    r := FindsExactly(mem, home, POOL_ORDER, v);
  }

  /** A block in the second half of a pool of twice the standard order, whose first bytes
      its user wrote: with the number 25 in the right place, another pool is found. */
  method LedAway(mem: Bytes, home: nat, junk: Header) returns (r: Option<nat>)
    requires PoolAt(mem, home, POOL_ORDER + 1) && junk.poolOrder == POOL_ORDER
    requires mem(home + STRIDE) == junk
    ensures r != Some(home)
  {
    hide Pow2;
    var v := home + STRIDE;
    StrideIs();
    NextMask(home);
    r := FindsExactly(mem, home, POOL_ORDER + 1, v);
    assert Misleads(mem, home, v, v);
  }

  lemma NextMask(home: nat)
    requires home % STRIDE == 0
    ensures Mask(home + STRIDE) == home + STRIDE
    ensures (home + STRIDE) % STRIDE == 0
  {
    hide Pow2;
    var n := STRIDE;
    assert home == n * (home / n);
    Multiples(home / n + 1, n);
    assert n * (home / n + 1) == home + n;
  }
}
