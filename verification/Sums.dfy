/** Sums of the values of finite maps, and how much of a tiled region its tiles fill. */
module Sums {
  import opened Tiles

  type Weights = map<nat, nat>

  ghost function Pick(m: Weights): (x: nat)
    requires m != map[]
    ensures x in m
  {
    var x :| x in m; x
  }

  ghost function Sum(m: Weights): nat
    decreases |m|
  {
    if m == map[] then 0 else
      Smaller(m, Pick(m));
      m[Pick(m)] + Sum(m - {Pick(m)})
  }

  lemma Smaller(m: Weights, x: nat)
    requires x in m
    ensures |m - {x}| < |m|
  {
    assert (m - {x}).Keys == m.Keys - {x};
    assert |(m - {x}).Keys| < |m.Keys|;
  }

  lemma {:induction false} SumTake(m: Weights, x: nat)
    requires x in m
    ensures Sum(m) == m[x] + Sum(m - {x})
    decreases |m|
  {
    var y := Pick(m);
    Smaller(m, y);
    if x != y {
      SumTake(m - {y}, x);
      SumTake(m - {x}, y) by { Smaller(m, x); }
      assert m - {y} - {x} == m - {x} - {y};
    }
  }

  lemma SumPut(m: Weights, x: nat, v: nat)
    requires x !in m
    ensures Sum(m[x := v]) == Sum(m) + v
  {
    SumTake(m[x := v], x);
    assert m[x := v] - {x} == m;
  }

  lemma {:induction false} SumJoin(a: Weights, b: Weights)
    requires a.Keys !! b.Keys
    ensures Sum(a + b) == Sum(a) + Sum(b)
    decreases |a|
  {
    if a == map[] {
      assert a + b == b;
    } else {
      var x := Pick(a);
      Smaller(a, x);
      SumJoin(a - {x}, b);
      JoinTake(a, b, x);
      SumTake(a, x);
    }
  }

  lemma JoinTake(a: Weights, b: Weights, x: nat)
    requires x in a && x !in b
    ensures Sum(a + b) == a[x] + Sum((a - {x}) + b)
  {
    hide Sum;
    SumTake(a + b, x);
    assert a + b - {x} == (a - {x}) + b;
  }

  /** The sizes of the tiles that start in [lo, hi). */
  ghost function TileSizes(t: Orders, lo: nat, hi: nat): Weights {
    map x | x in t && lo <= x < hi :: Pow2(t[x])
  }

  /** Tiles fill their region: their sizes add up to it. */
  lemma {:induction false} TilesFill(t: Orders, a: nat, k: nat)
    requires Tiled(t, a, k)
    ensures Sum(TileSizes(t, a, a + Pow2(k))) == Pow2(k)
    decreases k
  {
    hide TileSizes, Sum;
    if a in t && t[a] == k {
      OneTile(t, a, k);
    } else {
      TilesFill(t, a, k - 1);
      TilesFill(t, a + Pow2(k - 1), k - 1);
      TwoStretches(t, a, a + Pow2(k - 1), a + Pow2(k));
    }
  }

  lemma OneTile(t: Orders, a: nat, k: nat)
    requires Tiled(t, a, k) && a in t && t[a] == k
    ensures Sum(TileSizes(t, a, a + Pow2(k))) == Pow2(k)
  {
    assert TileSizes(t, a, a + Pow2(k)) == map[a := Pow2(k)];
    SumPut(map[], a, Pow2(k));
  }

  lemma TwoStretches(t: Orders, lo: nat, mid: nat, hi: nat)
    requires lo <= mid <= hi
    ensures Sum(TileSizes(t, lo, hi)) == Sum(TileSizes(t, lo, mid)) + Sum(TileSizes(t, mid, hi))
  {
    hide Sum, Pow2;
    SumJoin(TileSizes(t, lo, mid), TileSizes(t, mid, hi));
    assert TileSizes(t, lo, hi) == TileSizes(t, lo, mid) + TileSizes(t, mid, hi);
  }
}
