/** The integers of the source: 32 and 64 bits, and division toward zero. Signed overflow
    is taken to wrap around. */
module CInts {

  const INT32_MIN: int := -0x8000_0000
  const INT32_MAX: int := 0x7fff_ffff
  const INT64_MIN: int := -0x8000_0000_0000_0000
  const INT64_MAX: int := 0x7fff_ffff_ffff_ffff

  predicate Fits32(x: int) { INT32_MIN <= x <= INT32_MAX }

  predicate Fits64(x: int) { INT64_MIN <= x <= INT64_MAX }

  /** What is left of a number in 32 bits. */
  function Wrap32(x: int): (r: int)
    ensures Fits32(r) && (Fits32(x) ==> r == x)
  {
    (x - INT32_MIN) % 0x1_0000_0000 + INT32_MIN
  }

  /** What is left of a number in 64 bits. */
  function Wrap64(x: int): (r: int)
    ensures Fits64(r) && (Fits64(x) ==> r == x)
  {
    (x - INT64_MIN) % 0x1_0000_0000_0000_0000 + INT64_MIN
  }

  function Trunc(a: int, b: int): int
    requires b > 0
  {
    if a >= 0 then a / b else -((-a) / b)
  }

  /** The remainder that goes with it. */
  function Rem(a: int, b: int): int
    requires b > 0
  {
    a - Trunc(a, b) * b
  }

  // ----- quotients -----

  lemma Scaled(p: nat, a: nat, b: nat)
    ensures a < b ==> p * (a + 1) <= p * b
  {
    if a < b { assert p * b == p * (a + 1) + p * (b - a - 1); }
  }

  lemma QuotientIs(p: nat, q: nat, r: nat)
    requires r < p
    ensures (p * q + r) / p == q
  {
    var d := (p * q + r) / p;
    assert p * d <= p * q + r < p * d + p;
    Scaled(p, d, q);
    Scaled(p, q, d);
  }

  /** Dividing twice is dividing by the product. */
  lemma DivDiv(n: nat, a: nat, b: nat)
    requires a > 0 && b > 0
    ensures a * b > 0 && n / a / b == n / (a * b)
  {
    var m := n / a;
    var q, r := m / b, m % b;
    assert n == a * m + n % a && m == b * q + r;
    assert a * m == a * (b * q) + a * r == (a * b) * q + a * r;
    assert a * r + n % a < a * b by { Scaled(a, r, b); }
    QuotientIs(a * b, q, a * r + n % a);
  }
}
