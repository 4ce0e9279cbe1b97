/** Division facts shared by the integer algorithms. */
module Arith {

  type Byte = x: int | 0 <= x < 256

  function Min(a: int, b: int): int {
    if a < b then a else b
  }

  function Max(a: int, b: int): int {
    if a < b then b else a
  }

  function Clamp(x: int, low: int, high: int): int {
    if x <= low then low else Min(x, high)
  }

  function Total(parts: seq<nat>): nat {
    if parts == [] then 0 else parts[0] + Total(parts[1..])
  }

  lemma MulAtLeast(x: int, y: int, d: int)
    requires x <= y && d >= 0
    ensures x * d <= y * d
  {
    assert y * d - x * d == (y - x) * d;
    NonNegative(y - x, d);
  }

  lemma NonNegative(x: int, d: int)
    requires x >= 0 && d >= 0
    ensures x * d >= 0
  {
  }

  /** Quotient and remainder are the only pair that recomposes. */
  lemma DivModUnique(x: int, q: int, r: int, d: int)
    requires d > 0 && 0 <= r < d && x == q * d + r
    ensures x / d == q && x % d == r
  {
    var p := x / d;
    assert x == p * d + x % d;
    if q < p {
      assert (q + 1) * d == q * d + d;
      MulAtLeast(q + 1, p, d);
    } else if p < q {
      assert (p + 1) * d == p * d + d;
      MulAtLeast(p + 1, q, d);
    }
  }

  lemma ModShift(x: int, k: int, d: int)
    requires d > 0
    ensures (x + k * d) % d == x % d && (x + k * d) / d == x / d + k
  {
    assert x == x / d * d + x % d;
    assert (x / d + k) * d == x / d * d + k * d;
    DivModUnique(x + k * d, x / d + k, x % d, d);
  }

  /** Dividing in two instalments, carrying the remainder, divides the sum. */
  lemma DivInstalments(a: nat, b: nat, d: nat)
    requires d > 0
    ensures (a + b) / d == a / d + (a % d + b) / d
    ensures (a + b) % d == (a % d + b) % d
  {
    assert a == a / d * d + a % d;
    assert a + b == (a % d + b) + a / d * d;
    ModShift(a % d + b, a / d, d);
  }

  lemma DivAtLeast(x: int, y: int, d: int)
    requires d > 0
    ensures x / d >= y <==> x >= y * d
  {
    assert x == x / d * d + x % d;
    if x / d >= y {
      MulAtLeast(y, x / d, d);
    } else {
      MulAtLeast(x / d + 1, y, d);
      assert (x / d + 1) * d == x / d * d + d;
    }
  }

  lemma DivMonotone(x: int, y: int, d: int)
    requires d > 0 && x <= y
    ensures x / d <= y / d
  {
    assert x == x / d * d + x % d;
    DivAtLeast(y, x / d, d);
  }
}
