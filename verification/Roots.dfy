/** Integer square roots and layout distances on fixed-width unsigned arithmetic. */
module Roots {

  const TWO32 := 0x1_0000_0000
  const TWO64 := 0x1_0000_0000_0000_0000

  /** Unsigned arithmetic wraps. */
  function Wrap32(x: int): int {
    if 0 <= x < TWO32 then x else x % TWO32
  }

  function Wrap64(x: int): int {
    if 0 <= x < TWO64 then x else x % TWO64
  }

  /** The floor square root, counted up from zero. */
  function Root(n: nat): nat {
    if n == 0 then 0
    else
      var r := Root(n - 1);
      if (r + 1) * (r + 1) <= n then r + 1 else r
  }

  lemma {:induction false} RootExact(n: nat)
    ensures Root(n) * Root(n) <= n < (Root(n) + 1) * (Root(n) + 1)
  {
    if n > 0 {
      RootExact(n - 1);
    }
  }

  lemma SquaresGrow(a: nat, b: nat)
    requires a <= b
    ensures a * a <= b * b
    ensures a < b ==> (a + 1) * (a + 1) <= b * b
  {
    SquareOfSum(a, b - a);
    if a < b {
      SquareOfSum(a + 1, b - (a + 1));
    }
  }

  lemma SquareOfSum(a: nat, d: nat)
    ensures a * a <= (a + d) * (a + d)
  {
    assert (a + d) * (a + d) == a * a + 2 * (a * d) + d * d;
    ProductIsNatural(a, d);
    ProductIsNatural(d, d);
  }

  lemma ProductIsNatural(a: nat, b: nat)
    ensures a * b >= 0
  {
  }

  /** A distance is below `d` exactly when its square is below `d * d`. */
  lemma {:induction false} RootBelow(n: nat, d: nat)
    ensures Root(n) < d <==> n < d * d
  {
    RootExact(n);
    if Root(n) < d {
      SquaresGrow(Root(n), d);
    } else {
      SquaresGrow(d, Root(n));
    }
  }

  lemma {:induction false} RootUnique(n: nat, r: nat)
    requires r * r <= n < (r + 1) * (r + 1)
    ensures r == Root(n)
  {
    RootBelow(n, r);
    RootBelow(n, r + 1);
  }

  lemma {:induction false} RootMonotone(m: nat, n: nat)
    requires m <= n
    ensures Root(m) <= Root(n)
  {
    RootExact(n);
    RootBelow(m, Root(n) + 1);
  }

  /** Why `x / 32 + 8` is high enough a start: `(q - 7)^2 + 1` is positive. */
  lemma BoundGap(q: nat)
    ensures 32 * q + 31 < (q + 9) * (q + 9)
  {
    var s := q - 7;
    assert s * s >= 0;
    assert (q + 9) * (q + 9) == s * s + 32 * q + 32;
  }

  lemma {:induction false} InitialBound(x: nat)
    requires x < TWO32
    ensures Root(x) <= if x > 2096864 then 65535 else x / 32 + 8
  {
    BoundGap(x / 32);
    RootBelow(x, if x > 2096864 then 65536 else x / 32 + 9);
  }

  lemma SquareFits(x: nat, most: nat, limit: nat)
    requires x <= most && most * most < limit
    ensures 0 <= x * x < limit
  {
    SquaresGrow(x, most);
  }

  /** `kp_rgb_isqrt`: exact for every 32-bit input, though each operation may wrap. */
  method IntegerSquareRoot(x: nat) returns (r: nat)
    requires x < TWO32
    ensures r == Root(x)
  {
    if x <= 1 {
      RootUnique(x, x);
      return x;
    }
    var low, hi := 1, if x > 2096864 then 65535 else Wrap32(x / 32 + 8);
    InitialBound(x);
    while true
      invariant 1 <= low <= hi <= 65535
      invariant low - 1 <= Root(x) <= hi
      decreases hi - low
    {
      var mid := Wrap32(low + hi) / 2;
      SquareFits(mid, 65535, TWO32);
      RootBelow(x, mid);
      if Wrap32(mid * mid) > x {
        hi := Wrap32(mid - 1);
      } else {
        low := Wrap32(mid + 1);
      }
      if !(hi >= low) {
        break;
      }
    }
    r := Wrap32(low - 1);
  }

  function SquaredDistance(dx: int, dy: int): (r: nat)
  {
    NonNegativeSquare(dx);
    NonNegativeSquare(dy);
    dx * dx + dy * dy
  }

  lemma NonNegativeSquare(x: int)
    ensures x * x >= 0
  {
  }

  /** The largest squared distance between two points whose coordinates fit sixteen bits. */
  const FARTHEST := 2 * (65535 * 65535)

  lemma SquareOfDelta(x: int)
    requires -65535 <= x <= 65535
    ensures x * x <= 65535 * 65535
  {
    var a := if x < 0 then -x else x;
    assert x * x == a * a;
    SquaresGrow(a, 65535);
  }

  lemma DistanceFits(dx: int, dy: int)
    requires -65535 <= dx <= 65535 && -65535 <= dy <= 65535
    ensures SquaredDistance(dx, dy) <= FARTHEST && Root(SquaredDistance(dx, dy)) <= 92680
  {
    SquareOfDelta(dx);
    SquareOfDelta(dy);
    RootBelow(SquaredDistance(dx, dy), 92681);
  }

  /** `kp_rgb_coord_distance`: exact over the whole range of squared distances. */
  method CoordDistance(squared: nat) returns (r: nat)
    requires squared <= FARTHEST
    ensures r == Root(squared)
  {
    if squared < TWO32 {
      r := IntegerSquareRoot(squared);
      return;
    }
    var low, high := 65536, 92680;
    RootBelow(squared, 65535);
    RootBelow(squared, 92681);
    while low <= high
      invariant 65536 <= low <= high + 1 && high <= 92680
      invariant low - 1 <= Root(squared) <= high
    {
      var mid := Wrap32(low + Wrap32(high - low) / 2);
      SquareFits(mid, 92680, TWO64);
      RootBelow(squared, mid);
      if Wrap64(mid * mid) > squared {
        high := Wrap32(mid - 1);
      } else {
        low := Wrap32(mid + 1);
      }
    }
    r := high;
  }
}
