/** Division, ceiling division and row-major addressing. */
module Arithmetic {

  function Cdiv(a: nat, b: nat): nat
    requires b > 0
  {
    (a + b - 1) / b
  }

  function Min(x: int, y: int): int {
    if x < y then x else y
  }

  function Max(x: int, y: int): int {
    if x > y then x else y
  }

  // ---------------------------------------------------------------------
  // Division facts
  // ---------------------------------------------------------------------

  lemma DivModUnique(q: int, b: int, r: int)
    requires 0 <= r < b
    ensures (q * b + r) / b == q && (q * b + r) % b == r
  {
    var x := q * b + r;
    assert x == (x / b) * b + x % b;
    if x / b != q {
      if x / b > q {
        assert (x / b) * b >= (q + 1) * b by { MulMonotone(q + 1, x / b, b); }
      } else {
        assert (x / b + 1) * b <= q * b by { MulMonotone(x / b + 1, q, b); }
      }
      assert false;
    }
  }

  lemma MulMonotone(x: int, y: int, b: int)
    requires x <= y && b >= 0
    ensures x * b <= y * b
  {
  }

  lemma ModDropsMultiples(a: int, k: int, b: int)
    requires b > 0
    ensures (a + k * b) % b == a % b
  {
    var q, r := a / b, a % b;
    assert a + k * b == (q + k) * b + r;
    DivModUnique(q + k, b, r);
  }

  lemma ModAdds(a: int, c: int, b: int)
    requires b > 0
    ensures (c + a % b) % b == (c + a) % b
  {
    assert c + a == (c + a % b) + (a / b) * b;
    ModDropsMultiples(c + a % b, a / b, b);
  }

  lemma FactorLess(x: int, y: int, q: int)
    requires q >= 0 && x * q < y * q
    ensures x < y
  {
    if x >= y {
      MulMonotone(y, x, q);
    }
  }

  lemma MulAssociates(x: int, y: int, z: int)
    ensures (x * y) * z == x * (y * z)
  {
  }

  lemma MulSubtracts(x: int, y: int, z: int)
    ensures (x - y) * z == x * z - y * z
  {
  }

  lemma PositiveProduct(x: nat, y: nat)
    ensures x * y > 0 <==> x > 0 && y > 0
  {
    if x > 0 && y > 0 {
      MulMonotone(1, x, y);
    }
  }

  /** A ceiling division covers its dividend. */
  lemma CdivCovers(a: nat, b: nat, i: nat)
    requires b > 0 && i < a
    ensures 0 <= i / b < Cdiv(a, b)
  {
    var t := a + b - 1;
    assert t == (t / b) * b + t % b;
    assert i == (i / b) * b + i % b;
    if i / b >= Cdiv(a, b) {
      MulMonotone(Cdiv(a, b), i / b, b);
      assert false;
    }
  }

  /** No tile of a ceiling division starts past the end. */
  lemma CdivStartsInside(a: nat, b: nat, i: nat)
    requires b > 0 && i < Cdiv(a, b)
    ensures i * b < a
  {
    var t := a + b - 1;
    assert t == (t / b) * b + t % b;
    MulMonotone(i + 1, Cdiv(a, b), b);
    assert (i + 1) * b == i * b + b;
  }

  lemma QuotientBelow(r: nat, t: int, q: nat)
    requires t > 0 && r < t * q
    ensures 0 <= r / t < q
  {
    assert r == (r / t) * t + r % t;
    if r / t >= q {
      MulMonotone(q, r / t, t);
      assert false;
    }
  }

  // ---------------------------------------------------------------------
  // Products and quotients of reals
  // ---------------------------------------------------------------------

  /** A product under a name, so that equal factors are seen to give equal products. */
  function Times(x: real, y: real): real {
    x * y
  }

  lemma QuotientTimes(x: real, c: real, q: real)
    requires c != 0.0 && q == x / c
    ensures q * c == x
  {
  }

  /** `xc` and `yc` are `x` and `y` scaled by `c`. */
  lemma ProductDifference(x: real, y: real, c: real, xc: real, yc: real)
    requires xc == x * c && yc == y * c
    ensures (x - y) * c == xc - yc
  {
  }

  // ---------------------------------------------------------------------
  // Row-major addresses
  // ---------------------------------------------------------------------

  function At(row: nat, col: nat, width: nat): nat {
    row * width + col
  }

  lemma AtInBounds(row: nat, col: nat, height: nat, width: nat)
    requires row < height && col < width
    ensures At(row, col, width) < height * width
  {
    MulMonotone(row + 1, height, width);
  }

  lemma AtRoundTrip(row: nat, col: nat, width: nat)
    requires col < width
    ensures At(row, col, width) / width == row && At(row, col, width) % width == col
  {
    DivModUnique(row, width, col);
  }

  lemma AtOfAddress(x: nat, height: nat, width: nat)
    requires x < height * width
    ensures width > 0 && x / width < height && At(x / width, x % width, width) == x
  {
    PositiveProduct(height, width);
    QuotientBelow(x, width, height) by { assert height * width == width * height; }
  }

  lemma CdivEnds(K: nat, block: nat)
    requires block > 0
    ensures Min(Cdiv(K, block) * block, K) == K
  {
    var t := K + block - 1;
    assert t == t / block * block + t % block;
  }
}
