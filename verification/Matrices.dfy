/** Row-major matrices over the reals: the product, and the laws that single it out. */
module Matrices {
  import opened Arithmetic

  predicate IsMatrix(s: seq<real>, rows: nat, cols: nat) {
    |s| == rows * cols
  }

  function Entry(s: seq<real>, r: nat, c: nat, rows: nat, cols: nat): real
    requires IsMatrix(s, rows, cols) && r < rows && c < cols
  {
    AtInBounds(r, c, rows, cols);
    s[At(r, c, cols)]
  }

  /** The first `k` products of row `i` of `a` with column `j` of `w`. */
  function RowByColumn(a: seq<real>, w: seq<real>, M: nat, K: nat, N: nat, i: nat, j: nat, k: nat): real
    requires IsMatrix(a, M, K) && IsMatrix(w, K, N) && i < M && j < N && k <= K
  {
    if k == 0 then 0.0
    else RowByColumn(a, w, M, K, N, i, j, k - 1) + Term(a, w, M, K, N, i, j, k - 1)
  }

  function Term(a: seq<real>, w: seq<real>, M: nat, K: nat, N: nat, i: nat, j: nat, x: nat): real
    requires IsMatrix(a, M, K) && IsMatrix(w, K, N) && i < M && j < N && x < K
  {
    Entry(a, i, x, M, K) * Entry(w, x, j, K, N)
  }

  function ProductAt(a: seq<real>, w: seq<real>, M: nat, K: nat, N: nat, x: nat): real
    requires IsMatrix(a, M, K) && IsMatrix(w, K, N) && x < M * N
  {
    AtOfAddress(x, M, N);
    RowByColumn(a, w, M, K, N, x / N, x % N, K)
  }

  /** The matrix product. */
  function MatMul(a: seq<real>, w: seq<real>, M: nat, K: nat, N: nat): (c: seq<real>)
    requires IsMatrix(a, M, K) && IsMatrix(w, K, N)
    ensures IsMatrix(c, M, N)
  {
    seq(M * N, x requires 0 <= x < M * N => ProductAt(a, w, M, K, N, x))
  }

  lemma ProductEntry(a: seq<real>, w: seq<real>, M: nat, K: nat, N: nat, i: nat, j: nat)
    requires IsMatrix(a, M, K) && IsMatrix(w, K, N) && i < M && j < N
    ensures Entry(MatMul(a, w, M, K, N), i, j, M, N) == RowByColumn(a, w, M, K, N, i, j, K)
  {
    AtInBounds(i, j, M, N);
    AtRoundTrip(i, j, N);
  }

  // ---------------------------------------------------------------------
  // The product is linear in its left operand
  // ---------------------------------------------------------------------

  function Add(a: seq<real>, b: seq<real>): (c: seq<real>)
    requires |a| == |b|
    ensures |c| == |a| && forall x :: 0 <= x < |c| ==> c[x] == a[x] + b[x]
  {
    seq(|a|, x requires 0 <= x < |a| => a[x] + b[x])
  }

  function Scaled(t: real, a: seq<real>): (c: seq<real>)
    ensures |c| == |a| && forall x :: 0 <= x < |c| ==> c[x] == t * a[x]
  {
    seq(|a|, x requires 0 <= x < |a| => t * a[x])
  }

  lemma AddedProducts(p: real, q: real, x: real, y: real, w: real)
    ensures (p + x * w) + (q + y * w) == (p + q) + (x + y) * w
  {
  }

  lemma {:induction false} RowAdds(a: seq<real>, b: seq<real>, w: seq<real>, M: nat, K: nat, N: nat, i: nat, j: nat, k: nat)
    requires IsMatrix(a, M, K) && IsMatrix(b, M, K) && IsMatrix(w, K, N) && i < M && j < N && k <= K
    ensures RowByColumn(Add(a, b), w, M, K, N, i, j, k)
         == RowByColumn(a, w, M, K, N, i, j, k) + RowByColumn(b, w, M, K, N, i, j, k)
  {
    if k > 0 {
      RowAdds(a, b, w, M, K, N, i, j, k - 1);
      AtInBounds(i, k - 1, M, K);
      AddedProducts(RowByColumn(a, w, M, K, N, i, j, k - 1), RowByColumn(b, w, M, K, N, i, j, k - 1),
                    Entry(a, i, k - 1, M, K), Entry(b, i, k - 1, M, K), Entry(w, k - 1, j, K, N));
    }
  }

  lemma ScaledProduct(t: real, p: real, x: real, w: real)
    ensures t * p + (t * x) * w == t * (p + x * w)
  {
  }

  lemma {:induction false} RowScales(t: real, a: seq<real>, w: seq<real>, M: nat, K: nat, N: nat, i: nat, j: nat, k: nat)
    requires IsMatrix(a, M, K) && IsMatrix(w, K, N) && i < M && j < N && k <= K
    ensures RowByColumn(Scaled(t, a), w, M, K, N, i, j, k) == t * RowByColumn(a, w, M, K, N, i, j, k)
  {
    if k > 0 {
      RowScales(t, a, w, M, K, N, i, j, k - 1);
      AtInBounds(i, k - 1, M, K);
      ScaledProduct(t, RowByColumn(a, w, M, K, N, i, j, k - 1), Entry(a, i, k - 1, M, K), Entry(w, k - 1, j, K, N));
    }
  }

  lemma EntryAdds(a: seq<real>, b: seq<real>, w: seq<real>, M: nat, K: nat, N: nat, x: nat)
    requires IsMatrix(a, M, K) && IsMatrix(b, M, K) && IsMatrix(w, K, N) && x < M * N
    ensures ProductAt(Add(a, b), w, M, K, N, x) == ProductAt(a, w, M, K, N, x) + ProductAt(b, w, M, K, N, x)
  {
    AtOfAddress(x, M, N);
    RowAdds(a, b, w, M, K, N, x / N, x % N, K);
  }

  lemma EntryScales(t: real, a: seq<real>, w: seq<real>, M: nat, K: nat, N: nat, x: nat)
    requires IsMatrix(a, M, K) && IsMatrix(w, K, N) && x < M * N
    ensures ProductAt(Scaled(t, a), w, M, K, N, x) == t * ProductAt(a, w, M, K, N, x)
  {
    AtOfAddress(x, M, N);
    RowScales(t, a, w, M, K, N, x / N, x % N, K);
  }

  /** A sum of left operands multiplies to the sum of the products. */
  lemma ProductAdds(a: seq<real>, b: seq<real>, w: seq<real>, M: nat, K: nat, N: nat)
    requires IsMatrix(a, M, K) && IsMatrix(b, M, K) && IsMatrix(w, K, N)
    ensures MatMul(Add(a, b), w, M, K, N) == Add(MatMul(a, w, M, K, N), MatMul(b, w, M, K, N))
  {
    var sum, each := MatMul(Add(a, b), w, M, K, N), Add(MatMul(a, w, M, K, N), MatMul(b, w, M, K, N));
    forall x | 0 <= x < |sum| ensures sum[x] == each[x] {
      EntryAdds(a, b, w, M, K, N, x);
    }
  }

  /** A multiple of the left operand multiplies to that multiple of the product. */
  lemma ProductScales(t: real, a: seq<real>, w: seq<real>, M: nat, K: nat, N: nat)
    requires IsMatrix(a, M, K) && IsMatrix(w, K, N)
    ensures MatMul(Scaled(t, a), w, M, K, N) == Scaled(t, MatMul(a, w, M, K, N))
  {
    var scaled, each := MatMul(Scaled(t, a), w, M, K, N), Scaled(t, MatMul(a, w, M, K, N));
    forall x | 0 <= x < |scaled| ensures scaled[x] == each[x] {
      EntryScales(t, a, w, M, K, N, x);
    }
  }

  // ---------------------------------------------------------------------
  // And is the right operand's row where the left one has a single one
  // ---------------------------------------------------------------------

  /** Row `i` of `a` is one in column `x` and zero elsewhere. */
  predicate IsOneHot(a: seq<real>, M: nat, K: nat, i: nat, x: nat)
    requires IsMatrix(a, M, K) && i < M
  {
    x < K && forall c :: 0 <= c < K ==> Entry(a, i, c, M, K) == if c == x then 1.0 else 0.0
  }

  lemma {:induction false} OneHotDot(a: seq<real>, w: seq<real>, M: nat, K: nat, N: nat, i: nat, j: nat, x: nat, k: nat)
    requires IsMatrix(a, M, K) && IsMatrix(w, K, N) && i < M && j < N && k <= K && IsOneHot(a, M, K, i, x)
    ensures RowByColumn(a, w, M, K, N, i, j, k) == if x < k then Entry(w, x, j, K, N) else 0.0
  {
    if k > 0 {
      OneHotDot(a, w, M, K, N, i, j, x, k - 1);
      assert Entry(a, i, k - 1, M, K) == if k - 1 == x then 1.0 else 0.0;
    }
  }

  /** A one-hot row picks out that row of the right operand. */
  lemma OneHotPicksTheRow(a: seq<real>, w: seq<real>, M: nat, K: nat, N: nat, i: nat, x: nat, j: nat)
    requires IsMatrix(a, M, K) && IsMatrix(w, K, N) && i < M && j < N && IsOneHot(a, M, K, i, x)
    ensures i * N + j < |MatMul(a, w, M, K, N)| && x * N + j < |w|
    ensures MatMul(a, w, M, K, N)[i * N + j] == w[x * N + j]
  {
    AtInBounds(i, j, M, N);
    AtInBounds(x, j, K, N);
    ProductEntry(a, w, M, K, N, i, j);
    OneHotDot(a, w, M, K, N, i, j, x, K);
  }

  /** A zero left operand gives the zero matrix. */
  lemma ZeroTimesAnything(a: seq<real>, w: seq<real>, M: nat, K: nat, N: nat)
    requires IsMatrix(a, M, K) && IsMatrix(w, K, N) && forall x :: 0 <= x < |a| ==> a[x] == 0.0
    ensures forall x :: 0 <= x < M * N ==> MatMul(a, w, M, K, N)[x] == 0.0
  {
    assert a == Scaled(0.0, a);
    ProductScales(0.0, a, w, M, K, N);
  }
}
