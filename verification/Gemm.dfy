/** The tiled GEMM kernel over row-major buffers, launched one program per tile in
  * any order, and the SwiGLU MLP made of two launches of it.
  */
module Gemm {
  import opened Arithmetic
  import opened PidGrid
  import opened Matrices

  // ---------------------------------------------------------------------
  // The K-loop of one lane
  // ---------------------------------------------------------------------

  /** A buffer read; addresses outside the buffer never matter, see `LiveLoadsAreInBounds`. */
  function Read(s: seq<real>, address: int): real {
    if 0 <= address < |s| then s[address] else 0.0
  }

  /** A masked load: off-mask lanes read zero. */
  function Load(s: seq<real>, address: int, mask: bool): real {
    if mask then Read(s, address) else 0.0
  }

  /** One lane of `tl.dot` over a loaded K-block: `rowA` and `colW` are the lane's
    * offsets, `advanceA` and `advanceW` how far the pointers have moved. */
  function BlockDot(a: seq<real>, w: seq<real>, rowA: int, colW: int, strideW: int,
                    advanceA: int, advanceW: int, live: int, lanes: nat): real {
    if lanes == 0 then 0.0
    else
      BlockDot(a, w, rowA, colW, strideW, advanceA, advanceW, live, lanes - 1)
      + BlockTerm(a, w, rowA, colW, strideW, advanceA, advanceW, live, lanes - 1)
  }

  function BlockTerm(a: seq<real>, w: seq<real>, rowA: int, colW: int, strideW: int,
                     advanceA: int, advanceW: int, live: int, x: nat): real {
    Load(a, rowA + x + advanceA, x < live) * Load(w, x * strideW + colW + advanceW, x < live)
  }

  lemma BlockTermIsTerm(a: seq<real>, w: seq<real>, M: nat, K: nat, N: nat, i: nat, j: nat, shift: nat, x: nat)
    requires IsMatrix(a, M, K) && IsMatrix(w, K, N) && i < M && j < N && shift <= K
    ensures BlockTerm(a, w, i * K, j, N, shift, shift * N, K - shift, x)
         == if x < K - shift then Term(a, w, M, K, N, i, j, shift + x) else 0.0
  {
    BlockAddress(K, N, i, j, shift, x);
    if x < K - shift {
      AtInBounds(i, shift + x, M, K);
      AtInBounds(shift + x, j, K, N);
    }
  }

  lemma BlockAddress(K: nat, N: nat, i: nat, j: nat, shift: nat, x: nat)
    ensures i * K + x + shift == At(i, shift + x, K)
    ensures x * N + j + shift * N == At(shift + x, j, N)
  {
  }

  /** Every load the mask lets through is inside its buffer, wrapped rows included. */
  lemma LiveLoadsAreInBounds(M: nat, K: nat, N: nat, i: nat, j: nat, shift: nat, x: nat)
    requires M > 0 && N > 0 && x < K - shift
    ensures 0 <= (i % M) * K + x + shift < M * K
    ensures 0 <= x * N + j % N + shift * N < K * N
  {
    BlockAddress(K, N, i % M, j % N, shift, x);
    AtInBounds(i % M, shift + x, M, K);
    AtInBounds(shift + x, j % N, K, N);
  }

  /** The live products of a K-block extend the row by the column; the tail adds zero. */
  lemma {:induction false} BlockExtendsRow(
      a: seq<real>, w: seq<real>, M: nat, K: nat, N: nat, i: nat, j: nat, shift: nat, lanes: nat)
    requires IsMatrix(a, M, K) && IsMatrix(w, K, N) && i < M && j < N && shift <= K
    ensures RowByColumn(a, w, M, K, N, i, j, shift) + BlockDot(a, w, i * K, j, N, shift, shift * N, K - shift, lanes)
         == RowByColumn(a, w, M, K, N, i, j, Min(shift + lanes, K))
  {
    if lanes > 0 {
      var x := lanes - 1;
      BlockExtendsRow(a, w, M, K, N, i, j, shift, x);
      BlockTermIsTerm(a, w, M, K, N, i, j, shift, x);
      if x < K - shift {
        assert Min(shift + lanes, K) == shift + x + 1 && Min(shift + x, K) == shift + x;
      } else {
        assert Min(shift + lanes, K) == K == Min(shift + x, K);
      }
    }
  }

  // ---------------------------------------------------------------------
  // One program
  // ---------------------------------------------------------------------

  /** The tile sizes of a launch. */
  datatype Blocks = Blocks(m: nat, n: nat, k: nat, group: nat)

  predicate ValidBlocks(b: Blocks) {
    b.m > 0 && b.n > 0 && b.k > 0 && b.group > 0
  }

  function GridSize(M: nat, N: nat, b: Blocks): nat
    requires ValidBlocks(b)
  {
    Cdiv(M, b.m) * Cdiv(N, b.n)
  }

  /** The output element at `row`, `col` is in the tile of program `pid`. */
  predicate InTile(pid: nat, row: nat, col: nat, M: nat, N: nat, b: Blocks)
    requires ValidBlocks(b) && pid < GridSize(M, N, b)
  {
    TileOf(pid, Cdiv(M, b.m), Cdiv(N, b.n), b.group) == (row / b.m, col / b.n)
  }

  /** The output row (or column) of a lane of a tile. */
  function Lane(tile: nat, block: nat, lane: nat): nat {
    tile * block + lane
  }

  lemma LaneOfTile(tile: nat, block: nat, lane: nat)
    requires lane < block
    ensures Lane(tile, block, lane) / block == tile && Lane(tile, block, lane) % block == lane
  {
    DivModUnique(tile, block, lane);
  }

  /** The wrapped offset a lane loads through. */
  function Wrap(tile: nat, block: nat, lane: nat, limit: nat): (r: nat)
    requires limit > 0
    ensures r < limit
  {
    Lane(tile, block, lane) % limit
  }

  /** `acc` holds, lane by lane, the first `done` products of the wrapped tile. */
  ghost predicate Holds(acc: array2<real>, a: seq<real>, w: seq<real>, M: nat, K: nat, N: nat,
                        pidM: nat, pidN: nat, b: Blocks, done: nat)
    requires M > 0 && N > 0 && IsMatrix(a, M, K) && IsMatrix(w, K, N) && done <= K
    reads acc
  {
    && acc.Length0 == b.m && acc.Length1 == b.n
    && forall i, j :: 0 <= i < b.m && 0 <= j < b.n ==>
         acc[i, j] == RowByColumn(a, w, M, K, N, Wrap(pidM, b.m, i, M), Wrap(pidN, b.n, j, N), done)
  }

  /** One K-block of `acc += tl.dot(a, w)`, every lane at once. */
  method AddBlock(acc: array2<real>, a: seq<real>, w: seq<real>, M: nat, K: nat, N: nat,
                  pidM: nat, pidN: nat, b: Blocks, advanceA: nat, advanceW: nat)
    requires M > 0 && N > 0 && IsMatrix(a, M, K) && IsMatrix(w, K, N)
    requires advanceA <= K && advanceW == advanceA * N
    requires Holds(acc, a, w, M, K, N, pidM, pidN, b, advanceA)
    modifies acc
    ensures Holds(acc, a, w, M, K, N, pidM, pidN, b, Min(advanceA + b.k, K))
  {
    forall i, j | 0 <= i < b.m && 0 <= j < b.n {
      acc[i, j] := acc[i, j] + BlockDot(a, w, Wrap(pidM, b.m, i, M) * K, Wrap(pidN, b.n, j, N), N,
                                        advanceA, advanceW, K - advanceA, b.k);
    }
    forall i, j | 0 <= i < b.m && 0 <= j < b.n
      ensures acc[i, j]
           == RowByColumn(a, w, M, K, N, Wrap(pidM, b.m, i, M), Wrap(pidN, b.n, j, N), Min(advanceA + b.k, K))
    {
      BlockExtendsRow(a, w, M, K, N, Wrap(pidM, b.m, i, M), Wrap(pidN, b.n, j, N), advanceA, b.k);
    }
  }

  /** The K-loop: two accumulators walked down K side by side. */
  method Accumulate(
      a: seq<real>, w1: seq<real>, w2: seq<real>, M: nat, K: nat, N: nat, fuse: bool,
      pidM: nat, pidN: nat, b: Blocks)
    returns (acc1: array2<real>, acc2: array2<real>)
    requires ValidBlocks(b) && M > 0 && N > 0
    requires IsMatrix(a, M, K) && IsMatrix(w1, K, N) && (fuse ==> IsMatrix(w2, K, N))
    ensures fresh(acc1) && fresh(acc2)
    ensures acc1.Length0 == acc2.Length0 == b.m && acc1.Length1 == acc2.Length1 == b.n
    ensures Holds(acc1, a, w1, M, K, N, pidM, pidN, b, K)
    ensures fuse ==> Holds(acc2, a, w2, M, K, N, pidM, pidN, b, K)
  {
    acc1 := new real[b.m, b.n]((i, j) => 0.0);
    acc2 := new real[b.m, b.n]((i, j) => 0.0);
    var advanceA, advanceW := 0, 0;
    ghost var done := 0;
    for k := 0 to Cdiv(K, b.k)
      invariant fresh(acc1) && fresh(acc2) && acc1 != acc2
      invariant acc2.Length0 == b.m && acc2.Length1 == b.n
      invariant advanceA == k * b.k && advanceW == advanceA * N && done == Min(advanceA, K)
      invariant Holds(acc1, a, w1, M, K, N, pidM, pidN, b, done)
      invariant fuse ==> Holds(acc2, a, w2, M, K, N, pidM, pidN, b, done)
    {
      CdivStartsInside(K, b.k, k);
      AddBlock(acc1, a, w1, M, K, N, pidM, pidN, b, advanceA, advanceW);
      if fuse {
        AddBlock(acc2, a, w2, M, K, N, pidM, pidN, b, advanceA, advanceW);
      }
      NextBlock(k, b.k, advanceA, N);
      advanceA := advanceA + b.k;
      advanceW := advanceW + b.k * N;
      done := Min(advanceA, K);
    }
    CdivEnds(K, b.k);
  }

  lemma NextBlock(k: nat, block: nat, advance: nat, N: nat)
    requires advance == k * block
    ensures advance + block == (k + 1) * block
    ensures (advance + block) * N == advance * N + block * N
  {
  }

  // ---------------------------------------------------------------------
  // The masked store
  // ---------------------------------------------------------------------

  /** The lane of (`row`, `col`) in the tile comes before lane (`i`, `j`). */
  predicate LaneBefore(row: nat, col: nat, pidM: nat, pidN: nat, b: Blocks, i: nat, j: nat)
    requires ValidBlocks(b)
  {
    && row / b.m == pidM && col / b.n == pidN
    && (row % b.m < i || (row % b.m == i && col % b.n < j))
  }

  lemma NextLane(row: nat, col: nat, pidM: nat, pidN: nat, b: Blocks, i: nat, j: nat)
    requires ValidBlocks(b) && i < b.m && j < b.n
    ensures LaneBefore(row, col, pidM, pidN, b, i, j + 1) <==>
            LaneBefore(row, col, pidM, pidN, b, i, j) || (row == Lane(pidM, b.m, i) && col == Lane(pidN, b.n, j))
    ensures LaneBefore(row, col, pidM, pidN, b, i, b.n) <==> LaneBefore(row, col, pidM, pidN, b, i + 1, 0)
  {
    LaneOfTile(pidM, b.m, i);
    LaneOfTile(pidN, b.n, j);
    assert row == row / b.m * b.m + row % b.m && col == col / b.n * b.n + col % b.n;
  }

  /** `c` is `start` with the lanes before (`i`, `j`) overwritten by `value`. */
  ghost predicate Stored(c: seq<real>, start: seq<real>, M: nat, N: nat,
                         pidM: nat, pidN: nat, b: Blocks, i: nat, j: nat, value: (nat, nat) -> real)
    requires ValidBlocks(b)
  {
    && |c| == |start| == M * N
    && forall row: nat, col: nat {:trigger At(row, col, N)} :: row < M && col < N ==>
         && At(row, col, N) < M * N
         && c[At(row, col, N)]
            == if LaneBefore(row, col, pidM, pidN, b, i, j) then value(row, col) else start[At(row, col, N)]
  }

  lemma StoreLane(c: seq<real>, c': seq<real>, start: seq<real>, M: nat, N: nat,
                  pidM: nat, pidN: nat, b: Blocks, i: nat, j: nat, value: (nat, nat) -> real)
    requires ValidBlocks(b) && i < b.m && j < b.n
    requires Stored(c, start, M, N, pidM, pidN, b, i, j, value)
    requires var row, col := Lane(pidM, b.m, i), Lane(pidN, b.n, j);
      if row < M && col < N then At(row, col, N) < |c| && c' == c[At(row, col, N) := value(row, col)] else c' == c
    ensures Stored(c', start, M, N, pidM, pidN, b, i, j + 1, value)
  {
    forall row: nat, col: nat {:trigger At(row, col, N)} | row < M && col < N
      ensures At(row, col, N) < M * N && c'[At(row, col, N)]
            == if LaneBefore(row, col, pidM, pidN, b, i, j + 1) then value(row, col) else start[At(row, col, N)]
    {
      NextLane(row, col, pidM, pidN, b, i, j);
      var r, q := Lane(pidM, b.m, i), Lane(pidN, b.n, j);
      if r < M && q < N {
        AtRoundTrip(row, col, N);
        AtRoundTrip(r, q, N);
      }
    }
  }

  lemma RowIsStored(c: seq<real>, start: seq<real>, M: nat, N: nat,
                    pidM: nat, pidN: nat, b: Blocks, i: nat, value: (nat, nat) -> real)
    requires ValidBlocks(b) && i < b.m
    requires Stored(c, start, M, N, pidM, pidN, b, i, b.n, value)
    ensures Stored(c, start, M, N, pidM, pidN, b, i + 1, 0, value)
  {
    forall row: nat, col: nat {:trigger At(row, col, N)} | row < M && col < N
      ensures c[At(row, col, N)]
            == if LaneBefore(row, col, pidM, pidN, b, i + 1, 0) then value(row, col) else start[At(row, col, N)]
    {
      NextLane(row, col, pidM, pidN, b, i, 0);
    }
  }

  /** The epilogue of one lane, silu folded in or not. */
  function Epilogue(acc1: real, acc2: real, fuse: bool, sigmoid: real -> real): real {
    if fuse then acc1 * sigmoid(acc1) * acc2 else acc1
  }

  /** What one output element ought to be: the row by the column, or gated by silu. */
  function Cell(a: seq<real>, w1: seq<real>, w2: seq<real>, M: nat, K: nat, N: nat,
                fuse: bool, sigmoid: real -> real, i: nat, j: nat): real
    requires IsMatrix(a, M, K) && IsMatrix(w1, K, N) && (fuse ==> IsMatrix(w2, K, N)) && i < M && j < N
  {
    var gate := RowByColumn(a, w1, M, K, N, i, j, K);
    if fuse then gate * sigmoid(gate) * RowByColumn(a, w2, M, K, N, i, j, K) else gate
  }

  /** The accumulators hold, for every lane inside the matrix, what `value` asks. */
  ghost predicate Computes(acc1: array2<real>, acc2: array2<real>, M: nat, N: nat, fuse: bool,
                           sigmoid: real -> real, pidM: nat, pidN: nat, b: Blocks, value: (nat, nat) -> real)
    reads acc1, acc2
  {
    && acc1.Length0 == acc2.Length0 == b.m && acc1.Length1 == acc2.Length1 == b.n
    && forall i, j :: 0 <= i < b.m && 0 <= j < b.n && Lane(pidM, b.m, i) < M && Lane(pidN, b.n, j) < N ==>
         value(Lane(pidM, b.m, i), Lane(pidN, b.n, j)) == Epilogue(acc1[i, j], acc2[i, j], fuse, sigmoid)
  }

  lemma NothingStored(c: seq<real>, M: nat, N: nat, pidM: nat, pidN: nat, b: Blocks, value: (nat, nat) -> real)
    requires ValidBlocks(b) && |c| == M * N
    ensures Stored(c, c, M, N, pidM, pidN, b, 0, 0, value)
  {
    forall row: nat, col: nat {:trigger At(row, col, N)} | row < M && col < N ensures At(row, col, N) < M * N {
      AtInBounds(row, col, M, N);
    }
  }

  /** One lane's store under the mask. */
  method StoreMasked(c: array<real>, x: real, M: nat, N: nat, row: nat, col: nat)
    requires c.Length == M * N
    modifies c
    ensures if row < M && col < N then At(row, col, N) < c.Length && c[..] == old(c[..])[At(row, col, N) := x]
            else c[..] == old(c[..])
  {
    if row < M && col < N {
      AtInBounds(row, col, M, N);
      c[At(row, col, N)] := x;
    }
  }

  method StoreTile(c: array<real>, acc1: array2<real>, acc2: array2<real>, M: nat, N: nat, fuse: bool,
                   sigmoid: real -> real, pidM: nat, pidN: nat, b: Blocks, ghost value: (nat, nat) -> real)
    requires ValidBlocks(b) && c.Length == M * N
    requires Computes(acc1, acc2, M, N, fuse, sigmoid, pidM, pidN, b, value)
    modifies c
    ensures Stored(c[..], old(c[..]), M, N, pidM, pidN, b, b.m, 0, value)
  {
    ghost var start := c[..];
    NothingStored(start, M, N, pidM, pidN, b, value);
    for i := 0 to b.m
      invariant Stored(c[..], start, M, N, pidM, pidN, b, i, 0, value)
    {
      for j := 0 to b.n
        invariant Stored(c[..], start, M, N, pidM, pidN, b, i, j, value)
      {
        ghost var before := c[..];
        StoreMasked(c, Epilogue(acc1[i, j], acc2[i, j], fuse, sigmoid), M, N, Lane(pidM, b.m, i), Lane(pidN, b.n, j));
        StoreLane(before, c[..], start, M, N, pidM, pidN, b, i, j, value);
      }
      RowIsStored(c[..], start, M, N, pidM, pidN, b, i, value);
    }
  }

  // ---------------------------------------------------------------------
  // One program, one launch
  // ---------------------------------------------------------------------

  /** `c` is `start` with the tile of program `pid` filled in, and nothing else. */
  ghost predicate TileFilled(c: seq<real>, start: seq<real>, M: nat, N: nat, b: Blocks, pid: nat,
                             value: (nat, nat) -> real)
    requires ValidBlocks(b) && pid < GridSize(M, N, b)
  {
    && |c| == |start| == M * N
    && forall row: nat, col: nat {:trigger At(row, col, N)} :: row < M && col < N ==>
         && At(row, col, N) < M * N
         && c[At(row, col, N)] == if InTile(pid, row, col, M, N, b) then value(row, col) else start[At(row, col, N)]
  }

  method MlpKernel(
      pid: nat, a: array<real>, w1: array<real>, w2: array<real>, c: array<real>,
      M: nat, N: nat, K: nat, fuse: bool, sigmoid: real -> real, b: Blocks)
    requires ValidBlocks(b) && pid < GridSize(M, N, b)
    requires a.Length == M * K && w1.Length == K * N && (fuse ==> w2.Length == K * N) && c.Length == M * N
    requires c != a && c != w1 && c != w2
    modifies c
    ensures TileFilled(c[..], old(c[..]), M, N, b, pid, CellOf(a[..], w1[..], w2[..], M, K, N, fuse, sigmoid))
  {
    PositiveProduct(Cdiv(M, b.m), Cdiv(N, b.n));
    TileIsInGrid(pid, Cdiv(M, b.m), Cdiv(N, b.n), b.group);
    var (pidM, pidN) := TileOf(pid, Cdiv(M, b.m), Cdiv(N, b.n), b.group);
    CdivStartsInside(M, b.m, pidM);
    CdivStartsInside(N, b.n, pidN);
    var acc1, acc2 := Accumulate(a[..], w1[..], w2[..], M, K, N, fuse, pidM, pidN, b);
    ghost var start, value := c[..], CellOf(a[..], w1[..], w2[..], M, K, N, fuse, sigmoid);
    AccumulatorsCompute(acc1, acc2, a[..], w1[..], w2[..], M, K, N, fuse, sigmoid, pidM, pidN, b);
    StoreTile(c, acc1, acc2, M, N, fuse, sigmoid, pidM, pidN, b, value);
    LastLane(c[..], start, M, N, pidM, pidN, b, pid, value);
  }

  /** Inside the matrix the wrap-around of the loads changes nothing. */
  lemma AccumulatorsCompute(acc1: array2<real>, acc2: array2<real>, a: seq<real>, w1: seq<real>, w2: seq<real>,
                            M: nat, K: nat, N: nat, fuse: bool, sigmoid: real -> real, pidM: nat, pidN: nat, b: Blocks)
    requires M > 0 && N > 0 && acc1.Length0 == acc2.Length0 == b.m && acc1.Length1 == acc2.Length1 == b.n
    requires IsMatrix(a, M, K) && IsMatrix(w1, K, N) && (fuse ==> IsMatrix(w2, K, N))
    requires Holds(acc1, a, w1, M, K, N, pidM, pidN, b, K)
    requires fuse ==> Holds(acc2, a, w2, M, K, N, pidM, pidN, b, K)
    ensures Computes(acc1, acc2, M, N, fuse, sigmoid, pidM, pidN, b, CellOf(a, w1, w2, M, K, N, fuse, sigmoid))
  {
    forall i, j | 0 <= i < b.m && 0 <= j < b.n && Lane(pidM, b.m, i) < M && Lane(pidN, b.n, j) < N
      ensures CellOf(a, w1, w2, M, K, N, fuse, sigmoid)(Lane(pidM, b.m, i), Lane(pidN, b.n, j))
           == Epilogue(acc1[i, j], acc2[i, j], fuse, sigmoid)
    {
      WrapIsIdleInside(pidM, b.m, i, M);
      WrapIsIdleInside(pidN, b.n, j, N);
    }
  }

  lemma WrapIsIdleInside(tile: nat, block: nat, lane: nat, limit: nat)
    requires Lane(tile, block, lane) < limit
    ensures Wrap(tile, block, lane, limit) == Lane(tile, block, lane)
  {
    DivModUnique(0, limit, Lane(tile, block, lane));
  }

  ghost function CellOf(a: seq<real>, w1: seq<real>, w2: seq<real>, M: nat, K: nat, N: nat,
                        fuse: bool, sigmoid: real -> real): (nat, nat) -> real
    requires IsMatrix(a, M, K) && IsMatrix(w1, K, N) && (fuse ==> IsMatrix(w2, K, N))
  {
    (row: nat, col: nat) =>
      if row < M && col < N then Cell(a, w1, w2, M, K, N, fuse, sigmoid, row, col) else 0.0
  }

  lemma LastLane(c: seq<real>, start: seq<real>, M: nat, N: nat, pidM: nat, pidN: nat, b: Blocks, pid: nat,
                 value: (nat, nat) -> real)
    requires ValidBlocks(b) && pid < GridSize(M, N, b)
    requires TileOf(pid, Cdiv(M, b.m), Cdiv(N, b.n), b.group) == (pidM, pidN)
    requires Stored(c, start, M, N, pidM, pidN, b, b.m, 0, value)
    ensures TileFilled(c, start, M, N, b, pid, value)
  {
    forall row: nat, col: nat {:trigger At(row, col, N)} | row < M && col < N
      ensures LaneBefore(row, col, pidM, pidN, b, b.m, 0) <==> InTile(pid, row, col, M, N, b)
    {
    }
  }

  /** The program whose tile holds the output element at `row`, `col`. */
  function Owner(row: nat, col: nat, M: nat, N: nat, b: Blocks): int
    requires ValidBlocks(b) && row < M && col < N
  {
    CdivCovers(M, b.m, row);
    CdivCovers(N, b.n, col);
    PidOf(row / b.m, col / b.n, Cdiv(M, b.m), Cdiv(N, b.n), b.group)
  }

  /** Each output element belongs to the tile of exactly one launched program. */
  lemma OneProgramPerElement(row: nat, col: nat, M: nat, N: nat, b: Blocks)
    requires ValidBlocks(b) && row < M && col < N
    ensures 0 <= Owner(row, col, M, N, b) < GridSize(M, N, b)
    ensures forall pid: nat {:trigger InTile(pid, row, col, M, N, b)} :: pid < GridSize(M, N, b) ==>
              (InTile(pid, row, col, M, N, b) <==> pid == Owner(row, col, M, N, b))
  {
    CdivCovers(M, b.m, row);
    CdivCovers(N, b.n, col);
    var tm, tn, tilesM, tilesN := row / b.m, col / b.n, Cdiv(M, b.m), Cdiv(N, b.n);
    TileOfPid(tm, tn, tilesM, tilesN, b.group);
    forall pid: nat {:trigger InTile(pid, row, col, M, N, b)} | pid < GridSize(M, N, b)
      ensures InTile(pid, row, col, M, N, b) <==> pid == Owner(row, col, M, N, b)
    {
      OwnerIsOnly(pid, row, col, M, N, b, tm, tn, tilesM, tilesN);
    }
  }

  lemma OwnerIsOnly(pid: nat, row: nat, col: nat, M: nat, N: nat, b: Blocks, tm: nat, tn: nat, tilesM: nat, tilesN: nat)
    requires ValidBlocks(b) && pid < GridSize(M, N, b) && row < M && col < N
    requires tm == row / b.m && tn == col / b.n && tilesM == Cdiv(M, b.m) && tilesN == Cdiv(N, b.n)
    requires tm < tilesM && tn < tilesN
    ensures InTile(pid, row, col, M, N, b) <==> pid == Owner(row, col, M, N, b)
  {
    ExactlyOneProgramPerTile(tm, tn, tilesM, tilesN, b.group, pid);
  }

  /** An order in which a launch may run its programs. */
  ghost predicate CoversGrid(order: seq<nat>, size: nat) {
    && (forall i :: 0 <= i < |order| ==> order[i] < size)
    && (forall pid: nat :: pid < size ==> pid in order)
  }

  ghost predicate WrittenBy(order: seq<nat>, row: nat, col: nat, M: nat, N: nat, b: Blocks)
    requires ValidBlocks(b) && forall i :: 0 <= i < |order| ==> order[i] < GridSize(M, N, b)
  {
    exists i :: 0 <= i < |order| && InTile(order[i], row, col, M, N, b)
  }

  /** `c` is `start` with the tiles of the programs in `order` filled in. */
  ghost predicate TilesFilled(c: seq<real>, start: seq<real>, M: nat, N: nat, b: Blocks, order: seq<nat>,
                              value: (nat, nat) -> real)
    requires ValidBlocks(b) && forall i :: 0 <= i < |order| ==> order[i] < GridSize(M, N, b)
  {
    && |c| == |start| == M * N
    && forall row: nat, col: nat {:trigger At(row, col, N)} :: row < M && col < N ==>
         && At(row, col, N) < M * N
         && c[At(row, col, N)]
            == if WrittenBy(order, row, col, M, N, b) then value(row, col) else start[At(row, col, N)]
  }

  lemma OneMoreTile(c: seq<real>, c': seq<real>, start: seq<real>, M: nat, N: nat, b: Blocks, order: seq<nat>,
                    k: nat, value: (nat, nat) -> real)
    requires ValidBlocks(b) && k < |order| && forall i :: 0 <= i < |order| ==> order[i] < GridSize(M, N, b)
    requires TilesFilled(c, start, M, N, b, order[..k], value)
    requires TileFilled(c', c, M, N, b, order[k], value)
    ensures TilesFilled(c', start, M, N, b, order[..k + 1], value)
  {
    forall row: nat, col: nat {:trigger At(row, col, N)} | row < M && col < N
      ensures WrittenBy(order[..k + 1], row, col, M, N, b) <==>
              WrittenBy(order[..k], row, col, M, N, b) || InTile(order[k], row, col, M, N, b)
    {
      if WrittenBy(order[..k], row, col, M, N, b) {
        var i :| 0 <= i < k && InTile(order[..k][i], row, col, M, N, b);
        assert order[..k + 1][i] == order[..k][i];
      }
      if InTile(order[k], row, col, M, N, b) {
        assert order[..k + 1][k] == order[k];
      }
      if WrittenBy(order[..k + 1], row, col, M, N, b) {
        var i :| 0 <= i < k + 1 && InTile(order[..k + 1][i], row, col, M, N, b);
        assert i < k ==> order[..k][i] == order[..k + 1][i];
      }
    }
  }

  function CellAt(a: seq<real>, w1: seq<real>, w2: seq<real>, M: nat, K: nat, N: nat,
                  fuse: bool, sigmoid: real -> real, x: nat): real
    requires IsMatrix(a, M, K) && IsMatrix(w1, K, N) && (fuse ==> IsMatrix(w2, K, N)) && x < M * N
  {
    AtOfAddress(x, M, N);
    Cell(a, w1, w2, M, K, N, fuse, sigmoid, x / N, x % N)
  }

  /** The whole output as one buffer. */
  function Cells(a: seq<real>, w1: seq<real>, w2: seq<real>, M: nat, K: nat, N: nat,
                 fuse: bool, sigmoid: real -> real): seq<real>
    requires IsMatrix(a, M, K) && IsMatrix(w1, K, N) && (fuse ==> IsMatrix(w2, K, N))
  {
    seq(M * N, x requires 0 <= x < M * N => CellAt(a, w1, w2, M, K, N, fuse, sigmoid, x))
  }

  lemma AllTilesFilled(c: seq<real>, start: seq<real>, a: seq<real>, w1: seq<real>, w2: seq<real>,
                       M: nat, K: nat, N: nat, fuse: bool, sigmoid: real -> real, b: Blocks, order: seq<nat>)
    requires ValidBlocks(b) && CoversGrid(order, GridSize(M, N, b))
    requires IsMatrix(a, M, K) && IsMatrix(w1, K, N) && (fuse ==> IsMatrix(w2, K, N))
    requires TilesFilled(c, start, M, N, b, order, CellOf(a, w1, w2, M, K, N, fuse, sigmoid))
    ensures c == Cells(a, w1, w2, M, K, N, fuse, sigmoid)
  {
    var all := Cells(a, w1, w2, M, K, N, fuse, sigmoid);
    forall x | 0 <= x < M * N ensures c[x] == all[x] {
      AtOfAddress(x, M, N);
      FilledAddress(c, start, x, M, N, b, order, CellOf(a, w1, w2, M, K, N, fuse, sigmoid));
    }
  }

  lemma FilledAddress(c: seq<real>, start: seq<real>, x: nat, M: nat, N: nat, b: Blocks, order: seq<nat>,
                      value: (nat, nat) -> real)
    requires ValidBlocks(b) && CoversGrid(order, GridSize(M, N, b)) && x < M * N
    requires TilesFilled(c, start, M, N, b, order, value)
    ensures N > 0 && x < |c| && c[x] == value(x / N, x % N)
  {
    AtOfAddress(x, M, N);
    ElementIsWritten(x / N, x % N, M, N, b, order);
    FilledElement(c, start, x / N, x % N, M, N, b, order, value);
  }

  lemma FilledElement(c: seq<real>, start: seq<real>, row: nat, col: nat, M: nat, N: nat, b: Blocks, order: seq<nat>,
                      value: (nat, nat) -> real)
    requires ValidBlocks(b) && forall i :: 0 <= i < |order| ==> order[i] < GridSize(M, N, b)
    requires TilesFilled(c, start, M, N, b, order, value) && row < M && col < N
    requires WrittenBy(order, row, col, M, N, b)
    ensures At(row, col, N) < |c| && c[At(row, col, N)] == value(row, col)
  {
  }

  lemma SomeProgramWrites(row: nat, col: nat, M: nat, N: nat, b: Blocks) returns (owner: nat)
    requires ValidBlocks(b) && row < M && col < N
    ensures owner < GridSize(M, N, b) && InTile(owner, row, col, M, N, b)
  {
    var m, n := row / b.m, col / b.n;
    CdivCovers(M, b.m, row);
    CdivCovers(N, b.n, col);
    owner := OwnerOfTile(m, n, Cdiv(M, b.m), Cdiv(N, b.n), b.group);
  }

  lemma OwnerOfTile(m: nat, n: nat, tilesM: nat, tilesN: nat, group: nat) returns (owner: nat)
    requires group > 0 && m < tilesM && n < tilesN
    ensures owner < tilesM * tilesN && TileOf(owner, tilesM, tilesN, group) == (m, n)
  {
    TileOfPid(m, n, tilesM, tilesN, group);
    owner := PidOf(m, n, tilesM, tilesN, group);
  }

  lemma IndexOf(order: seq<nat>, pid: nat) returns (i: nat)
    requires pid in order
    ensures i < |order| && order[i] == pid
  {
    i :| 0 <= i < |order| && order[i] == pid;
  }

  lemma ElementIsWritten(row: nat, col: nat, M: nat, N: nat, b: Blocks, order: seq<nat>)
    requires ValidBlocks(b) && CoversGrid(order, GridSize(M, N, b)) && row < M && col < N
    ensures WrittenBy(order, row, col, M, N, b)
  {
    var owner := SomeProgramWrites(row, col, M, N, b);
    var i := IndexOf(order, owner);
    assert InTile(order[i], row, col, M, N, b);
  }

  // ---------------------------------------------------------------------
  // The reference
  // ---------------------------------------------------------------------

  /** silu(gate) * up, element by element. */
  function Swiglu(gate: seq<real>, up: seq<real>, sigmoid: real -> real): (h: seq<real>)
    requires |gate| == |up|
    ensures |h| == |gate| && forall x :: 0 <= x < |h| ==> h[x] == gate[x] * sigmoid(gate[x]) * up[x]
  {
    seq(|gate|, x requires 0 <= x < |gate| => gate[x] * sigmoid(gate[x]) * up[x])
  }

  lemma FusedCellsAreSwiglu(x: seq<real>, w1: seq<real>, w2: seq<real>, M: nat, K: nat, N: nat, sigmoid: real -> real)
    requires IsMatrix(x, M, K) && IsMatrix(w1, K, N) && IsMatrix(w2, K, N)
    ensures Cells(x, w1, w2, M, K, N, true, sigmoid)
         == Swiglu(MatMul(x, w1, M, K, N), MatMul(x, w2, M, K, N), sigmoid)
  {
    var fused := Cells(x, w1, w2, M, K, N, true, sigmoid);
    var eager := Swiglu(MatMul(x, w1, M, K, N), MatMul(x, w2, M, K, N), sigmoid);
    forall i | 0 <= i < M * N ensures fused[i] == eager[i] {
      AtOfAddress(i, M, N);
    }
  }

  lemma PlainCellsAreMatMul(a: seq<real>, w: seq<real>, unused: seq<real>, M: nat, K: nat, N: nat, sigmoid: real -> real)
    requires IsMatrix(a, M, K) && IsMatrix(w, K, N)
    ensures Cells(a, w, unused, M, K, N, false, sigmoid) == MatMul(a, w, M, K, N)
  {
    var plain, product := Cells(a, w, unused, M, K, N, false, sigmoid), MatMul(a, w, M, K, N);
    forall i | 0 <= i < M * N ensures plain[i] == product[i] {
      AtOfAddress(i, M, N);
    }
  }

  // ---------------------------------------------------------------------
  // One launch
  // ---------------------------------------------------------------------

  /** Every program of the grid, in any order: the whole output, whatever it held. */
  method Launch(
      a: array<real>, w1: array<real>, w2: array<real>, out: array<real>,
      M: nat, K: nat, N: nat, fuse: bool, sigmoid: real -> real, b: Blocks, order: seq<nat>)
    requires ValidBlocks(b) && CoversGrid(order, GridSize(M, N, b))
    requires a.Length == M * K && w1.Length == K * N && (fuse ==> w2.Length == K * N) && out.Length == M * N
    requires out != a && out != w1 && out != w2
    modifies out
    ensures fuse ==> out[..] == Swiglu(MatMul(a[..], w1[..], M, K, N), MatMul(a[..], w2[..], M, K, N), sigmoid)
    ensures !fuse ==> out[..] == MatMul(a[..], w1[..], M, K, N)
  {
    ghost var start, value := out[..], CellOf(a[..], w1[..], w2[..], M, K, N, fuse, sigmoid);
    assert TilesFilled(start, start, M, N, b, order[..0], value) by {
      forall row: nat, col: nat {:trigger At(row, col, N)} | row < M && col < N ensures At(row, col, N) < M * N {
        AtInBounds(row, col, M, N);
      }
    }
    for k := 0 to |order|
      invariant TilesFilled(out[..], start, M, N, b, order[..k], value)
    {
      ghost var before := out[..];
      MlpKernel(order[k], a, w1, w2, out, M, N, K, fuse, sigmoid, b);
      OneMoreTile(before, out[..], start, M, N, b, order, k, value);
    }
    assert order[..|order|] == order;
    AllTilesFilled(out[..], start, a[..], w1[..], w2[..], M, K, N, fuse, sigmoid, b, order);
    if fuse {
      FusedCellsAreSwiglu(a[..], w1[..], w2[..], M, K, N, sigmoid);
    } else {
      PlainCellsAreMatMul(a[..], w1[..], w2[..], M, K, N, sigmoid);
    }
  }

  // ---------------------------------------------------------------------
  // The MLP
  // ---------------------------------------------------------------------

  /** Two launches, each in its own order, give exactly the eager reference:
    * three matrix products with a swiglu between them. */
  method MlpSilu(
      x: array<real>, w1: array<real>, w2: array<real>, w3: array<real>,
      M: nat, K: nat, N: nat, D: nat, sigmoid: real -> real, b: Blocks, orderUp: seq<nat>, orderDown: seq<nat>)
    returns (out: array<real>)
    requires ValidBlocks(b) && CoversGrid(orderUp, GridSize(M, N, b)) && CoversGrid(orderDown, GridSize(M, D, b))
    requires x.Length == M * K && w1.Length == K * N && w2.Length == K * N && w3.Length == N * D
    ensures fresh(out)
    ensures out[..] == MatMul(Swiglu(MatMul(x[..], w1[..], M, K, N), MatMul(x[..], w2[..], M, K, N), sigmoid),
                              w3[..], M, N, D)
  {
    var up := new real[M * N];
    Launch(x, w1, w2, up, M, K, N, true, sigmoid, b, orderUp);
    out := new real[M * D];
    Launch(up, w3, w3, out, M, N, D, false, sigmoid, b, orderDown);
  }
}
