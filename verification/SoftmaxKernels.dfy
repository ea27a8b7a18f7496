/** The softmax kernels over row-major buffers, launched over their grids. */
module SoftmaxKernels {
  import opened Arithmetic
  import opened Softmax

  function RowOf(s: seq<real>, r: nat, width: nat): seq<real>
    requires (r + 1) * width <= |s|
  {
    s[r * width..(r + 1) * width]
  }

  lemma RowInBounds(r: nat, height: nat, width: nat)
    requires r < height
    ensures (r + 1) * width <= height * width && (r + 1) * width == r * width + width
  {
    MulMonotone(r + 1, height, width);
  }

  // ---------------------------------------------------------------------
  // Filling a buffer row by row
  // ---------------------------------------------------------------------

  /** `s` is `start` with columns `from .. to` of row `r` overwritten by `value`. */
  ghost predicate SegmentStored(s: seq<real>, start: seq<real>, height: nat, width: nat,
                                r: nat, from: nat, to: nat, value: (nat, nat) -> real)
  {
    && |s| == |start| == height * width
    && forall i: nat, j: nat {:trigger At(i, j, width)} :: i < height && j < width ==>
         && At(i, j, width) < height * width
         && s[At(i, j, width)] == if i == r && from <= j < to then value(i, j) else start[At(i, j, width)]
  }

  /** Rows before `r`, and row `r` up to column `c`, hold `value`. */
  ghost predicate Filled(s: seq<real>, height: nat, width: nat, r: nat, c: nat, value: (nat, nat) -> real) {
    && |s| == height * width
    && forall i: nat, j: nat {:trigger At(i, j, width)} ::
         i < height && j < width && (i < r || (i == r && j < c)) ==>
           At(i, j, width) < height * width && s[At(i, j, width)] == value(i, j)
  }

  lemma SegmentExtendsFill(s: seq<real>, start: seq<real>, height: nat, width: nat,
                           r: nat, from: nat, to: nat, value: (nat, nat) -> real)
    requires from <= to && Filled(start, height, width, r, from, value)
    requires SegmentStored(s, start, height, width, r, from, to, value)
    ensures Filled(s, height, width, r, to, value)
  {
  }

  lemma FillNextRow(s: seq<real>, height: nat, width: nat, r: nat, c: nat, value: (nat, nat) -> real)
    requires c >= width && Filled(s, height, width, r, c, value)
    ensures Filled(s, height, width, r + 1, 0, value)
  {
  }

  lemma NothingStored(s: seq<real>, height: nat, width: nat, r: nat, c: nat, value: (nat, nat) -> real)
    requires |s| == height * width
    ensures SegmentStored(s, s, height, width, r, c, c, value)
  {
    forall i: nat, j: nat {:trigger At(i, j, width)} | i < height && j < width ensures At(i, j, width) < height * width {
      AtInBounds(i, j, height, width);
    }
  }

  lemma StoreOne(s: seq<real>, s': seq<real>, start: seq<real>, height: nat, width: nat,
                 r: nat, from: nat, c: nat, value: (nat, nat) -> real)
    requires SegmentStored(s, start, height, width, r, from, c, value) && from <= c
    requires if r < height && c < width
             then At(r, c, width) < |s| && s' == s[At(r, c, width) := value(r, c)] else s' == s
    ensures SegmentStored(s', start, height, width, r, from, c + 1, value)
  {
    forall i: nat, j: nat {:trigger At(i, j, width)} | i < height && j < width
      ensures At(i, j, width) < height * width
      ensures s'[At(i, j, width)] == if i == r && from <= j < c + 1 then value(i, j) else start[At(i, j, width)]
    {
      AtRoundTrip(i, j, width);
      if c < width {
        AtRoundTrip(r, c, width);
      }
    }
  }

  // ---------------------------------------------------------------------
  // Kernels
  // ---------------------------------------------------------------------

  /** A masked row load: lane `j` reads column `base + j`, or minus infinity past the row. */
  method LoadLanes(inp: array<real>, r: nat, height: nat, width: nat, base: nat, count: nat) returns (lanes: seq<Ext>)
    requires inp.Length == height * width && r < height
    ensures (r + 1) * width <= inp.Length
    ensures lanes == Lanes(RowOf(inp[..], r, width), base, count)
  {
    RowInBounds(r, height, width);
    lanes := [];
    for j := 0 to count
      invariant |lanes| == j
      invariant forall k :: 0 <= k < j ==> lanes[k] == Lanes(RowOf(inp[..], r, width), base, count)[k]
    {
      if base + j < width {
        lanes := lanes + [Fin(inp[r * width + (base + j)])];
      } else {
        lanes := lanes + [NegInf];
      }
    }
  }

  /** One program of the per-tile kernel. */
  method LogsumexpKernel(out: array<real>, inp: array<real>, M: nat, N: nat, tile: nat, pidN: nat, pidM: nat,
                         exp: RealFn, log: RealFn)
    requires tile > 0 && pidM < M && pidN < Cdiv(N, tile)
    requires inp.Length == M * N && out.Length == M * Cdiv(N, tile) && out != inp
    modifies out
    ensures (pidM + 1) * N <= inp.Length && At(pidM, pidN, Cdiv(N, tile)) < out.Length
    ensures out[..] == old(out[..])[At(pidM, pidN, Cdiv(N, tile)) :=
              TileLogs(exp, log, RowOf(inp[..], pidM, N), tile)[pidN]]
  {
    RowInBounds(pidM, M, N);
    var lanes := LoadLanes(inp, pidM, M, N, pidN * tile, tile);
    LaunchedTileIsLive(RowOf(inp[..], pidM, N), tile, pidN);
    AtInBounds(pidM, pidN, M, Cdiv(N, tile));
    out[At(pidM, pidN, Cdiv(N, tile))] := LogSumExp(exp, log, lanes);
  }

  /** One program of the combining kernel: a padded log-sum-exp of a row of logs. */
  method CombineLogsumexpKernel(out: array<real>, inp: array<real>, M: nat, N: nat, lanes: nat, pidM: nat,
                                exp: RealFn, log: RealFn)
    requires pidM < M && 0 < N <= lanes && inp.Length == M * N && out.Length == M && out != inp
    modifies out
    ensures (pidM + 1) * N <= inp.Length && MaxLane(Lanes(RowOf(inp[..], pidM, N), 0, lanes)).Fin?
    ensures out[..] == old(out[..])[pidM := LogSumExp(exp, log, Lanes(RowOf(inp[..], pidM, N), 0, lanes))]
  {
    var loaded := LoadLanes(inp, pidM, M, N, 0, lanes);
    TileIsLive(RowOf(inp[..], pidM, N), 0, lanes);
    MaxIsAttained(loaded);
    out[pidM] := LogSumExp(exp, log, loaded);
  }

  /** What the normalising kernel stores at an element. */
  ghost function Normalised(inp: seq<real>, logz: seq<real>, N: nat, exp: RealFn): (nat, nat) -> real {
    (i: nat, j: nat) =>
      if At(i, j, N) < |inp| && i < |logz| then exp(inp[At(i, j, N)] - logz[i]) else 0.0
  }

  /** One program of the normalising kernel: its tile's live lanes and nothing else. */
  method SoftmaxSplitKernel(out: array<real>, inp: array<real>, logz: array<real>, M: nat, N: nat, tile: nat,
                            pidN: nat, pidM: nat, exp: RealFn)
    requires pidM < M && inp.Length == M * N && out.Length == M * N && logz.Length == M
    requires out != inp && out != logz
    modifies out
    ensures SegmentStored(out[..], old(out[..]), M, N, pidM, pidN * tile, pidN * tile + tile,
                          Normalised(inp[..], logz[..], N, exp))
  {
    ghost var start, value := out[..], Normalised(inp[..], logz[..], N, exp);
    NothingStored(start, M, N, pidM, pidN * tile, value);
    for j := 0 to tile
      invariant SegmentStored(out[..], start, M, N, pidM, pidN * tile, pidN * tile + j, value)
    {
      ghost var before := out[..];
      var n := pidN * tile + j;
      if n < N {
        AtInBounds(pidM, n, M, N);
        out[At(pidM, n, N)] := exp(inp[At(pidM, n, N)] - logz[pidM]);
      }
      StoreOne(before, out[..], start, M, N, pidM, pidN * tile, n, value);
    }
  }

  // ---------------------------------------------------------------------
  // The split launch
  // ---------------------------------------------------------------------

  predicate IsPowerOf2(p: nat) {
    p == 1 || (p > 0 && p % 2 == 0 && IsPowerOf2(p / 2))
  }

  /** The least power of two that is at least `n`. */
  function NextPowerOf2(n: nat): (p: nat)
    ensures p >= n && p > 0 && IsPowerOf2(p)
    ensures p == 1 || p < 2 * n
  {
    if n <= 1 then 1 else 2 * NextPowerOf2((n + 1) / 2)
  }

  ghost function RowLog(x: seq<real>, N: nat, tile: nat, exp: RealFn, log: RealFn): (nat, nat) -> real
    requires tile > 0
  {
    (m: nat, t: nat) =>
      if (m + 1) * N <= |x| && t < Cdiv(N, tile) then TileLogs(exp, log, RowOf(x, m, N), tile)[t] else 0.0
  }

  /** The first launch: every tile of every row. */
  method LaunchLogsumexp(logz: array<real>, x: array<real>, M: nat, N: nat, tile: nat, exp: RealFn, log: RealFn)
    requires tile > 0 && x.Length == M * N && logz.Length == M * Cdiv(N, tile) && logz != x
    modifies logz
    ensures Filled(logz[..], M, Cdiv(N, tile), M, 0, RowLog(x[..], N, tile, exp, log))
  {
    var tiles := Cdiv(N, tile);
    ghost var value := RowLog(x[..], N, tile, exp, log);
    for m := 0 to M
      invariant Filled(logz[..], M, tiles, m, 0, value)
    {
      for t := 0 to tiles
        invariant Filled(logz[..], M, tiles, m, t, value)
      {
        ghost var before := logz[..];
        LogsumexpKernel(logz, x, M, N, tile, t, m, exp, log);
        NothingStored(before, M, tiles, m, t, value);
        StoreOne(before, logz[..], before, M, tiles, m, t, t, value);
        SegmentExtendsFill(logz[..], before, M, tiles, m, t, t + 1, value);
      }
      FillNextRow(logz[..], M, tiles, m, tiles, value);
    }
  }

  lemma RowOfFilled(s: seq<real>, height: nat, width: nat, r: nat, value: (nat, nat) -> real, row: seq<real>)
    requires Filled(s, height, width, height, 0, value) && r < height
    requires |row| == width && forall j: nat :: j < width ==> row[j] == value(r, j)
    ensures (r + 1) * width <= |s| && RowOf(s, r, width) == row
  {
    RowInBounds(r, height, width);
    forall j: nat | j < width ensures RowOf(s, r, width)[j] == row[j] {
      assert s[At(r, j, width)] == value(r, j);
    }
  }

  ghost function CombinedRow(x: seq<real>, m: nat, N: nat, tile: nat, lanes: nat, exp: RealFn, log: RealFn): real
    requires tile > 0 && N > 0 && lanes > 0
  {
    if (m + 1) * N <= |x| then RowLength(x, m, N); CombinedLog(exp, log, RowOf(x, m, N), tile, lanes) else 0.0
  }

  lemma RowLength(s: seq<real>, r: nat, width: nat)
    requires (r + 1) * width <= |s|
    ensures |RowOf(s, r, width)| == width
  {
    assert (r + 1) * width == r * width + width;
  }

  /** From the filled buffer of tile logs, the padded row gives the combined log. */
  lemma CombineRow(logz: seq<real>, x: seq<real>, m: nat, M: nat, N: nat, tile: nat, lanes: nat, exp: RealFn, log: RealFn)
    requires tile > 0 && N > 0 && lanes > 0 && |x| == M * N && m < M
    requires Filled(logz, M, Cdiv(N, tile), M, 0, RowLog(x, N, tile, exp, log))
    ensures (m + 1) * Cdiv(N, tile) <= |logz| && MaxLane(Lanes(RowOf(logz, m, Cdiv(N, tile)), 0, lanes)).Fin?
    ensures LogSumExp(exp, log, Lanes(RowOf(logz, m, Cdiv(N, tile)), 0, lanes))
         == CombinedRow(x, m, N, tile, lanes, exp, log)
  {
    RowInBounds(m, M, N);
    RowLength(x, m, N);
    var logs := TileLogs(exp, log, RowOf(x, m, N), tile);
    RowOfFilled(logz, M, Cdiv(N, tile), m, RowLog(x, N, tile, exp, log), logs);
    CdivCovers(N, tile, 0);
    TileIsLive(logs, 0, lanes);
    MaxIsAttained(Lanes(logs, 0, lanes));
  }

  /** The second launch: one combination per row. */
  method LaunchCombine(combined: array<real>, logz: array<real>, M: nat, N: nat, tile: nat,
                       lanes: nat, exp: RealFn, log: RealFn, ghost x: seq<real>)
    requires tile > 0 && N > 0 && 0 < Cdiv(N, tile) <= lanes && |x| == M * N
    requires logz.Length == M * Cdiv(N, tile) && combined.Length == M && combined != logz
    requires Filled(logz[..], M, Cdiv(N, tile), M, 0, RowLog(x, N, tile, exp, log))
    modifies combined
    ensures forall m :: 0 <= m < M ==> combined[m] == CombinedRow(x, m, N, tile, lanes, exp, log)
  {
    ghost var logs := logz[..];
    for m := 0 to M
      invariant logz[..] == logs
      invariant forall k :: 0 <= k < m ==> combined[k] == CombinedRow(x, k, N, tile, lanes, exp, log)
    {
      CombineLogsumexpKernel(combined, logz, M, Cdiv(N, tile), lanes, m, exp, log);
      CombineRow(logs, x, m, M, N, tile, lanes, exp, log);
    }
  }

  /** The third launch: every tile of every row, normalised. */
  method LaunchNormalise(out: array<real>, x: array<real>, combined: array<real>, M: nat, N: nat, tile: nat, exp: RealFn)
    requires tile > 0 && x.Length == M * N && out.Length == M * N && combined.Length == M
    requires out != x && out != combined
    modifies out
    ensures Filled(out[..], M, N, M, 0, Normalised(x[..], combined[..], N, exp))
  {
    var tiles := Cdiv(N, tile);
    ghost var value := Normalised(x[..], combined[..], N, exp);
    CdivEnds(N, tile);
    for m := 0 to M
      invariant Filled(out[..], M, N, m, 0, value)
    {
      for t := 0 to tiles
        invariant Filled(out[..], M, N, m, t * tile, value)
      {
        ghost var before := out[..];
        SoftmaxSplitKernel(out, x, combined, M, N, tile, t, m, exp);
        SegmentExtendsFill(out[..], before, M, N, m, t * tile, t * tile + tile, value);
        assert (t + 1) * tile == t * tile + tile;
      }
      FillNextRow(out[..], M, N, m, tiles * tile, value);
    }
  }

  /** The reference at every element of the buffer. */
  ghost function RowSoftmax(x: seq<real>, M: nat, N: nat, exp: RealFn, log: RealFn): (nat, nat) -> real
    requires ExpLaws(exp, log)
  {
    (m: nat, n: nat) =>
      if m < M && n < N && (m + 1) * N <= |x| && |RowOf(x, m, N)| == N
      then NaiveSoftmax(exp, log, RowOf(x, m, N))[n] else 0.0
  }

  /** A normalised element is the plain softmax of its row. */
  lemma NormalisedIsSoftmax(x: seq<real>, logz: seq<real>, M: nat, N: nat, tile: nat, lanes: nat, m: nat, n: nat,
                            exp: RealFn, log: RealFn)
    requires ExpLaws(exp, log) && tile > 0 && N > 0 && Cdiv(N, tile) <= lanes && 0 < lanes
    requires |x| == M * N && |logz| == M && m < M && n < N
    requires logz[m] == CombinedRow(x, m, N, tile, lanes, exp, log)
    ensures (m + 1) * N <= |x| && |RowOf(x, m, N)| == N
    ensures Normalised(x, logz, N, exp)(m, n) == NaiveSoftmax(exp, log, RowOf(x, m, N))[n]
  {
    RowInBounds(m, M, N);
    RowLength(x, m, N);
    AtInBounds(m, n, M, N);
    SplitIsSoftmax(exp, log, RowOf(x, m, N), tile, lanes, n);
    assert RowOf(x, m, N)[n] == x[At(m, n, N)];
  }

  /** Row by row, `out` is the reference softmax of `x`. */
  ghost predicate IsRowSoftmax(out: seq<real>, x: seq<real>, M: nat, N: nat, exp: RealFn, log: RealFn)
    requires ExpLaws(exp, log) && N > 0
  {
    && |out| == |x| == M * N
    && forall m: nat, n: nat {:trigger At(m, n, N)} :: m < M && n < N ==>
         && At(m, n, N) < |out| && m * N + N <= |x|
         && out[m * N + n] == NaiveSoftmax(exp, log, x[m * N..m * N + N])[n]
  }

  lemma FilledIsRowSoftmax(out: seq<real>, x: seq<real>, M: nat, N: nat, exp: RealFn, log: RealFn)
    requires ExpLaws(exp, log) && N > 0 && |x| == M * N
    requires Filled(out, M, N, M, 0, RowSoftmax(x, M, N, exp, log))
    ensures IsRowSoftmax(out, x, M, N, exp, log)
  {
    forall m: nat, n: nat {:trigger At(m, n, N)} | m < M && n < N
      ensures At(m, n, N) < |out| && m * N + N <= |x|
      ensures out[m * N + n] == NaiveSoftmax(exp, log, x[m * N..m * N + N])[n]
    {
      RowInBounds(m, M, N);
      RowLength(x, m, N);
      assert RowOf(x, m, N) == x[m * N..m * N + N];
    }
  }

  /** The tiled softmax: three launches, every element the plain softmax of its row. */
  method SoftmaxSplit(x: array<real>, M: nat, N: nat, exp: RealFn, log: RealFn) returns (out: array<real>)
    requires ExpLaws(exp, log) && N > 0 && x.Length == M * N
    ensures fresh(out)
    ensures IsRowSoftmax(out[..], x[..], M, N, exp, log)
  {
    var tile := Min(4096, NextPowerOf2(N));
    var tiles := Cdiv(N, tile);
    CdivCovers(N, tile, 0);
    var logz := new real[M * tiles];
    LaunchLogsumexp(logz, x, M, N, tile, exp, log);
    var combined := new real[M];
    var lanes := NextPowerOf2(tiles);
    LaunchCombine(combined, logz, M, N, tile, lanes, exp, log, x[..]);
    out := new real[M * N];
    LaunchNormalise(out, x, combined, M, N, tile, exp);
    AllNormalisedAreSoftmax(out[..], x[..], combined[..], M, N, tile, lanes, exp, log);
    FilledIsRowSoftmax(out[..], x[..], M, N, exp, log);
  }

  lemma AllNormalisedAreSoftmax(out: seq<real>, x: seq<real>, logz: seq<real>, M: nat, N: nat, tile: nat, lanes: nat,
                                exp: RealFn, log: RealFn)
    requires ExpLaws(exp, log) && tile > 0 && N > 0 && Cdiv(N, tile) <= lanes && 0 < lanes
    requires |x| == M * N && |logz| == M
    requires forall m :: 0 <= m < M ==> logz[m] == CombinedRow(x, m, N, tile, lanes, exp, log)
    requires Filled(out, M, N, M, 0, Normalised(x, logz, N, exp))
    ensures Filled(out, M, N, M, 0, RowSoftmax(x, M, N, exp, log))
  {
    forall m: nat, n: nat {:trigger At(m, n, N)} | m < M && n < N
      ensures Normalised(x, logz, N, exp)(m, n) == RowSoftmax(x, M, N, exp, log)(m, n)
    {
      NormalisedIsSoftmax(x, logz, M, N, tile, lanes, m, n, exp, log);
    }
  }

  // ---------------------------------------------------------------------
  // The one-pass kernel
  // ---------------------------------------------------------------------

  /** The value a one-pass lane stores is the plain softmax of its row. */
  lemma OnePassValue(x: seq<real>, M: nat, N: nat, block: nat, row: nat, j: nat, exp: RealFn, log: RealFn)
    requires ExpLaws(exp, log) && row < M && j < N <= block && |x| == M * N
    ensures (row + 1) * N <= |x|
    ensures var lanes := Lanes(RowOf(x, row, N), 0, block);
      && MaxLane(lanes).Fin? && SumExp(exp, lanes, MaxLane(lanes).value) > 0.0
      && RowSoftmax(x, M, N, exp, log)(row, j)
         == ExtExp(exp, Shift(lanes[j], MaxLane(lanes).value)) / SumExp(exp, lanes, MaxLane(lanes).value)
  {
    RowInBounds(row, M, N);
    RowLength(x, row, N);
    OnePassIsSoftmax(exp, log, RowOf(x, row, N), block, j);
  }

  /** One program per row, lanes padded to a power of two. */
  method SoftmaxKernelFwd(out: array<real>, x: array<real>, M: nat, N: nat, block: nat, row: nat, exp: RealFn, ghost log: RealFn)
    requires ExpLaws(exp, log) && row < M && 0 < N <= block && x.Length == M * N && out.Length == M * N && out != x
    modifies out
    ensures SegmentStored(out[..], old(out[..]), M, N, row, 0, block, RowSoftmax(x[..], M, N, exp, log))
  {
    var lanes := LoadLanes(x, row, M, N, 0, block);
    OnePassValue(x[..], M, N, block, row, 0, exp, log);
    var m := MaxLane(lanes).value;
    var total := SumExp(exp, lanes, m);
    ghost var start, value := out[..], RowSoftmax(x[..], M, N, exp, log);
    ghost var inp := x[..];
    NothingStored(start, M, N, row, 0, value);
    for j := 0 to block
      invariant x[..] == inp && SegmentStored(out[..], start, M, N, row, 0, j, value)
    {
      ghost var before := out[..];
      StoreLane(out, M, N, row, j, ExtExp(exp, Shift(lanes[j], m)) / total);
      if j < N {
        OnePassValue(inp, M, N, block, row, j, exp, log);
      }
      StoreOne(before, out[..], start, M, N, row, 0, j, value);
    }
  }

  /** One lane's masked store. */
  method StoreLane(out: array<real>, M: nat, N: nat, row: nat, col: nat, v: real)
    requires out.Length == M * N && row < M
    modifies out
    ensures if col < N then At(row, col, N) < out.Length && out[..] == old(out[..])[At(row, col, N) := v]
            else out[..] == old(out[..])
  {
    if col < N {
      AtInBounds(row, col, M, N);
      out[At(row, col, N)] := v;
    }
  }

  method SoftmaxNativeFwd(x: array<real>, M: nat, N: nat, exp: RealFn, ghost log: RealFn) returns (out: array<real>)
    requires ExpLaws(exp, log) && N > 0 && x.Length == M * N
    ensures fresh(out)
    ensures IsRowSoftmax(out[..], x[..], M, N, exp, log)
  {
    out := new real[M * N];
    ghost var value := RowSoftmax(x[..], M, N, exp, log);
    var block := NextPowerOf2(N);
    for row := 0 to M
      invariant Filled(out[..], M, N, row, 0, value)
    {
      ghost var before := out[..];
      SoftmaxKernelFwd(out, x, M, N, block, row, exp, log);
      SegmentExtendsFill(out[..], before, M, N, row, 0, block, value);
      FillNextRow(out[..], M, N, row, block, value);
    }
    FilledIsRowSoftmax(out[..], x[..], M, N, exp, log);
  }
}
