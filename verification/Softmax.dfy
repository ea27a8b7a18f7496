/** Row-wise softmax over the reals: the one-pass kernel and the split one (a
  * log-sum-exp per tile, combined per row, then normalised) against the plain form.
  */
module Softmax {
  import opened Arithmetic
  import opened Common

  // ---------------------------------------------------------------------
  // What is assumed of exp and log
  // ---------------------------------------------------------------------

  type RealFn = real -> real

  predicate PositiveAt(exp: RealFn, x: real) {
    exp(x) > 0.0
  }

  predicate AddsAt(exp: RealFn, x: real, y: real) {
    exp(x + y) == exp(x) * exp(y)
  }

  predicate MonotoneAt(exp: RealFn, x: real, y: real) {
    x <= y ==> exp(x) <= exp(y)
  }

  predicate InvertsAt(exp: RealFn, log: RealFn, y: real) {
    y > 0.0 ==> exp(log(y)) == y
  }

  ghost predicate ExpLaws(exp: RealFn, log: RealFn) {
    && (forall x :: PositiveAt(exp, x))
    && (forall x, y :: AddsAt(exp, x, y))
    && (forall x, y :: MonotoneAt(exp, x, y))
    && (forall y :: InvertsAt(exp, log, y))
  }

  lemma ExpZero(exp: RealFn, log: RealFn)
    requires ExpLaws(exp, log)
    ensures exp(0.0) == 1.0
  {
    SquareOfExpZero(exp);
    assert PositiveAt(exp, 0.0);
    OnlyUnit(exp(0.0));
  }

  lemma SquareOfExpZero(exp: RealFn)
    requires AddsAt(exp, 0.0, 0.0)
    ensures exp(0.0) == exp(0.0) * exp(0.0)
  {
  }

  /** `exp(x - m) * exp(m)` is `exp(x)`, and all three are positive. */
  lemma ExpShift(exp: RealFn, log: RealFn, x: real, m: real)
    requires ExpLaws(exp, log)
    ensures exp(x - m) * exp(m) == exp(x)
    ensures exp(x - m) > 0.0 && exp(m) > 0.0 && exp(x) > 0.0
  {
    assert AddsAt(exp, x - m, m) && PositiveAt(exp, x - m) && PositiveAt(exp, m);
    assert x - m + m == x && PositiveAt(exp, x);
  }

  lemma ExpAtMostOne(exp: RealFn, log: RealFn, x: real)
    requires ExpLaws(exp, log) && x <= 0.0
    ensures 0.0 < exp(x) <= 1.0
  {
    ExpZero(exp, log);
    assert MonotoneAt(exp, x, 0.0) && PositiveAt(exp, x);
  }

  lemma ExpOfSum(exp: RealFn, log: RealFn, m: real, z: real)
    requires ExpLaws(exp, log) && z > 0.0
    ensures exp(m + log(z)) == z * exp(m) && exp(m) > 0.0
  {
    assert AddsAt(exp, m, log(z)) && InvertsAt(exp, log, z) && PositiveAt(exp, m);
  }

  lemma OnlyUnit(x: real)
    requires x > 0.0 && x == x * x
    ensures x == 1.0
  {
    assert x * (x - 1.0) == 0.0;
  }

  lemma Distribute(x: real, y: real, c: real)
    ensures (x + y) * c == x * c + y * c
  {
  }

  /** Scaling numerator and denominator alike leaves a quotient alone. */
  lemma RatioUnscales(a: real, s: real, c: real, ac: real, sc: real)
    requires s > 0.0 && c > 0.0 && a * c == ac && s * c == sc
    ensures sc > 0.0 && a / s == ac / sc
  {
    var q := a / s;
    assert q * s == a;
    assert q * sc == ac by { MulAssociatesReal(q, s, c); }
  }

  lemma MulAssociatesReal(x: real, y: real, z: real)
    ensures (x * y) * z == x * (y * z)
  {
  }

  // ---------------------------------------------------------------------
  // Lanes: what a kernel loads, padding included
  // ---------------------------------------------------------------------

  /** A loaded value; off-mask lanes load minus infinity. */
  datatype Ext = NegInf | Fin(value: real)

  function ExtMax(x: Ext, y: Ext): Ext {
    if x.NegInf? then y else if y.NegInf? then x else if x.value > y.value then x else y
  }

  function ExtExp(exp: RealFn, x: Ext): real {
    if x.NegInf? then 0.0 else exp(x.value)
  }

  /** `x - m` for a finite `m`. */
  function Shift(x: Ext, m: real): Ext {
    if x.NegInf? then NegInf else Fin(x.value - m)
  }

  function MaxLane(lanes: seq<Ext>): Ext {
    if lanes == [] then NegInf else ExtMax(MaxLane(Front(lanes)), Last(lanes))
  }

  function SumExp(exp: RealFn, lanes: seq<Ext>, m: real): real {
    if lanes == [] then 0.0 else SumExp(exp, Front(lanes), m) + ExtExp(exp, Shift(Last(lanes), m))
  }

  function LiveCount(lanes: seq<Ext>): nat {
    if lanes == [] then 0 else LiveCount(Front(lanes)) + (if Last(lanes).Fin? then 1 else 0)
  }

  /** The lanes `base .. base + count` of a row, masked by its length. */
  function Lanes(row: seq<real>, base: nat, count: nat): seq<Ext> {
    seq(count, j requires 0 <= j < count => if base + j < |row| then Fin(row[base + j]) else NegInf)
  }

  /** The sum of exponentials the kernels are really after. */
  function ExpTotal(exp: RealFn, lanes: seq<Ext>): real {
    if lanes == [] then 0.0 else ExpTotal(exp, Front(lanes)) + ExtExp(exp, Last(lanes))
  }

  lemma {:induction false} MaxIsAttained(lanes: seq<Ext>)
    ensures MaxLane(lanes).Fin? <==> LiveCount(lanes) > 0
    ensures MaxLane(lanes).Fin? ==> MaxLane(lanes) in lanes
    ensures forall x :: x in lanes && x.Fin? ==> MaxLane(lanes).Fin? && x.value <= MaxLane(lanes).value
  {
    if lanes != [] {
      MaxIsAttained(Front(lanes));
      assert lanes == Front(lanes) + [Last(lanes)];
    }
  }

  lemma {:induction false} ShiftedSumBounds(exp: RealFn, log: RealFn, lanes: seq<Ext>, m: real)
    requires ExpLaws(exp, log) && forall x :: x in lanes && x.Fin? ==> x.value <= m
    ensures 0.0 <= SumExp(exp, lanes, m) <= LiveCount(lanes) as real
    ensures Fin(m) in lanes ==> SumExp(exp, lanes, m) >= 1.0
  {
    if lanes != [] {
      ShiftedSumBounds(exp, log, Front(lanes), m);
      assert lanes == Front(lanes) + [Last(lanes)];
      assert Last(lanes) in lanes;
      if Last(lanes).Fin? {
        ExpAtMostOne(exp, log, Last(lanes).value - m);
        ExpZero(exp, log);
      }
    }
  }

  /** With one live lane the max-shifted sum is between one and the live count: the
    * division and the logarithm that follow are safe, padding or no padding. */
  lemma MaxShiftedSumIsSafe(exp: RealFn, log: RealFn, lanes: seq<Ext>)
    requires ExpLaws(exp, log) && LiveCount(lanes) > 0
    ensures MaxLane(lanes).Fin?
    ensures 1.0 <= SumExp(exp, lanes, MaxLane(lanes).value) <= LiveCount(lanes) as real
  {
    MaxIsAttained(lanes);
    assert Fin(MaxLane(lanes).value) == MaxLane(lanes);
    ShiftedSumBounds(exp, log, lanes, MaxLane(lanes).value);
  }

  lemma {:induction false} ShiftFactorsOut(exp: RealFn, log: RealFn, lanes: seq<Ext>, m: real)
    requires ExpLaws(exp, log)
    ensures SumExp(exp, lanes, m) * exp(m) == ExpTotal(exp, lanes)
  {
    if lanes != [] {
      ShiftFactorsOut(exp, log, Front(lanes), m);
      Distribute(SumExp(exp, Front(lanes), m), ExtExp(exp, Shift(Last(lanes), m)), exp(m));
      if Last(lanes).Fin? {
        ExpShift(exp, log, Last(lanes).value, m);
      }
    }
  }

  /** One tile's log-sum-exp, as the kernel computes it. */
  function LogSumExp(exp: RealFn, log: RealFn, lanes: seq<Ext>): real
    requires MaxLane(lanes).Fin?
  {
    var m := MaxLane(lanes).value;
    m + log(SumExp(exp, lanes, m))
  }

  lemma LogSumExpIsLogOfTotal(exp: RealFn, log: RealFn, lanes: seq<Ext>)
    requires ExpLaws(exp, log) && LiveCount(lanes) > 0
    ensures MaxLane(lanes).Fin? && exp(LogSumExp(exp, log, lanes)) == ExpTotal(exp, lanes) > 0.0
  {
    MaxShiftedSumIsSafe(exp, log, lanes);
    var m := MaxLane(lanes).value;
    var z := SumExp(exp, lanes, m);
    ShiftFactorsOut(exp, log, lanes, m);
    ExpOfSum(exp, log, m, z);
    PositiveProductReal(z, exp(m));
  }

  lemma PositiveProductReal(x: real, y: real)
    requires x > 0.0 && y > 0.0
    ensures x * y > 0.0
  {
  }

  // ---------------------------------------------------------------------
  // Tiles of a row
  // ---------------------------------------------------------------------

  /** The first `k` exponentials of a row. */
  function RowTotal(exp: RealFn, row: seq<real>, k: nat): real
    requires k <= |row|
  {
    if k == 0 then 0.0 else RowTotal(exp, row, k - 1) + exp(row[k - 1])
  }

  lemma {:induction false} TileExtendsRow(exp: RealFn, row: seq<real>, base: nat, count: nat)
    ensures RowTotal(exp, row, Min(base, |row|)) + ExpTotal(exp, Lanes(row, base, count))
         == RowTotal(exp, row, Min(base + count, |row|))
  {
    if count > 0 {
      TileExtendsRow(exp, row, base, count - 1);
      assert Front(Lanes(row, base, count)) == Lanes(row, base, count - 1);
    }
  }

  lemma {:induction false} TileIsLive(row: seq<real>, base: nat, count: nat)
    requires base < |row| && count > 0
    ensures LiveCount(Lanes(row, base, count)) > 0
  {
    assert Front(Lanes(row, base, count)) == Lanes(row, base, count - 1);
    if count > 1 {
      TileIsLive(row, base, count - 1);
    }
  }

  /** Tile `t` of a launch over `|row|` columns has a live lane. */
  lemma LaunchedTileIsLive(row: seq<real>, tile: nat, t: nat)
    requires tile > 0 && t < Cdiv(|row|, tile)
    ensures LiveCount(Lanes(row, t * tile, tile)) > 0 && MaxLane(Lanes(row, t * tile, tile)).Fin?
  {
    CdivStartsInside(|row|, tile, t);
    TileIsLive(row, t * tile, tile);
    MaxIsAttained(Lanes(row, t * tile, tile));
  }

  /** The per-tile log-sum-exps of a row. */
  function TileLogs(exp: RealFn, log: RealFn, row: seq<real>, tile: nat): seq<real>
    requires tile > 0
  {
    seq(Cdiv(|row|, tile), t requires 0 <= t < Cdiv(|row|, tile) =>
      LaunchedTileIsLive(row, tile, t);
      LogSumExp(exp, log, Lanes(row, t * tile, tile)))
  }

  /** Where tile `t` of a row starts; the end of the row past the last tile. */
  function Edge(row: seq<real>, tile: nat, t: nat): nat {
    Min(t * tile, |row|)
  }

  /** Tile `t`'s logarithm stands for the exponentials between its two edges. */
  predicate StandsForTile(exp: RealFn, row: seq<real>, logs: seq<real>, tile: nat, t: nat)
    requires t < |logs|
  {
    RowTotal(exp, row, Edge(row, tile, t)) + exp(logs[t]) == RowTotal(exp, row, Edge(row, tile, t + 1))
  }

  lemma TileLogStandsForTile(exp: RealFn, log: RealFn, row: seq<real>, tile: nat, t: nat)
    requires ExpLaws(exp, log) && tile > 0 && t < Cdiv(|row|, tile)
    ensures StandsForTile(exp, row, TileLogs(exp, log, row, tile), tile, t)
  {
    LaunchedTileIsLive(row, tile, t);
    LogSumExpIsLogOfTotal(exp, log, Lanes(row, t * tile, tile));
    TileExtendsRow(exp, row, t * tile, tile);
    assert t * tile + tile == (t + 1) * tile;
  }

  lemma {:induction false} TilesSumToRow(exp: RealFn, row: seq<real>, logs: seq<real>, tile: nat, k: nat)
    requires k <= |logs| && forall t :: 0 <= t < |logs| ==> StandsForTile(exp, row, logs, tile, t)
    ensures RowTotal(exp, logs, k) == RowTotal(exp, row, Edge(row, tile, k))
  {
    if k > 0 {
      TilesSumToRow(exp, row, logs, tile, k - 1);
      assert StandsForTile(exp, row, logs, tile, k - 1);
    }
  }

  lemma TileLogsTotal(exp: RealFn, log: RealFn, row: seq<real>, tile: nat)
    requires ExpLaws(exp, log) && tile > 0
    ensures var logs := TileLogs(exp, log, row, tile);
      RowTotal(exp, logs, |logs|) == RowTotal(exp, row, |row|)
  {
    var logs := TileLogs(exp, log, row, tile);
    forall t | 0 <= t < |logs| ensures StandsForTile(exp, row, logs, tile, t) {
      TileLogStandsForTile(exp, log, row, tile, t);
    }
    TilesSumToRow(exp, row, logs, tile, |logs|);
    CdivEnds(|row|, tile);
  }

  /** The combined log-sum-exp of a row: the tile logs through a padded second tile. */
  function CombinedLog(exp: RealFn, log: RealFn, row: seq<real>, tile: nat, lanes: nat): real
    requires tile > 0 && lanes > 0 && |row| > 0
  {
    CdivCovers(|row|, tile, 0);
    TileIsLive(TileLogs(exp, log, row, tile), 0, lanes);
    MaxIsAttained(Lanes(TileLogs(exp, log, row, tile), 0, lanes));
    LogSumExp(exp, log, Lanes(TileLogs(exp, log, row, tile), 0, lanes))
  }

  /** Log-sum-exp over padded lanes of a row's numbers gives the log of their total. */
  lemma PaddedLogIsLogOfTotal(exp: RealFn, log: RealFn, row: seq<real>, lanes: nat)
    requires ExpLaws(exp, log) && 0 < |row| <= lanes
    ensures MaxLane(Lanes(row, 0, lanes)).Fin?
    ensures exp(LogSumExp(exp, log, Lanes(row, 0, lanes))) == RowTotal(exp, row, |row|) > 0.0
  {
    TileIsLive(row, 0, lanes);
    LogSumExpIsLogOfTotal(exp, log, Lanes(row, 0, lanes));
    TileExtendsRow(exp, row, 0, lanes);
  }

  /** For every tiling, the combination is the logarithm of the whole row's total. */
  lemma CombinedLogIsLogOfRow(exp: RealFn, log: RealFn, row: seq<real>, tile: nat, lanes: nat)
    requires ExpLaws(exp, log) && tile > 0 && |row| > 0 && lanes >= Cdiv(|row|, tile)
    ensures lanes > 0
    ensures exp(CombinedLog(exp, log, row, tile, lanes)) == RowTotal(exp, row, |row|) > 0.0
  {
    CdivCovers(|row|, tile, 0);
    PaddedLogIsLogOfTotal(exp, log, TileLogs(exp, log, row, tile), lanes);
    TileLogsTotal(exp, log, row, tile);
  }

  // ---------------------------------------------------------------------
  // The plain softmax
  // ---------------------------------------------------------------------

  function RowMax(row: seq<real>): real
    requires row != []
  {
    if |row| == 1 then row[0]
    else if RowMax(Front(row)) > Last(row) then RowMax(Front(row)) else Last(row)
  }

  function ShiftedTotal(exp: RealFn, row: seq<real>, m: real, k: nat): real
    requires k <= |row|
  {
    if k == 0 then 0.0 else ShiftedTotal(exp, row, m, k - 1) + exp(row[k - 1] - m)
  }

  /** Every element's shifted exponential over their sum. */
  ghost function ShiftedSoftmax(exp: RealFn, log: RealFn, row: seq<real>, m: real): seq<real>
    requires ExpLaws(exp, log)
  {
    seq(|row|, i requires 0 <= i < |row| =>
      ShiftedTotalFactors(exp, log, row, m, |row|);
      exp(row[i] - m) / ShiftedTotal(exp, row, m, |row|))
  }

  /** The reference: shifted by the row maximum. */
  ghost function NaiveSoftmax(exp: RealFn, log: RealFn, row: seq<real>): seq<real>
    requires ExpLaws(exp, log) && row != []
  {
    ShiftedSoftmax(exp, log, row, RowMax(row))
  }

  lemma {:induction false} ShiftedTotalFactors(exp: RealFn, log: RealFn, row: seq<real>, m: real, k: nat)
    requires ExpLaws(exp, log) && k <= |row|
    ensures ShiftedTotal(exp, row, m, k) * exp(m) == RowTotal(exp, row, k)
    ensures k > 0 ==> ShiftedTotal(exp, row, m, k) > 0.0
  {
    if k > 0 {
      ShiftedTotalFactors(exp, log, row, m, k - 1);
      Distribute(ShiftedTotal(exp, row, m, k - 1), exp(row[k - 1] - m), exp(m));
      ExpShift(exp, log, row[k - 1], m);
    }
  }

  /** The shift cancels, whichever it is: softmax is `exp(x)` over the row's total. */
  lemma SoftmaxIgnoresTheShift(exp: RealFn, log: RealFn, row: seq<real>, m: real, i: nat)
    requires ExpLaws(exp, log) && i < |row|
    ensures RowTotal(exp, row, |row|) > 0.0
    ensures ShiftedSoftmax(exp, log, row, m)[i] == exp(row[i]) / RowTotal(exp, row, |row|)
  {
    var c := ScaledParts(exp, log, row, i, m);
    RatioUnscales(exp(row[i] - m), ShiftedTotal(exp, row, m, |row|), c, exp(row[i]), RowTotal(exp, row, |row|));
  }

  lemma NaiveIsExpOverTotal(exp: RealFn, log: RealFn, row: seq<real>, i: nat)
    requires ExpLaws(exp, log) && i < |row|
    ensures RowTotal(exp, row, |row|) > 0.0
    ensures NaiveSoftmax(exp, log, row)[i] == exp(row[i]) / RowTotal(exp, row, |row|)
  {
    SoftmaxIgnoresTheShift(exp, log, row, RowMax(row), i);
  }

  /** The factor by which a shift scales both the numerator and the denominator. */
  lemma ScaledParts(exp: RealFn, log: RealFn, row: seq<real>, i: nat, m: real) returns (c: real)
    requires ExpLaws(exp, log) && i < |row|
    ensures c > 0.0 && ShiftedTotal(exp, row, m, |row|) > 0.0
    ensures exp(row[i] - m) * c == exp(row[i])
    ensures ShiftedTotal(exp, row, m, |row|) * c == RowTotal(exp, row, |row|)
  {
    c := exp(m);
    ShiftedTotalFactors(exp, log, row, m, |row|);
    ExpShift(exp, log, row[i], m);
  }

  lemma QuotientOf(q: real, d: real, n: real)
    requires d > 0.0 && q * d == n
    ensures q == n / d
  {
  }

  /** The split form equals the plain one, element by element, for every tiling. */
  lemma SplitIsSoftmax(exp: RealFn, log: RealFn, row: seq<real>, tile: nat, lanes: nat, i: nat)
    requires ExpLaws(exp, log) && tile > 0 && i < |row| && lanes >= Cdiv(|row|, tile)
    ensures lanes > 0
    ensures exp(row[i] - CombinedLog(exp, log, row, tile, lanes)) == NaiveSoftmax(exp, log, row)[i]
  {
    CombinedLogIsLogOfRow(exp, log, row, tile, lanes);
    var l := CombinedLog(exp, log, row, tile, lanes);
    ExpShift(exp, log, row[i], l);
    NaiveIsExpOverTotal(exp, log, row, i);
    QuotientOf(exp(row[i] - l), exp(l), exp(row[i]));
  }

  /** The one-pass form over padded lanes equals the plain one. */
  lemma OnePassIsSoftmax(exp: RealFn, log: RealFn, row: seq<real>, lanes: nat, i: nat)
    requires ExpLaws(exp, log) && i < |row| <= lanes
    ensures MaxLane(Lanes(row, 0, lanes)).Fin?
    ensures var m := MaxLane(Lanes(row, 0, lanes)).value;
      && SumExp(exp, Lanes(row, 0, lanes), m) > 0.0
      && exp(row[i] - m) / SumExp(exp, Lanes(row, 0, lanes), m) == NaiveSoftmax(exp, log, row)[i]
  {
    TileIsLive(row, 0, lanes);
    MaxShiftedSumIsSafe(exp, log, Lanes(row, 0, lanes));
    var m := MaxLane(Lanes(row, 0, lanes)).value;
    ShiftFactorsOut(exp, log, Lanes(row, 0, lanes), m);
    TileExtendsRow(exp, row, 0, lanes);
    ExpShift(exp, log, row[i], m);
    RatioUnscales(exp(row[i] - m), SumExp(exp, Lanes(row, 0, lanes), m), exp(m),
                  exp(row[i]), RowTotal(exp, row, |row|));
    NaiveIsExpOverTotal(exp, log, row, i);
  }

  // ---------------------------------------------------------------------
  // The laws of softmax
  // ---------------------------------------------------------------------

  function SumOf(s: seq<real>, k: nat): real
    requires k <= |s|
  {
    if k == 0 then 0.0 else SumOf(s, k - 1) + s[k - 1]
  }

  /** `shares` times the total give the row's exponentials. */
  predicate AreRowShares(exp: RealFn, row: seq<real>, shares: seq<real>, total: real) {
    && |shares| == |row| && total == RowTotal(exp, row, |row|) > 0.0
    && forall i :: 0 <= i < |row| ==> Times(shares[i], total) == exp(row[i])
  }

  lemma SoftmaxGivesShares(exp: RealFn, log: RealFn, row: seq<real>)
    requires ExpLaws(exp, log) && row != []
    ensures AreRowShares(exp, row, NaiveSoftmax(exp, log, row), RowTotal(exp, row, |row|))
  {
    NaiveIsExpOverTotal(exp, log, row, 0);
    forall i | 0 <= i < |row|
      ensures Times(NaiveSoftmax(exp, log, row)[i], RowTotal(exp, row, |row|)) == exp(row[i])
    {
      ShareTimesTotal(exp, log, row, i);
    }
  }

  lemma ShareTimesTotal(exp: RealFn, log: RealFn, row: seq<real>, i: nat)
    requires ExpLaws(exp, log) && i < |row|
    ensures Times(NaiveSoftmax(exp, log, row)[i], RowTotal(exp, row, |row|)) == exp(row[i])
  {
    NaiveIsExpOverTotal(exp, log, row, i);
    QuotientRestores(exp(row[i]), RowTotal(exp, row, |row|), NaiveSoftmax(exp, log, row)[i]);
  }

  lemma QuotientRestores(x: real, t: real, q: real)
    requires t > 0.0 && q == x / t
    ensures Times(q, t) == x
  {
    QuotientTimes(x, t, q);
  }

  lemma TimesAdds(x: real, y: real, t: real)
    ensures Times(x + y, t) == Times(x, t) + Times(y, t)
  {
  }

  lemma {:induction false} SharesSumTo(exp: RealFn, row: seq<real>, shares: seq<real>, total: real, k: nat)
    requires AreRowShares(exp, row, shares, total) && k <= |row|
    ensures Times(SumOf(shares, k), total) == RowTotal(exp, row, k)
  {
    if k > 0 {
      SharesSumTo(exp, row, shares, total, k - 1);
      TimesAdds(SumOf(shares, k - 1), shares[k - 1], total);
    }
  }

  lemma UnitFactorOf(x: real, t: real)
    requires t > 0.0 && Times(x, t) == t
    ensures x == 1.0
  {
  }

  lemma CrossProducts(x: real, y: real, t: real, a: real, b: real)
    requires Times(x, t) == a && Times(y, t) == b
    ensures Times(x, b) == Times(y, a)
  {
    MulAssociatesReal(x, y, t);
    MulAssociatesReal(y, x, t);
  }

  /** A row's softmax sums to one, and its elements are to each other as their
    * exponentials are. */
  lemma SoftmaxIsTheDistribution(exp: RealFn, log: RealFn, row: seq<real>, i: nat, j: nat)
    requires ExpLaws(exp, log) && i < |row| && j < |row|
    ensures |NaiveSoftmax(exp, log, row)| == |row|
    ensures SumOf(NaiveSoftmax(exp, log, row), |row|) == 1.0
    ensures NaiveSoftmax(exp, log, row)[i] * exp(row[j]) == NaiveSoftmax(exp, log, row)[j] * exp(row[i])
  {
    SoftmaxGivesShares(exp, log, row);
    LawsOfShares(exp, row, NaiveSoftmax(exp, log, row), RowTotal(exp, row, |row|), i, j);
  }

  lemma LawsOfShares(exp: RealFn, row: seq<real>, shares: seq<real>, total: real, i: nat, j: nat)
    requires AreRowShares(exp, row, shares, total) && i < |row| && j < |row|
    ensures SumOf(shares, |row|) == 1.0
    ensures Times(shares[i], exp(row[j])) == Times(shares[j], exp(row[i]))
  {
    SharesSumTo(exp, row, shares, total, |row|);
    UnitFactorOf(SumOf(shares, |row|), total);
    CrossProducts(shares[i], shares[j], total, exp(row[i]), exp(row[j]));
  }
}
