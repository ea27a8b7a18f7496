/** Group-wise int4 weights: the quantiser of a row, the plain unpacking of it, and
  * exactly when a weight survives within half a step.
  */
module Int4Groups {
  import opened Arithmetic
  import opened Common
  import opened Int4
  import opened Rounding

  // ---------------------------------------------------------------------
  // One group
  // ---------------------------------------------------------------------

  function MinOf(ws: seq<real>): (m: real)
    requires ws != []
    ensures m in ws && forall i :: 0 <= i < |ws| ==> m <= ws[i]
  {
    if |ws| == 1 then ws[0]
    else
      assert ws == Front(ws) + [Last(ws)];
      if MinOf(Front(ws)) < Last(ws) then MinOf(Front(ws)) else Last(ws)
  }

  function MaxOf(ws: seq<real>): (m: real)
    requires ws != []
    ensures m in ws && forall i :: 0 <= i < |ws| ==> ws[i] <= m
  {
    if |ws| == 1 then ws[0]
    else
      assert ws == Front(ws) + [Last(ws)];
      if MaxOf(Front(ws)) > Last(ws) then MaxOf(Front(ws)) else Last(ws)
  }

  /** A group's step: its range over fourteen, the range clamped away from zero. */
  function GroupScale(ws: seq<real>): (s: real)
    requires ws != []
    ensures s > 0.0 && 14.0 * s == if MaxOf(ws) - MinOf(ws) < 0.00001 then 0.00001 else MaxOf(ws) - MinOf(ws)
  {
    var range := MaxOf(ws) - MinOf(ws);
    (if range < 0.00001 then 0.00001 else range) / 14.0
  }

  function GroupZero(ws: seq<real>): (z: int)
    requires ws != []
    ensures 0 <= z <= 15
  {
    Clamp(Round(-MinOf(ws) / GroupScale(ws)), 0, 15)
  }

  function Code(w: real, scale: real, zero: int): (q: int)
    requires scale > 0.0
    ensures 0 <= q <= 15
  {
    Clamp(Round(w / scale + zero as real), 0, 15)
  }

  function Dequantise(q: int, scale: real, zero: int): real {
    (q - zero) as real * scale
  }

  // ---------------------------------------------------------------------
  // In units of the step
  // ---------------------------------------------------------------------

  /** Clamping a rounded value costs at most half a step exactly on [-1/2, 15 1/2]. */
  lemma ClampedRoundingError(v: real)
    ensures Abs(Clamp(Round(v), 0, 15) as real - v) <= 0.5 <==> -0.5 <= v <= 15.5
  {
    RoundIsNearestEven(v, Round(v));
  }

  /** `a` and `b` are the group's ends in steps; `u` one of its weights. */
  lemma CodeErrorInSteps(a: real, b: real, u: real)
    requires a <= u <= b && b - a <= 14.0
    ensures var z := Clamp(Round(-a), 0, 15);
      Abs(Clamp(Round(u + z as real), 0, 15) as real - (u + z as real)) <= 0.5 <==> -15.5 <= u <= 15.5
  {
    var z := Clamp(Round(-a), 0, 15);
    RoundIsNearestEven(-a, Round(-a));
    ClampedRoundingError(u + z as real);
  }

  /** Scaling keeps the order; `xc` and `yc` are the scaled values. */
  lemma ScaledOrder(x: real, y: real, c: real, xc: real, yc: real)
    requires c > 0.0 && xc == x * c && yc == y * c
    ensures x <= y <==> xc <= yc
  {
    assert (y - x) * c == yc - xc;
    if x < y {
      assert (y - x) * c > 0.0;
    } else if x > y {
      assert (x - y) * c > 0.0;
      assert (x - y) * c == xc - yc;
    }
  }

  lemma NegatedQuotient(x: real, c: real, q: real)
    requires c > 0.0 && q * c == x
    ensures (-x) / c == -q
  {
    var p := (-x) / c;
    QuotientTimes(-x, c, p);
    assert (p + q) * c == 0.0;
  }

  lemma AbsScaled(x: real, c: real, xc: real)
    requires c > 0.0 && xc == x * c
    ensures Abs(x) * c == Abs(xc)
  {
    ScaledOrder(0.0, x, c, 0.0, xc);
  }

  /** An error of `p - u` steps is an error of `pc - w`. */
  lemma ErrorScaled(p: real, u: real, scale: real, pc: real, w: real)
    requires scale > 0.0 && pc == p * scale && w == u * scale
    ensures Abs(pc - w) <= 0.5 * scale <==> Abs(p - u) <= 0.5
  {
    ProductDifference(p, u, scale, pc, w);
    AbsScaled(p - u, scale, pc - w);
    ScaledOrder(Abs(p - u), 0.5, scale, Abs(pc - w), 0.5 * scale);
  }

  /** The error of a dequantised code, in steps. */
  lemma ErrorInSteps(w: real, scale: real, u: real, q: int, zero: int)
    requires scale > 0.0 && u * scale == w
    ensures Abs(Dequantise(q, scale, zero) - w) <= 0.5 * scale
       <==> Abs(q as real - (u + zero as real)) <= 0.5
  {
    ErrorScaled((q - zero) as real, u, scale, Dequantise(q, scale, zero), w);
  }

  lemma BoundInSteps(w: real, scale: real, u: real)
    requires scale > 0.0 && u * scale == w
    ensures -15.5 <= u <= 15.5 <==> Abs(w) <= 15.5 * scale
  {
    ScaledOrder(u, 15.5, scale, w, 15.5 * scale);
    ScaledOrder(-15.5, u, scale, -15.5 * scale, w);
  }

  lemma StepsOrdered(lo: real, w: real, hi: real, s: real, a: real, b: real, u: real)
    requires s > 0.0 && a * s == lo && b * s == hi && u * s == w
    requires lo <= w <= hi && hi - lo <= 14.0 * s
    ensures a <= u <= b && b - a <= 14.0
  {
    ScaledOrder(a, u, s, lo, w);
    ScaledOrder(u, b, s, w, hi);
    ProductDifference(b, a, s, hi, lo);
    ScaledOrder(b - a, 14.0, s, hi - lo, 14.0 * s);
  }

  predicate SurvivesAt(ws: seq<real>, i: nat)
    requires i < |ws|
  {
    var s, z := GroupScale(ws), GroupZero(ws);
    Abs(Dequantise(Code(ws[i], s, z), s, z) - ws[i]) <= 0.5 * s
  }

  lemma RangeInSteps(ws: seq<real>, i: nat)
    requires i < |ws|
    ensures MinOf(ws) <= ws[i] <= MaxOf(ws) && MaxOf(ws) - MinOf(ws) <= 14.0 * GroupScale(ws)
  {
  }

  /** `a`, `b` and `u` are the group's ends and one of its weights, in steps of `s`. */
  lemma CodeSurvives(lo: real, w: real, hi: real, s: real, a: real, b: real, u: real, zero: int, code: int)
    requires s > 0.0 && a * s == lo && b * s == hi && u * s == w
    requires lo <= w <= hi && hi - lo <= 14.0 * s
    requires zero == Clamp(Round(-a), 0, 15) && code == Clamp(Round(u + zero as real), 0, 15)
    ensures Abs(Dequantise(code, s, zero) - w) <= 0.5 * s <==> -15.5 <= u <= 15.5
  {
    StepsOrdered(lo, w, hi, s, a, b, u);
    CodeErrorInSteps(a, b, u);
    ErrorInSteps(w, s, u, code, zero);
  }

  /** The same of any ends, weight and step, the codes as the quantiser makes them. */
  lemma RestoresWithinHalfAStep(lo: real, w: real, hi: real, s: real, zero: int)
    requires s > 0.0 && lo <= w <= hi && hi - lo <= 14.0 * s && zero == Clamp(Round(-lo / s), 0, 15)
    ensures Abs(Dequantise(Code(w, s, zero), s, zero) - w) <= 0.5 * s <==> Abs(w) <= 15.5 * s
  {
    var a, b, u := lo / s, hi / s, w / s;
    QuotientTimes(lo, s, a);
    NegatedQuotient(lo, s, a);
    QuotientTimes(hi, s, b);
    QuotientTimes(w, s, u);
    CodeSurvives(lo, w, hi, s, a, b, u, zero, Code(w, s, zero));
    BoundInSteps(w, s, u);
  }

  /** A weight comes back within half a step of its group exactly when it is within
    * 15.5 steps of zero; further out the codes saturate. */
  lemma SurvivesIffNearZero(ws: seq<real>, i: nat)
    requires i < |ws|
    ensures SurvivesAt(ws, i) <==> Abs(ws[i]) <= 15.5 * GroupScale(ws)
  {
    RangeInSteps(ws, i);
    RestoresWithinHalfAStep(MinOf(ws), ws[i], MaxOf(ws), GroupScale(ws), GroupZero(ws));
  }

  /** A weight further out is off by more than half a step, whatever its group. */
  lemma FarFromZeroIsLost(ws: seq<real>, i: nat)
    requires i < |ws| && Abs(ws[i]) > 15.5 * GroupScale(ws)
    ensures !SurvivesAt(ws, i)
  {
    SurvivesIffNearZero(ws, i);
  }

  /** So a whole group comes back exactly when no weight of it is further out. */
  lemma GroupSurvivesIffNearZero(ws: seq<real>)
    requires ws != []
    ensures (forall i :: 0 <= i < |ws| ==> SurvivesAt(ws, i))
       <==> (forall i :: 0 <= i < |ws| ==> Abs(ws[i]) <= 15.5 * GroupScale(ws))
  {
    forall i | 0 <= i < |ws| ensures SurvivesAt(ws, i) <==> Abs(ws[i]) <= 15.5 * GroupScale(ws) {
      SurvivesIffNearZero(ws, i);
    }
  }

  /** A group that reaches zero or has it inside always survives. */
  lemma GroupAroundZeroSurvives(ws: seq<real>, i: nat)
    requires i < |ws| && MinOf(ws) <= 0.0 <= MaxOf(ws)
    ensures SurvivesAt(ws, i)
  {
    SurvivesIffNearZero(ws, i);
  }

  /** A group of equal weights has no range, so its step is the smallest there is. */
  lemma ConstantGroup(ws: seq<real>, c: real, i: nat)
    requires i < |ws| && forall j :: 0 <= j < |ws| ==> ws[j] == c
    ensures SurvivesAt(ws, i) <==> Abs(c) <= 15.5 * 0.00001 / 14.0
  {
    SurvivesIffNearZero(ws, i);
  }

  // ---------------------------------------------------------------------
  // In the weights' own units
  // ---------------------------------------------------------------------

  /** `lo` and `hi` are the least and the greatest weight of a group. */
  predicate AreEnds(ws: seq<real>, lo: real, hi: real) {
    lo in ws && hi in ws && forall i :: 0 <= i < |ws| ==> lo <= ws[i] <= hi
  }

  /** The fifteen levels of a step span the group's range with nothing to spare. */
  lemma StepsSpanTheRange(ws: seq<real>, lo: real, hi: real)
    requires AreEnds(ws, lo, hi)
    ensures ws != [] && lo == MinOf(ws) && hi == MaxOf(ws)
    ensures hi - lo >= 0.00001 ==> 14.0 * GroupScale(ws) == hi - lo
    ensures hi - lo < 0.00001 ==> 14.0 * GroupScale(ws) == 0.00001
  {
  }

  /** The zero point is the code nearest to where zero falls, ties to even, kept inside
    * 0 .. 15. */
  lemma ZeroPointIsNearest(ws: seq<real>, n: int)
    requires ws != [] && NearestEven(-MinOf(ws) / GroupScale(ws), n)
    ensures GroupZero(ws) == if n < 0 then 0 else if n > 15 then 15 else n
  {
    RoundIsNearestEven(-MinOf(ws) / GroupScale(ws), n);
  }

  lemma ClampedIsNearest(v: real, k: int)
    requires 0 <= k <= 15
    ensures Abs(Clamp(Round(v), 0, 15) as real - v) <= Abs(k as real - v)
  {
    RoundIsOptimal(v, k);
    RoundIsNearestEven(v, Round(v));
  }

  /** No other code of the group brings a weight back nearer. */
  lemma NoCodeIsNearer(ws: seq<real>, i: nat, k: int)
    requires i < |ws| && 0 <= k <= 15
    ensures var s, z := GroupScale(ws), GroupZero(ws);
      Abs(Dequantise(Code(ws[i], s, z), s, z) - ws[i]) <= Abs(Dequantise(k, s, z) - ws[i])
  {
    var s, z := GroupScale(ws), GroupZero(ws);
    var u := ws[i] / s;
    QuotientTimes(ws[i], s, u);
    ClampedIsNearest(u + z as real, k);
    NearerInSteps(ws[i], s, u, Code(ws[i], s, z), k, z);
  }

  lemma NearerInSteps(w: real, s: real, u: real, q: int, k: int, zero: int)
    requires s > 0.0 && u * s == w
    requires Abs(q as real - (u + zero as real)) <= Abs(k as real - (u + zero as real))
    ensures Abs(Dequantise(q, s, zero) - w) <= Abs(Dequantise(k, s, zero) - w)
  {
    var p, r := (q - zero) as real, (k - zero) as real;
    ProductDifference(p, u, s, Dequantise(q, s, zero), w);
    ProductDifference(r, u, s, Dequantise(k, s, zero), w);
    AbsScaled(p - u, s, Dequantise(q, s, zero) - w);
    AbsScaled(r - u, s, Dequantise(k, s, zero) - w);
    ScaledOrder(Abs(p - u), Abs(r - u), s, Abs(Dequantise(q, s, zero) - w), Abs(Dequantise(k, s, zero) - w));
  }

  /** In weights: the error is at most a twenty-eighth of the group's own range. */
  lemma ErrorIsWithinTheRange(ws: seq<real>, lo: real, hi: real, i: nat)
    requires AreEnds(ws, lo, hi) && hi - lo >= 0.00001 && i < |ws|
    ensures var s, z := GroupScale(ws), GroupZero(ws);
      Abs(ws[i]) <= 15.5 * (hi - lo) / 14.0 <==> Abs(Dequantise(Code(ws[i], s, z), s, z) - ws[i]) <= (hi - lo) / 28.0
  {
    StepsSpanTheRange(ws, lo, hi);
    SurvivesIffNearZero(ws, i);
  }

  // ---------------------------------------------------------------------
  // A row of groups
  // ---------------------------------------------------------------------

  const GROUP_SIZE: nat := 128

  const WORDS_PER_GROUP: nat := 16

  datatype Quantised = Quantised(packed: seq<int>, scales: seq<real>, zeros: seq<int>)

  /** Sixteen words, one scale and one zero point per group. */
  predicate Shaped(q: Quantised) {
    |q.packed| == |q.scales| * WORDS_PER_GROUP && |q.zeros| == |q.scales|
  }

  datatype ShapeError = NotWholeGroups

  /** Group `g` of a row. */
  function Group<T>(row: seq<T>, g: nat): (r: seq<T>)
    requires (g + 1) * GROUP_SIZE <= |row|
    ensures |r| == GROUP_SIZE
  {
    row[g * GROUP_SIZE..(g + 1) * GROUP_SIZE]
  }

  /** The group element `t` is in. */
  function OwnGroup<T>(row: seq<T>, t: nat): (r: seq<T>)
    requires |row| % GROUP_SIZE == 0 && t < |row|
    ensures |r| == GROUP_SIZE && r[t % GROUP_SIZE] == row[t]
  {
    Group(row, t / GROUP_SIZE)
  }

  /** The code of element `t`, by its own group's scale and zero point. */
  function CodeAt(ws: seq<real>, t: nat): (q: int)
    requires |ws| % GROUP_SIZE == 0 && t < |ws|
    ensures 0 <= q <= 15
  {
    var g := OwnGroup(ws, t);
    Code(ws[t], GroupScale(g), GroupZero(g))
  }

  function Codes(ws: seq<real>): seq<int>
    requires |ws| % GROUP_SIZE == 0
  {
    seq(|ws|, t requires 0 <= t < |ws| => CodeAt(ws, t))
  }

  /** Quantise a row group by group, and pack its codes eight to a word. */
  function QuantiseRow(ws: seq<real>): Result<Quantised, ShapeError> {
    if |ws| % GROUP_SIZE != 0 then Err(NotWholeGroups)
    else
      var codes := Codes(ws);
      Ok(Quantised(
        seq(|ws| / 8, j requires 0 <= j < |ws| / 8 => Pack(codes[8 * j..8 * j + 8])),
        seq(|ws| / GROUP_SIZE, g requires 0 <= g < |ws| / GROUP_SIZE => GroupScale(Group(ws, g))),
        seq(|ws| / GROUP_SIZE, g requires 0 <= g < |ws| / GROUP_SIZE => GroupZero(Group(ws, g)))))
  }

  predicate AllOfLength<T>(pieces: seq<seq<T>>, n: nat) {
    forall g :: 0 <= g < |pieces| ==> |pieces[g]| == n
  }

  lemma {:induction false} FlatLength<T>(pieces: seq<seq<T>>, n: nat)
    requires AllOfLength(pieces, n)
    ensures |Flatten(pieces)| == |pieces| * n
  {
    if pieces != [] {
      FlatLength(Front(pieces), n);
      assert |pieces| * n == (|pieces| - 1) * n + n;
    }
  }

  /** Element `x` of piece `g` is element `g * n + x` of the joined row. */
  lemma {:induction false} FlatAt<T>(pieces: seq<seq<T>>, n: nat, g: nat, x: nat)
    requires AllOfLength(pieces, n) && g < |pieces| && x < n
    ensures At(g, x, n) < |Flatten(pieces)| && Flatten(pieces)[At(g, x, n)] == pieces[g][x]
  {
    FlatLength(pieces, n);
    FlatLength(Front(pieces), n);
    AtInBounds(g, x, |pieces|, n);
    if g < |pieces| - 1 {
      FlatAt(Front(pieces), n, g, x);
    }
  }

  function Words(packed: seq<int>): (w: seq<seq<int>>)
    ensures |w| == |packed| && AllOfLength(w, 8)
  {
    seq(|packed|, j requires 0 <= j < |packed| => Unpack(packed[j]))
  }

  function DequantiseGroup(qs: seq<int>, scale: real, zero: int): (ws: seq<real>)
    ensures |ws| == |qs|
  {
    seq(|qs|, i requires 0 <= i < |qs| => Dequantise(qs[i], scale, zero))
  }

  function DequantisedGroups(nibbles: seq<int>, scales: seq<real>, zeros: seq<int>): (ws: seq<seq<real>>)
    requires |nibbles| == |scales| * GROUP_SIZE && |zeros| == |scales|
    ensures |ws| == |scales| && AllOfLength(ws, GROUP_SIZE)
  {
    seq(|scales|, g requires 0 <= g < |scales| => DequantiseGroup(Group(nibbles, g), scales[g], zeros[g]))
  }

  /** The plain unpacking: words to nibbles, regrouped, each group with its own scale
    * and zero point. */
  function UnpackRow(q: Quantised): seq<real>
    requires Shaped(q)
  {
    FlatLength(Words(q.packed), 8);
    Flatten(DequantisedGroups(Flatten(Words(q.packed)), q.scales, q.zeros))
  }

  lemma UnpackedElement(q: Quantised, t: nat)
    requires Shaped(q) && t < 8 * |q.packed|
    ensures |UnpackRow(q)| == 8 * |q.packed| && t / 8 < |q.packed| && t / 128 < |q.scales|
    ensures UnpackRow(q)[t] == Dequantise(Nibble(q.packed[t / 8], t % 8), q.scales[t / 128], q.zeros[t / 128])
  {
    var words := Words(q.packed);
    FlatLength(words, 8);
    FlatAt(words, 8, t / 8, t % 8);
    var groups := DequantisedGroups(Flatten(words), q.scales, q.zeros);
    FlatLength(groups, GROUP_SIZE);
    FlatAt(groups, GROUP_SIZE, t / GROUP_SIZE, t % GROUP_SIZE);
  }

  /** Element `t` is nibble `t % 8` of word `t / 8`, less the zero point of group
    * `t / 128`, times its scale. */
  lemma UnpackRowAt(q: Quantised, t: nat)
    requires Shaped(q) && t < 8 * |q.packed|
    ensures |UnpackRow(q)| == 8 * |q.packed| && t / 8 < |q.packed| && t / 128 < |q.scales|
    ensures UnpackRow(q)[t] == (Nibble(q.packed[t / 8], t % 8) - q.zeros[t / 128]) as real * q.scales[t / 128]
  {
    UnpackedElement(q, t);
  }

  /** Each word of a quantised row unpacks to the eight codes packed into it. */
  lemma WordKeepsItsCodes(ws: seq<real>, j: nat)
    requires |ws| % GROUP_SIZE == 0 && j < |ws| / 8
    ensures Unpack(QuantiseRow(ws).value.packed[j]) == Codes(ws)[8 * j..8 * j + 8]
  {
    UnpackUndoesPack(Codes(ws)[8 * j..8 * j + 8]);
  }

  lemma SliceAt<T>(row: seq<T>, t: nat)
    requires |row| % 8 == 0 && t < |row|
    ensures t / 8 < |row| / 8 && 8 * (t / 8) + 8 <= |row|
    ensures row[8 * (t / 8)..8 * (t / 8) + 8][t % 8] == row[t]
  {
  }

  lemma NibbleIsCode(ws: seq<real>, t: nat)
    requires |ws| % GROUP_SIZE == 0 && t < |ws|
    ensures t / 8 < |ws| / 8
    ensures Nibble(QuantiseRow(ws).value.packed[t / 8], t % 8) == CodeAt(ws, t)
  {
    SliceAt(Codes(ws), t);
    WordKeepsItsCodes(ws, t / 8);
    NibbleOfWord(QuantiseRow(ws).value.packed[t / 8], Codes(ws)[8 * (t / 8)..8 * (t / 8) + 8], t % 8);
  }

  lemma NibbleOfWord(w: int, word: seq<int>, i: nat)
    requires Unpack(w) == word && i < 8
    ensures Nibble(w, i) == word[i]
  {
    assert Unpack(w)[i] == Nibble(w, i);
  }

  /** Packed and unpacked again, weight `t` is the code its own group gave it. */
  lemma RowKeepsItsCodes(ws: seq<real>, t: nat)
    requires |ws| % GROUP_SIZE == 0 && t < |ws|
    ensures QuantiseRow(ws).Ok? && Shaped(QuantiseRow(ws).value) && |UnpackRow(QuantiseRow(ws).value)| == |ws|
    ensures var g := OwnGroup(ws, t);
      UnpackRow(QuantiseRow(ws).value)[t] == Dequantise(Code(ws[t], GroupScale(g), GroupZero(g)), GroupScale(g), GroupZero(g))
  {
    UnpackedElement(QuantiseRow(ws).value, t);
    NibbleIsCode(ws, t);
  }

  /** End to end: a weight of a row comes back from quantising, packing and unpacking
    * within half a step of its group exactly when it is within 15.5 steps of zero. */
  lemma RowSurvivesIffNearZero(ws: seq<real>, t: nat)
    requires |ws| % GROUP_SIZE == 0 && t < |ws|
    ensures QuantiseRow(ws).Ok? && Shaped(QuantiseRow(ws).value) && |UnpackRow(QuantiseRow(ws).value)| == |ws|
    ensures var g := OwnGroup(ws, t);
      Abs(UnpackRow(QuantiseRow(ws).value)[t] - ws[t]) <= 0.5 * GroupScale(g) <==> Abs(ws[t]) <= 15.5 * GroupScale(g)
  {
    RowKeepsItsCodes(ws, t);
    RestoredNear(OwnGroup(ws, t), t % GROUP_SIZE, ws[t], UnpackRow(QuantiseRow(ws).value)[t]);
  }

  lemma RestoredNear(g: seq<real>, i: nat, w: real, restored: real)
    requires i < |g| && g[i] == w
    requires restored == Dequantise(Code(w, GroupScale(g), GroupZero(g)), GroupScale(g), GroupZero(g))
    ensures Abs(restored - w) <= 0.5 * GroupScale(g) <==> Abs(w) <= 15.5 * GroupScale(g)
  {
    SurvivesIffNearZero(g, i);
  }

  /** A row is refused exactly when it does not divide into groups of 128. */
  lemma RowIsRefusedExactly(ws: seq<real>)
    ensures QuantiseRow(ws) == Err(NotWholeGroups) <==> |ws| % 128 != 0
    ensures QuantiseRow(ws).Ok? <==> |ws| % 128 == 0
  {
  }

  /** End to end in weights: with `lo` and `hi` the ends of the 128 weights around it, a
    * weight comes back within a twenty-eighth of their range exactly when it is within
    * 15.5 fourteenths of it from zero. */
  lemma RowErrorIsWithinTheRange(ws: seq<real>, t: nat, lo: real, hi: real)
    requires |ws| % 128 == 0 && t < |ws|
    requires t / 128 * 128 + 128 <= |ws| && AreEnds(ws[t / 128 * 128..t / 128 * 128 + 128], lo, hi) && hi - lo >= 0.00001
    ensures QuantiseRow(ws).Ok? && Shaped(QuantiseRow(ws).value) && |UnpackRow(QuantiseRow(ws).value)| == |ws|
    ensures Abs(ws[t]) <= 15.5 * (hi - lo) / 14.0
       <==> Abs(UnpackRow(QuantiseRow(ws).value)[t] - ws[t]) <= (hi - lo) / 28.0
  {
    RowKeepsItsCodes(ws, t);
    assert OwnGroup(ws, t) == ws[t / 128 * 128..t / 128 * 128 + 128];
    RestoredInRange(OwnGroup(ws, t), lo, hi, t % GROUP_SIZE, ws[t], UnpackRow(QuantiseRow(ws).value)[t]);
  }

  lemma RestoredInRange(g: seq<real>, lo: real, hi: real, i: nat, w: real, restored: real)
    requires i < |g| && g[i] == w && AreEnds(g, lo, hi) && hi - lo >= 0.00001
    requires restored == Dequantise(Code(w, GroupScale(g), GroupZero(g)), GroupScale(g), GroupZero(g))
    ensures Abs(w) <= 15.5 * (hi - lo) / 14.0 <==> Abs(restored - w) <= (hi - lo) / 28.0
  {
    ErrorIsWithinTheRange(g, lo, hi, i);
  }
}
