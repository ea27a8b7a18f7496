/** Top-p filtering of one decode step: the shifted in-place mask keeps the smallest
  * set of tokens whose mass exceeds `topP`, renormalised.
  */
module Nucleus {
  import opened Arithmetic
  import opened Common
  import opened Softmax

  // ---------------------------------------------------------------------
  // Prefixes of the sorted probabilities
  // ---------------------------------------------------------------------

  /** The mass of the `k` likeliest tokens. */
  function Prefix(probs: seq<real>, k: nat): real
    requires k <= |probs|
  {
    if k == 0 then 0.0 else Prefix(probs, k - 1) + probs[k - 1]
  }

  predicate NonNegative(probs: seq<real>) {
    forall i :: 0 <= i < |probs| ==> probs[i] >= 0.0
  }

  predicate Descending(probs: seq<real>) {
    forall i, j :: 0 <= i <= j < |probs| ==> probs[i] >= probs[j]
  }

  lemma {:induction false} PrefixGrows(probs: seq<real>, i: nat, j: nat)
    requires NonNegative(probs) && i <= j <= |probs|
    ensures Prefix(probs, i) <= Prefix(probs, j)
  {
    if i < j {
      PrefixGrows(probs, i, j - 1);
    }
  }

  /** What the shifted mask leaves: the first token, and every token the mass before
    * which is still within `topP`. */
  predicate Kept(probs: seq<real>, topP: real, i: nat)
    requires i < |probs|
  {
    i == 0 || Prefix(probs, i) <= topP
  }

  function KeptBelow(probs: seq<real>, topP: real, n: nat): nat
    requires n <= |probs|
  {
    if n == 0 then 0 else KeptBelow(probs, topP, n - 1) + (if Kept(probs, topP, n - 1) then 1 else 0)
  }

  function NucleusSize(probs: seq<real>, topP: real): nat {
    KeptBelow(probs, topP, |probs|)
  }

  lemma {:induction false} KeptIsInitial(probs: seq<real>, topP: real, n: nat)
    requires NonNegative(probs) && n <= |probs|
    ensures KeptBelow(probs, topP, n) <= n
    ensures forall i :: 0 <= i < n ==> (Kept(probs, topP, i) <==> i < KeptBelow(probs, topP, n))
  {
    if n > 0 {
      KeptIsInitial(probs, topP, n - 1);
      if Kept(probs, topP, n - 1) {
        forall i | 0 <= i < n ensures Kept(probs, topP, i) {
          PrefixGrows(probs, i, n - 1);
        }
        if n > 1 {
          assert Kept(probs, topP, n - 2);
        }
      }
    }
  }

  /** The kept tokens are a non-empty prefix of the sorted order. */
  lemma NucleusIsPrefix(probs: seq<real>, topP: real)
    requires NonNegative(probs) && probs != []
    ensures 1 <= NucleusSize(probs, topP) <= |probs|
    ensures forall i :: 0 <= i < |probs| ==> (Kept(probs, topP, i) <==> i < NucleusSize(probs, topP))
  {
    KeptIsInitial(probs, topP, |probs|);
    assert Kept(probs, topP, 0);
  }

  // ---------------------------------------------------------------------
  // No smaller set of tokens will do
  // ---------------------------------------------------------------------

  /** A set of tokens, as one flag per token. */
  type Selection = seq<bool>

  function Selected(sel: Selection): nat {
    if sel == [] then 0 else Selected(Front(sel)) + (if Last(sel) then 1 else 0)
  }

  function Mass(sel: Selection, probs: seq<real>): real
    requires |sel| == |probs|
  {
    if sel == [] then 0.0 else Mass(Front(sel), Front(probs)) + (if Last(sel) then Last(probs) else 0.0)
  }

  lemma {:induction false} SelectedFits(sel: Selection)
    ensures Selected(sel) <= |sel|
  {
    if sel != [] {
      SelectedFits(Front(sel));
    }
  }

  lemma {:induction false} PrefixOfFront(probs: seq<real>, k: nat)
    requires probs != [] && k < |probs|
    ensures Prefix(Front(probs), k) == Prefix(probs, k)
  {
    if k > 0 {
      PrefixOfFront(probs, k - 1);
    }
  }

  /** Of all sets of one size, the likeliest tokens have the most mass. */
  lemma {:induction false} TopTokensAreHeaviest(sel: Selection, probs: seq<real>)
    requires |sel| == |probs| && Descending(probs) && NonNegative(probs)
    ensures Selected(sel) <= |sel| && Mass(sel, probs) <= Prefix(probs, Selected(sel))
  {
    SelectedFits(sel);
    if sel != [] {
      var k := Selected(Front(sel));
      SelectedFits(Front(sel));
      TopTokensAreHeaviest(Front(sel), Front(probs));
      PrefixOfFront(probs, k);
    }
  }

  lemma NucleusIsSmallest(probs: seq<real>, topP: real, sel: Selection)
    requires NonNegative(probs) && Descending(probs) && probs != [] && |sel| == |probs|
    requires Prefix(probs, |probs|) > topP >= 0.0
    ensures NucleusSize(probs, topP) <= |probs| && Prefix(probs, NucleusSize(probs, topP)) > topP
    ensures Mass(sel, probs) > topP ==> Selected(sel) >= NucleusSize(probs, topP)
  {
    NucleusIsPrefix(probs, topP);
    TopTokensAreHeaviest(sel, probs);
    var c := NucleusSize(probs, topP);
    if c < |probs| {
      assert !Kept(probs, topP, c);
    }
    if Selected(sel) < c {
      assert Kept(probs, topP, c - 1);
      PrefixGrows(probs, Selected(sel), c - 1);
    }
  }

  // ---------------------------------------------------------------------
  // From sorted ranks to token ids
  // ---------------------------------------------------------------------

  function SumOver(ids: seq<nat>, f: nat -> real): real {
    if ids == [] then 0.0 else SumOver(Front(ids), f) + f(Last(ids))
  }

  function Range(n: nat): (r: seq<nat>)
    ensures |r| == n && forall i :: 0 <= i < n ==> r[i] == i
  {
    seq(n, i => i)
  }

  /** `indices` lists every token id once, as a sort's index output does. */
  ghost predicate IsPermutation(indices: seq<nat>) {
    multiset(indices) == multiset(Range(|indices|))
  }

  lemma {:induction false} SumDropsOne(ids: seq<nat>, p: nat, f: nat -> real)
    requires p < |ids|
    ensures SumOver(ids, f) == SumOver(ids[..p] + ids[p + 1..], f) + f(ids[p])
  {
    if p == |ids| - 1 {
      assert ids[..p] + ids[p + 1..] == Front(ids);
    } else {
      SumDropsOne(Front(ids), p, f);
      assert Front(ids[..p] + ids[p + 1..]) == Front(ids)[..p] + Front(ids)[p + 1..];
    }
  }

  /** A sum over ids does not depend on their order. */
  lemma {:induction false} SumIgnoresOrder(a: seq<nat>, b: seq<nat>, f: nat -> real)
    requires multiset(a) == multiset(b)
    ensures SumOver(a, f) == SumOver(b, f)
    decreases |a|
  {
    assert |a| == |multiset(a)| == |multiset(b)| == |b|;
    if a != [] {
      var p := SameAfterDropping(a, b);
      SumDropsOne(b, p, f);
      SumIgnoresOrder(Front(a), b[..p] + b[p + 1..], f);
    }
  }

  lemma SameAfterDropping(a: seq<nat>, b: seq<nat>) returns (p: nat)
    requires multiset(a) == multiset(b) && a != []
    ensures p < |b| && b[p] == Last(a)
    ensures multiset(Front(a)) == multiset(b[..p] + b[p + 1..])
  {
    var x := Last(a);
    assert a == Front(a) + [x];
    assert x in multiset(b);
    p :| 0 <= p < |b| && b[p] == x;
    DroppedOne(b, p);
    assert multiset(a) == multiset(Front(a)) + multiset{x};
    SameWithoutOne(multiset(Front(a)), multiset(b[..p] + b[p + 1..]), x);
  }

  lemma SameWithoutOne<T>(a: multiset<T>, b: multiset<T>, x: T)
    requires a + multiset{x} == b + multiset{x}
    ensures a == b
  {
    assert a == a + multiset{x} - multiset{x};
    assert b == b + multiset{x} - multiset{x};
  }

  lemma DroppedOne(b: seq<nat>, p: nat)
    requires p < |b|
    ensures multiset(b) == multiset(b[..p] + b[p + 1..]) + multiset{b[p]}
  {
    assert b == b[..p] + [b[p]] + b[p + 1..];
  }

  /** The tokens' flags and probabilities, in sorted order. */
  function Gather<T>(values: seq<T>, indices: seq<nat>): seq<T>
    requires forall i :: 0 <= i < |indices| ==> indices[i] < |values|
  {
    seq(|indices|, i requires 0 <= i < |indices| => values[indices[i]])
  }

  function WeightOf(sel: Selection, probs: seq<real>): nat -> real {
    (t: nat) => if t < |sel| && t < |probs| && sel[t] then probs[t] else 0.0
  }

  function Ones(n: nat): seq<real> {
    seq(n, i => 1.0)
  }

  lemma {:induction false} GatheredMass(sel: Selection, probs: seq<real>, indices: seq<nat>)
    requires |sel| == |probs| && forall i :: 0 <= i < |indices| ==> indices[i] < |probs|
    ensures Mass(Gather(sel, indices), Gather(probs, indices)) == SumOver(indices, WeightOf(sel, probs))
    decreases |indices|
  {
    if indices != [] {
      GatheredMass(sel, probs, Front(indices));
      assert Front(Gather(sel, indices)) == Gather(sel, Front(indices));
      assert Front(Gather(probs, indices)) == Gather(probs, Front(indices));
    }
  }

  lemma {:induction false} SelectedIsMassOfOnes(sel: Selection, ones: seq<real>)
    requires |sel| == |ones| && forall i :: 0 <= i < |ones| ==> ones[i] == 1.0
    ensures Mass(sel, ones) == Selected(sel) as real
  {
    if sel != [] {
      SelectedIsMassOfOnes(Front(sel), Front(ones));
    }
  }

  lemma PermutationIsInRange(indices: seq<nat>)
    requires IsPermutation(indices)
    ensures forall i :: 0 <= i < |indices| ==> indices[i] < |indices|
  {
    forall i | 0 <= i < |indices| ensures indices[i] < |indices| {
      assert indices[i] in multiset(indices);
      assert indices[i] in multiset(Range(|indices|));
      assert indices[i] in Range(|indices|);
    }
  }

  /** A set of tokens has the same mass and size, listed by id or by rank. */
  lemma SelectionByRank(sel: Selection, probs: seq<real>, indices: seq<nat>)
    requires IsPermutation(indices) && |sel| == |probs| == |indices|
    ensures forall i :: 0 <= i < |indices| ==> indices[i] < |indices|
    ensures Mass(Gather(sel, indices), Gather(probs, indices)) == Mass(sel, probs)
    ensures Selected(Gather(sel, indices)) == Selected(sel)
  {
    PermutationIsInRange(indices);
    var n := |indices|;
    RankMass(sel, probs, indices);
    RankMass(sel, Ones(n), indices);
    SelectedIsMassOfOnes(sel, Ones(n));
    SelectedIsMassOfOnes(Gather(sel, indices), Gather(Ones(n), indices));
  }

  lemma RankMass(sel: Selection, probs: seq<real>, indices: seq<nat>)
    requires IsPermutation(indices) && |sel| == |probs| == |indices|
    requires forall i :: 0 <= i < |indices| ==> indices[i] < |indices|
    ensures Mass(Gather(sel, indices), Gather(probs, indices)) == Mass(sel, probs)
  {
    GatheredMass(sel, probs, indices);
    GatheredMass(sel, probs, Range(|indices|));
    assert Gather(sel, Range(|indices|)) == sel && Gather(probs, Range(|indices|)) == probs;
    SumIgnoresOrder(indices, Range(|indices|), WeightOf(sel, probs));
  }

  /** No set of token ids smaller than the nucleus has mass above `topP`. */
  lemma NoSmallerTokenSet(tokenProbs: seq<real>, indices: seq<nat>, topP: real, sel: Selection)
    requires IsPermutation(indices) && |sel| == |tokenProbs| == |indices| > 0 && NonNegative(tokenProbs)
    requires (forall i :: 0 <= i < |indices| ==> indices[i] < |indices|) && Descending(Gather(tokenProbs, indices))
    requires Mass(seq(|indices|, i => true), tokenProbs) > topP >= 0.0
    ensures Mass(sel, tokenProbs) > topP ==> Selected(sel) >= NucleusSize(Gather(tokenProbs, indices), topP)
  {
    var probs, all := Gather(tokenProbs, indices), seq(|indices|, i => true);
    SelectionByRank(sel, tokenProbs, indices);
    SelectionByRank(all, tokenProbs, indices);
    assert Gather(all, indices) == all;
    MassOfAll(all, probs);
    NucleusIsSmallest(probs, topP, Gather(sel, indices));
  }

  lemma {:induction false} MassOfAll(all: Selection, probs: seq<real>)
    requires |all| == |probs| && forall i :: 0 <= i < |all| ==> all[i]
    ensures Mass(all, probs) == Prefix(probs, |probs|)
  {
    if all != [] {
      MassOfAll(Front(all), Front(probs));
      PrefixOfFront(probs, |probs| - 1);
    }
  }

  // ---------------------------------------------------------------------
  // The filter, in place
  // ---------------------------------------------------------------------

  method CumSum(probs: seq<real>) returns (cumulative: seq<real>)
    ensures |cumulative| == |probs|
    ensures forall i :: 0 <= i < |probs| ==> cumulative[i] == Prefix(probs, i + 1)
  {
    cumulative := [];
    var running := 0.0;
    for i := 0 to |probs|
      invariant |cumulative| == i && running == Prefix(probs, i)
      invariant forall j :: 0 <= j < i ==> cumulative[j] == Prefix(probs, j + 1)
    {
      running := running + probs[i];
      cumulative := cumulative + [running];
    }
  }

  /** The removal mask: compared, shifted right by one in place, its head cleared. */
  method RemovalMask(cumulative: seq<real>, topP: real, ghost probs: seq<real>) returns (remove: array<bool>)
    requires |cumulative| == |probs| > 0
    requires forall i :: 0 <= i < |probs| ==> cumulative[i] == Prefix(probs, i + 1)
    ensures fresh(remove) && remove.Length == |probs|
    ensures forall i :: 0 <= i < |probs| ==> (remove[i] <==> !Kept(probs, topP, i))
  {
    remove := new bool[|cumulative|](i requires 0 <= i < |cumulative| => cumulative[i] > topP);
    var clone := remove[..remove.Length - 1];
    forall i | 1 <= i < remove.Length {
      remove[i] := clone[i - 1];
    }
    remove[0] := false;
  }

  /** Tokens outside the nucleus are overwritten with minus infinity. */
  method ApplyTopP(sortedLogits: array<Ext>, probs: seq<real>, topP: real)
    requires sortedLogits.Length == |probs| > 0
    modifies sortedLogits
    ensures forall i :: 0 <= i < |probs| ==>
              sortedLogits[i] == if Kept(probs, topP, i) then old(sortedLogits[i]) else NegInf
  {
    var cumulative := CumSum(probs);
    var remove := RemovalMask(cumulative, topP, probs);
    forall i | 0 <= i < sortedLogits.Length && remove[i] {
      sortedLogits[i] := NegInf;
    }
  }

  // ---------------------------------------------------------------------
  // Renormalisation and sampling
  // ---------------------------------------------------------------------

  /** Softmax of a row that may hold minus infinities. */
  function LaneSoftmax(exp: RealFn, lanes: seq<Ext>): seq<real>
    requires ExpTotal(exp, lanes) > 0.0
  {
    seq(|lanes|, i requires 0 <= i < |lanes| => ExtExp(exp, lanes[i]) / ExpTotal(exp, lanes))
  }

  /** The logits with everything past the first `c` masked out. */
  function Masked(logits: seq<real>, c: nat): seq<Ext> {
    seq(|logits|, i requires 0 <= i < |logits| => if i < c then Fin(logits[i]) else NegInf)
  }

  /** `probs[i]` is the share of `exp(logits[i])` in the total `z`. */
  predicate ShareAt(exp: RealFn, logits: seq<real>, probs: seq<real>, z: real, i: nat)
    requires i < |logits| == |probs|
  {
    exp(logits[i]) == Times(probs[i], z)
  }

  lemma RatioOfProducts(a: real, s: real, c: real, ac: real, sc: real)
    requires s > 0.0 && c > 0.0 && ac == Times(a, c) && sc == Times(s, c)
    ensures sc > 0.0 && ac / sc == a / s
  {
    RatioUnscales(a, s, c, ac, sc);
  }

  ghost predicate Shares(exp: RealFn, logits: seq<real>, probs: seq<real>, z: real) {
    |logits| == |probs| && z > 0.0 && forall i :: 0 <= i < |logits| ==> ShareAt(exp, logits, probs, z, i)
  }

  /** The exponentials the mask leaves add up to the nucleus's share of the total. */
  lemma {:induction false} MaskedTotal(exp: RealFn, logits: seq<real>, c: nat, probs: seq<real>, z: real, n: nat)
    requires Shares(exp, logits, probs, z) && c <= |logits| && n <= |logits|
    ensures ExpTotal(exp, Masked(logits, c)[..n]) == Times(Prefix(probs, Min(n, c)), z)
  {
    if n > 0 {
      MaskedTotal(exp, logits, c, probs, z, n - 1);
      assert Front(Masked(logits, c)[..n]) == Masked(logits, c)[..n - 1];
      if n <= c {
        assert ShareAt(exp, logits, probs, z, n - 1);
        Distribute(Prefix(probs, n - 1), probs[n - 1], z);
      }
    }
  }

  lemma {:induction false} PositiveTotal(exp: RealFn, log: RealFn, logits: seq<real>, n: nat)
    requires ExpLaws(exp, log) && n <= |logits|
    ensures RowTotal(exp, logits, n) >= 0.0 && (n > 0 ==> RowTotal(exp, logits, n) > 0.0)
  {
    if n > 0 {
      PositiveTotal(exp, log, logits, n - 1);
      assert PositiveAt(exp, logits[n - 1]);
    }
  }

  lemma {:induction false} ProbsSumTo(exp: RealFn, logits: seq<real>, probs: seq<real>, z: real, n: nat)
    requires Shares(exp, logits, probs, z) && n <= |logits|
    ensures Prefix(probs, n) * z == RowTotal(exp, logits, n)
  {
    if n > 0 {
      ProbsSumTo(exp, logits, probs, z, n - 1);
      assert ShareAt(exp, logits, probs, z, n - 1);
      Distribute(Prefix(probs, n - 1), probs[n - 1], z);
    }
  }

  lemma FactorOfOrdered(x: real, y: real, z: real, xz: real, yz: real)
    requires z > 0.0 && x * z == xz && y * z == yz && 0.0 < xz <= yz
    ensures 0.0 < x <= y
  {
  }

  lemma UnitFactor(x: real, z: real, xz: real)
    requires z > 0.0 && x * z == xz && xz == z
    ensures x == 1.0
  {
  }

  /** The sorted logits' probabilities: positive, descending, summing to one. */
  lemma SoftmaxIsDistribution(exp: RealFn, log: RealFn, logits: seq<real>, probs: seq<real>)
    requires ExpLaws(exp, log) && logits != [] && Descending(logits)
    requires Shares(exp, logits, probs, RowTotal(exp, logits, |logits|))
    ensures Descending(probs) && (forall i :: 0 <= i < |probs| ==> probs[i] > 0.0)
    ensures Prefix(probs, |probs|) == 1.0
  {
    var z := RowTotal(exp, logits, |logits|);
    ProbsSumTo(exp, logits, probs, z, |logits|);
    UnitFactor(Prefix(probs, |logits|), z, RowTotal(exp, logits, |logits|));
    forall i, j | 0 <= i <= j < |probs| ensures probs[i] >= probs[j] > 0.0 {
      ProbsOrdered(exp, log, logits, probs, z, i, j);
    }
  }

  lemma ProbsOrdered(exp: RealFn, log: RealFn, logits: seq<real>, probs: seq<real>, z: real, i: nat, j: nat)
    requires ExpLaws(exp, log) && Descending(logits) && Shares(exp, logits, probs, z) && i <= j < |logits|
    ensures probs[i] >= probs[j] > 0.0
  {
    assert MonotoneAt(exp, logits[j], logits[i]) && PositiveAt(exp, logits[j]);
    assert ShareAt(exp, logits, probs, z, i) && ShareAt(exp, logits, probs, z, j);
    FactorOfOrdered(probs[j], probs[i], z, exp(logits[j]), exp(logits[i]));
  }

  lemma QuotientsOrdered(x: real, y: real, z: real)
    requires 0.0 < x <= y && z > 0.0
    ensures 0.0 < x / z <= y / z
  {
  }

  lemma PrefixIsPositive(probs: seq<real>, c: nat)
    requires 0 < c <= |probs| && forall i :: 0 <= i < |probs| ==> probs[i] > 0.0
    ensures Prefix(probs, c) > 0.0
  {
    PrefixGrows(probs, 1, c);
    assert Prefix(probs, 1) == Prefix(probs, 0) + probs[0] == probs[0];
  }

  lemma MaskedIsPositive(exp: RealFn, logits: seq<real>, probs: seq<real>, z: real, c: nat)
    requires Shares(exp, logits, probs, z) && 0 < c <= |logits|
    requires forall i :: 0 <= i < |probs| ==> probs[i] > 0.0
    ensures Prefix(probs, c) > 0.0
    ensures ExpTotal(exp, Masked(logits, c)) == Times(Prefix(probs, c), z) > 0.0
  {
    PrefixIsPositive(probs, c);
    MaskedTotal(exp, logits, c, probs, z, |logits|);
    assert Masked(logits, c)[..|logits|] == Masked(logits, c);
    PositiveTimes(Prefix(probs, c), z);
  }

  lemma PositiveTimes(x: real, y: real)
    requires x > 0.0 && y > 0.0
    ensures Times(x, y) > 0.0
  {
    PositiveProductReal(x, y);
  }

  /** After the mask, softmax gives a kept token its share of the nucleus and every
    * other token nothing. */
  lemma RenormalisedShare(exp: RealFn, logits: seq<real>, probs: seq<real>, z: real, c: nat, i: nat)
    requires Shares(exp, logits, probs, z) && 0 < c <= |logits| && i < |logits|
    requires forall i :: 0 <= i < |probs| ==> probs[i] > 0.0
    ensures Prefix(probs, c) > 0.0 && ExpTotal(exp, Masked(logits, c)) > 0.0
    ensures LaneSoftmax(exp, Masked(logits, c))[i] == if i < c then probs[i] / Prefix(probs, c) else 0.0
  {
    MaskedRatio(exp, logits, probs, z, c, i);
    LaneShare(exp, logits, c, i, ExpTotal(exp, Masked(logits, c)));
  }

  lemma LaneShare(exp: RealFn, logits: seq<real>, c: nat, i: nat, total: real)
    requires i < |logits| && c <= |logits| && total == ExpTotal(exp, Masked(logits, c)) > 0.0
    ensures LaneSoftmax(exp, Masked(logits, c))[i] == if i < c then exp(logits[i]) / total else 0.0
  {
    SelfQuotient(total);
  }

  /** A token's exponential over the masked total is its probability over the kept mass. */
  lemma MaskedRatio(exp: RealFn, logits: seq<real>, probs: seq<real>, z: real, c: nat, i: nat)
    requires Shares(exp, logits, probs, z) && 0 < c <= |logits| && i < |logits|
    requires forall j :: 0 <= j < |probs| ==> probs[j] > 0.0
    ensures Prefix(probs, c) > 0.0 && ExpTotal(exp, Masked(logits, c)) > 0.0
    ensures exp(logits[i]) / ExpTotal(exp, Masked(logits, c)) == probs[i] / Prefix(probs, c)
  {
    MaskedIsPositive(exp, logits, probs, z, c);
    assert ShareAt(exp, logits, probs, z, i);
    RatioOfProducts(probs[i], Prefix(probs, c), z, exp(logits[i]), ExpTotal(exp, Masked(logits, c)));
  }

  lemma AllShares(exp: RealFn, logits: seq<real>, probs: seq<real>, z: real, c: nat)
    requires Shares(exp, logits, probs, z) && 0 < c <= |logits|
    requires forall i :: 0 <= i < |probs| ==> probs[i] > 0.0
    ensures ExpTotal(exp, Masked(logits, c)) > 0.0
    ensures AreShares(LaneSoftmax(exp, Masked(logits, c)), probs, c)
  {
    MaskedIsPositive(exp, logits, probs, z, c);
    var weights := LaneSoftmax(exp, Masked(logits, c));
    forall i | 0 <= i < |probs| ensures weights[i] == if i < c then probs[i] / Prefix(probs, c) else 0.0 {
      RenormalisedShare(exp, logits, probs, z, c, i);
    }
  }

  /** The weights left after filtering with nucleus size `c`. */
  ghost predicate AreShares(weights: seq<real>, probs: seq<real>, c: nat) {
    && 0 < c <= |probs| == |weights| && Prefix(probs, c) > 0.0
    && forall i :: 0 <= i < |probs| ==> weights[i] == if i < c then probs[i] / Prefix(probs, c) else 0.0
  }

  lemma AddQuotients(x: real, y: real, z: real)
    requires z > 0.0
    ensures x / z + y / z == (x + y) / z
  {
  }

  lemma {:induction false} SharesSum(weights: seq<real>, probs: seq<real>, c: nat, n: nat)
    requires AreShares(weights, probs, c) && n <= |probs|
    ensures Prefix(weights, n) == Prefix(probs, Min(n, c)) / Prefix(probs, c)
  {
    if n > 0 {
      SharesSum(weights, probs, c, n - 1);
      if n <= c {
        AddQuotients(Prefix(probs, n - 1), probs[n - 1], Prefix(probs, c));
      }
    }
  }

  /** The renormalised weights sum to one. */
  lemma SharesSumToOne(weights: seq<real>, probs: seq<real>, c: nat)
    requires AreShares(weights, probs, c)
    ensures Prefix(weights, |weights|) == 1.0 && weights[0] == probs[0] / Prefix(probs, c)
  {
    SharesSum(weights, probs, c, |weights|);
    SelfQuotient(Prefix(probs, c));
  }

  lemma SelfQuotient(z: real)
    requires z != 0.0
    ensures z / z == 1.0 && 0.0 / z == 0.0
  {
  }

  /** A sampler of a rank from weights: never one of weight zero. */
  predicate SamplesFrom(w: seq<real>, rank: nat) {
    (exists i :: 0 <= i < |w| && w[i] > 0.0) ==> rank < |w| && w[rank] > 0.0
  }

  ghost predicate IsSampler(draw: seq<real> -> nat) {
    forall w :: SamplesFrom(w, draw(w))
  }

  /** Probabilities of logits by softmax, as shares of their total. */
  method Probabilities(logits: seq<real>, exp: RealFn, ghost log: RealFn) returns (probs: seq<real>)
    requires ExpLaws(exp, log) && logits != []
    ensures Shares(exp, logits, probs, RowTotal(exp, logits, |logits|))
  {
    PositiveTotal(exp, log, logits, |logits|);
    var z := RowTotal(exp, logits, |logits|);
    probs := seq(|logits|, i requires 0 <= i < |logits| => exp(logits[i]) / z);
    forall i | 0 <= i < |logits| ensures ShareAt(exp, logits, probs, z, i) {
      QuotientTimes(exp(logits[i]), z, exp(logits[i]) / z);
    }
  }

  /** Filter in place, then softmax again: the weights the sampler sees. */
  method FilteredWeights(logits: seq<real>, probs: seq<real>, topP: real, exp: RealFn, ghost log: RealFn)
    returns (weights: seq<real>)
    requires ExpLaws(exp, log) && logits != [] && Descending(logits)
    requires Shares(exp, logits, probs, RowTotal(exp, logits, |logits|))
    ensures AreShares(weights, probs, NucleusSize(probs, topP))
  {
    ghost var z, c := RowTotal(exp, logits, |logits|), NucleusSize(probs, topP);
    SoftmaxIsDistribution(exp, log, logits, probs);
    NucleusIsPrefix(probs, topP);
    var sortedLogits := new Ext[|logits|](i requires 0 <= i < |logits| => Fin(logits[i]));
    ApplyTopP(sortedLogits, probs, topP);
    assert sortedLogits[..] == Masked(logits, c);
    AllShares(exp, logits, probs, z, c);
    weights := LaneSoftmax(exp, sortedLogits[..]);
  }

  /** A bound below zero keeps the likeliest token alone; one that the whole mass does not
    * exceed keeps every token. */
  lemma SizeOutsideTheMass(probs: seq<real>, topP: real)
    requires NonNegative(probs) && probs != []
    ensures topP < 0.0 ==> NucleusSize(probs, topP) == 1
    ensures Prefix(probs, |probs|) <= topP ==> NucleusSize(probs, topP) == |probs|
  {
    NucleusIsPrefix(probs, topP);
    if topP < 0.0 && |probs| > 1 {
      PrefixGrows(probs, 0, 1);
      assert !Kept(probs, topP, 1);
    }
    if Prefix(probs, |probs|) <= topP {
      PrefixGrows(probs, |probs| - 1, |probs|);
      assert Kept(probs, topP, |probs| - 1);
    }
  }

  /** A set's size is the number of its tokens. */
  lemma {:induction false} SelectedIsCardinality(sel: Selection)
    ensures Selected(sel) == |set i | 0 <= i < |sel| && sel[i]|
  {
    var chosen := set i | 0 <= i < |sel| && sel[i];
    if sel == [] {
      assert chosen == {};
    } else {
      SelectedIsCardinality(Front(sel));
      var before := set i | 0 <= i < |Front(sel)| && Front(sel)[i];
      if Last(sel) {
        assert chosen == before + {|sel| - 1};
      } else {
        assert chosen == before;
      }
    }
  }

  // ---------------------------------------------------------------------
  // By token id
  // ---------------------------------------------------------------------

  /** `sorted` is the logits by token id, likeliest first, and `indices` their ids. */
  ghost predicate IsSortOf(sorted: seq<real>, indices: seq<nat>, logits: seq<real>) {
    && IsPermutation(indices) && |indices| == |logits|
    && (forall i :: 0 <= i < |indices| ==> indices[i] < |logits|)
    && |sorted| == |logits| && (forall i :: 0 <= i < |sorted| ==> sorted[i] == logits[indices[i]])
    && sorted == Gather(logits, indices) && Descending(sorted)
  }

  function Exps(exp: RealFn, row: seq<real>): seq<real> {
    seq(|row|, i requires 0 <= i < |row| => exp(row[i]))
  }

  lemma {:induction false} TotalIsPrefix(exp: RealFn, row: seq<real>, k: nat)
    requires k <= |row|
    ensures RowTotal(exp, row, k) == Prefix(Exps(exp, row), k)
  {
    if k > 0 {
      TotalIsPrefix(exp, row, k - 1);
    }
  }

  lemma TotalIgnoresOrder(exp: RealFn, sorted: seq<real>, indices: seq<nat>, logits: seq<real>)
    requires IsSortOf(sorted, indices, logits)
    ensures RowTotal(exp, sorted, |sorted|) == RowTotal(exp, logits, |logits|)
  {
    var all := seq(|logits|, i => true);
    TotalIsPrefix(exp, sorted, |sorted|);
    TotalIsPrefix(exp, logits, |logits|);
    RankMass(all, Exps(exp, logits), indices);
    assert Gather(all, indices) == all && Gather(Exps(exp, logits), indices) == Exps(exp, sorted);
    MassOfAll(all, Exps(exp, logits));
    MassOfAll(all, Exps(exp, sorted));
  }

  lemma SameFactor(x: real, y: real, z: real, xz: real)
    requires z > 0.0 && x * z == xz && y * z == xz
    ensures x == y
  {
  }

  /** The sorted probabilities are those of the tokens, listed by rank. */
  lemma TokenShares(exp: RealFn, sorted: seq<real>, indices: seq<nat>, logits: seq<real>, probs: seq<real>)
      returns (tokenProbs: seq<real>)
    requires IsSortOf(sorted, indices, logits) && Shares(exp, sorted, probs, RowTotal(exp, sorted, |sorted|))
    ensures Shares(exp, logits, tokenProbs, RowTotal(exp, logits, |logits|))
    ensures probs == Gather(tokenProbs, indices)
  {
    TotalIgnoresOrder(exp, sorted, indices, logits);
    var z := RowTotal(exp, logits, |logits|);
    var quotients := seq(|logits|, t requires 0 <= t < |logits| => exp(logits[t]) / z);
    forall t | 0 <= t < |logits| ensures ShareAt(exp, logits, quotients, z, t) {
      QuotientTimes(exp(logits[t]), z, quotients[t]);
    }
    forall i | 0 <= i < |indices| ensures probs[i] == quotients[indices[i]] {
      assert ShareAt(exp, sorted, probs, z, i) && ShareAt(exp, logits, quotients, z, indices[i]);
      SameFactor(probs[i], quotients[indices[i]], z, exp(sorted[i]));
    }
    tokenProbs := quotients;
  }

  /** The kept tokens have more mass than `topP`, and no set of fewer tokens has. */
  ghost predicate SmallestAbove(tokenProbs: seq<real>, probs: seq<real>, size: nat, topP: real) {
    && size <= |probs| && Prefix(probs, size) > topP
    && forall sel: Selection :: |sel| == |tokenProbs| && Mass(sel, tokenProbs) > topP ==> Selected(sel) >= size
  }

  lemma NucleusIsSmallestSet(probs: seq<real>, indices: seq<nat>, tokenProbs: seq<real>, topP: real)
    requires IsPermutation(indices) && |tokenProbs| == |indices| > 0
    requires forall i :: 0 <= i < |indices| ==> indices[i] < |indices|
    requires probs == Gather(tokenProbs, indices) && Descending(probs) && NonNegative(probs) && NonNegative(tokenProbs)
    requires Prefix(probs, |probs|) == 1.0 && 0.0 <= topP < 1.0
    ensures SmallestAbove(tokenProbs, probs, NucleusSize(probs, topP), topP)
  {
    var all := seq(|indices|, i => true);
    SelectionByRank(all, tokenProbs, indices);
    assert Gather(all, indices) == all;
    MassOfAll(all, probs);
    NucleusIsSmallest(probs, topP, all);
    forall sel: Selection | |sel| == |tokenProbs| && Mass(sel, tokenProbs) > topP
      ensures Selected(sel) >= NucleusSize(probs, topP)
    {
      NoSmallerTokenSet(tokenProbs, indices, topP, sel);
    }
  }

  lemma SharesAreNonNegative(exp: RealFn, log: RealFn, logits: seq<real>, probs: seq<real>, z: real)
    requires ExpLaws(exp, log) && Shares(exp, logits, probs, z)
    ensures NonNegative(probs)
  {
    forall i | 0 <= i < |probs| ensures probs[i] >= 0.0 {
      assert ShareAt(exp, logits, probs, z, i) && PositiveAt(exp, logits[i]);
      FactorOfOrdered(probs[i], probs[i], z, exp(logits[i]), exp(logits[i]));
    }
  }

  /** One decode step: filter the sorted logits, renormalise, sample a rank, gather the
    * token id back. The sampled token is one of the smallest set of tokens with more
    * mass than `topP`. */
  method SampleTopP(logits: seq<real>, sorted: seq<real>, indices: seq<nat>, topP: real, exp: RealFn,
                    ghost log: RealFn, draw: seq<real> -> nat)
    returns (token: nat, probs: seq<real>, weights: seq<real>, rank: nat, ghost tokenProbs: seq<real>)
    requires ExpLaws(exp, log) && logits != [] && IsSampler(draw)
    requires IsSortOf(sorted, indices, logits)
    ensures Shares(exp, logits, tokenProbs, RowTotal(exp, logits, |logits|))
    ensures |probs| == |indices| == |tokenProbs|
    ensures forall i :: 0 <= i < |probs| ==> indices[i] < |tokenProbs| && probs[i] == tokenProbs[indices[i]]
    ensures Descending(probs) && Prefix(probs, |probs|) == 1.0
    ensures topP < 0.0 ==> NucleusSize(probs, topP) == 1
    ensures topP >= 1.0 ==> NucleusSize(probs, topP) == |probs|
    ensures 0.0 <= topP < 1.0 ==> SmallestAbove(tokenProbs, probs, NucleusSize(probs, topP), topP)
    ensures NucleusSize(probs, topP) <= |probs| == |weights| && Prefix(probs, NucleusSize(probs, topP)) > 0.0
    ensures forall i :: 0 <= i < |weights| ==>
              weights[i] == if i < NucleusSize(probs, topP) then probs[i] / Prefix(probs, NucleusSize(probs, topP)) else 0.0
    ensures Prefix(weights, |weights|) == 1.0
    ensures rank < NucleusSize(probs, topP) <= |indices| && token == indices[rank] < |indices|
  {
    probs := Probabilities(sorted, exp, log);
    SoftmaxIsDistribution(exp, log, sorted, probs);
    tokenProbs := TokenShares(exp, sorted, indices, logits, probs);
    SharesAreNonNegative(exp, log, logits, tokenProbs, RowTotal(exp, logits, |logits|));
    SizeOutsideTheMass(probs, topP);
    if 0.0 <= topP < 1.0 {
      NucleusIsSmallestSet(probs, indices, tokenProbs, topP);
    }
    weights := FilteredWeights(sorted, probs, topP, exp, log);
    ghost var c := NucleusSize(probs, topP);
    SharesSumToOne(weights, probs, c);
    QuotientsOrdered(probs[0], probs[0], Prefix(probs, c));
    rank := draw(weights);
    assert SamplesFrom(weights, rank);
    token := indices[rank];
  }
}
