/** Interval arithmetic over kernel traces: how much of each reduction ran while a
  * compute kernel did, by merged spans and by pairwise intersection. The reference
  * is the number of instants covered.
  */
module Intervals {
  import opened Arithmetic
  import opened Common
  import opened Instants

  // ---------------------------------------------------------------------
  // Merging
  // ---------------------------------------------------------------------

  predicate SortedByStart(s: seq<Interval>) {
    forall i, j :: 0 <= i <= j < |s| ==> s[i].start <= s[j].start
  }

  /** Increasing spans with a gap between any two. */
  predicate Separated(s: seq<Interval>) {
    && WellFormed(s)
    && forall i, j :: 0 <= i < j < |s| ==> s[i].end < s[j].start
  }

  function AddSpan(spans: seq<Interval>, x: Interval): seq<Interval> {
    if spans != [] && x.start <= Last(spans).end
    then Front(spans) + [Interval(Last(spans).start, Max(Last(spans).end, x.end))]
    else spans + [x]
  }

  function Merged(s: seq<Interval>): seq<Interval> {
    if s == [] then [] else AddSpan(Merged(Front(s)), Last(s))
  }

  /** The merge loop: it grows its last span in place, or opens a new one. */
  method Merge(intervals: seq<Interval>) returns (spans: seq<Interval>)
    ensures spans == Merged(intervals)
  {
    spans := [];
    for i := 0 to |intervals|
      invariant spans == Merged(intervals[..i])
    {
      var x := intervals[i];
      assert Front(intervals[..i + 1]) == intervals[..i];
      if |spans| > 0 && x.start <= spans[|spans| - 1].end {
        var last := spans[|spans| - 1];
        spans := spans[|spans| - 1 := last.(end := Max(last.end, x.end))];
      } else {
        spans := spans + [x];
      }
    }
    assert intervals[..|intervals|] == intervals;
  }

  lemma CoversSnoc(s: seq<Interval>, x: Interval, t: int)
    ensures Covers(s + [x], t) <==> Covers(s, t) || Contains(x, t)
  {
    if Covers(s, t) {
      var i :| 0 <= i < |s| && Contains(s[i], t);
      assert (s + [x])[i] == s[i];
    }
    if Contains(x, t) {
      assert (s + [x])[|s|] == x;
    }
  }

  lemma AddSpanIsUnion(spans: seq<Interval>, x: Interval, t: int)
    requires x.start <= x.end && WellFormed(spans) && (spans != [] ==> Last(spans).start <= x.start)
    ensures Covers(AddSpan(spans, x), t) <==> Covers(spans, t) || Contains(x, t)
  {
    if spans != [] && x.start <= Last(spans).end {
      assert spans == Front(spans) + [Last(spans)];
      CoversSnoc(Front(spans), Last(spans), t);
      CoversSnoc(Front(spans), Interval(Last(spans).start, Max(Last(spans).end, x.end)), t);
    } else {
      CoversSnoc(spans, x, t);
    }
  }

  lemma AddSpanKeepsSeparated(spans: seq<Interval>, x: Interval)
    requires Separated(spans) && x.start <= x.end && (spans != [] ==> Last(spans).start <= x.start)
    ensures Separated(AddSpan(spans, x))
    ensures Last(AddSpan(spans, x)).start <= x.start
  {
    if spans != [] && !(x.start <= Last(spans).end) {
      assert forall i :: 0 <= i < |spans| - 1 ==> spans[i].end < spans[|spans| - 1].start;
    }
  }

  /** Start-sorted intervals merge into strictly separated, increasing spans. */
  lemma {:induction false} MergedIsSeparated(s: seq<Interval>)
    requires SortedByStart(s) && WellFormed(s)
    ensures Separated(Merged(s))
    ensures s != [] ==> Merged(s) != [] && Last(Merged(s)).start <= Last(s).start
  {
    if s != [] {
      var init := Front(s);
      MergedIsSeparated(init);
      assert init != [] ==> Last(init).start <= Last(s).start;
      AddSpanKeepsSeparated(Merged(init), Last(s));
    }
  }

  /** The merged spans cover exactly the instants the intervals cover. */
  lemma {:induction false} MergedCoversTheSame(s: seq<Interval>, t: int)
    requires SortedByStart(s) && WellFormed(s)
    ensures Covers(Merged(s), t) <==> Covers(s, t)
  {
    if s != [] {
      var init, x := Front(s), Last(s);
      MergedIsSeparated(init);
      MergedCoversTheSame(init, t);
      assert init != [] ==> Last(init).start <= x.start;
      AddSpanIsUnion(Merged(init), x, t);
      assert s == init + [x];
      CoversSnoc(init, x, t);
    }
  }

  /** Merging what is merged changes nothing. */
  lemma {:induction false} MergedIsIdempotent(s: seq<Interval>)
    requires Separated(s)
    ensures Merged(s) == s
  {
    if s != [] {
      MergedIsIdempotent(Front(s));
      ApartIsAppended(Front(s), Last(s));
      assert s == Front(s) + [Last(s)];
    }
  }

  lemma ApartIsAppended(spans: seq<Interval>, x: Interval)
    requires spans == [] || Last(spans).end < x.start
    ensures AddSpan(spans, x) == spans + [x]
  {
  }

  predicate Positive(s: seq<Interval>) {
    forall i :: 0 <= i < |s| ==> s[i].start < s[i].end
  }

  lemma CoversTail(s: seq<Interval>, t: int)
    requires Separated(s) && s != []
    ensures Covers(s, t) <==> Contains(s[0], t) || Covers(s[1..], t)
    ensures t <= s[0].end ==> !Covers(s[1..], t)
  {
    if Covers(s, t) {
      var i :| 0 <= i < |s| && Contains(s[i], t);
      assert i > 0 ==> s[1..][i - 1] == s[i];
    }
    if Covers(s[1..], t) {
      var i :| 0 <= i < |s[1..]| && Contains(s[1..][i], t);
      assert s[1..][i] == s[i + 1];
    }
  }

  lemma StartIsCovered(s: seq<Interval>)
    requires Positive(s) && s != []
    ensures Covers(s, s[0].start)
  {
    assert Contains(s[0], s[0].start);
  }

  /** A separated span list of positive spans is determined by what it covers. */
  lemma {:induction false} SpansAreCanonical(s: seq<Interval>, u: seq<Interval>)
    requires Separated(s) && Separated(u) && Positive(s) && Positive(u)
    requires forall t :: Covers(s, t) <==> Covers(u, t)
    ensures s == u
  {
    if s == [] || u == [] {
      if s != [] {
        StartIsCovered(s);
      } else if u != [] {
        StartIsCovered(u);
      }
    } else {
      FirstSpanBounds(s, u);
      FirstSpanBounds(u, s);
      forall t ensures Covers(s[1..], t) <==> Covers(u[1..], t) {
        CoversTail(s, t);
        CoversTail(u, t);
      }
      assert Separated(s[1..]) && Separated(u[1..]) && Positive(s[1..]) && Positive(u[1..]);
      SpansAreCanonical(s[1..], u[1..]);
      assert s == [s[0]] + s[1..] && u == [u[0]] + u[1..];
    }
  }

  lemma FirstSpanBounds(s: seq<Interval>, u: seq<Interval>)
    requires Separated(s) && Separated(u) && Positive(s) && Positive(u) && s != [] && u != []
    requires forall t :: Covers(s, t) <==> Covers(u, t)
    ensures u[0].start <= s[0].start
    ensures u[0].start == s[0].start ==> u[0].end <= s[0].end
  {
    assert Contains(s[0], s[0].start) && Covers(s, s[0].start);
    var i :| 0 <= i < |u| && Contains(u[i], s[0].start);
    assert i > 0 ==> u[0].end < u[i].start;
    if u[0].start == s[0].start && s[0].end < u[0].end {
      assert Contains(u[0], s[0].end) && Covers(u, s[0].end);
      CoversTail(s, s[0].end);
      assert false;
    }
  }

  lemma {:induction false} MergedIsPositive(s: seq<Interval>)
    requires SortedByStart(s) && Positive(s)
    ensures Positive(Merged(s))
  {
    if s != [] {
      MergedIsPositive(Front(s));
      MergedIsSeparated(Front(s));
      AddSpanKeepsPositive(Merged(Front(s)), Last(s));
    }
  }

  lemma AddSpanKeepsPositive(spans: seq<Interval>, x: Interval)
    requires Positive(spans) && x.start < x.end
    ensures Positive(AddSpan(spans, x))
  {
  }

  /** Kernel lists that cover the same instants, however they split and overlap, merge
    * into the same spans. */
  lemma MergedIsCanonical(s: seq<Interval>, u: seq<Interval>)
    requires SortedByStart(s) && Positive(s) && SortedByStart(u) && Positive(u)
    ensures Merged(s) == Merged(u) <==> forall t :: Covers(s, t) <==> Covers(u, t)
  {
    forall t ensures (Covers(Merged(s), t) <==> Covers(s, t)) && (Covers(Merged(u), t) <==> Covers(u, t)) {
      MergedCoversTheSame(s, t);
      MergedCoversTheSame(u, t);
    }
    MergedIsSeparated(s);
    MergedIsSeparated(u);
    MergedIsPositive(s);
    MergedIsPositive(u);
    if forall t :: Covers(s, t) <==> Covers(u, t) {
      SpansAreCanonical(Merged(s), Merged(u));
    }
  }

  // ---------------------------------------------------------------------
  // Intersections
  // ---------------------------------------------------------------------

  /** The length of the intersection of two intervals. */
  function Clip(x: Interval, c: Interval): nat {
    Max(0, Min(x.end, c.end) - Max(x.start, c.start))
  }

  function ClipSum(s: seq<Interval>, c: Interval): nat {
    if s == [] then 0 else ClipSum(Front(s), c) + Clip(Last(s), c)
  }

  /** How many intervals of `s` run at `t`. */
  function Multiplicity(s: seq<Interval>, t: int): nat {
    if s == [] then 0 else Multiplicity(Front(s), t) + (if Contains(Last(s), t) then 1 else 0)
  }

  function MultiplicitySum(s: seq<Interval>, lo: int, hi: int): nat
    decreases hi - lo
  {
    if hi <= lo then 0 else MultiplicitySum(s, lo, hi - 1) + Multiplicity(s, hi - 1)
  }

  function OneCount(x: Interval, lo: int, hi: int): nat
    decreases hi - lo
  {
    if hi <= lo then 0 else OneCount(x, lo, hi - 1) + (if Contains(x, hi - 1) then 1 else 0)
  }

  lemma {:induction false} OneCountIsClip(x: Interval, lo: int, hi: int)
    requires lo <= hi
    ensures OneCount(x, lo, hi) == Clip(x, Interval(lo, hi))
    decreases hi - lo
  {
    if lo < hi {
      OneCountIsClip(x, lo, hi - 1);
    }
  }

  lemma {:induction false} MultiplicitySumSnoc(s: seq<Interval>, lo: int, hi: int)
    requires s != []
    ensures MultiplicitySum(s, lo, hi) == MultiplicitySum(Front(s), lo, hi) + OneCount(Last(s), lo, hi)
    decreases hi - lo
  {
    if lo < hi {
      MultiplicitySumSnoc(s, lo, hi - 1);
    }
  }

  lemma {:induction false} NoMultiplicity(lo: int, hi: int)
    ensures MultiplicitySum([], lo, hi) == 0
    decreases hi - lo
  {
    if lo < hi {
      NoMultiplicity(lo, hi - 1);
    }
  }

  /** Summing intersections counts every instant as often as it is covered. */
  lemma {:induction false} ClipSumCountsInstants(s: seq<Interval>, c: Interval)
    requires c.start <= c.end
    ensures ClipSum(s, c) == MultiplicitySum(s, c.start, c.end)
  {
    if s == [] {
      NoMultiplicity(c.start, c.end);
    } else {
      ClipSumCountsInstants(Front(s), c);
      MultiplicitySumSnoc(s, c.start, c.end);
      OneCountIsClip(Last(s), c.start, c.end);
    }
  }

  lemma {:induction false} CoveredIffMultiplicity(s: seq<Interval>, t: int)
    ensures Covers(s, t) <==> Multiplicity(s, t) > 0
  {
    if s != [] {
      CoveredIffMultiplicity(Front(s), t);
      assert s == Front(s) + [Last(s)];
      CoversSnoc(Front(s), Last(s), t);
    }
  }

  /** The sum of intersections is at least the covered time, and equal to it exactly
    * when no instant of the exchange is covered twice. */
  lemma {:induction false} ClipSumBoundsCovered(s: seq<Interval>, lo: int, hi: int)
    ensures MultiplicitySum(s, lo, hi) >= CoveredCount(s, lo, hi)
    ensures MultiplicitySum(s, lo, hi) == CoveredCount(s, lo, hi) <==>
            forall t :: lo <= t < hi ==> Multiplicity(s, t) <= 1
    decreases hi - lo
  {
    if lo < hi {
      ClipSumBoundsCovered(s, lo, hi - 1);
      CoveredIffMultiplicity(s, hi - 1);
    }
  }

  lemma {:induction false} SeparatedCoverOnce(s: seq<Interval>, t: int)
    requires Separated(s)
    ensures Multiplicity(s, t) <= 1
    ensures s != [] && t >= Last(s).start ==> Multiplicity(Front(s), t) == 0
  {
    if s != [] {
      SeparatedCoverOnce(Front(s), t);
      if t >= Last(s).start {
        CoveredIffMultiplicity(Front(s), t);
        forall i | 0 <= i < |Front(s)| ensures !Contains(Front(s)[i], t) {
          assert s[i].end < s[|s| - 1].start;
        }
      }
    }
  }

  /** Over separated spans, summing intersections is exact. */
  lemma SeparatedClipSumIsCovered(s: seq<Interval>, c: Interval)
    requires Separated(s) && c.start <= c.end
    ensures ClipSum(s, c) == CoveredCount(s, c.start, c.end)
  {
    ClipSumCountsInstants(s, c);
    ClipSumBoundsCovered(s, c.start, c.end);
    forall t ensures Multiplicity(s, t) <= 1 {
      SeparatedCoverOnce(s, t);
    }
  }

  // ---------------------------------------------------------------------
  // The covered time as a measure
  // ---------------------------------------------------------------------

  /** More coverage hides no less: the result grows with the union of the kernels. */
  lemma {:induction false} CoveredCountIsMonotone(s: seq<Interval>, u: seq<Interval>, lo: int, hi: int)
    requires forall t :: Covers(s, t) ==> Covers(u, t)
    ensures CoveredCount(s, lo, hi) <= CoveredCount(u, lo, hi) <= Max(0, hi - lo)
    decreases hi - lo
  {
    if lo < hi {
      CoveredCountIsMonotone(s, u, lo, hi - 1);
    }
  }

  lemma {:induction false} HiddenIsMonotone(comm: seq<Interval>, s: seq<Interval>, u: seq<Interval>)
    requires forall t :: Covers(s, t) ==> Covers(u, t)
    ensures HiddenInstants(comm, s) <= HiddenInstants(comm, u)
  {
    if comm != [] {
      HiddenIsMonotone(Front(comm), s, u);
      CoveredCountIsMonotone(s, u, Last(comm).start, Last(comm).end);
    }
  }

  /** Only the union of the compute kernels matters, however they split it. */
  lemma HiddenDependsOnUnionOnly(comm: seq<Interval>, s: seq<Interval>, u: seq<Interval>)
    requires forall t :: Covers(s, t) <==> Covers(u, t)
    ensures HiddenInstants(comm, s) == HiddenInstants(comm, u)
  {
    HiddenIsMonotone(comm, s, u);
    HiddenIsMonotone(comm, u, s);
  }

  lemma {:induction false} HiddenIsWithinTotal(comm: seq<Interval>, compute: seq<Interval>)
    requires WellFormed(comm)
    ensures HiddenInstants(comm, compute) <= TotalLength(comm)
  {
    if comm != [] {
      HiddenIsWithinTotal(Front(comm), compute);
      CoveredCountIsMonotone(compute, compute, Last(comm).start, Last(comm).end);
    }
  }

  // ---------------------------------------------------------------------
  // The per-trace aggregates
  // ---------------------------------------------------------------------

  datatype Stats = Stats(reductions: nat, commMs: real, overlapMs: real, exposedMs: real)

  const NS_PER_MS := 1000000.0

  /** The first position whose value is beyond `x`, by bisection. */
  method BisectRight(ends: seq<int>, x: int) returns (index: nat)
    requires forall i, j :: 0 <= i <= j < |ends| ==> ends[i] <= ends[j]
    ensures index <= |ends|
    ensures forall i :: 0 <= i < index ==> ends[i] <= x
    ensures forall i :: index <= i < |ends| ==> ends[i] > x
  {
    var lo, hi := 0, |ends|;
    while lo < hi
      invariant 0 <= lo <= hi <= |ends|
      invariant forall i :: 0 <= i < lo ==> ends[i] <= x
      invariant forall i :: hi <= i < |ends| ==> ends[i] > x
    {
      var mid := (lo + hi) / 2;
      if x < ends[mid] {
        hi := mid;
      } else {
        lo := mid + 1;
      }
    }
    index := lo;
  }

  lemma {:induction false} ClipSumRange(s: seq<Interval>, c: Interval, from: nat, to: nat)
    requires from <= to <= |s|
    requires forall i :: from <= i < to ==> Clip(s[i], c) == 0
    ensures ClipSum(s[..to], c) == ClipSum(s[..from], c)
  {
    if from < to {
      ClipSumRange(s, c, from, to - 1);
      assert Front(s[..to]) == s[..to - 1];
    }
  }

  function Ends(spans: seq<Interval>): (ends: seq<int>)
    ensures |ends| == |spans| && forall i :: 0 <= i < |spans| ==> ends[i] == spans[i].end
  {
    seq(|spans|, i requires 0 <= i < |spans| => spans[i].end)
  }

  lemma EndsAreSorted(spans: seq<Interval>)
    requires Separated(spans)
    ensures forall i, j :: 0 <= i <= j < |spans| ==> Ends(spans)[i] <= Ends(spans)[j]
  {
    forall i, j | 0 <= i <= j < |spans| ensures Ends(spans)[i] <= Ends(spans)[j] {
      if i < j {
        assert spans[i].end < spans[j].start <= spans[j].end;
      }
    }
  }

  /** Spans ending by `c`'s start, and spans starting at or after its end, miss `c`. */
  lemma OutsideSpansMiss(spans: seq<Interval>, c: Interval, from: nat, to: nat)
    requires Separated(spans) && from <= to <= |spans|
    requires (forall i :: from <= i < to ==> spans[i].end <= c.start) || (from < to && spans[from].start >= c.end)
    ensures ClipSum(spans[..to], c) == ClipSum(spans[..from], c)
  {
    forall i | from <= i < to ensures Clip(spans[i], c) == 0 {
      if spans[from].start >= c.end && from < i {
        assert spans[from].end < spans[i].start;
      }
    }
    ClipSumRange(spans, c, from, to);
  }

  /** The scan from `index`: spans that begin before the reduction ends. */
  method ScanFrom(spans: seq<Interval>, index: nat, c: Interval) returns (hidden: int, stop: nat)
    requires index <= |spans| && ClipSum(spans[..index], c) == 0
    requires c.start <= c.end && WellFormed(spans)
    requires forall i :: index <= i < |spans| ==> spans[i].end > c.start
    ensures index <= stop <= |spans| && hidden == ClipSum(spans[..stop], c)
    ensures stop < |spans| ==> spans[stop].start >= c.end
  {
    hidden, stop := 0, index;
    while stop < |spans| && spans[stop].start < c.end
      invariant index <= stop <= |spans|
      invariant hidden == ClipSum(spans[..stop], c)
    {
      assert Front(spans[..stop + 1]) == spans[..stop];
      hidden := hidden + (Min(spans[stop].end, c.end) - Max(spans[stop].start, c.start));
      stop := stop + 1;
    }
  }

  /** One reduction's hidden time: its intersections with the spans it meets. */
  method HiddenUnder(spans: seq<Interval>, ends: seq<int>, c: Interval) returns (hidden: int)
    requires Separated(spans) && c.start <= c.end && ends == Ends(spans)
    ensures hidden == CoveredCount(spans, c.start, c.end)
  {
    EndsAreSorted(spans);
    var index := BisectRight(ends, c.start);
    OutsideSpansMiss(spans, c, 0, index);
    assert forall i :: index <= i < |spans| ==> spans[i].end == ends[i];
    var stop;
    hidden, stop := ScanFrom(spans, index, c);
    if stop < |spans| {
      OutsideSpansMiss(spans, c, stop, |spans|);
    }
    assert spans[..|spans|] == spans;
    SeparatedClipSumIsCovered(spans, c);
  }

  method OverlapStats(comm: seq<Interval>, compute: seq<Interval>) returns (stats: Stats)
    requires SortedByStart(compute) && WellFormed(compute) && WellFormed(comm)
    ensures stats.reductions == |comm|
    ensures stats.overlapMs * 1000000.0
         == |set i, t | 0 <= i < |comm| && comm[i].start <= t < comm[i].end && Covers(compute, t) :: (i, t)| as real
    ensures stats.exposedMs * 1000000.0
         == |set i, t | 0 <= i < |comm| && comm[i].start <= t < comm[i].end && !Covers(compute, t) :: (i, t)| as real
    ensures stats.commMs == stats.overlapMs + stats.exposedMs
  {
    HiddenIsWithinTotal(comm, compute);
    InstantsAreCounted(comm, compute);
    if |comm| == 0 {
      return Stats(0, 0.0, 0.0, 0.0);
    }
    var spans := Merge(compute);
    MergedIsSeparated(compute);
    forall t ensures Covers(spans, t) <==> Covers(compute, t) {
      MergedCoversTheSame(compute, t);
    }
    var ends := Ends(spans);
    var overlapNs, totalNs := 0, 0;
    for k := 0 to |comm|
      invariant totalNs == TotalLength(comm[..k])
      invariant overlapNs == HiddenInstants(comm[..k], compute)
    {
      var c := comm[k];
      assert Front(comm[..k + 1]) == comm[..k];
      totalNs := totalNs + (c.end - c.start);
      var hidden := HiddenUnder(spans, ends, c);
      CoveredCountIsMonotone(spans, compute, c.start, c.end);
      CoveredCountIsMonotone(compute, spans, c.start, c.end);
      overlapNs := overlapNs + Min(hidden, c.end - c.start);
    }
    assert comm[..|comm|] == comm;
    stats := Stats(|comm|, totalNs as real / NS_PER_MS, overlapNs as real / NS_PER_MS,
                   (totalNs - overlapNs) as real / NS_PER_MS);
  }

  // ---------------------------------------------------------------------
  // The pairwise form
  // ---------------------------------------------------------------------

  function PairSum(comm: seq<Interval>, compute: seq<Interval>): nat {
    if comm == [] then 0 else PairSum(Front(comm), compute) + ClipSum(compute, Last(comm))
  }

  function MeetingCount(s: seq<Interval>, c: Interval): nat {
    if s == [] then 0 else MeetingCount(Front(s), c) + (if Clip(Last(s), c) > 0 then 1 else 0)
  }

  function PairCount(comm: seq<Interval>, compute: seq<Interval>): nat {
    if comm == [] then 0 else PairCount(Front(comm), compute) + MeetingCount(compute, Last(comm))
  }

  // ---------------------------------------------------------------------
  // What the pairwise form counts
  // ---------------------------------------------------------------------

  /** Both intervals run at some instant. */
  predicate Meet(x: Interval, c: Interval) {
    x.start < x.end && c.start < c.end && x.start < c.end && c.start < x.end
  }

  ghost function MeetingsOf(i: int, c: Interval, s: seq<Interval>): set<(int, int)> {
    set j | 0 <= j < |s| && Meet(s[j], c) :: (i, j)
  }

  ghost function Meetings(comm: seq<Interval>, compute: seq<Interval>): set<(int, int)> {
    set i, j | 0 <= i < |comm| && 0 <= j < |compute| && Meet(compute[j], comm[i]) :: (i, j)
  }

  lemma {:induction false} MeetingsOfSize(i: int, c: Interval, s: seq<Interval>)
    ensures |MeetingsOf(i, c, s)| == MeetingCount(s, c)
  {
    if s == [] {
      assert MeetingsOf(i, c, s) == {};
    } else {
      MeetingsOfSize(i, c, Front(s));
      var last := (i, |s| - 1);
      if Meet(Last(s), c) {
        assert MeetingsOf(i, c, s) == MeetingsOf(i, c, Front(s)) + {last};
      } else {
        assert MeetingsOf(i, c, s) == MeetingsOf(i, c, Front(s));
      }
    }
  }

  lemma {:induction false} PairsAreMeetings(comm: seq<Interval>, compute: seq<Interval>)
    ensures PairCount(comm, compute) == |Meetings(comm, compute)|
  {
    if comm == [] {
      assert Meetings(comm, compute) == {};
    } else {
      var n := |comm| - 1;
      PairsAreMeetings(Front(comm), compute);
      MeetingsOfSize(n, Last(comm), compute);
      assert Meetings(comm, compute) == Meetings(Front(comm), compute) + MeetingsOf(n, Last(comm), compute);
      DisjointSizes(Meetings(Front(comm), compute), MeetingsOf(n, Last(comm), compute));
    }
  }

  ghost function InstantsOf(i: int, j: int, lo: int, hi: int): set<(int, int, int)> {
    set t | lo <= t < hi :: (i, j, t)
  }

  ghost function SharedOf(i: int, c: Interval, s: seq<Interval>): set<(int, int, int)> {
    set j, t | 0 <= j < |s| && c.start <= t < c.end && Contains(s[j], t) :: (i, j, t)
  }

  ghost function Shared(comm: seq<Interval>, compute: seq<Interval>): set<(int, int, int)> {
    set i, j, t | 0 <= i < |comm| && 0 <= j < |compute| && comm[i].start <= t < comm[i].end && Contains(compute[j], t)
      :: (i, j, t)
  }

  lemma {:induction false} InstantsOfSize(i: int, j: int, lo: int, hi: int)
    ensures |InstantsOf(i, j, lo, hi)| == if lo <= hi then hi - lo else 0
    decreases hi - lo
  {
    if hi <= lo {
      assert InstantsOf(i, j, lo, hi) == {};
    } else {
      InstantsOfSize(i, j, lo, hi - 1);
      assert InstantsOf(i, j, lo, hi) == InstantsOf(i, j, lo, hi - 1) + {(i, j, hi - 1)};
    }
  }

  lemma {:induction false} SharedOfSize(i: int, c: Interval, s: seq<Interval>)
    ensures |SharedOf(i, c, s)| == ClipSum(s, c)
  {
    if s == [] {
      assert SharedOf(i, c, s) == {};
    } else {
      var j, x := |s| - 1, Last(s);
      var lo, hi := Max(x.start, c.start), Min(x.end, c.end);
      SharedOfSize(i, c, Front(s));
      InstantsOfSize(i, j, lo, hi);
      LastRegion(i, c, s, lo, hi);
      DisjointSizes(SharedOf(i, c, Front(s)), InstantsOf(i, j, lo, hi));
    }
  }

  lemma LastRegion(i: int, c: Interval, s: seq<Interval>, lo: int, hi: int)
    requires s != [] && lo == Max(Last(s).start, c.start) && hi == Min(Last(s).end, c.end)
    ensures SharedOf(i, c, s) == SharedOf(i, c, Front(s)) + InstantsOf(i, |s| - 1, lo, hi)
    ensures SharedOf(i, c, Front(s)) !! InstantsOf(i, |s| - 1, lo, hi)
  {
    assert forall j :: 0 <= j < |s| - 1 ==> Front(s)[j] == s[j];
  }

  lemma {:induction false} PairSumIsShared(comm: seq<Interval>, compute: seq<Interval>)
    ensures PairSum(comm, compute) == |Shared(comm, compute)|
  {
    if comm == [] {
      assert Shared(comm, compute) == {};
    } else {
      var n := |comm| - 1;
      PairSumIsShared(Front(comm), compute);
      SharedOfSize(n, Last(comm), compute);
      LastExchange(comm, compute);
      DisjointSizes(Shared(Front(comm), compute), SharedOf(n, Last(comm), compute));
    }
  }

  lemma LastExchange(comm: seq<Interval>, compute: seq<Interval>)
    requires comm != []
    ensures Shared(comm, compute) == Shared(Front(comm), compute) + SharedOf(|comm| - 1, Last(comm), compute)
    ensures Shared(Front(comm), compute) !! SharedOf(|comm| - 1, Last(comm), compute)
  {
    assert forall i :: 0 <= i < |comm| - 1 ==> Front(comm)[i] == comm[i];
  }

  /** The nested loops over exchanges and compute regions. */
  method PairwiseOverlap(comm: seq<Interval>, compute: seq<Interval>) returns (pairs: nat, overlap: int)
    ensures pairs == PairCount(comm, compute) && overlap == PairSum(comm, compute)
    ensures pairs == |set i, j | 0 <= i < |comm| && 0 <= j < |compute| && Meet(compute[j], comm[i]) :: (i, j)|
    ensures overlap == |set i, j, t | 0 <= i < |comm| && 0 <= j < |compute|
                                      && comm[i].start <= t < comm[i].end && Contains(compute[j], t) :: (i, j, t)|
  {
    PairsAreMeetings(comm, compute);
    PairSumIsShared(comm, compute);
    pairs, overlap := 0, 0;
    for i := 0 to |comm|
      invariant pairs == PairCount(comm[..i], compute) && overlap == PairSum(comm[..i], compute)
    {
      var exchange := comm[i];
      assert Front(comm[..i + 1]) == comm[..i];
      ghost var pairs0, overlap0 := pairs, overlap;
      for j := 0 to |compute|
        invariant pairs == pairs0 + MeetingCount(compute[..j], exchange)
        invariant overlap == overlap0 + ClipSum(compute[..j], exchange)
      {
        var region := compute[j];
        assert Front(compute[..j + 1]) == compute[..j];
        var span := Min(exchange.end, region.end) - Max(exchange.start, region.start);
        if span > 0 {
          pairs := pairs + 1;
          overlap := overlap + span;
        }
      }
      assert compute[..|compute|] == compute;
    }
    assert comm[..|comm|] == comm;
  }

  /** The pairwise sum never understates the covered time, and equals it exactly when
    * no instant of an exchange lies in two compute regions. */
  lemma {:induction false} PairwiseIsExactIffDisjoint(comm: seq<Interval>, compute: seq<Interval>)
    requires WellFormed(comm)
    ensures PairSum(comm, compute) >= HiddenInstants(comm, compute)
    ensures PairSum(comm, compute) == HiddenInstants(comm, compute) <==>
            forall i, t :: 0 <= i < |comm| && Contains(comm[i], t) ==> Multiplicity(compute, t) <= 1
  {
    if comm != [] {
      var init, c := Front(comm), Last(comm);
      PairwiseIsExactIffDisjoint(init, compute);
      ClipSumCountsInstants(compute, c);
      ClipSumBoundsCovered(compute, c.start, c.end);
      assert forall i :: 0 <= i < |init| ==> init[i] == comm[i];
    }
  }
}
