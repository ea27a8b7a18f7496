/** Kernel runs as intervals of instants, and counts of instants as sizes of sets. */
module Instants {
  import opened Common

  /** A kernel's half-open run `[start, end)`. */
  datatype Interval = Interval(start: int, end: int)

  predicate Contains(x: Interval, t: int) {
    x.start <= t < x.end
  }

  predicate Covers(s: seq<Interval>, t: int) {
    exists i :: 0 <= i < |s| && Contains(s[i], t)
  }

  predicate WellFormed(s: seq<Interval>) {
    forall i :: 0 <= i < |s| ==> s[i].start <= s[i].end
  }

  /** The instants of `[lo, hi)` at which some interval of `s` runs. */
  function CoveredCount(s: seq<Interval>, lo: int, hi: int): nat
    decreases hi - lo
  {
    if hi <= lo then 0 else CoveredCount(s, lo, hi - 1) + (if Covers(s, hi - 1) then 1 else 0)
  }

  /** The reference: over all reductions, the instants hidden under compute. */
  function HiddenInstants(comm: seq<Interval>, compute: seq<Interval>): nat {
    if comm == [] then 0
    else HiddenInstants(Front(comm), compute) + CoveredCount(compute, Last(comm).start, Last(comm).end)
  }

  function TotalLength(comm: seq<Interval>): int {
    if comm == [] then 0 else TotalLength(Front(comm)) + (Last(comm).end - Last(comm).start)
  }

  // ---------------------------------------------------------------------
  // The counts are sizes of sets
  // ---------------------------------------------------------------------

  /** The pairs of a reduction and an instant of it at which a compute kernel runs. */
  ghost function HiddenAt(comm: seq<Interval>, compute: seq<Interval>): set<(int, int)> {
    set i, t | 0 <= i < |comm| && comm[i].start <= t < comm[i].end && Covers(compute, t) :: (i, t)
  }

  /** And those at which none does. */
  ghost function ExposedAt(comm: seq<Interval>, compute: seq<Interval>): set<(int, int)> {
    set i, t | 0 <= i < |comm| && comm[i].start <= t < comm[i].end && !Covers(compute, t) :: (i, t)
  }

  ghost function CoveredAt(i: int, s: seq<Interval>, lo: int, hi: int): set<(int, int)> {
    set t | lo <= t < hi && Covers(s, t) :: (i, t)
  }

  ghost function UncoveredAt(i: int, s: seq<Interval>, lo: int, hi: int): set<(int, int)> {
    set t | lo <= t < hi && !Covers(s, t) :: (i, t)
  }

  lemma {:induction false} CoveredSize(i: int, s: seq<Interval>, lo: int, hi: int)
    ensures |CoveredAt(i, s, lo, hi)| == CoveredCount(s, lo, hi)
    ensures |UncoveredAt(i, s, lo, hi)| == (if lo <= hi then hi - lo else 0) - CoveredCount(s, lo, hi)
    decreases hi - lo
  {
    if hi <= lo {
      assert CoveredAt(i, s, lo, hi) == {} && UncoveredAt(i, s, lo, hi) == {};
    } else {
      CoveredSize(i, s, lo, hi - 1);
      var last := (i, hi - 1);
      if Covers(s, hi - 1) {
        assert CoveredAt(i, s, lo, hi) == CoveredAt(i, s, lo, hi - 1) + {last};
        assert UncoveredAt(i, s, lo, hi) == UncoveredAt(i, s, lo, hi - 1);
      } else {
        assert CoveredAt(i, s, lo, hi) == CoveredAt(i, s, lo, hi - 1);
        assert UncoveredAt(i, s, lo, hi) == UncoveredAt(i, s, lo, hi - 1) + {last};
      }
    }
  }

  lemma DisjointSizes<T>(a: set<T>, b: set<T>)
    requires a !! b
    ensures |a + b| == |a| + |b|
  {
  }

  /** The hidden time is the number of hidden instants, reduction by reduction; what is
    * left of the total is the number of exposed ones. */
  lemma {:induction false} InstantsAreCounted(comm: seq<Interval>, compute: seq<Interval>)
    requires WellFormed(comm)
    ensures HiddenInstants(comm, compute) == |HiddenAt(comm, compute)|
    ensures TotalLength(comm) - HiddenInstants(comm, compute) == |ExposedAt(comm, compute)|
  {
    if comm == [] {
      assert HiddenAt(comm, compute) == {} && ExposedAt(comm, compute) == {};
    } else {
      var n, c := |comm| - 1, Last(comm);
      InstantsAreCounted(Front(comm), compute);
      CoveredSize(n, compute, c.start, c.end);
      LastReduction(comm, compute);
      DisjointSizes(HiddenAt(Front(comm), compute), CoveredAt(n, compute, c.start, c.end));
      DisjointSizes(ExposedAt(Front(comm), compute), UncoveredAt(n, compute, c.start, c.end));
    }
  }

  lemma LastReduction(comm: seq<Interval>, compute: seq<Interval>)
    requires comm != []
    ensures var n, c := |comm| - 1, Last(comm);
      && HiddenAt(comm, compute) == HiddenAt(Front(comm), compute) + CoveredAt(n, compute, c.start, c.end)
      && HiddenAt(Front(comm), compute) !! CoveredAt(n, compute, c.start, c.end)
      && ExposedAt(comm, compute) == ExposedAt(Front(comm), compute) + UncoveredAt(n, compute, c.start, c.end)
      && ExposedAt(Front(comm), compute) !! UncoveredAt(n, compute, c.start, c.end)
  {
    assert forall i :: 0 <= i < |comm| - 1 ==> Front(comm)[i] == comm[i];
  }
}
