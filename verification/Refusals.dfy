/** Why an interleaved run is refused: for its arguments, before anything runs, or for
  * stage counts that do not fit, where the schedule runs out of stages.
  */
module Refusals {
  import opened Common
  import opened Stages
  import opened Operations
  import opened Schedules
  import opened Coverage

  /** Turns fail only by an op's error or for want of a stage. */
  lemma {:induction false} PlayFails<K(!new), V(!new)>(m: Machine<K, V>, order: seq<Half>)
    requires m.failure.None?
    ensures Play(m, order).failure.Some? ==>
              Play(m, order).failure.value.OpRaised? || Play(m, order).failure.value.AllStagesRan?
    decreases |order|
  {
    if order != [] {
      var next := Tick(m, order[0]);
      if next.failure.None? {
        PlayFails(next, order[1..]);
      }
    }
  }

  /** A bad delta or a bad stream is refused before any stage runs: the deltas first, then
    * the streams, and for nothing else. */
  lemma BadArgumentsAreRefused<K(!new), V(!new)>(
      opsA: seq<Item<Op<K, V>>>, opsB: seq<Item<Op<K, V>>>, deltaA: int, deltaB: int,
      a: map<K, V>, b: map<K, V>, shared: bool)
    ensures var e := Interleaved(opsA, opsB, deltaA, deltaB, a, b, shared);
      && (forall d :: e.failure == Some(LeadDeltaNotZero(d)) <==> d == deltaA != 0)
      && (forall d :: e.failure == Some(NegativeDelta(d)) <==> deltaA == 0 && d == deltaB < 0)
      && (e.failure == Some(EmptyStage) <==>
            deltaA == 0 <= deltaB && !(WellSeparated(opsA) && WellSeparated(opsB)))
      && (!(deltaA == 0 <= deltaB && WellSeparated(opsA) && WellSeparated(opsB)) ==>
            e.lead == a && e.trail == b && e.trace == [])
  {
    if deltaA == 0 <= deltaB && WellSeparated(opsA) && WellSeparated(opsB) {
      PlayFails(StartMachine(Cut(opsA), Cut(opsB), a, b, shared), Schedule(|Cut(opsA)|, deltaB));
    }
  }

  // ---------------------------------------------------------------------
  // Stage counts that do not fit
  // ---------------------------------------------------------------------

  lemma FailureSticks<K(!new), V(!new)>(m: Machine<K, V>, order: seq<Half>, p: nat)
    requires p <= |order| && Play(m, order[..p]).failure.Some?
    ensures Play(m, order) == Play(m, order[..p])
  {
    assert order == order[..p] + order[p..];
    PlayAppend(m, order[..p], order[p..]);
  }

  /** A turn of a half that has run all its stages ends the run. */
  lemma RunsOutAt<K(!new), V(!new)>(m: Machine<K, V>, order: seq<Half>, p: nat, a: map<K, V>, b: map<K, V>)
    requires Fresh(m) && Sound(m, a, b) && p < |order|
    requires RunStages(m.lead.stages, a).error.None? && RunStages(m.trail.stages, b).error.None?
    requires Count(order[..p], Lead) <= |m.lead.stages| && Count(order[..p], Trail) <= |m.trail.stages|
    requires match order[p]
             case Lead => Count(order[..p], Lead) == |m.lead.stages|
             case Trail => Count(order[..p], Trail) == |m.trail.stages|
    ensures Play(m, order).failure == Some(AllStagesRan(if order[p] == Lead then m.lead.name else m.trail.name))
    ensures Play(m, order).trace == TraceOf(order[..p])
  {
    assert order[..p][..p] == order[..p];
    PlaySucceeds(m, order[..p], a, b, p);
    PlayCounts(m, order, p);
    PlayTurn(m, order, p);
    FailureSticks(m, order, p + 1);
  }

  /** With ops that all succeed, what ends a run whose stage counts do not fit: the lead
    * out of stages in a head start longer than its stream, the trail out of stages when
    * it is the shorter one, or a trail with stages left. */
  lemma MismatchedStagesEnd<K(!new), V(!new)>(
      opsA: seq<Item<Op<K, V>>>, opsB: seq<Item<Op<K, V>>>, deltaB: nat, a: map<K, V>, b: map<K, V>)
    requires WellSeparated(opsA) && WellSeparated(opsB)
    requires Serial(opsA, a).failure.None? && Serial(opsB, b).failure.None?
    ensures var n, k := |Cut(opsA)|, |Cut(opsB)|;
      Overlapped(opsA, opsB, 0, deltaB, a, b).failure
      == if deltaB > n then Some(AllStagesRan("a"))
         else if k < n then Some(AllStagesRan("b"))
         else if k > n then Some(OutOfStep)
         else None
  {
    SerialRunsTheStages(opsA, a);
    SerialRunsTheStages(opsB, b);
    var n, k, m := |Cut(opsA)|, |Cut(opsB)|, StartMachine(Cut(opsA), Cut(opsB), a, b, false);
    if deltaB > n {
      LeadRunsOut(m, n, deltaB, a, b);
    } else if k < n {
      TrailRunsOut(m, n, deltaB, a, b);
    } else {
      TrailIsLeft(m, n, deltaB, a, b);
    }
  }

  lemma LeadRunsOut<K(!new), V(!new)>(m: Machine<K, V>, n: nat, d: nat, a: map<K, V>, b: map<K, V>)
    requires Fresh(m) && Sound(m, a, b) && n == |m.lead.stages| < d
    requires RunStages(m.lead.stages, a).error.None? && RunStages(m.trail.stages, b).error.None?
    ensures Play(m, Schedule(n, d)).failure == Some(AllStagesRan(m.lead.name))
  {
    TurnsByPrefix(n, d, n);
    ScheduleTurn(n, d, n);
    RunsOutAt(m, Schedule(n, d), n, a, b);
  }

  lemma TrailRunsOut<K(!new), V(!new)>(m: Machine<K, V>, n: nat, d: nat, a: map<K, V>, b: map<K, V>)
    requires Fresh(m) && Sound(m, a, b) && d <= n == |m.lead.stages| && |m.trail.stages| < n
    requires RunStages(m.lead.stages, a).error.None? && RunStages(m.trail.stages, b).error.None?
    ensures Play(m, Schedule(n, d)).failure == Some(AllStagesRan(m.trail.name))
  {
    var order, p := Schedule(n, d), Position(n, d, Trail, |m.trail.stages|);
    EventAt(n, d, Trail, |m.trail.stages|);
    TotalTurns(n, d);
    CountGrows(order, Lead, p);
    RunsOutAt(m, order, p, a, b);
  }

  lemma TrailIsLeft<K(!new), V(!new)>(m: Machine<K, V>, n: nat, d: nat, a: map<K, V>, b: map<K, V>)
    requires Fresh(m) && Sound(m, a, b) && d <= n == |m.lead.stages| <= |m.trail.stages|
    requires RunStages(m.lead.stages, a).error.None? && RunStages(m.trail.stages, b).error.None?
    ensures Play(m, Schedule(n, d)).failure.None?
    ensures Done(Play(m, Schedule(n, d)).lead)
    ensures Done(Play(m, Schedule(n, d)).trail) <==> |m.trail.stages| == n
  {
    var order := Schedule(n, d);
    assert order[..|order|] == order;
    TotalTurns(n, d);
    PlaySucceeds(m, order, a, b, |order|);
    PlayCounts(m, order, |order|);
  }
}
