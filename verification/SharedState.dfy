/** The interleaved run over one state bag for both halves: the stages of the two
  * streams, woven together as the schedule has them, run as one stream.
  */
module SharedState {
  import opened Common
  import opened Stages
  import opened Operations
  import opened Schedules

  /** Every event names a stage its half has. */
  predicate Fits(trace: Trace, countA: nat, countB: nat) {
    forall p :: 0 <= p < |trace| ==> trace[p].1 < if trace[p].0 == Lead then countA else countB
  }

  /** The stages the events stand for, in their order. */
  function Woven<K, V>(stagesA: seq<Stage<K, V>>, stagesB: seq<Stage<K, V>>, trace: Trace): (stages: seq<Stage<K, V>>)
    requires Fits(trace, |stagesA|, |stagesB|)
    ensures |stages| == |trace|
  {
    seq(|trace|, p requires 0 <= p < |trace| =>
      if trace[p].0 == Lead then stagesA[trace[p].1] else stagesB[trace[p].1])
  }

  lemma ScheduleFits(n: nat, d: nat)
    requires d <= n
    ensures Fits(TraceOf(Schedule(n, d)), n, n)
  {
    TotalTurns(n, d);
    forall p | 0 <= p < |Schedule(n, d)| ensures TraceOf(Schedule(n, d))[p].1 < n {
      TurnIsWithinTotal(Schedule(n, d), p);
    }
  }

  ghost predicate OneBag<K, V>(m: Machine<K, V>) {
    m.shared && m.lead.data == m.trail.data
  }

  /** A turn of either half runs its stage on the one bag. */
  lemma TickRunsStage<K, V>(m: Machine<K, V>, half: Half)
    requires OneBag(m) && m.failure.None?
    ensures OneBag(Tick(m, half))
    ensures var t, next := if half == Lead then m.lead else m.trail, Tick(m, half);
      !Done(t) ==> var o := RunOps(t.stages[t.index], t.data);
        next.lead.data == o.data && next.failure == FailureOf(o.error)
  {
  }

  lemma OneMoreStage<K, V>(stages: seq<Stage<K, V>>, p: nat, start: map<K, V>)
    requires p < |stages| && RunStages(stages[..p], start).error.None?
    ensures RunStages(stages[..p + 1], start) == RunOps(stages[p], RunStages(stages[..p], start).data)
  {
    assert Front(stages[..p + 1]) == stages[..p];
  }

  /** Before turn `p` the one bag is where the first `p` woven stages take it. */
  lemma {:induction false} PlayIsWoven<K(!new), V(!new)>(
      m: Machine<K, V>, order: seq<Half>, p: nat, stages: seq<Stage<K, V>>, start: map<K, V>)
    requires Fresh(m) && OneBag(m) && m.lead.data == start && p <= |order|
    requires Fits(TraceOf(order), |m.lead.stages|, |m.trail.stages|)
    requires stages == Woven(m.lead.stages, m.trail.stages, TraceOf(order))
    requires Play(m, order[..p]).failure.None?
    ensures OneBag(Play(m, order[..p]))
    ensures RunStages(stages[..p], start) == Outcome(Play(m, order[..p]).lead.data, None)
  {
    if p > 0 {
      assert Play(m, order[..p - 1]).failure.None? by {
        assert order[..p] == order[..p - 1] + [order[p - 1]];
        PlayAppend(m, order[..p - 1], [order[p - 1]]);
      }
      PlayIsWoven(m, order, p - 1, stages, start);
      TurnIsWoven(m, order, p - 1, stages, start);
    }
  }

  lemma TurnIsWoven<K(!new), V(!new)>(
      m: Machine<K, V>, order: seq<Half>, p: nat, stages: seq<Stage<K, V>>, start: map<K, V>)
    requires Fresh(m) && p < |order| && Play(m, order[..p]).failure.None?
    requires Fits(TraceOf(order), |m.lead.stages|, |m.trail.stages|)
    requires stages == Woven(m.lead.stages, m.trail.stages, TraceOf(order))
    requires OneBag(Play(m, order[..p])) && RunStages(stages[..p], start) == Outcome(Play(m, order[..p]).lead.data, None)
    ensures OneBag(Play(m, order[..p + 1]))
    ensures var end := Play(m, order[..p + 1]);
      RunStages(stages[..p + 1], start).data == end.lead.data
      && FailureOf(RunStages(stages[..p + 1], start).error) == end.failure
  {
    PlayTurn(m, order, p);
    PlayCounts(m, order, p);
    assert TraceOf(order)[p] == (order[p], Count(order[..p], order[p]));
    TickRunsStage(Play(m, order[..p]), order[p]);
    OneMoreStage(stages, p, start);
  }

  /** One bag for both halves makes one stream of the two: the run ends, error and all,
    * as the schedule's stages run one after the other on that bag. */
  lemma SharedRunIsOneStream<K(!new), V(!new)>(
      opsA: seq<Item<Op<K, V>>>, opsB: seq<Item<Op<K, V>>>, deltaA: int, deltaB: int, m: map<K, V>)
    requires Accepted(opsA, opsB, deltaA, deltaB)
    ensures |Cut(opsA)| == |Cut(opsB)| >= deltaB >= 0
    ensures Fits(TraceOf(Schedule(|Cut(opsA)|, deltaB)), |Cut(opsA)|, |Cut(opsB)|)
    ensures var e := Interleaved(opsA, opsB, deltaA, deltaB, m, m, true);
      var o := RunStages(Woven(Cut(opsA), Cut(opsB), TraceOf(Schedule(|Cut(opsA)|, deltaB))), m);
      e.lead == e.trail == o.data && e.failure == FailureOf(o.error)
  {
    CutKeepsEveryOp(opsA);
    CutKeepsEveryOp(opsB);
    var n := |Cut(opsA)|;
    ScheduleFits(n, deltaB);
    PlayIsOneStream(StartMachine(Cut(opsA), Cut(opsB), m, m, true), n, deltaB, m);
    FinishedPlayIsDone(StartMachine(Cut(opsA), Cut(opsB), m, m, true), n, deltaB);
  }

  lemma PlayIsOneStream<K(!new), V(!new)>(m: Machine<K, V>, n: nat, d: nat, start: map<K, V>)
    requires Fresh(m) && OneBag(m) && m.lead.data == start
    requires d <= n == |m.lead.stages| == |m.trail.stages|
    ensures Fits(TraceOf(Schedule(n, d)), n, n)
    ensures var end := Play(m, Schedule(n, d));
      var o := RunStages(Woven(m.lead.stages, m.trail.stages, TraceOf(Schedule(n, d))), start);
      end.lead.data == end.trail.data == o.data && end.failure == FailureOf(o.error)
  {
    var order := Schedule(n, d);
    ScheduleFits(n, d);
    var stages := Woven(m.lead.stages, m.trail.stages, TraceOf(order));
    assert order[..|order|] == order && stages[..|stages|] == stages;
    if Play(m, order).failure.None? {
      PlayIsWoven(m, order, |order|, stages, start);
    } else {
      FailureIsWoven(m, order, stages, start);
    }
  }

  lemma FailureIsWoven<K(!new), V(!new)>(
      m: Machine<K, V>, order: seq<Half>, stages: seq<Stage<K, V>>, start: map<K, V>)
    requires Fresh(m) && OneBag(m) && m.lead.data == start
    requires Fits(TraceOf(order), |m.lead.stages|, |m.trail.stages|)
    requires stages == Woven(m.lead.stages, m.trail.stages, TraceOf(order))
    requires Play(m, order).failure.Some?
    ensures OneBag(Play(m, order))
    ensures RunStages(stages, start).data == Play(m, order).lead.data
    ensures FailureOf(RunStages(stages, start).error) == Play(m, order).failure
  {
    assert order[..|order|] == order;
    var p := StopPoint(m, order, |order|);
    PlayIsWoven(m, order, p, stages, start);
    TurnIsWoven(m, order, p, stages, start);
    PlayTurn(m, order, p);
    FirstFailureEndsTheRun(stages, p + 1, start);
  }
}
