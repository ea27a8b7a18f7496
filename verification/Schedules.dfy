/** The interleaved run against the serial one: exactly when it succeeds, what
  * each half's state is when it does not, and which half's error is raised.
  */
module Schedules {
  import opened Common
  import opened StateDicts
  import opened Stages
  import opened Operations

  // ---------------------------------------------------------------------
  // Counting stages in an order
  // ---------------------------------------------------------------------

  function Count(order: seq<Half>, half: Half): nat {
    if order == [] then 0 else Count(Front(order), half) + (if Last(order) == half then 1 else 0)
  }

  function Pairs(n: nat, d: nat): nat {
    if n > d then n - d else 0
  }

  /** How many of the first `p` turns of the schedule are the lead's. */
  function LeadTurns(n: nat, d: nat, p: nat): nat {
    if p <= d then p else if p <= d + 2 * Pairs(n, d) then d + (p - d + 1) / 2 else d + Pairs(n, d)
  }

  lemma {:induction false} TurnsByPrefix(n: nat, d: nat, p: nat)
    requires p <= |Schedule(n, d)|
    ensures Count(Schedule(n, d)[..p], Lead) == LeadTurns(n, d, p)
    ensures Count(Schedule(n, d)[..p], Trail) == p - LeadTurns(n, d, p)
  {
    if p > 0 {
      TurnsByPrefix(n, d, p - 1);
      var order := Schedule(n, d);
      assert Front(order[..p]) == order[..p - 1] && Last(order[..p]) == order[p - 1];
      LeadTurnsStep(n, d, p - 1);
    }
  }

  lemma LeadTurnsStep(n: nat, d: nat, p: nat)
    requires p < |Schedule(n, d)|
    ensures LeadTurns(n, d, p + 1) == LeadTurns(n, d, p) + (if Schedule(n, d)[p] == Lead then 1 else 0)
  {
    ScheduleTurn(n, d, p);
  }

  lemma ScheduleTurn(n: nat, d: nat, p: nat)
    requires p < |Schedule(n, d)|
    ensures Schedule(n, d)[p] ==
            if p < d then Lead
            else if p < d + 2 * Pairs(n, d) then (if (p - d) % 2 == 0 then Lead else Trail)
            else Trail
  {
  }

  lemma TotalTurns(n: nat, d: nat)
    ensures Count(Schedule(n, d), Lead) == Count(Schedule(n, d), Trail) == d + Pairs(n, d)
  {
    var order := Schedule(n, d);
    assert order[..|order|] == order;
    TurnsByPrefix(n, d, |order|);
  }

  /** In every prefix of the schedule the lead is 0 to `d + 1` stages ahead. */
  lemma LeadStaysAhead(n: nat, d: nat, p: nat)
    requires p <= |Schedule(n, d)|
    ensures 0 <= Count(Schedule(n, d)[..p], Lead) - Count(Schedule(n, d)[..p], Trail) <= d + 1
  {
    TurnsByPrefix(n, d, p);
  }

  lemma {:induction false} CountGrows(order: seq<Half>, half: Half, p: nat)
    requires p <= |order|
    ensures Count(order[..p], half) <= Count(order, half)
  {
    if p == |order| {
      assert order[..p] == order;
    } else {
      assert Front(order)[..p] == order[..p];
      CountGrows(Front(order), half, p);
    }
  }

  lemma CountTurn(order: seq<Half>, p: nat)
    requires p < |order|
    ensures Count(order[..p + 1], order[p]) == Count(order[..p], order[p]) + 1
    ensures forall h :: h != order[p] ==> Count(order[..p + 1], h) == Count(order[..p], h)
  {
    assert Front(order[..p + 1]) == order[..p];
  }

  /** A turn's stage is one the half has left to run. */
  lemma TurnIsWithinTotal(order: seq<Half>, p: nat)
    requires p < |order|
    ensures Count(order[..p], order[p]) < Count(order, order[p])
  {
    CountTurn(order, p);
    CountGrows(order, order[p], p + 1);
  }

  /** The (half, stage) events an order stands for. */
  function TraceOf(order: seq<Half>): Trace {
    seq(|order|, p requires 0 <= p < |order| => (order[p], Count(order[..p], order[p])))
  }

  lemma TraceOfTurn(order: seq<Half>, p: nat)
    requires p < |order|
    ensures TraceOf(order[..p + 1]) == TraceOf(order[..p]) + [(order[p], Count(order[..p], order[p]))]
  {
    forall q | 0 <= q < p + 1
      ensures TraceOf(order[..p + 1])[q] == (TraceOf(order[..p]) + [(order[p], Count(order[..p], order[p]))])[q]
    {
      assert order[..p + 1][..q] == order[..q] && (q < p ==> order[..p][..q] == order[..q]);
    }
  }

  // ---------------------------------------------------------------------
  // What every turn keeps: each half stays on the path of its serial run
  // ---------------------------------------------------------------------

  ghost predicate OnSerialPath<K, V>(t: Track<K, V>, start: map<K, V>, error: Option<Error<K>>) {
    && t.index <= |t.stages|
    && match error
       case None => RunStages(t.stages[..t.index], start) == Outcome(t.data, None)
       case Some(_) =>
         && t.index < |t.stages|
         && RunStages(t.stages[..t.index], start).error.None?
         && RunStages(t.stages[..t.index + 1], start) == Outcome(t.data, error)
  }

  ghost predicate Sound<K(!new), V(!new)>(m: Machine<K, V>, a: map<K, V>, b: map<K, V>) {
    && !m.shared
    && match m.failure
    case None => OnSerialPath(m.lead, a, None) && OnSerialPath(m.trail, b, None)
    case Some(OpRaised(e)) =>
      || (OnSerialPath(m.lead, a, Some(e)) && OnSerialPath(m.trail, b, None))
      || (OnSerialPath(m.lead, a, None) && OnSerialPath(m.trail, b, Some(e)))
    case Some(_) =>
      && OnSerialPath(m.lead, a, None) && OnSerialPath(m.trail, b, None)
      && (Done(m.lead) || Done(m.trail))
  }

  lemma AdvanceStaysOnPath<K(!new), V(!new)>(t: Track<K, V>, start: map<K, V>)
    requires OnSerialPath(t, start, None)
    ensures var (t', failure) := Advance(t);
      match failure
      case None => OnSerialPath(t', start, None) && t' == t.(data := t'.data, index := t.index + 1)
      case Some(OpRaised(e)) => OnSerialPath(t', start, Some(e)) && t' == t.(data := t'.data)
      case Some(_) => t' == t && Done(t)
  {
    if !Done(t) {
      assert Front(t.stages[..t.index + 1]) == t.stages[..t.index];
    }
  }

  lemma TickKeepsSound<K(!new), V(!new)>(m: Machine<K, V>, half: Half, a: map<K, V>, b: map<K, V>)
    requires m.failure.None? && Sound(m, a, b)
    ensures Sound(Tick(m, half), a, b)
  {
    match half
    case Lead => AdvanceStaysOnPath(m.lead, a);
    case Trail => AdvanceStaysOnPath(m.trail, b);
  }

  /** Over any order of turns, each half is where its own serial run passes. */
  lemma {:induction false} PlayKeepsSound<K(!new), V(!new)>(
      m: Machine<K, V>, order: seq<Half>, a: map<K, V>, b: map<K, V>)
    requires Sound(m, a, b)
    ensures Sound(Play(m, order), a, b)
    decreases |order|
  {
    if order != [] && m.failure.None? {
      TickKeepsSound(m, order[0], a, b);
      PlayKeepsSound(Tick(m, order[0]), order[1..], a, b);
    }
  }

  lemma {:induction false} PlayAppend<K(!new), V(!new)>(m: Machine<K, V>, x: seq<Half>, y: seq<Half>)
    ensures Play(m, x + y) == Play(Play(m, x), y)
    decreases |x|
  {
    if x == [] {
      assert x + y == y;
    } else if m.failure.None? {
      assert (x + y)[0] == x[0] && (x + y)[1..] == x[1..] + y;
      PlayAppend(Tick(m, x[0]), x[1..], y);
    }
  }

  lemma PlayTurn<K(!new), V(!new)>(m: Machine<K, V>, order: seq<Half>, p: nat)
    requires p < |order| && Play(m, order[..p]).failure.None?
    ensures Play(m, order[..p + 1]) == Tick(Play(m, order[..p]), order[p])
  {
    assert order[..p + 1] == order[..p] + [order[p]];
    PlayAppend(m, order[..p], [order[p]]);
    PlayStep(Play(m, order[..p]), [order[p]], [], order[p]);
  }

  ghost predicate Fresh<K, V>(m: Machine<K, V>) {
    m.lead.index == 0 && m.trail.index == 0 && m.failure.None? && m.trace == []
  }

  /** A turn that succeeds steps its own half's index and adds one event. */
  lemma TickCounts<K(!new), V(!new)>(m: Machine<K, V>, half: Half)
    requires Tick(m, half).failure.None?
    ensures var next := Tick(m, half); var i := if half == Lead then m.lead.index else m.trail.index;
      && next.lead == m.lead.(data := next.lead.data, index := m.lead.index + if half == Lead then 1 else 0)
      && next.trail == m.trail.(data := next.trail.data, index := m.trail.index + if half == Trail then 1 else 0)
      && next.trace == m.trace + [(half, i)]
  {
  }

  /** `now` is `m` after the first `p` turns of the order, none of which failed. */
  ghost predicate HasRun<K, V>(m: Machine<K, V>, now: Machine<K, V>, order: seq<Half>, p: nat)
    requires p <= |order|
  {
    && now.lead == m.lead.(data := now.lead.data, index := Count(order[..p], Lead))
    && now.trail == m.trail.(data := now.trail.data, index := Count(order[..p], Trail))
    && now.trace == TraceOf(order[..p])
  }

  lemma RunsOn<K(!new), V(!new)>(m: Machine<K, V>, now: Machine<K, V>, order: seq<Half>, p: nat)
    requires p < |order| && HasRun(m, now, order, p) && Tick(now, order[p]).failure.None?
    ensures HasRun(m, Tick(now, order[p]), order, p + 1)
  {
    TickCounts(now, order[p]);
    CountTurn(order, p);
    TraceOfTurn(order, p);
  }

  /** Until a turn fails, the machine has run exactly the stages the order names. */
  lemma {:induction false} PlayCounts<K(!new), V(!new)>(m: Machine<K, V>, order: seq<Half>, p: nat)
    requires Fresh(m) && p <= |order| && Play(m, order[..p]).failure.None?
    ensures HasRun(m, Play(m, order[..p]), order, p)
  {
    if p > 0 {
      assert Play(m, order[..p - 1]).failure.None? by {
        assert order[..p] == order[..p - 1] + [order[p - 1]];
        PlayAppend(m, order[..p - 1], [order[p - 1]]);
      }
      PlayCounts(m, order, p - 1);
      PlayTurn(m, order, p - 1);
      RunsOn(m, Play(m, order[..p - 1]), order, p - 1);
    }
  }

  /** A failed run stopped at one turn, everything before it having succeeded. */
  lemma {:induction false} StopPoint<K(!new), V(!new)>(m: Machine<K, V>, order: seq<Half>, q: nat) returns (p: nat)
    requires m.failure.None? && q <= |order| && Play(m, order[..q]).failure.Some?
    ensures p < q && Play(m, order[..p]).failure.None?
    ensures Play(m, order[..q]) == Tick(Play(m, order[..p]), order[p])
  {
    assert order[..q] == order[..q - 1] + [order[q - 1]];
    PlayAppend(m, order[..q - 1], [order[q - 1]]);
    if Play(m, order[..q - 1]).failure.Some? {
      p := StopPoint(m, order, q - 1);
    } else {
      p := q - 1;
      PlayTurn(m, order, p);
    }
  }

  // ---------------------------------------------------------------------
  // Exactly when the interleaved run succeeds
  // ---------------------------------------------------------------------

  /** What the executor asks of its arguments, whatever the ops do. */
  predicate Accepted<T>(opsA: seq<Item<T>>, opsB: seq<Item<T>>, deltaA: int, deltaB: int) {
    && deltaA == 0
    && 0 <= deltaB <= YieldCount(opsA) + 1
    && YieldCount(opsA) == YieldCount(opsB)
    && WellSeparated(opsA)
    && WellSeparated(opsB)
  }

  lemma {:induction false} PrefixOfSuccessSucceeds<K, V>(stages: seq<Stage<K, V>>, i: nat, start: map<K, V>)
    requires i <= |stages| && RunStages(stages, start).error.None?
    ensures RunStages(stages[..i], start).error.None?
  {
    if RunStages(stages[..i], start).error.Some? {
      FirstFailureEndsTheRun(stages, i, start);
    }
  }

  /** With two succeeding serial runs and enough stages, no turn fails. */
  lemma {:induction false} PlaySucceeds<K(!new), V(!new)>(
      m: Machine<K, V>, order: seq<Half>, a: map<K, V>, b: map<K, V>, p: nat)
    requires Fresh(m) && Sound(m, a, b) && p <= |order|
    requires RunStages(m.lead.stages, a).error.None? && RunStages(m.trail.stages, b).error.None?
    requires Count(order, Lead) <= |m.lead.stages| && Count(order, Trail) <= |m.trail.stages|
    ensures Play(m, order[..p]).failure.None?
  {
    if p > 0 {
      PlaySucceeds(m, order, a, b, p - 1);
      PlayCounts(m, order, p - 1);
      PlayKeepsSound(m, order[..p - 1], a, b);
      TurnIsWithinTotal(order, p - 1);
      PlaysOn(m, order, p - 1, a, b, Play(m, order[..p - 1]));
    }
  }

  lemma PlaysOn<K(!new), V(!new)>(
      m: Machine<K, V>, order: seq<Half>, p: nat, a: map<K, V>, b: map<K, V>, now: Machine<K, V>)
    requires p < |order| && now == Play(m, order[..p]) && now.failure.None? && Sound(now, a, b)
    requires RunStages(now.lead.stages, a).error.None? && RunStages(now.trail.stages, b).error.None?
    requires match order[p] case Lead => !Done(now.lead) case Trail => !Done(now.trail)
    ensures Play(m, order[..p + 1]).failure.None?
  {
    PlayTurn(m, order, p);
    TickSucceeds(now, order[p], a, b);
  }

  lemma TickSucceeds<K(!new), V(!new)>(m: Machine<K, V>, half: Half, a: map<K, V>, b: map<K, V>)
    requires m.failure.None? && Sound(m, a, b)
    requires RunStages(m.lead.stages, a).error.None? && RunStages(m.trail.stages, b).error.None?
    requires match half case Lead => !Done(m.lead) case Trail => !Done(m.trail)
    ensures Tick(m, half).failure.None?
  {
    match half
    case Lead => TurnSucceeds(m.lead, a);
    case Trail => TurnSucceeds(m.trail, b);
  }

  lemma TurnSucceeds<K(!new), V(!new)>(t: Track<K, V>, start: map<K, V>)
    requires OnSerialPath(t, start, None) && !Done(t)
    requires RunStages(t.stages, start).error.None?
    ensures Advance(t).1.None?
  {
    PrefixOfSuccessSucceeds(t.stages, t.index + 1, start);
    AdvanceStaysOnPath(t, start);
  }

  lemma SerialRunsTheStages<K, V>(ops: seq<Item<Op<K, V>>>, start: map<K, V>)
    requires WellSeparated(ops)
    ensures Serial(ops, start).data == RunStages(Cut(ops), start).data
    ensures Serial(ops, start).failure == FailureOf(RunStages(Cut(ops), start).error)
    ensures |Cut(ops)| == YieldCount(ops) + 1
  {
    CutKeepsEveryOp(ops);
    StagesRunAsTheirOps(Cut(ops), start);
  }

  /** A track that ran to its end holds its serial run's result. */
  lemma FinishedIsSerial<K(!new), V(!new)>(t: Track<K, V>, start: map<K, V>)
    requires OnSerialPath(t, start, None) && Done(t)
    ensures RunStages(t.stages, start) == Outcome(t.data, None)
  {
    assert t.stages[..t.index] == t.stages;
  }

  lemma SuccessMeansSerial<K(!new), V(!new)>(
      opsA: seq<Item<Op<K, V>>>, opsB: seq<Item<Op<K, V>>>, deltaA: int, deltaB: int, a: map<K, V>, b: map<K, V>)
    requires Overlapped(opsA, opsB, deltaA, deltaB, a, b).failure.None?
    ensures Accepted(opsA, opsB, deltaA, deltaB)
    ensures Serial(opsA, a) == SerialEnding(Overlapped(opsA, opsB, deltaA, deltaB, a, b).lead, None)
    ensures Serial(opsB, b) == SerialEnding(Overlapped(opsA, opsB, deltaA, deltaB, a, b).trail, None)
    ensures Overlapped(opsA, opsB, deltaA, deltaB, a, b).trace == TraceOf(Schedule(|Cut(opsA)|, deltaB))
  {
    SerialRunsTheStages(opsA, a);
    SerialRunsTheStages(opsB, b);
    var m, n := StartMachine(Cut(opsA), Cut(opsB), a, b, false), |Cut(opsA)|;
    FinishedPlay(m, n, deltaB, a, b);
  }

  /** A play that fails nowhere and leaves both tracks done has run all of both. */
  lemma FinishedPlay<K(!new), V(!new)>(m: Machine<K, V>, n: nat, d: nat, a: map<K, V>, b: map<K, V>)
    requires Fresh(m) && Sound(m, a, b) && n == |m.lead.stages|
    requires EndOf(Play(m, Schedule(n, d))).failure.None?
    ensures d <= n == |m.trail.stages|
    ensures RunStages(m.lead.stages, a) == Outcome(Play(m, Schedule(n, d)).lead.data, None)
    ensures RunStages(m.trail.stages, b) == Outcome(Play(m, Schedule(n, d)).trail.data, None)
    ensures Play(m, Schedule(n, d)).trace == TraceOf(Schedule(n, d))
  {
    var order := Schedule(n, d);
    assert order[..|order|] == order;
    PlayKeepsSound(m, order, a, b);
    PlayCounts(m, order, |order|);
    TotalTurns(n, d);
    FinishedIsSerial(Play(m, order).lead, a);
    FinishedIsSerial(Play(m, order).trail, b);
  }

  /** On matching stage counts a play that fails nowhere leaves nothing undone. */
  lemma FinishedPlayIsDone<K(!new), V(!new)>(m: Machine<K, V>, n: nat, d: nat)
    requires Fresh(m) && d <= n == |m.lead.stages| == |m.trail.stages|
    ensures EndOf(Play(m, Schedule(n, d))).failure == Play(m, Schedule(n, d)).failure
  {
    var order := Schedule(n, d);
    assert order[..|order|] == order;
    if Play(m, order).failure.None? {
      PlayCounts(m, order, |order|);
      TotalTurns(n, d);
    }
  }

  /** The interleaved run succeeds exactly when its arguments are accepted and both
    * serial runs succeed; each half then ends as its own serial run does. */
  lemma OverlappedSucceedsExactlyWhenSerialDoes<K(!new), V(!new)>(
      opsA: seq<Item<Op<K, V>>>, opsB: seq<Item<Op<K, V>>>, deltaA: int, deltaB: int, a: map<K, V>, b: map<K, V>)
    ensures Overlapped(opsA, opsB, deltaA, deltaB, a, b).failure.None? <==>
            && Accepted(opsA, opsB, deltaA, deltaB)
            && Serial(opsA, a).failure.None?
            && Serial(opsB, b).failure.None?
    ensures Overlapped(opsA, opsB, deltaA, deltaB, a, b).failure.None? ==>
              && Overlapped(opsA, opsB, deltaA, deltaB, a, b).lead == Serial(opsA, a).data
              && Overlapped(opsA, opsB, deltaA, deltaB, a, b).trail == Serial(opsB, b).data
              && Overlapped(opsA, opsB, deltaA, deltaB, a, b).trace == TraceOf(Schedule(|Cut(opsA)|, deltaB))
  {
    if Overlapped(opsA, opsB, deltaA, deltaB, a, b).failure.None? {
      SuccessMeansSerial(opsA, opsB, deltaA, deltaB, a, b);
    } else if Accepted(opsA, opsB, deltaA, deltaB) && Serial(opsA, a).failure.None? && Serial(opsB, b).failure.None? {
      SerialRunsTheStages(opsA, a);
      SerialRunsTheStages(opsB, b);
      var m, order := StartMachine(Cut(opsA), Cut(opsB), a, b, false), Schedule(|Cut(opsA)|, deltaB);
      assert order[..|order|] == order;
      TotalTurns(|Cut(opsA)|, deltaB);
      PlaySucceeds(m, order, a, b, |order|);
      FinishedPlayIsDone(m, |Cut(opsA)|, deltaB);
    }
  }

  // ---------------------------------------------------------------------
  // What a failed run leaves, and whose error it raises
  // ---------------------------------------------------------------------

  function Completed(trace: Trace, half: Half): nat {
    if trace == [] then 0 else Completed(Front(trace), half) + (if Last(trace).0 == half then 1 else 0)
  }

  lemma {:induction false} CompletedCounts(order: seq<Half>, p: nat, half: Half)
    requires p <= |order|
    ensures Completed(TraceOf(order[..p]), half) == Count(order[..p], half)
  {
    if p > 0 {
      CompletedCounts(order, p - 1, half);
      TraceOfTurn(order, p - 1);
      assert Front(order[..p]) == order[..p - 1];
      assert Front(TraceOf(order[..p])) == TraceOf(order[..p - 1]);
    }
  }

  /** Whatever happens, the turns that succeeded are a prefix of the order. */
  lemma RunShape<K(!new), V(!new)>(m: Machine<K, V>, order: seq<Half>, a: map<K, V>, b: map<K, V>) returns (p: nat)
    requires Fresh(m) && Sound(m, a, b)
    ensures p <= |order| && Sound(Play(m, order), a, b)
    ensures Play(m, order).trace == TraceOf(order[..p])
    ensures Play(m, order).lead == m.lead.(data := Play(m, order).lead.data, index := Count(order[..p], Lead))
    ensures Play(m, order).trail == m.trail.(data := Play(m, order).trail.data, index := Count(order[..p], Trail))
  {
    assert order[..|order|] == order;
    PlayKeepsSound(m, order, a, b);
    p := |order|;
    if Play(m, order).failure.Some? {
      p := StopPoint(m, order, |order|);
    }
    PlayCounts(m, order, p);
  }

  /** `m` is what running some first stages of `ops` serially leaves: the `c`
    * completed ones, and perhaps a part of the next one, cut short by its error. */
  ghost predicate SerialPrefix<K, V>(ops: seq<Item<Op<K, V>>>, start: map<K, V>, c: nat, m: map<K, V>) {
    && c <= |Cut(ops)|
    && RunStages(Cut(ops)[..c], start).error.None?
    && (m == RunStages(Cut(ops)[..c], start).data
        || (Serial(ops, start).failure.Some? && m == Serial(ops, start).data))
  }

  /** Success or abort, each half is at a point of its own serial run, the trace is
    * a prefix of the schedule, and the lead is 0 to `deltaB + 1` stages ahead. */
  lemma EveryEndingIsSerialPrefix<K(!new), V(!new)>(
      opsA: seq<Item<Op<K, V>>>, opsB: seq<Item<Op<K, V>>>, deltaA: int, deltaB: int, a: map<K, V>, b: map<K, V>)
    requires WellSeparated(opsA) && WellSeparated(opsB)
    ensures var e := Overlapped(opsA, opsB, deltaA, deltaB, a, b);
      && SerialPrefix(opsA, a, Completed(e.trace, Lead), e.lead)
      && SerialPrefix(opsB, b, Completed(e.trace, Trail), e.trail)
      && (deltaB >= 0 ==> e.trace <= TraceOf(Schedule(|Cut(opsA)|, deltaB)))
      && (deltaB >= 0 ==> 0 <= Completed(e.trace, Lead) - Completed(e.trace, Trail) <= deltaB + 1)
  {
    if deltaA == 0 && deltaB >= 0 {
      var m, order := StartMachine(Cut(opsA), Cut(opsB), a, b, false), Schedule(|Cut(opsA)|, deltaB);
      var p := RunShape(m, order, a, b);
      CompletedCounts(order, p, Lead);
      CompletedCounts(order, p, Trail);
      LeadStaysAhead(|Cut(opsA)|, deltaB, p);
      TraceOfPrefix(order, p);
      var now := Play(m, order);
      PathIsSerialPrefix(opsA, a, now.lead, now.failure);
      PathIsSerialPrefix(opsB, b, now.trail, now.failure);
    }
  }

  lemma TraceOfPrefix(order: seq<Half>, p: nat)
    requires p <= |order|
    ensures TraceOf(order[..p]) <= TraceOf(order)
  {
    forall q | 0 <= q < p ensures TraceOf(order[..p])[q] == TraceOf(order)[q] {
      assert order[..p][..q] == order[..q];
    }
  }

  lemma PathIsSerialPrefix<K(!new), V(!new)>(
      ops: seq<Item<Op<K, V>>>, start: map<K, V>, t: Track<K, V>, failure: Option<Failure<K>>)
    requires WellSeparated(ops) && t.stages == Cut(ops)
    requires OnSerialPath(t, start, None)
          || (failure.Some? && failure.value.OpRaised? && OnSerialPath(t, start, Some(failure.value.error)))
    ensures SerialPrefix(ops, start, t.index, t.data)
  {
    if !OnSerialPath(t, start, None) {
      FirstFailureEndsTheRun(t.stages, t.index + 1, start);
      SerialRunsTheStages(ops, start);
    }
  }

  /** The first stage at which the serial run raises; the stage count if none does. */
  function FailingStage<K(==), V>(stages: seq<Stage<K, V>>, start: map<K, V>): nat {
    if stages == [] || RunStages(Front(stages), start).error.Some? then
      if stages == [] then 0 else FailingStage(Front(stages), start)
    else if RunStages(stages, start).error.Some? then |stages| - 1
    else |stages|
  }

  lemma {:induction false} FailingStageIsFirst<K, V>(stages: seq<Stage<K, V>>, start: map<K, V>, i: nat)
    requires i <= |stages|
    ensures FailingStage(stages, start) <= |stages|
    ensures RunStages(stages[..i], start).error.None? <==> i <= FailingStage(stages, start)
    ensures RunStages(stages, start).error.None? <==> FailingStage(stages, start) == |stages|
  {
    if stages != [] {
      var init := Front(stages);
      FailingStageIsFirst(init, start, if i < |stages| then i else |init|);
      if i < |stages| {
        assert init[..i] == stages[..i];
        if i == |init| {
          assert init[..i] == init;
        }
      } else {
        assert stages[..i] == stages;
      }
    }
  }

  /** Of two halves that fail at stages `fa` and `fb` of `n`, the lead is reached first. */
  predicate LeadFailsFirst(n: nat, d: nat, fa: nat, fb: nat) {
    fa < n && fa <= fb + d
  }

  /** How far each half is when the run stops: the half that raises at its failing
    * stage, the other where the schedule has brought it by then. */
  function LeadStop(n: nat, d: nat, fa: nat, fb: nat): nat {
    if LeadFailsFirst(n, d, fa, fb) then fa else if fb + d + 1 < n then fb + d + 1 else n
  }

  function TrailStop(n: nat, d: nat, fa: nat, fb: nat): nat {
    if !LeadFailsFirst(n, d, fa, fb) then fb else if fa > d then fa - d else 0
  }

  /** Accepted, a failing run raises the error its schedule reaches first: the
    * lead's when its failing stage is at most `deltaB` after the trail's. */
  lemma RaisesTheFirstErrorReached<K(!new), V(!new)>(
      opsA: seq<Item<Op<K, V>>>, opsB: seq<Item<Op<K, V>>>, deltaA: int, deltaB: int, a: map<K, V>, b: map<K, V>)
    requires Accepted(opsA, opsB, deltaA, deltaB)
    requires Serial(opsA, a).failure.Some? || Serial(opsB, b).failure.Some?
    ensures var fa, fb := FailingStage(Cut(opsA), a), FailingStage(Cut(opsB), b);
      Overlapped(opsA, opsB, deltaA, deltaB, a, b).failure
        == if LeadFailsFirst(|Cut(opsA)|, deltaB, fa, fb) then Serial(opsA, a).failure else Serial(opsB, b).failure
  {
    var l, t := AbortLeaves(opsA, opsB, deltaA, deltaB, a, b);
  }

  /** Whether an accepted failing run is stopped by its lead half. */
  predicate LeadStopsIt<K(==), V>(
      opsA: seq<Item<Op<K, V>>>, opsB: seq<Item<Op<K, V>>>, d: nat, a: map<K, V>, b: map<K, V>) {
    LeadFailsFirst(|Cut(opsA)|, d, FailingStage(Cut(opsA), a), FailingStage(Cut(opsB), b))
  }

  /** What an aborted run has done and what it leaves: the raising half has its whole
    * failed serial run behind it, the other exactly the stages that were its turn. */
  lemma AbortLeaves<K(!new), V(!new)>(
      opsA: seq<Item<Op<K, V>>>, opsB: seq<Item<Op<K, V>>>, deltaA: int, deltaB: int, a: map<K, V>, b: map<K, V>)
      returns (l: nat, t: nat)
    requires Accepted(opsA, opsB, deltaA, deltaB)
    requires Serial(opsA, a).failure.Some? || Serial(opsB, b).failure.Some?
    ensures l == LeadStop(|Cut(opsA)|, deltaB, FailingStage(Cut(opsA), a), FailingStage(Cut(opsB), b))
    ensures t == TrailStop(|Cut(opsA)|, deltaB, FailingStage(Cut(opsA), a), FailingStage(Cut(opsB), b))
    ensures l <= |Cut(opsA)| && t <= |Cut(opsB)| && l + t < |Schedule(|Cut(opsA)|, deltaB)|
    ensures var e := Overlapped(opsA, opsB, deltaA, deltaB, a, b);
      && e.trace == TraceOf(Schedule(|Cut(opsA)|, deltaB)[..l + t])
      && Completed(e.trace, Lead) == l && Completed(e.trace, Trail) == t
    ensures var e := Overlapped(opsA, opsB, deltaA, deltaB, a, b);
      if LeadStopsIt(opsA, opsB, deltaB, a, b)
      then e.failure == Serial(opsA, a).failure && e.lead == Serial(opsA, a).data
           && e.trail == RunStages(Cut(opsB)[..t], b).data
      else e.failure == Serial(opsB, b).failure && e.lead == RunStages(Cut(opsA)[..l], a).data
           && e.trail == Serial(opsB, b).data
  {
    OverlappedSucceedsExactlyWhenSerialDoes(opsA, opsB, deltaA, deltaB, a, b);
    SerialRunsTheStages(opsA, a);
    SerialRunsTheStages(opsB, b);
    var n, m := |Cut(opsA)|, StartMachine(Cut(opsA), Cut(opsB), a, b, false);
    FinishedPlayIsDone(m, n, deltaB);
    l, t := FirstFailure(m, n, deltaB, a, b);
  }

  /** The failing turn of an accepted schedule, read off the two failing stages. */
  lemma FirstFailure<K(!new), V(!new)>(m: Machine<K, V>, n: nat, d: nat, a: map<K, V>, b: map<K, V>)
      returns (l: nat, t: nat)
    requires Fresh(m) && Sound(m, a, b) && d <= n == |m.lead.stages| == |m.trail.stages|
    requires Play(m, Schedule(n, d)).failure.Some?
    ensures l == LeadStop(n, d, FailingStage(m.lead.stages, a), FailingStage(m.trail.stages, b)) <= n
    ensures t == TrailStop(n, d, FailingStage(m.lead.stages, a), FailingStage(m.trail.stages, b)) <= n
    ensures l + t < |Schedule(n, d)|
    ensures var end := Play(m, Schedule(n, d));
      && end.trace == TraceOf(Schedule(n, d)[..l + t])
      && Completed(end.trace, Lead) == l && Completed(end.trace, Trail) == t
    ensures var end := Play(m, Schedule(n, d));
      if LeadFailsFirst(n, d, FailingStage(m.lead.stages, a), FailingStage(m.trail.stages, b))
      then end.failure == FailureOf(RunStages(m.lead.stages, a).error)
           && end.lead.data == RunStages(m.lead.stages, a).data
           && end.trail.data == RunStages(m.trail.stages[..t], b).data
      else end.failure == FailureOf(RunStages(m.trail.stages, b).error)
           && end.lead.data == RunStages(m.lead.stages[..l], a).data
           && end.trail.data == RunStages(m.trail.stages, b).data
  {
    var half, now := StopsWhere(m, n, d, a, b);
    l, t := now.lead.index, now.trail.index;
  }

  /** Everything `now` has run is the first turns of `order`, and the order goes on. */
  ghost predicate StoppedIn<K, V>(now: Machine<K, V>, order: seq<Half>) {
    var p := now.lead.index + now.trail.index;
    && p < |order| && now.trace == TraceOf(order[..p])
    && Completed(now.trace, Lead) == now.lead.index && Completed(now.trace, Trail) == now.trail.index
  }

  lemma StopsWhere<K(!new), V(!new)>(m: Machine<K, V>, n: nat, d: nat, a: map<K, V>, b: map<K, V>)
      returns (half: Half, now: Machine<K, V>)
    requires Fresh(m) && Sound(m, a, b) && d <= n == |m.lead.stages| == |m.trail.stages|
    requires Play(m, Schedule(n, d)).failure.Some?
    ensures now.lead.stages == m.lead.stages && now.trail.stages == m.trail.stages
    ensures now.lead.index == LeadStop(n, d, FailingStage(m.lead.stages, a), FailingStage(m.trail.stages, b)) <= n
    ensures now.trail.index == TrailStop(n, d, FailingStage(m.lead.stages, a), FailingStage(m.trail.stages, b)) <= n
    ensures half == Lead <==> LeadFailsFirst(n, d, FailingStage(m.lead.stages, a), FailingStage(m.trail.stages, b))
    ensures StoppedIn(now, Schedule(n, d))
    ensures FailedHere(now, half, Play(m, Schedule(n, d)), a, b)
  {
    var p;
    p, half, now := FailingTurn(m, n, d, a, b);
    TurnIsStopped(now, n, d, p, half);
    StopIndices(now, half, n, d, a, b);
  }

  lemma TurnIsStopped<K(!new), V(!new)>(now: Machine<K, V>, n: nat, d: nat, p: nat, half: Half)
    requires d <= n && p < |Schedule(n, d)| && half == Schedule(n, d)[p]
    requires now.trace == TraceOf(Schedule(n, d)[..p])
    requires now.lead.index == Count(Schedule(n, d)[..p], Lead) && now.trail.index == Count(Schedule(n, d)[..p], Trail)
    ensures InTurn(half, n, d, now.lead.index, now.trail.index) && StoppedIn(now, Schedule(n, d))
  {
    TurnFacts(n, d, p, half);
  }

  /** How far the halves are when `half` is to run next. */
  predicate InTurn(half: Half, n: nat, d: nat, l: nat, t: nat) {
    if half == Lead then l <= t + d && t == (if l > d then l - d else 0)
    else l == (if t + d + 1 < n then t + d + 1 else n)
  }

  lemma StopIndices<K(!new), V(!new)>(now: Machine<K, V>, half: Half, n: nat, d: nat, a: map<K, V>, b: map<K, V>)
    requires now.failure.None? && Sound(now, a, b) && n == |now.lead.stages| == |now.trail.stages|
    requires InTurn(half, n, d, now.lead.index, now.trail.index)
    requires if half == Lead then now.lead.index == FailingStage(now.lead.stages, a) < n
             else now.trail.index == FailingStage(now.trail.stages, b) < n
    ensures var fa, fb := FailingStage(now.lead.stages, a), FailingStage(now.trail.stages, b);
      && (LeadFailsFirst(n, d, fa, fb) <==> half == Lead)
      && now.lead.index == LeadStop(n, d, fa, fb) && now.trail.index == TrailStop(n, d, fa, fb)
  {
    FailingStageIsFirst(now.lead.stages, a, now.lead.index);
    FailingStageIsFirst(now.trail.stages, b, now.trail.index);
    StopsMatch(n, d, half, now.lead.index, now.trail.index,
               FailingStage(now.lead.stages, a), FailingStage(now.trail.stages, b));
  }

  lemma TurnFacts(n: nat, d: nat, p: nat, half: Half)
    requires d <= n && p < |Schedule(n, d)| && half == Schedule(n, d)[p]
    ensures var order := Schedule(n, d);
      var l, t := Count(order[..p], Lead), Count(order[..p], Trail);
      && l + t == p
      && Completed(TraceOf(order[..p]), Lead) == l && Completed(TraceOf(order[..p]), Trail) == t
      && InTurn(half, n, d, l, t)
  {
    CompletedCounts(Schedule(n, d), p, Lead);
    CompletedCounts(Schedule(n, d), p, Trail);
    TurnsByPrefix(n, d, p);
    TurnCompares(n, d, p);
  }

  lemma FailingTurn<K(!new), V(!new)>(m: Machine<K, V>, n: nat, d: nat, a: map<K, V>, b: map<K, V>)
      returns (p: nat, half: Half, now: Machine<K, V>)
    requires Fresh(m) && Sound(m, a, b) && d <= n == |m.lead.stages| == |m.trail.stages|
    requires Play(m, Schedule(n, d)).failure.Some?
    ensures p < |Schedule(n, d)| && half == Schedule(n, d)[p]
    ensures now.failure.None? && Sound(now, a, b) && now.trace == TraceOf(Schedule(n, d)[..p])
    ensures now.lead.stages == m.lead.stages && now.lead.index == Count(Schedule(n, d)[..p], Lead) <= n
    ensures now.trail.stages == m.trail.stages && now.trail.index == Count(Schedule(n, d)[..p], Trail) <= n
    ensures FailedHere(now, half, Play(m, Schedule(n, d)), a, b)
  {
    var order := Schedule(n, d);
    assert order[..|order|] == order;
    p := StopPoint(m, order, |order|);
    half, now := order[p], Play(m, order[..p]);
    PlayCounts(m, order, p);
    PlayKeepsSound(m, order[..p], a, b);
    TotalTurns(n, d);
    TurnIsWithinTotal(order, p);
    CountGrows(order, Lead, p);
    CountGrows(order, Trail, p);
    TickFails(now, half, a, b);
  }

  lemma StopsMatch(n: nat, d: nat, half: Half, l: nat, t: nat, fa: nat, fb: nat)
    requires l <= fa <= n && t <= fb <= n
    requires InTurn(half, n, d, l, t) && if half == Lead then l == fa < n else t == fb < n
    ensures LeadFailsFirst(n, d, fa, fb) <==> half == Lead
    ensures l == LeadStop(n, d, fa, fb) && t == TrailStop(n, d, fa, fb)
  {
  }

  /** Machine `now` fails at its next turn of `half`, at that half's failing stage, and
    * the other half is left as it was. */
  ghost predicate FailedHere<K(!new), V(!new)>(
      now: Machine<K, V>, half: Half, end: Machine<K, V>, a: map<K, V>, b: map<K, V>)
    requires now.trail.index <= |now.trail.stages| && now.lead.index <= |now.lead.stages|
  {
    && end.trace == now.trace
    && match half
       case Lead =>
         && now.lead.index == FailingStage(now.lead.stages, a) < |now.lead.stages|
         && end.failure == FailureOf(RunStages(now.lead.stages, a).error)
         && end.lead.data == RunStages(now.lead.stages, a).data
         && end.trail.data == RunStages(now.trail.stages[..now.trail.index], b).data
       case Trail =>
         && now.trail.index == FailingStage(now.trail.stages, b) < |now.trail.stages|
         && end.failure == FailureOf(RunStages(now.trail.stages, b).error)
         && end.trail.data == RunStages(now.trail.stages, b).data
         && end.lead.data == RunStages(now.lead.stages[..now.lead.index], a).data
  }

  lemma TickFails<K(!new), V(!new)>(m: Machine<K, V>, half: Half, a: map<K, V>, b: map<K, V>)
    requires m.failure.None? && Sound(m, a, b) && Tick(m, half).failure.Some?
    requires match half case Lead => !Done(m.lead) case Trail => !Done(m.trail)
    ensures FailedHere(m, half, Tick(m, half), a, b)
  {
    match half
    case Lead => FailsAtFailingStage(m.lead, a);
    case Trail => FailsAtFailingStage(m.trail, b);
  }

  /** At a lead turn the trail is `d` behind, or has not begun; at a trail turn the
    * lead is `d + 1` ahead, or through. */
  lemma TurnCompares(n: nat, d: nat, p: nat)
    requires d <= n && p < |Schedule(n, d)|
    ensures var l := LeadTurns(n, d, p); p - l >= 0 && InTurn(Schedule(n, d)[p], n, d, l, p - l)
  {
    ScheduleTurn(n, d, p);
  }

  lemma FailsAtFailingStage<K(!new), V(!new)>(t: Track<K, V>, start: map<K, V>)
    requires OnSerialPath(t, start, None) && !Done(t) && Advance(t).1.Some?
    ensures t.index == FailingStage(t.stages, start)
    ensures Advance(t).1 == FailureOf(RunStages(t.stages, start).error)
    ensures Advance(t).0.data == RunStages(t.stages, start).data
  {
    AdvanceStaysOnPath(t, start);
    FailingStageIsFirst(t.stages, start, t.index);
    FailingStageIsFirst(t.stages, start, t.index + 1);
    FirstFailureEndsTheRun(t.stages, t.index + 1, start);
  }
}
