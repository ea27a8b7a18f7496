/** The two-batch-overlap executor: ops over a state bag, stage executors, the
  * serial run and the interleaved run.
  */
module Operations {
  import opened Common
  import opened StateDicts
  import opened Stages

  // ---------------------------------------------------------------------
  // Ops as deterministic, possibly failing programs over the state bag
  // ---------------------------------------------------------------------

  /** An op is a script of accesses, each chosen from the replies so far; the
    * first access that raises ends it with the accesses before it in force. */
  type Op<!K, !V> = seq<seq<Reply<K, V>> -> Action<K, V>>

  type Stage<!K, !V> = seq<Op<K, V>>

  datatype Outcome<K, V> = Outcome(data: map<K, V>, error: Option<Error<K>>)

  function RunScript<K(==), V>(script: Op<K, V>, replies: seq<Reply<K, V>>, m: map<K, V>): Outcome<K, V> {
    if script == [] then Outcome(m, None)
    else
      var (m', reply) := Step(m, script[0](replies));
      if reply.Raised? then Outcome(m', Some(reply.error))
      else RunScript(script[1..], replies + [reply], m')
  }

  function RunOps<K(==), V>(ops: seq<Op<K, V>>, m: map<K, V>): Outcome<K, V> {
    if ops == [] then Outcome(m, None)
    else
      var o := RunScript(ops[0], [], m);
      if o.error.Some? then o else RunOps(ops[1..], o.data)
  }

  function RunStages<K(==), V>(stages: seq<Stage<K, V>>, m: map<K, V>): Outcome<K, V> {
    if stages == [] then Outcome(m, None)
    else
      var o := RunStages(Front(stages), m);
      if o.error.Some? then o else RunOps(Last(stages), o.data)
  }

  /** Runs one op on the bag itself. */
  method RunOpInPlace<K(==), V>(op: Op<K, V>, state: StateDict<K, V>) returns (error: Option<Error<K>>)
    modifies state
    ensures Outcome(state.data, error) == RunScript(op, [], old(state.data))
  {
    var replies: seq<Reply<K, V>> := [];
    for i := 0 to |op|
      invariant RunScript(op[i..], replies, state.data) == RunScript(op, [], old(state.data))
    {
      var reply := state.Perform(op[i](replies));
      assert op[i..][0] == op[i] && op[i..][1..] == op[i + 1..];
      if reply.Raised? {
        return Some(reply.error);
      }
      replies := replies + [reply];
    }
    return None;
  }

  // ---------------------------------------------------------------------
  // Stage executors
  // ---------------------------------------------------------------------

  datatype Failure<K> =
    | OpRaised(error: Error<K>)
    | AllStagesRan(name: string)
    | LeadDeltaNotZero(delta: int)
    | NegativeDelta(delta: int)
    | EmptyStage
    | OutOfStep

  /** What a stage executor holds, as a value. */
  datatype Track<!K, !V> = Track(name: string, stages: seq<Stage<K, V>>, data: map<K, V>, index: nat)

  predicate Done<K, V>(t: Track<K, V>) {
    t.index >= |t.stages|
  }

  function Advance<K(==), V>(t: Track<K, V>): (Track<K, V>, Option<Failure<K>>) {
    if Done(t) then (t, Some(AllStagesRan(t.name)))
    else
      var o := RunOps(t.stages[t.index], t.data);
      if o.error.Some? then (t.(data := o.data), Some(OpRaised(o.error.value)))
      else (t.(data := o.data, index := t.index + 1), None)
  }

  class StageExecutor<K(==), V> {
    const debugName: string
    const stages: seq<Stage<K, V>>
    const state: StateDict<K, V>
    var index: nat

    constructor (debugName: string, stages: seq<Stage<K, V>>, state: StateDict<K, V>)
      ensures this.state == state
      ensures AsTrack() == Track(debugName, stages, state.data, 0)
    {
      this.debugName, this.stages, this.state, this.index := debugName, stages, state, 0;
    }

    ghost function AsTrack(): Track<K, V>
      reads this, state
    {
      Track(debugName, stages, state.data, index)
    }

    /** Runs the next stage's ops in order, or refuses when all of them ran. */
    method Next() returns (failure: Option<Failure<K>>)
      modifies this`index, state
      ensures (AsTrack(), failure) == Advance(old(AsTrack()))
    {
      if index >= |stages| {
        return Some(AllStagesRan(debugName));
      }
      var stage := stages[index];
      for i := 0 to |stage|
        invariant index == old(index)
        invariant RunOps(stage[i..], state.data) == RunOps(stage, old(state.data))
      {
        assert stage[i..][0] == stage[i] && stage[i..][1..] == stage[i + 1..];
        var error := RunOpInPlace(stage[i], state);
        if error.Some? {
          return Some(OpRaised(error.value));
        }
      }
      index := index + 1;
      return None;
    }
  }

  // ---------------------------------------------------------------------
  // The serial run
  // ---------------------------------------------------------------------

  datatype SerialEnding<K, V> = SerialEnding(data: map<K, V>, failure: Option<Failure<K>>)

  function FailureOf<K>(error: Option<Error<K>>): Option<Failure<K>> {
    match error
    case None => None
    case Some(e) => Some(OpRaised(e))
  }

  /** One stream, nothing interleaved: its ops in order, the yields ignored. */
  function Serial<K(==), V>(ops: seq<Item<Op<K, V>>>, m: map<K, V>): SerialEnding<K, V> {
    if !WellSeparated(ops) then SerialEnding(m, Some(EmptyStage))
    else
      var o := RunOps(OpsOf(ops), m);
      SerialEnding(o.data, FailureOf(o.error))
  }

  lemma {:induction false} RunOpsAppend<K, V>(a: seq<Op<K, V>>, b: seq<Op<K, V>>, m: map<K, V>)
    ensures RunOps(a + b, m) ==
            if RunOps(a, m).error.Some? then RunOps(a, m) else RunOps(b, RunOps(a, m).data)
  {
    if a == [] {
      assert a + b == b;
    } else {
      assert (a + b)[0] == a[0] && (a + b)[1..] == a[1..] + b;
      var o := RunScript(a[0], [], m);
      if o.error.None? {
        RunOpsAppend(a[1..], b, o.data);
      }
    }
  }

  /** Stage by stage is op by op. */
  lemma {:induction false} StagesRunAsTheirOps<K, V>(stages: seq<Stage<K, V>>, m: map<K, V>)
    ensures RunStages(stages, m) == RunOps(Flatten(stages), m)
  {
    if stages != [] {
      StagesRunAsTheirOps(Front(stages), m);
      RunOpsAppend(Flatten(Front(stages)), Last(stages), m);
    }
  }

  method ExecuteOperations<K(==), V>(state: StateDict<K, V>, operations: seq<Item<Op<K, V>>>)
    returns (failure: Option<Failure<K>>)
    modifies state
    ensures SerialEnding(state.data, failure) == Serial(operations, old(state.data))
  {
    var cut := ConvertOperationsToStages(operations);
    if cut.Err? {
      return Some(EmptyStage);
    }
    var executor := new StageExecutor("serial", cut.value, state);
    CutKeepsEveryOp(operations);
    StagesRunAsTheirOps(cut.value, state.data);
    failure := RunToCompletion(executor);
  }

  /** The serial loop: one `Next` per stage. */
  method RunToCompletion<K(==), V>(executor: StageExecutor<K, V>) returns (failure: Option<Failure<K>>)
    requires executor.index == 0
    modifies executor`index, executor.state
    ensures var o := RunStages(executor.stages, old(executor.state.data));
      executor.state.data == o.data && failure == FailureOf(o.error)
  {
    ghost var stages, start := executor.stages, executor.state.data;
    for i := 0 to |executor.stages|
      invariant executor.index == i
      invariant RunStages(stages[..i], start) == Outcome(executor.state.data, None)
    {
      assert Front(stages[..i + 1]) == stages[..i];
      failure := executor.Next();
      if failure.Some? {
        FirstFailureEndsTheRun(stages, i + 1, start);
        return;
      }
    }
    assert stages[..|stages|] == stages;
    failure := None;
  }

  lemma {:induction false} FirstFailureEndsTheRun<K, V>(stages: seq<Stage<K, V>>, i: nat, m: map<K, V>)
    requires i <= |stages| && RunStages(stages[..i], m).error.Some?
    ensures RunStages(stages, m) == RunStages(stages[..i], m)
  {
    if i == |stages| {
      assert stages[..i] == stages;
    } else {
      assert Front(stages)[..i] == stages[..i];
      FirstFailureEndsTheRun(Front(stages), i, m);
    }
  }

  // ---------------------------------------------------------------------
  // The interleaved run
  // ---------------------------------------------------------------------

  /** Which micro-batch a stage belongs to: the lead half is A, the trail half B. */
  datatype Half = Lead | Trail

  type Trace = seq<(Half, nat)>

  /** The two executors side by side, over a bag each or, `shared`, over one bag. */
  datatype Machine<!K, !V> = Machine(
    lead: Track<K, V>, trail: Track<K, V>, shared: bool, failure: Option<Failure<K>>, trace: Trace)

  /** What one half's bag becomes when the other half's becomes `data`. */
  function Seen<K, V>(t: Track<K, V>, shared: bool, data: map<K, V>): Track<K, V> {
    if shared then t.(data := data) else t
  }

  function Tick<K(==), V>(m: Machine<K, V>, half: Half): Machine<K, V> {
    match half
    case Lead =>
      var (t, failure) := Advance(m.lead);
      m.(lead := t, trail := Seen(m.trail, m.shared, t.data), failure := failure,
         trace := if failure.None? then m.trace + [(Lead, m.lead.index)] else m.trace)
    case Trail =>
      var (t, failure) := Advance(m.trail);
      m.(trail := t, lead := Seen(m.lead, m.shared, t.data), failure := failure,
         trace := if failure.None? then m.trace + [(Trail, m.trail.index)] else m.trace)
  }

  /** Stages in the given order, until one fails. */
  function Play<K(==), V>(m: Machine<K, V>, order: seq<Half>): Machine<K, V>
    decreases |order|
  {
    if order == [] || m.failure.Some? then m else Play(Tick(m, order[0]), order[1..])
  }

  function Repeat(half: Half, n: nat): (r: seq<Half>)
    ensures |r| == n && forall i :: 0 <= i < n ==> r[i] == half
  {
    seq(n, _ => half)
  }

  function Alternate(k: nat): (r: seq<Half>)
    ensures |r| == 2 * k && forall i :: 0 <= i < 2 * k ==> r[i] == if i % 2 == 0 then Lead else Trail
  {
    seq(2 * k, i => if i % 2 == 0 then Lead else Trail)
  }

  /** The lead runs `d` stages, then the halves alternate, then the trail drains `d`. */
  function Schedule(n: nat, d: nat): seq<Half> {
    Repeat(Lead, d) + Alternate(if n > d then n - d else 0) + Repeat(Trail, d)
  }

  datatype Ending<K, V> = Ending(lead: map<K, V>, trail: map<K, V>, failure: Option<Failure<K>>, trace: Trace)

  function StartMachine<K(==), V>(
      stagesA: seq<Stage<K, V>>, stagesB: seq<Stage<K, V>>, a: map<K, V>, b: map<K, V>, shared: bool): Machine<K, V> {
    Machine(Track("a", stagesA, a, 0), Track("b", stagesB, b, 0), shared, None, [])
  }

  function EndOf<K(==), V>(m: Machine<K, V>): Ending<K, V> {
    var failure :=
      if m.failure.None? && !(Done(m.lead) && Done(m.trail)) then Some(OutOfStep) else m.failure;
    Ending(m.lead.data, m.trail.data, failure, m.trace)
  }

  /** The interleaved run of two streams over two bags. */
  function Overlapped<K(==), V>(
      opsA: seq<Item<Op<K, V>>>, opsB: seq<Item<Op<K, V>>>, deltaA: int, deltaB: int,
      a: map<K, V>, b: map<K, V>): Ending<K, V> {
    Interleaved(opsA, opsB, deltaA, deltaB, a, b, false)
  }

  function Interleaved<K(==), V>(
      opsA: seq<Item<Op<K, V>>>, opsB: seq<Item<Op<K, V>>>, deltaA: int, deltaB: int,
      a: map<K, V>, b: map<K, V>, shared: bool): Ending<K, V> {
    if deltaA != 0 then Ending(a, b, Some(LeadDeltaNotZero(deltaA)), [])
    else if deltaB < 0 then Ending(a, b, Some(NegativeDelta(deltaB)), [])
    else if !WellSeparated(opsA) || !WellSeparated(opsB) then Ending(a, b, Some(EmptyStage), [])
    else EndOf(Play(StartMachine(Cut(opsA), Cut(opsB), a, b, shared), Schedule(|Cut(opsA)|, deltaB)))
  }

  lemma PlayStep<K, V>(m: Machine<K, V>, order: seq<Half>, rest: seq<Half>, half: Half)
    requires m.failure.None? && order == [half] + rest
    ensures Play(m, order) == Play(Tick(m, half), rest)
  {
    assert order[0] == half && order[1..] == rest;
  }

  lemma PlayOne<K, V>(m: Machine<K, V>, half: Half, n: nat, rest: seq<Half>)
    requires m.failure.None? && n > 0
    ensures Play(m, Repeat(half, n) + rest) == Play(Tick(m, half), Repeat(half, n - 1) + rest)
  {
    var after := Repeat(half, n - 1) + rest;
    assert Repeat(half, n) + rest == [half] + after;
    PlayStep(m, Repeat(half, n) + rest, after, half);
  }

  lemma PlayLead<K, V>(m: Machine<K, V>, k: nat, rest: seq<Half>)
    requires m.failure.None? && k > 0
    ensures Play(m, Alternate(k) + rest) == Play(Tick(m, Lead), [Trail] + (Alternate(k - 1) + rest))
  {
    PlayStep(m, Alternate(k) + rest, [Trail] + (Alternate(k - 1) + rest), Lead);
  }

  /** The two executors hold exactly what the machine says. */
  ghost predicate Mirrors<K, V>(
      a: StageExecutor<K, V>, b: StageExecutor<K, V>, m: Machine<K, V>, failure: Option<Failure<K>>)
    reads a, b, a.state, b.state
  {
    m.lead == a.AsTrack() && m.trail == b.AsTrack() && m.shared == (a.state == b.state) && m.failure == failure
  }

  method TickInPlace<K(==), V>(
      a: StageExecutor<K, V>, b: StageExecutor<K, V>, half: Half, ghost now: Machine<K, V>)
    returns (failure: Option<Failure<K>>, ghost next: Machine<K, V>)
    requires a != b && Mirrors(a, b, now, None)
    modifies a`index, a.state, b`index, b.state
    ensures next == Tick(now, half) && Mirrors(a, b, next, failure)
  {
    next := Tick(now, half);
    match half
    case Lead => failure := a.Next();
    case Trail => failure := b.Next();
  }

  /** `count` stages of one half alone: the head start, and the drain. */
  method RunAlone<K(==), V>(
      a: StageExecutor<K, V>, b: StageExecutor<K, V>, half: Half, count: nat,
      ghost start: Machine<K, V>, ghost rest: seq<Half>)
    returns (failure: Option<Failure<K>>, ghost now: Machine<K, V>)
    requires a != b && Mirrors(a, b, start, None)
    modifies a`index, a.state, b`index, b.state
    ensures Mirrors(a, b, now, failure)
    ensures Play(start, Repeat(half, count) + rest) == if failure.Some? then now else Play(now, rest)
  {
    now, failure := start, None;
    for i := 0 to count
      invariant Mirrors(a, b, now, None)
      invariant Play(start, Repeat(half, count) + rest) == Play(now, Repeat(half, count - i) + rest)
    {
      PlayOne(now, half, count - i, rest);
      failure, now := TickInPlace(a, b, half, now);
      if failure.Some? {
        return;
      }
    }
    failure := None;
    assert Repeat(half, 0) + rest == rest;
  }

  /** `pairs` rounds of one lead stage, then one trail stage. */
  method RunAlternating<K(==), V>(
      a: StageExecutor<K, V>, b: StageExecutor<K, V>, pairs: nat,
      ghost start: Machine<K, V>, ghost rest: seq<Half>)
    returns (failure: Option<Failure<K>>, ghost now: Machine<K, V>)
    requires a != b && Mirrors(a, b, start, None)
    modifies a`index, a.state, b`index, b.state
    ensures Mirrors(a, b, now, failure)
    ensures Play(start, Alternate(pairs) + rest) == if failure.Some? then now else Play(now, rest)
  {
    now, failure := start, None;
    for i := 0 to pairs
      invariant Mirrors(a, b, now, None)
      invariant Play(start, Alternate(pairs) + rest) == Play(now, Alternate(pairs - i) + rest)
    {
      ghost var after := Alternate(pairs - i - 1) + rest;
      PlayLead(now, pairs - i, rest);
      failure, now := TickInPlace(a, b, Lead, now);
      if failure.Some? {
        return;
      }
      PlayStep(now, [Trail] + after, after, Trail);
      failure, now := TickInPlace(a, b, Trail, now);
      if failure.Some? {
        return;
      }
    }
    failure := None;
    assert Alternate(0) + rest == rest;
  }

  method ExecuteOverlappedOperations<K(==), V>(
      stateA: StateDict<K, V>, stateB: StateDict<K, V>,
      operationsA: seq<Item<Op<K, V>>>, operationsB: seq<Item<Op<K, V>>>, deltaA: int, deltaB: int)
    returns (failure: Option<Failure<K>>, ghost trace: Trace)
    modifies stateA, stateB
    ensures Ending(stateA.data, stateB.data, failure, trace)
         == Interleaved(operationsA, operationsB, deltaA, deltaB, old(stateA.data), old(stateB.data), stateA == stateB)
  {
    trace := [];
    if deltaA != 0 {
      return Some(LeadDeltaNotZero(deltaA)), trace;
    }
    if deltaB < 0 {
      return Some(NegativeDelta(deltaB)), trace;
    }
    var cutA := ConvertOperationsToStages(operationsA);
    if cutA.Err? {
      return Some(EmptyStage), trace;
    }
    var cutB := ConvertOperationsToStages(operationsB);
    if cutB.Err? {
      return Some(EmptyStage), trace;
    }
    var executorA := new StageExecutor("a", cutA.value, stateA);
    var executorB := new StageExecutor("b", cutB.value, stateB);
    ghost var now := StartMachine(cutA.value, cutB.value, stateA.data, stateB.data, stateA == stateB);
    failure, now := RunSchedule(executorA, executorB, deltaB, now);
    trace := now.trace;
    if failure.None? && !(executorA.index >= |executorA.stages| && executorB.index >= |executorB.stages|) {
      failure := Some(OutOfStep);
    }
  }

  /** The three counting loops of the interleaved run. */
  method RunSchedule<K(==), V>(
      a: StageExecutor<K, V>, b: StageExecutor<K, V>, delta: nat, ghost start: Machine<K, V>)
    returns (failure: Option<Failure<K>>, ghost now: Machine<K, V>)
    requires a != b && Mirrors(a, b, start, None)
    modifies a`index, a.state, b`index, b.state
    ensures Mirrors(a, b, now, failure)
    ensures now == Play(start, Schedule(|a.stages|, delta))
  {
    var pairs := if |a.stages| > delta then |a.stages| - delta else 0;
    ghost var drain := Repeat(Trail, delta);
    assert Schedule(|a.stages|, delta) == Repeat(Lead, delta) + (Alternate(pairs) + drain);
    failure, now := RunAlone(a, b, Lead, delta, start, Alternate(pairs) + drain);
    if failure.None? {
      failure, now := RunAlternating(a, b, pairs, now, drain);
    }
    if failure.None? {
      assert drain + [] == drain;
      failure, now := RunAlone(a, b, Trail, delta, now, []);
    }
  }
}
