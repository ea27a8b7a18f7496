/** Where the interleaved run of an EP MoE prefill stops. */
module PrefillStop {
  import opened Common
  import opened StateDicts
  import opened Stages
  import opened Operations
  import opened Schedules
  import opened Strategy
  import opened LayerState

  // ---------------------------------------------------------------------
  // Cutting a bound stream
  // ---------------------------------------------------------------------

  function BindStages<V>(stages: seq<seq<LayerOp>>, compute: Compute<V>): (bound: seq<Stage<Key, V>>)
    ensures |bound| == |stages|
  {
    seq(|stages|, j requires 0 <= j < |stages| => BindOps(stages[j], compute))
  }

  lemma BindOne<V>(op: LayerOp, compute: Compute<V>)
    ensures BindOps([op], compute) == [Bound(op, compute)]
  {
    assert [op][1..] == [];
  }

  lemma BindGrow<V>(stages: seq<seq<LayerOp>>, op: LayerOp, compute: Compute<V>)
    requires stages != []
    ensures BindStages(Grow(stages, [op]), compute) == Grow(BindStages(stages, compute), [Bound(op, compute)])
  {
    BindOpsAppend(Last(stages), [op], compute);
    BindOne(op, compute);
  }

  /** Binding the ops and cutting the stream go either way round. */
  lemma {:induction false} CutOfBound<V>(stream: seq<Item<LayerOp>>, compute: Compute<V>)
    ensures Cut(Bind(stream, compute)) == BindStages(Cut(stream), compute)
  {
    var bound := Bind(stream, compute);
    if stream == [] {
      assert BindStages([[]], compute) == [[]];
    } else {
      var init := Front(stream);
      assert Front(bound) == Bind(init, compute) && Last(bound) == BindItem(Last(stream), compute);
      CutOfBound(init, compute);
      match Last(stream)
      case Yield => assert BindStages(Cut(init) + [[]], compute) == BindStages(Cut(init), compute) + [[]];
      case Exec(op) => BindGrow(Cut(init), op, compute);
    }
  }

  lemma {:induction false} FlattenOfBound<V>(stages: seq<seq<LayerOp>>, compute: Compute<V>)
    ensures Flatten(BindStages(stages, compute)) == BindOps(Flatten(stages), compute)
  {
    if stages != [] {
      assert Front(BindStages(stages, compute)) == BindStages(Front(stages), compute);
      FlattenOfBound(Front(stages), compute);
      BindOpsAppend(Flatten(Front(stages)), Last(stages), compute);
    }
  }

  /** The first `c` stages of a bound stream raise as their keys say. */
  lemma FirstStagesFollowKeys<V>(stream: seq<Item<LayerOp>>, compute: Compute<V>, c: nat, m: map<Key, V>)
    requires c <= |Cut(stream)|
    ensures |Cut(Bind(stream, compute))| == |Cut(stream)|
    ensures var o := RunStages(Cut(Bind(stream, compute))[..c], m);
      KeyRun(o.data.Keys, o.error) == SimulateOps(Flatten(Cut(stream)[..c]), m.Keys)
  {
    CutOfBound(stream, compute);
    assert Cut(Bind(stream, compute))[..c] == BindStages(Cut(stream)[..c], compute);
    StagesRunAsTheirOps(Cut(Bind(stream, compute))[..c], m);
    FlattenOfBound(Cut(stream)[..c], compute);
    OpsFollowKeys(Flatten(Cut(stream)[..c]), compute, m);
  }

  // ---------------------------------------------------------------------
  // The stage that raises
  // ---------------------------------------------------------------------

  /** Layer `f` is the stack's first expert-parallel one. */
  predicate FirstEp(layers: seq<Layer>, f: nat) {
    f < |layers| && layers[f].dispatcher && forall j :: 0 <= j < f ==> !layers[j].dispatcher
  }

  /** The stage of the shared experts of layer `f`: two after its dispatch's launch. */
  function StopStage(layers: seq<Layer>, f: nat): nat
    requires f < |layers|
  {
    LaunchStage(layers, f, Dispatch) + 2
  }

  lemma {:induction false} DenseOnly(layers: seq<Layer>)
    requires forall j :: 0 <= j < |layers| ==> !layers[j].dispatcher
    ensures EpMoeCount(layers) == 0
  {
    if layers != [] {
      DenseOnly(Front(layers));
    }
  }

  lemma FlattenFive<T>(x: seq<seq<T>>, y: seq<seq<T>>)
    requires x != [] && |y| == 5
    ensures Flatten(Front(Seam(x, y))) == Flatten(x) + (y[0] + y[1] + y[2] + y[3])
    ensures Last(Seam(x, y)) == y[4]
  {
    var open := Front(x) + [Last(x) + y[0]];
    assert Front(Seam(x, y)) == open + [y[1]] + [y[2]] + [y[3]];
    FlattenSnoc(Front(x), Last(x) + y[0]);
    FlattenMore(open, y[1], y[2], y[3]);
    assert Flatten(open) == Flatten(x) + y[0];
  }

  lemma FlattenMore<T>(stages: seq<seq<T>>, a: seq<T>, b: seq<T>, c: seq<T>)
    ensures Flatten(stages + [a] + [b] + [c]) == Flatten(stages) + a + b + c
  {
    FlattenSnoc(stages, a);
    FlattenSnoc(stages + [a], b);
    FlattenSnoc(stages + [a] + [b], c);
  }

  /** The stages before the stop hold the layers before `f` and `f`'s ops up to the
    * launch of its combine; the stop stage begins with its shared experts. */
  lemma StagesUpToStop(layers: seq<Layer>, f: nat)
    requires FirstEp(layers, f)
    ensures var stages, c := Cut(Stream(layers, true)), StopStage(layers, f);
      && c < |stages|
      && Flatten(stages[..c]) == OpsOf(Stream(layers[..f], true)) + UpToCombineLaunch(f)
      && [LayerOp(SharedExperts, f), LayerOp(CombineB, f)] <= stages[c]
  {
    var upTo := layers[..f + 1];
    assert Front(upTo) == layers[..f] && Last(upTo) == layers[f];
    StackStageCount(layers[..f], true);
    StagesOfStack(upTo, true);
    StackExtends(layers, f + 1, true);
    CutKeepsEveryOp(Stream(layers[..f], true));
    EpStages(layers[f], f);
    PrefixOfExtension(Cut(Stream(layers[..f], true)), LayerStages(layers[f], f, true), Cut(Stream(layers, true)),
                      StopStage(layers, f));
  }

  lemma EpStages(layer: Layer, f: nat)
    requires layer.dispatcher
    ensures var y := LayerStages(layer, f, true);
      && |y| == 5 && y[0] + y[1] + y[2] + y[3] == UpToCombineLaunch(f)
      && y[4] == [LayerOp(SharedExperts, f), LayerOp(CombineB, f)]
  {
  }

  lemma PrefixOfExtension<T>(x: seq<seq<T>>, y: seq<seq<T>>, z: seq<seq<T>>, c: nat)
    requires x != [] && |y| == 5 && Extends(Seam(x, y), z) && c == |x| + 3
    ensures c < |z| && Flatten(z[..c]) == Flatten(x) + (y[0] + y[1] + y[2] + y[3]) && y[4] <= z[c]
  {
    FlattenFive(x, y);
  }

  /** From `keys`, the first `c` stages of a stream raise nothing and leave `held`; the
    * next one raises. */
  predicate KeysStopAt(stream: seq<Item<LayerOp>>, c: nat, keys: set<Key>, held: set<Key>) {
    && c < |Cut(stream)|
    && SimulateOps(Flatten(Cut(stream)[..c]), keys) == KeyRun(held, None)
    && SimulateOps(Flatten(Cut(stream)[..c + 1]), keys).error.Some?
  }

  lemma StopsAfterTwo(
      stream: seq<Item<LayerOp>>, c: nat, before: seq<LayerOp>, middle: seq<LayerOp>, keys: set<Key>, held: set<Key>)
    requires c < |Cut(stream)| && Flatten(Cut(stream)[..c]) == before + middle
    requires SimulateOps(before, keys) == KeyRun(keys, None) && SimulateOps(middle, keys) == KeyRun(held, None)
    requires SimulateOps(Cut(stream)[c], held).error.Some?
    ensures KeysStopAt(stream, c, keys, held)
  {
    SimulateOpsAppend(before, middle, keys);
    FlattenNext(Cut(stream), c);
    SimulateOpsAppend(before + middle, Cut(stream)[c], keys);
  }

  lemma FlattenNext<T>(stages: seq<seq<T>>, c: nat)
    requires c < |stages|
    ensures Flatten(stages[..c + 1]) == Flatten(stages[..c]) + stages[c]
  {
    assert stages[..c + 1] == stages[..c] + [stages[c]];
    FlattenSnoc(stages[..c], stages[c]);
  }

  lemma KeysAtStop(layers: seq<Layer>, f: nat, keys: set<Key>)
    requires FirstEp(layers, f) && keys == Persistent(true) + Before(Attn)
    ensures KeysStopAt(Stream(layers, true), StopStage(layers, f), keys, HeldAtStop())
  {
    StagesUpToStop(layers, f);
    DenseOnly(layers[..f]);
    StackRuns(layers[..f], true, true);
    UpToCombineLaunchRuns(f);
    SharedExpertsRaise(Cut(Stream(layers, true))[StopStage(layers, f)]);
    StopsAfterTwo(Stream(layers, true), StopStage(layers, f), OpsOf(Stream(layers[..f], true)), UpToCombineLaunch(f),
                  keys, HeldAtStop());
  }

  /** Run over `m`, the stages first raise in stage `c`, and leave `held` before it. */
  ghost predicate FailsAt<V>(bound: seq<Stage<Key, V>>, c: nat, m: map<Key, V>, held: set<Key>) {
    && c < |bound|
    && FailingStage(bound, m) == c
    && RunStages(bound[..c], m).data.Keys == held
  }

  /** A micro-batch's serial run raises where its keys do, whatever its values. */
  lemma FailsWhereKeysDo<V>(stream: seq<Item<LayerOp>>, compute: Compute<V>, c: nat, m: map<Key, V>, held: set<Key>)
    requires KeysStopAt(stream, c, m.Keys, held)
    ensures FailsAt(Cut(Bind(stream, compute)), c, m, held)
  {
    FirstStagesFollowKeys(stream, compute, c, m);
    FirstStagesFollowKeys(stream, compute, c + 1, m);
    FailsBetween(Cut(Bind(stream, compute)), c, m);
  }

  lemma FailsBetween<K, V>(stages: seq<Stage<K, V>>, c: nat, m: map<K, V>)
    requires c < |stages|
    requires RunStages(stages[..c], m).error.None? && RunStages(stages[..c + 1], m).error.Some?
    ensures FailingStage(stages, m) == c
  {
    FailingStageIsFirst(stages, m, c);
    FailingStageIsFirst(stages, m, c + 1);
  }

  lemma FirstEpMeansExpertParallel(layers: seq<Layer>, f: nat)
    requires FirstEp(layers, f)
    ensures ExpertParallel(layers)
  {
    EpCounted(layers, f);
  }

  lemma {:induction false} EpCounted(layers: seq<Layer>, f: nat)
    requires f < |layers| && layers[f].dispatcher
    ensures EpMoeCount(layers) > 0
  {
    if f < |layers| - 1 {
      EpCounted(Front(layers), f);
    }
  }

  /** An interleaved EP MoE prefill stops in the lead's stage of the first EP layer's
    * shared experts, right after the trail's stage before it, both halves holding the
    * experts' output. */
  lemma EpPrefillStops<V(!new)>(layers: seq<Layer>, f: nat, compute: Compute<V>, a: map<Key, V>, b: map<Key, V>)
    requires InitNewTbo(layers, true).Ok? && FirstEp(layers, f)
    requires a.Keys == InitialKeys(layers) == b.Keys
    ensures var s := InitNewTbo(layers, true).value;
      var ops := Bind(s.operations, compute);
      StopsAt(Overlapped(ops, ops, 0, s.deltaStages, a, b), 1 + Base(layers), StopStage(layers, f), HeldAtStop())
  {
    BuiltOperations(layers, true);
    StackIsAccepted(layers, true);
    BoundStreamIsAccepted(layers, true, compute);
    FirstEpMeansExpertParallel(layers, f);
    KeysAtStop(layers, f, a.Keys);
    FailsWhereKeysDo(Stream(layers, true), compute, StopStage(layers, f), a, HeldAtStop());
    FailsWhereKeysDo(Stream(layers, true), compute, StopStage(layers, f), b, HeldAtStop());
    StreamPass(layers, true, compute, a);
    StreamPass(layers, true, compute, b);
    BothFailAt(Bind(Stream(layers, true), compute), 1 + Base(layers), StopStage(layers, f), HeldAtStop(), a, b);
  }

  ghost predicate StopsAt<V>(e: Ending<Key, V>, n: nat, c: nat, held: set<Key>) {
    && e.failure == Some(OpRaised(NoAttribute(MlpInput)))
    && c + c < |Schedule(n, 0)| && e.trace == TraceOf(Schedule(n, 0)[..c + c])
    && Completed(e.trace, Lead) == Completed(e.trace, Trail) == c
    && e.lead.Keys == e.trail.Keys == held
  }

  lemma BothFailAt<V(!new)>(
      ops: seq<Item<Op<Key, V>>>, n: nat, c: nat, held: set<Key>, a: map<Key, V>, b: map<Key, V>)
    requires Accepted(ops, ops, 0, 0) && n == |Cut(ops)|
    requires FailsAt(Cut(ops), c, a, held) && FailsAt(Cut(ops), c, b, held)
    requires Serial(ops, a).failure == Serial(ops, b).failure == Some(OpRaised(NoAttribute(MlpInput)))
    requires Serial(ops, a).data.Keys == held
    ensures StopsAt(Overlapped(ops, ops, 0, 0, a, b), n, c, held)
  {
    var l, t := AbortsAlike(ops, c, a, b);
  }

  /** Two halves of one stream that fail at the same stage: the lead's error stops it,
    * the trail having finished the stage before. */
  lemma AbortsAlike<V(!new)>(ops: seq<Item<Op<Key, V>>>, c: nat, a: map<Key, V>, b: map<Key, V>) returns (l: nat, t: nat)
    requires Accepted(ops, ops, 0, 0) && Serial(ops, a).failure.Some?
    requires FailingStage(Cut(ops), a) == FailingStage(Cut(ops), b) == c < |Cut(ops)|
    ensures var e := Overlapped(ops, ops, 0, 0, a, b);
      && c + c < |Schedule(|Cut(ops)|, 0)| && e.trace == TraceOf(Schedule(|Cut(ops)|, 0)[..c + c])
      && Completed(e.trace, Lead) == c && Completed(e.trace, Trail) == c
      && e.failure == Serial(ops, a).failure && e.lead == Serial(ops, a).data
      && e.trail == RunStages(Cut(ops)[..c], b).data
  {
    BothStopThere(|Cut(ops)|, c);
    l, t := AbortLeaves(ops, ops, 0, 0, a, b);
    assert l == c && t == c;
  }

  lemma BothStopThere(n: nat, c: nat)
    requires c < n
    ensures LeadFailsFirst(n, 0, c, c) && LeadStop(n, 0, c, c) == TrailStop(n, 0, c, c) == c
  {
  }

  /** What has and what has not run when it stops: no stage before the stop waits for a
    * combine, and the stop stage comes to its wait only after the op that raises. */
  lemma CombineIsNeverWaitedFor(layers: seq<Layer>, f: nat)
    requires FirstEp(layers, f)
    ensures var stages, c := Cut(Stream(layers, true)), StopStage(layers, f);
      && c < |stages|
      && LayerOp(DispatchB, f) in Flatten(stages[..c]) && LayerOp(CombineA, f) in Flatten(stages[..c])
      && (forall op :: op in Flatten(stages[..c]) ==> op.kind != CombineB)
      && [LayerOp(SharedExperts, f), LayerOp(CombineB, f)] <= stages[c]
  {
    StagesUpToStop(layers, f);
    NoCombineWaitBefore(layers[..f]);
    assert UpToCombineLaunch(f)[3] == LayerOp(DispatchB, f) && UpToCombineLaunch(f)[5] == LayerOp(CombineA, f);
  }

  /** Dense layers wait for no combine. */
  lemma {:induction false} NoCombineWaitBefore(layers: seq<Layer>)
    requires forall j :: 0 <= j < |layers| ==> !layers[j].dispatcher
    ensures forall op :: op in OpsOf(Stream(layers, true)) ==> op.kind != CombineB
  {
    if layers != [] {
      NoCombineWaitBefore(Front(layers));
      StackOps(layers, true);
    } else {
      assert Stream(layers, true) == [];
    }
  }
}
