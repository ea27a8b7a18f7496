/** The decoder layers' ops on their micro-batch's state: which keys each reads,
  * pops and writes, and for which stacks a whole run never trips the state bag.
  */
module LayerState {
  import opened Common
  import opened StateDicts
  import opened Stages
  import opened Operations
  import opened Schedules
  import opened Strategy
  import Coverage

  datatype Key =
    | HiddenStates | Residual | AttnOutput | ResidualAfterAttn | MlpInput | LocalBatch | ExpertOutput
    | Ar | ArEvents | AttenInfo | PositionEmbeddings | Tag | Timeline | MoeCtx

  /** One attribute access of a layer op. */
  datatype Access = GetKey(key: Key) | PopKey(key: Key) | PutKey(key: Key)

  function Gets(keys: seq<Key>): seq<Access> {
    seq(|keys|, i requires 0 <= i < |keys| => GetKey(keys[i]))
  }

  const FENCED: seq<Key> := [Ar, ArEvents, ArEvents, Timeline, Tag]
  const REGION: seq<Key> := [Timeline, Tag]

  /** The accesses of each layer op, in the order the op makes them. */
  function Accesses(kind: OpKind): seq<Access> {
    match kind
    case Attn =>
      Gets(FENCED) + [PopKey(HiddenStates), PopKey(Residual)] + Gets([AttenInfo, PositionEmbeddings])
      + [PutKey(AttnOutput), PutKey(ResidualAfterAttn)]
    case Mlp =>
      Gets(FENCED) + [PopKey(AttnOutput), PopKey(ResidualAfterAttn)] + Gets([])
      + [PutKey(HiddenStates), PutKey(Residual)]
    case Gate =>
      Gets(FENCED) + [PopKey(AttnOutput), PopKey(ResidualAfterAttn)] + Gets([MoeCtx])
      + [PutKey(MlpInput), PutKey(Residual)]
    case DispatchA => Gets(REGION + [MlpInput, MoeCtx])
    case SharedExperts => Gets(REGION + [MlpInput, MoeCtx])
    case DispatchB => Gets(REGION) + [PopKey(MlpInput)] + Gets([MoeCtx]) + [PutKey(LocalBatch)]
    case Experts => Gets(REGION) + [PopKey(LocalBatch)] + Gets([MoeCtx]) + [PutKey(ExpertOutput)]
    case CombineA => Gets(REGION + [ExpertOutput, MoeCtx])
    case CombineB => Gets(REGION) + [PopKey(ExpertOutput)] + Gets([MoeCtx]) + [PutKey(HiddenStates)]
  }

  /** What a layer op computes for a write, from what it has read and popped. */
  type Compute<!V> = (LayerOp, seq<Reply<Key, V>>) -> V

  function ActionOf<V>(access: Access, value: V): Action<Key, V> {
    match access
    case GetKey(k) => Get(k)
    case PopKey(k) => Pop(k)
    case PutKey(k) => Put(k, value)
  }

  function StepOf<V>(access: Access, op: LayerOp, compute: Compute<V>): seq<Reply<Key, V>> -> Action<Key, V> {
    replies => ActionOf(access, compute(op, replies))
  }

  function Script<V>(accesses: seq<Access>, op: LayerOp, compute: Compute<V>): Op<Key, V> {
    if accesses == [] then [] else [StepOf(accesses[0], op, compute)] + Script(accesses[1..], op, compute)
  }

  /** The op a layer hands over, as the executor runs it. */
  function Bound<V>(op: LayerOp, compute: Compute<V>): Op<Key, V> {
    Script(Accesses(op.kind), op, compute)
  }

  function BindOps<V>(ops: seq<LayerOp>, compute: Compute<V>): seq<Op<Key, V>> {
    if ops == [] then [] else [Bound(ops[0], compute)] + BindOps(ops[1..], compute)
  }

  function BindItem<V>(item: Item<LayerOp>, compute: Compute<V>): Item<Op<Key, V>> {
    match item
    case Yield => Yield
    case Exec(op) => Exec(Bound(op, compute))
  }

  function Bind<V>(stream: seq<Item<LayerOp>>, compute: Compute<V>): seq<Item<Op<Key, V>>> {
    seq(|stream|, i requires 0 <= i < |stream| => BindItem(stream[i], compute))
  }

  lemma {:induction false} BindOpsAppend<V>(a: seq<LayerOp>, b: seq<LayerOp>, compute: Compute<V>)
    ensures BindOps(a + b, compute) == BindOps(a, compute) + BindOps(b, compute)
  {
    if a == [] {
      assert a + b == b;
    } else {
      assert (a + b)[0] == a[0] && (a + b)[1..] == a[1..] + b;
      BindOpsAppend(a[1..], b, compute);
    }
  }

  lemma {:induction false} BindKeepsTheStream<V>(stream: seq<Item<LayerOp>>, compute: Compute<V>)
    ensures OpsOf(Bind(stream, compute)) == BindOps(OpsOf(stream), compute)
    ensures YieldCount(Bind(stream, compute)) == YieldCount(stream)
  {
    if stream != [] {
      assert Front(Bind(stream, compute)) == Bind(Front(stream), compute);
      BindKeepsTheStream(Front(stream), compute);
      match Last(stream)
      case Yield =>
        assert OpsOf(stream) == OpsOf(Front(stream));
        assert OpsOf(Bind(stream, compute)) == OpsOf(Front(Bind(stream, compute)));
      case Exec(op) =>
        BindOpsAppend(OpsOf(Front(stream)), [op], compute);
        assert BindOps([op], compute) == [Bound(op, compute)] by { assert [op][1..] == []; }
    }
  }

  // ---------------------------------------------------------------------
  // Keys alone decide which accesses raise
  // ---------------------------------------------------------------------

  datatype KeyRun = KeyRun(keys: set<Key>, error: Option<Error<Key>>)

  function Touch(access: Access, keys: set<Key>): KeyRun {
    match access
    case GetKey(k) => if k in keys then KeyRun(keys, None) else KeyRun(keys, Some(NoAttribute(k)))
    case PopKey(k) => if k in keys then KeyRun(keys - {k}, None) else KeyRun(keys, Some(PopMissing(k)))
    case PutKey(k) => if k in keys then KeyRun(keys, Some(AlreadyExists(k))) else KeyRun(keys + {k}, None)
  }

  function Simulate(accesses: seq<Access>, keys: set<Key>): KeyRun {
    if accesses == [] then KeyRun(keys, None)
    else
      var r := Touch(accesses[0], keys);
      if r.error.Some? then r else Simulate(accesses[1..], r.keys)
  }

  function SimulateOps(ops: seq<LayerOp>, keys: set<Key>): KeyRun {
    if ops == [] then KeyRun(keys, None)
    else
      var r := Simulate(Accesses(ops[0].kind), keys);
      if r.error.Some? then r else SimulateOps(ops[1..], r.keys)
  }

  predicate OnlyGets(accesses: seq<Access>, k: Key) {
    forall a :: a in accesses && a.key == k ==> a.GetKey?
  }

  /** A script raises what its keys say, leaves those keys, and keeps the values of
    * keys it only reads. */
  lemma {:induction false} ScriptFollowsKeys<V>(
      accesses: seq<Access>, op: LayerOp, compute: Compute<V>, replies: seq<Reply<Key, V>>, m: map<Key, V>)
    ensures var o := RunScript(Script(accesses, op, compute), replies, m);
      && KeyRun(o.data.Keys, o.error) == Simulate(accesses, m.Keys)
      && forall k :: k in m && OnlyGets(accesses, k) ==> k in o.data && o.data[k] == m[k]
    decreases |accesses|
  {
    if accesses != [] {
      var script := Script(accesses, op, compute);
      var action := ActionOf(accesses[0], compute(op, replies));
      assert script[0](replies) == action && script[1..] == Script(accesses[1..], op, compute);
      var (m', reply) := Step(m, action);
      ActionFollowsKeys(accesses[0], compute(op, replies), m);
      if !reply.Raised? {
        ScriptFollowsKeys(accesses[1..], op, compute, replies + [reply], m');
        forall k | k in m && OnlyGets(accesses, k) ensures k in m' && m'[k] == m[k] && OnlyGets(accesses[1..], k) {
          assert accesses[0] in accesses;
        }
      }
    }
  }

  lemma ActionFollowsKeys<V>(access: Access, value: V, m: map<Key, V>)
    ensures var (m', reply) := Step(m, ActionOf(access, value));
      KeyRun(m'.Keys, if reply.Raised? then Some(reply.error) else None) == Touch(access, m.Keys)
  {
  }

  predicate OpsOnlyGet(ops: seq<LayerOp>, k: Key) {
    forall op :: op in ops ==> OnlyGets(Accesses(op.kind), k)
  }

  lemma {:induction false} OpsFollowKeys<V>(ops: seq<LayerOp>, compute: Compute<V>, m: map<Key, V>)
    ensures var o := RunOps(BindOps(ops, compute), m);
      && KeyRun(o.data.Keys, o.error) == SimulateOps(ops, m.Keys)
      && forall k :: k in m && OpsOnlyGet(ops, k) ==> k in o.data && o.data[k] == m[k]
    decreases |ops|
  {
    if ops != [] {
      var o := RunScript(Bound(ops[0], compute), [], m);
      ScriptFollowsKeys(Accesses(ops[0].kind), ops[0], compute, [], m);
      assert BindOps(ops, compute)[1..] == BindOps(ops[1..], compute);
      forall k | k in m && OpsOnlyGet(ops, k) ensures k in o.data && o.data[k] == m[k] && OpsOnlyGet(ops[1..], k) {
        assert ops[0] in ops;
      }
      if o.error.None? {
        OpsFollowKeys(ops[1..], compute, o.data);
      }
    }
  }

  // ---------------------------------------------------------------------
  // One op, one layer, a whole stack
  // ---------------------------------------------------------------------

  lemma {:induction false} SimulateAppend(a: seq<Access>, b: seq<Access>, keys: set<Key>)
    ensures Simulate(a + b, keys) ==
            var r := Simulate(a, keys); if r.error.Some? then r else Simulate(b, r.keys)
    decreases |a|
  {
    if a == [] {
      assert a + b == b;
    } else {
      assert (a + b)[0] == a[0] && (a + b)[1..] == a[1..] + b;
      var r := Touch(a[0], keys);
      if r.error.None? {
        SimulateAppend(a[1..], b, r.keys);
      }
    }
  }

  lemma {:induction false} SimulateGets(gets: seq<Key>, keys: set<Key>)
    requires forall k :: k in gets ==> k in keys
    ensures Simulate(Gets(gets), keys) == KeyRun(keys, None)
    decreases |gets|
  {
    if gets != [] {
      assert Gets(gets)[0] == GetKey(gets[0]) && gets[0] in gets;
      assert Gets(gets)[1..] == Gets(gets[1..]);
      SimulateGets(gets[1..], keys);
    }
  }

  lemma SimulateOne(a: Access, keys: set<Key>)
    ensures Simulate([a], keys) == Touch(a, keys)
  {
    assert [a][1..] == [];
  }

  lemma SimulateTwo(a: Access, b: Access, keys: set<Key>)
    ensures Simulate([a, b], keys) ==
            var r := Touch(a, keys); if r.error.Some? then r else Touch(b, r.keys)
  {
    assert [a, b][1..] == [b];
    SimulateOne(b, Touch(a, keys).keys);
  }

  lemma SimulateFour(a: seq<Access>, b: seq<Access>, c: seq<Access>, d: seq<Access>, keys: set<Key>)
    ensures Simulate(a + b + c + d, keys) ==
            var r1 := Simulate(a, keys);
            if r1.error.Some? then r1 else
            var r2 := Simulate(b, r1.keys);
            if r2.error.Some? then r2 else
            var r3 := Simulate(c, r2.keys);
            if r3.error.Some? then r3 else Simulate(d, r3.keys)
  {
    SimulateAppend(a, b, keys);
    SimulateAppend(a + b, c, keys);
    SimulateAppend(a + b + c, d, keys);
  }

  /** Keys that outlive the whole stack, the expert-parallel context included or not. */
  function PersistentKeys(expertParallel: bool): seq<Key> {
    [Ar, ArEvents, AttenInfo, PositionEmbeddings, Tag, Timeline] + if expertParallel then [MoeCtx] else []
  }

  function Persistent(expertParallel: bool): set<Key> {
    {Ar, ArEvents, AttenInfo, PositionEmbeddings, Tag, Timeline} + if expertParallel then {MoeCtx} else {}
  }

  /** The two intermediates an op finds live. */
  function Before(kind: OpKind): set<Key> {
    match kind
    case Attn => {HiddenStates, Residual}
    case Mlp => {AttnOutput, ResidualAfterAttn}
    case Gate => {AttnOutput, ResidualAfterAttn}
    case DispatchA => {MlpInput, Residual}
    case SharedExperts => {MlpInput, Residual}
    case DispatchB => {MlpInput, Residual}
    case Experts => {LocalBatch, Residual}
    case CombineA => {ExpertOutput, Residual}
    case CombineB => {ExpertOutput, Residual}
  }

  /** The two intermediates an op leaves live. */
  function After(kind: OpKind): set<Key> {
    match kind
    case Attn => {AttnOutput, ResidualAfterAttn}
    case Mlp => {HiddenStates, Residual}
    case Gate => {MlpInput, Residual}
    case DispatchA => {MlpInput, Residual}
    case SharedExperts => {MlpInput, Residual}
    case DispatchB => {LocalBatch, Residual}
    case Experts => {ExpertOutput, Residual}
    case CombineA => {ExpertOutput, Residual}
    case CombineB => {HiddenStates, Residual}
  }

  /** Read, pop two, read, write two: the shape of the attention, MLP and gate ops. */
  lemma FencedShape(p: set<Key>, first: seq<Key>, pop1: Key, pop2: Key, between: seq<Key>, put1: Key, put2: Key)
    requires (forall k :: k in first ==> k in p) && (forall k :: k in between ==> k in p)
    requires pop1 != pop2 && pop1 !in p && pop2 !in p
    requires put1 != put2 && put1 !in p && put2 !in p
    ensures Simulate(Gets(first) + [PopKey(pop1), PopKey(pop2)] + Gets(between) + [PutKey(put1), PutKey(put2)],
                     p + {pop1, pop2}) == KeyRun(p + {put1, put2}, None)
  {
    SimulateFour(Gets(first), [PopKey(pop1), PopKey(pop2)], Gets(between), [PutKey(put1), PutKey(put2)],
                 p + {pop1, pop2});
    SimulateGets(first, p + {pop1, pop2});
    SimulateTwo(PopKey(pop1), PopKey(pop2), p + {pop1, pop2});
    assert p + {pop1, pop2} - {pop1} - {pop2} == p;
    SimulateGets(between, p);
    SimulateTwo(PutKey(put1), PutKey(put2), p);
    assert p + {put1} + {put2} == p + {put1, put2};
  }

  /** Read, pop one, read, write one beside the residual. */
  lemma SwapShape(p: set<Key>, first: seq<Key>, pop: Key, between: seq<Key>, put: Key, kept: Key)
    requires (forall k :: k in first ==> k in p) && (forall k :: k in between ==> k in p)
    requires pop !in p && put !in p && pop != kept && put != kept
    ensures Simulate(Gets(first) + [PopKey(pop)] + Gets(between) + [PutKey(put)], p + {pop, kept})
         == KeyRun(p + {put, kept}, None)
  {
    SimulateFour(Gets(first), [PopKey(pop)], Gets(between), [PutKey(put)], p + {pop, kept});
    SimulateGets(first, p + {pop, kept});
    SimulateOne(PopKey(pop), p + {pop, kept});
    assert p + {pop, kept} - {pop} == p + {kept};
    SimulateGets(between, p + {kept});
    SimulateOne(PutKey(put), p + {kept});
    assert p + {kept} + {put} == p + {put, kept};
  }

  lemma FencedOpRuns(kind: OpKind, ep: bool)
    requires kind.Attn? || kind.Mlp? || (kind.Gate? && ep)
    ensures Simulate(Accesses(kind), Persistent(ep) + Before(kind)) == KeyRun(Persistent(ep) + After(kind), None)
  {
    var p := Persistent(ep);
    match kind
    case Attn => FencedShape(p, FENCED, HiddenStates, Residual, [AttenInfo, PositionEmbeddings],
                             AttnOutput, ResidualAfterAttn);
    case Mlp => FencedShape(p, FENCED, AttnOutput, ResidualAfterAttn, [], HiddenStates, Residual);
    case Gate => FencedShape(p, FENCED, AttnOutput, ResidualAfterAttn, [MoeCtx], MlpInput, Residual);
  }

  lemma SwapOpRuns(kind: OpKind)
    requires kind.DispatchB? || kind.Experts? || kind.CombineB?
    ensures Simulate(Accesses(kind), Persistent(true) + Before(kind)) == KeyRun(Persistent(true) + After(kind), None)
  {
    var p := Persistent(true);
    match kind
    case DispatchB => SwapShape(p, REGION, MlpInput, [MoeCtx], LocalBatch, Residual);
    case Experts => SwapShape(p, REGION, LocalBatch, [MoeCtx], ExpertOutput, Residual);
    case CombineB => SwapShape(p, REGION, ExpertOutput, [MoeCtx], HiddenStates, Residual);
  }

  lemma ReadOpRuns(kind: OpKind)
    requires kind.DispatchA? || kind.SharedExperts? || kind.CombineA?
    ensures Simulate(Accesses(kind), Persistent(true) + Before(kind)) == KeyRun(Persistent(true) + After(kind), None)
  {
    var k := if kind.CombineA? then ExpertOutput else MlpInput;
    SimulateGets(REGION + [k, MoeCtx], Persistent(true) + Before(kind));
  }

  /** From the intermediates it finds to the ones it leaves, no op raises. */
  lemma OpRuns(kind: OpKind, ep: bool)
    requires ep || kind.Attn? || kind.Mlp?
    ensures Simulate(Accesses(kind), Persistent(ep) + Before(kind)) == KeyRun(Persistent(ep) + After(kind), None)
  {
    match kind
    case Attn => FencedOpRuns(kind, ep);
    case Mlp => FencedOpRuns(kind, ep);
    case Gate => FencedOpRuns(kind, ep);
    case DispatchA => ReadOpRuns(kind);
    case SharedExperts => ReadOpRuns(kind);
    case CombineA => ReadOpRuns(kind);
    case DispatchB => SwapOpRuns(kind);
    case Experts => SwapOpRuns(kind);
    case CombineB => SwapOpRuns(kind);
  }

  /** The intermediates by op, and the keys that outlive the stack. */
  lemma KeysByOp()
    ensures Before(Attn) == {HiddenStates, Residual} && After(Attn) == {AttnOutput, ResidualAfterAttn}
    ensures Before(Mlp) == {AttnOutput, ResidualAfterAttn} && After(Mlp) == {HiddenStates, Residual}
    ensures Before(Gate) == {AttnOutput, ResidualAfterAttn} && After(Gate) == {MlpInput, Residual}
    ensures Before(DispatchA) == After(DispatchA) == {MlpInput, Residual}
    ensures Before(SharedExperts) == After(SharedExperts) == {MlpInput, Residual}
    ensures Before(DispatchB) == {MlpInput, Residual} && After(DispatchB) == {LocalBatch, Residual}
    ensures Before(Experts) == {LocalBatch, Residual} && After(Experts) == {ExpertOutput, Residual}
    ensures Before(CombineA) == After(CombineA) == {ExpertOutput, Residual}
    ensures Before(CombineB) == {ExpertOutput, Residual} && After(CombineB) == {HiddenStates, Residual}
    ensures Persistent(false) == {Ar, ArEvents, AttenInfo, PositionEmbeddings, Tag, Timeline}
    ensures Persistent(true) == Persistent(false) + {MoeCtx}
  {
  }

  /** The keys held once a layer's combine is launched and not yet waited for. */
  function HeldAtStop(): set<Key> {
    Persistent(true) + After(CombineA)
  }

  /** Run after the dispatch was waited for, the shared experts find no input. */
  lemma SharedExpertsAfterDispatchRaises()
    ensures Simulate(Accesses(SharedExperts), HeldAtStop())
         == KeyRun(HeldAtStop(), Some(NoAttribute(MlpInput)))
  {
    var keys := Persistent(true) + After(CombineA);
    assert Gets(REGION + [MlpInput, MoeCtx]) == Gets(REGION) + Gets([MlpInput, MoeCtx]);
    SimulateAppend(Gets(REGION), Gets([MlpInput, MoeCtx]), keys);
    SimulateGets(REGION, keys);
    assert Gets([MlpInput, MoeCtx])[0] == GetKey(MlpInput);
  }

  lemma {:induction false} SimulateOpsAppend(a: seq<LayerOp>, b: seq<LayerOp>, keys: set<Key>)
    ensures SimulateOps(a + b, keys) ==
            var r := SimulateOps(a, keys); if r.error.Some? then r else SimulateOps(b, r.keys)
    decreases |a|
  {
    if a == [] {
      assert a + b == b;
    } else {
      assert (a + b)[0] == a[0] && (a + b)[1..] == a[1..] + b;
      var r := Simulate(Accesses(a[0].kind), keys);
      if r.error.None? {
        SimulateOpsAppend(a[1..], b, r.keys);
      }
    }
  }

  /** Ops each of which finds what the one before it left run to the end. */
  predicate Chained(ops: seq<LayerOp>) {
    forall i :: 0 < i < |ops| ==> Before(ops[i].kind) == After(ops[i - 1].kind)
  }

  lemma {:induction false} ChainRuns(ops: seq<LayerOp>, ep: bool)
    requires ops != [] && Chained(ops)
    requires forall i :: 0 <= i < |ops| ==> ep || ops[i].kind.Attn? || ops[i].kind.Mlp?
    ensures SimulateOps(ops, Persistent(ep) + Before(ops[0].kind))
         == KeyRun(Persistent(ep) + After(ops[|ops| - 1].kind), None)
    decreases |ops|
  {
    OpRuns(ops[0].kind, ep);
    SimulateFirst(ops, Persistent(ep) + Before(ops[0].kind), Persistent(ep) + After(ops[0].kind));
    if |ops| > 1 {
      var rest := ops[1..];
      assert rest[0] == ops[1] && rest[|rest| - 1] == ops[|ops| - 1];
      ChainRuns(rest, ep);
    } else {
      assert ops[1..] == [];
    }
  }

  lemma SimulateFirst(ops: seq<LayerOp>, keys: set<Key>, left: set<Key>)
    requires ops != [] && Simulate(Accesses(ops[0].kind), keys) == KeyRun(left, None)
    ensures SimulateOps(ops, keys) == SimulateOps(ops[1..], left)
  {
  }

  /** A layer hands the next layer the intermediates it was handed. */
  lemma LayerRuns(layer: Layer, i: nat, prefill: bool, ep: bool)
    requires layer.dispatcher ==> ep && !prefill
    ensures SimulateOps(FlatStages(LayerStages(layer, i, prefill)), Persistent(ep) + Before(Attn))
         == KeyRun(Persistent(ep) + Before(Attn), None)
  {
    var ops := FlatStages(LayerStages(layer, i, prefill));
    LayerIsChained(layer, i, prefill);
    ChainRuns(ops, ep);
  }

  lemma LayerIsChained(layer: Layer, i: nat, prefill: bool)
    requires layer.dispatcher ==> !prefill
    ensures var ops := FlatStages(LayerStages(layer, i, prefill));
      && ops != [] && Chained(ops) && ops[0].kind == Attn
      && After(ops[|ops| - 1].kind) == Before(Attn)
      && (!layer.dispatcher ==> forall i :: 0 <= i < |ops| ==> ops[i].kind.Attn? || ops[i].kind.Mlp?)
  {
    LayerInOrder(layer, i, prefill);
  }

  /** The EP MoE prefill stream pops the MLP input before the shared experts read it. */
  lemma EpPrefillLayerRaises(layer: Layer, i: nat)
    requires layer.dispatcher
    ensures SimulateOps(FlatStages(LayerStages(layer, i, true)), Persistent(true) + Before(Attn))
         == KeyRun(HeldAtStop(), Some(NoAttribute(MlpInput)))
  {
    var tail := [LayerOp(SharedExperts, i), LayerOp(CombineB, i)];
    assert FlatStages(LayerStages(layer, i, true)) == UpToCombineLaunch(i) + tail;
    UpToCombineLaunchRuns(i);
    SimulateOpsAppend(UpToCombineLaunch(i), tail, Persistent(true) + Before(Attn));
    SharedExpertsRaise(tail);
  }

  /** The ops of an EP MoE prefill layer before its shared experts. */
  function UpToCombineLaunch(i: nat): seq<LayerOp> {
    [LayerOp(Attn, i), LayerOp(Gate, i), LayerOp(DispatchA, i), LayerOp(DispatchB, i), LayerOp(Experts, i),
     LayerOp(CombineA, i)]
  }

  lemma UpToCombineLaunchRuns(i: nat)
    ensures SimulateOps(UpToCombineLaunch(i), Persistent(true) + Before(Attn))
         == KeyRun(HeldAtStop(), None)
  {
    ChainRuns(UpToCombineLaunch(i), true);
  }

  lemma SharedExpertsRaise(ops: seq<LayerOp>)
    requires ops != [] && ops[0].kind == SharedExperts
    ensures SimulateOps(ops, HeldAtStop())
         == KeyRun(HeldAtStop(), Some(NoAttribute(MlpInput)))
  {
    SharedExpertsAfterDispatchRaises();
  }

  /** Over a whole stack: the layers' ops raise exactly in an EP MoE prefill. */
  lemma {:induction false} StackRuns(layers: seq<Layer>, prefill: bool, ep: bool)
    requires EpMoeCount(layers) > 0 ==> ep
    ensures var r := SimulateOps(OpsOf(Stream(layers, prefill)), Persistent(ep) + Before(Attn));
      r == if prefill && EpMoeCount(layers) > 0
           then KeyRun(HeldAtStop(), Some(NoAttribute(MlpInput)))
           else KeyRun(Persistent(ep) + Before(Attn), None)
  {
    if layers == [] {
      assert Stream(layers, prefill) == [];
    } else {
      StackRuns(Front(layers), prefill, ep);
      StackOps(layers, prefill);
      SimulateOpsAppend(OpsOf(Stream(Front(layers), prefill)),
                        FlatStages(LayerStages(Last(layers), |layers| - 1, prefill)), Persistent(ep) + Before(Attn));
      if Last(layers).dispatcher && prefill {
        EpPrefillLayerRaises(Last(layers), |layers| - 1);
      } else {
        LayerRuns(Last(layers), |layers| - 1, prefill, ep);
      }
    }
  }

  // ---------------------------------------------------------------------
  // One forward pass
  // ---------------------------------------------------------------------

  function ExpertParallel(layers: seq<Layer>): bool {
    EpMoeCount(layers) > 0
  }

  /** The keys one micro-batch starts with. */
  function InitialKeys(layers: seq<Layer>): set<Key> {
    Persistent(ExpertParallel(layers)) + {HiddenStates, Residual}
  }

  /** The head takes the two results and clears what must be all that is left. */
  function HeadReply<V>(m: map<Key, V>, layers: seq<Layer>): Reply<Key, V> {
    var (m1, r1) := Step(m, Pop(HiddenStates));
    if r1.Raised? then r1 else
    var (m2, r2) := Step(m1, Pop(Residual));
    if r2.Raised? then r2 else Step(m2, Clear(PersistentKeys(ExpertParallel(layers)))).1
  }

  lemma PersistentKeySet(ep: bool)
    ensures KeySet(PersistentKeys(ep)) == Persistent(ep)
  {
    var ks := PersistentKeys(ep);
    assert ks[0] == Ar && ks[1] == ArEvents && ks[2] == AttenInfo;
    assert ks[3] == PositionEmbeddings && ks[4] == Tag && ks[5] == Timeline && (ep ==> ks[6] == MoeCtx);
    forall k ensures k in ks <==> k in Persistent(ep) {
    }
  }

  lemma HeadAccepts<V>(m: map<Key, V>, layers: seq<Layer>)
    requires m.Keys == InitialKeys(layers)
    ensures HeadReply(m, layers) == Ack
  {
    var p := Persistent(ExpertParallel(layers));
    PersistentKeySet(ExpertParallel(layers));
    assert HiddenStates !in p && Residual !in p;
    HeadClears(m, p, PersistentKeys(ExpertParallel(layers)));
  }

  lemma InitialKeysByName(layers: seq<Layer>)
    ensures InitialKeys(layers) == {HiddenStates, Residual, Ar, ArEvents, AttenInfo, PositionEmbeddings, Tag, Timeline}
                                   + if EpMoeCount(layers) > 0 then {MoeCtx} else {}
  {
    KeysByOp();
  }

  /** The head goes on exactly from the keys a micro-batch starts with: anything held
    * besides, or anything missing, is refused. */
  lemma HeadAcceptsExactly<V(!new)>(m: map<Key, V>, layers: seq<Layer>)
    ensures HeadReply(m, layers) == Ack <==> m.Keys == InitialKeys(layers)
  {
    PersistentKeySet(ExpertParallel(layers));
    if m.Keys == InitialKeys(layers) {
      HeadAccepts(m, layers);
    } else if HiddenStates in m && Residual in m {
      RestIsNotPersistent(m, Persistent(ExpertParallel(layers)));
    }
  }

  lemma RestIsNotPersistent<V>(m: map<Key, V>, p: set<Key>)
    requires HiddenStates in m && Residual in m && m.Keys != p + {HiddenStates, Residual}
    ensures (m - {HiddenStates} - {Residual}).Keys != p
  {
  }

  lemma HeadClears<V>(m: map<Key, V>, p: set<Key>, expected: seq<Key>)
    requires m.Keys == p + {HiddenStates, Residual} && HiddenStates !in p && Residual !in p && KeySet(expected) == p
    ensures Step(m, Pop(HiddenStates)) == (m - {HiddenStates}, Value(m[HiddenStates]))
    ensures Step(m - {HiddenStates}, Pop(Residual)) == (m - {HiddenStates} - {Residual}, Value(m[Residual]))
    ensures Step(m - {HiddenStates} - {Residual}, Clear(expected)).1 == Ack
  {
    assert (m - {HiddenStates} - {Residual}).Keys == p;
  }

  /** Layer ops only ever read the persistent keys. */
  lemma PersistentIsOnlyRead(ops: seq<LayerOp>, k: Key, ep: bool)
    requires k in Persistent(ep)
    ensures OpsOnlyGet(ops, k)
  {
    forall op | op in ops ensures OnlyGets(Accesses(op.kind), k) {
      KindOnlyGets(op.kind, k);
    }
  }

  lemma OnlyGetsOf(gets1: seq<Key>, moves1: seq<Access>, gets2: seq<Key>, moves2: seq<Access>, k: Key)
    requires forall a :: a in moves1 || a in moves2 ==> a.key != k
    ensures OnlyGets(Gets(gets1) + moves1 + Gets(gets2) + moves2, k)
  {
  }

  lemma KindOnlyGets(kind: OpKind, k: Key)
    requires k in Persistent(true)
    ensures OnlyGets(Accesses(kind), k)
  {
    match kind
    case Attn => OnlyGetsOf(FENCED, [PopKey(HiddenStates), PopKey(Residual)], [AttenInfo, PositionEmbeddings],
                            [PutKey(AttnOutput), PutKey(ResidualAfterAttn)], k);
    case Mlp => OnlyGetsOf(FENCED, [PopKey(AttnOutput), PopKey(ResidualAfterAttn)], [],
                           [PutKey(HiddenStates), PutKey(Residual)], k);
    case Gate => OnlyGetsOf(FENCED, [PopKey(AttnOutput), PopKey(ResidualAfterAttn)], [MoeCtx],
                            [PutKey(MlpInput), PutKey(Residual)], k);
    case DispatchB => OnlyGetsOf(REGION, [PopKey(MlpInput)], [MoeCtx], [PutKey(LocalBatch)], k);
    case Experts => OnlyGetsOf(REGION, [PopKey(LocalBatch)], [MoeCtx], [PutKey(ExpertOutput)], k);
    case CombineB => OnlyGetsOf(REGION, [PopKey(ExpertOutput)], [MoeCtx], [PutKey(HiddenStates)], k);
    case _ =>
  }

  /** How a serial run over a stack ends, and what the head then finds. */
  ghost predicate EndsAsItShould<V>(
      e: SerialEnding<Key, V>, layers: seq<Layer>, prefill: bool, m: map<Key, V>)
    requires m.Keys == InitialKeys(layers)
  {
    if prefill && ExpertParallel(layers)
    then
      && e.failure == Some(OpRaised(NoAttribute(MlpInput)))
      && e.data.Keys == HeldAtStop()
    else
      && e.failure == None
      && e.data.Keys == InitialKeys(layers)
      && (forall k :: k in Persistent(ExpertParallel(layers)) ==> e.data[k] == m[k])
      && HeadReply(e.data, layers) == Ack
  }

  /** Alone, a micro-batch runs any stack to the end and leaves the head exactly the
    * keys it started with - unless the stream is an EP MoE prefill, which raises with
    * the experts' output still held. */
  lemma SerialPassSucceedsExactlyOffEpPrefill<V>(
      layers: seq<Layer>, prefill: bool, compute: Compute<V>, m: map<Key, V>)
    requires InitNewTbo(layers, prefill).Ok? && m.Keys == InitialKeys(layers)
    ensures EndsAsItShould(Serial(Bind(InitNewTbo(layers, prefill).value.operations, compute), m), layers, prefill, m)
  {
    BuiltOperations(layers, prefill);
    StreamPass(layers, prefill, compute, m);
  }

  lemma StreamPass<V>(layers: seq<Layer>, prefill: bool, compute: Compute<V>, m: map<Key, V>)
    requires layers != [] && m.Keys == InitialKeys(layers)
    ensures EndsAsItShould(Serial(Bind(Stream(layers, prefill), compute), m), layers, prefill, m)
  {
    var stream := Stream(layers, prefill);
    BoundStreamIsSeparated(layers, prefill, compute);
    BindKeepsTheStream(stream, compute);
    StackRuns(layers, prefill, ExpertParallel(layers));
    OpsFollowKeys(OpsOf(stream), compute, m);
    var e := Serial(Bind(stream, compute), m);
    if e.failure.None? {
      HeadAccepts(e.data, layers);
      forall k | k in Persistent(ExpertParallel(layers)) ensures k in m && OpsOnlyGet(OpsOf(stream), k) {
        PersistentIsOnlyRead(OpsOf(stream), k, ExpertParallel(layers));
      }
    }
  }

  lemma BoundStreamIsSeparated<V>(layers: seq<Layer>, prefill: bool, compute: Compute<V>)
    requires layers != []
    ensures WellSeparated(Bind(Stream(layers, prefill), compute))
  {
    StackIsWellSeparated(layers, prefill);
    var stream := Stream(layers, prefill);
    assert forall i :: 0 <= i < |stream| ==> Bind(stream, compute)[i] == BindItem(stream[i], compute);
  }

  /** Two halves whose serial runs end alike end interleaved as they do alone. */
  lemma OverlapEndsAsSerial<V(!new)>(
      ops: seq<Item<Op<Key, V>>>, d: nat, a: map<Key, V>, b: map<Key, V>, n: nat)
    requires Accepted(ops, ops, 0, d) && n == |Cut(ops)|
    requires Serial(ops, a).failure == Serial(ops, b).failure
    ensures var e := Overlapped(ops, ops, 0, d, a, b);
      && e.failure == Serial(ops, a).failure
      && (e.failure == None ==>
            (e.lead == Serial(ops, a).data && e.trail == Serial(ops, b).data && e.trace == TraceOf(Schedule(n, d))))
  {
    OverlappedSucceedsExactlyWhenSerialDoes(ops, ops, 0, d, a, b);
    if Serial(ops, a).failure.Some? {
      RaisesTheFirstErrorReached(ops, ops, 0, d, a, b);
    }
  }

  lemma BoundStreamIsAccepted<V>(layers: seq<Layer>, prefill: bool, compute: Compute<V>)
    requires InitNewTbo(layers, prefill).Ok?
    ensures var s := InitNewTbo(layers, prefill).value; var ops := Bind(s.operations, compute);
      Accepted(ops, ops, 0, s.deltaStages) && |Cut(ops)| == 1 + Base(layers)
  {
    var s := InitNewTbo(layers, prefill).value;
    var ops := Bind(s.operations, compute);
    BuiltOperations(layers, prefill);
    StackIsAccepted(layers, prefill);
    BoundStreamIsSeparated(layers, prefill, compute);
    BindKeepsTheStream(s.operations, compute);
    CutKeepsEveryOp(ops);
    CutKeepsEveryOp(s.operations);
  }

  /** Interleaved as the strategy asks, the two halves of any supported stack finish
    * with their serial results and clean heads, exactly off the EP MoE prefill. */
  lemma OverlappedPassSucceedsExactlyOffEpPrefill<V(!new)>(
      layers: seq<Layer>, prefill: bool, compute: Compute<V>, a: map<Key, V>, b: map<Key, V>)
    requires InitNewTbo(layers, prefill).Ok?
    requires a.Keys == InitialKeys(layers) == b.Keys
    ensures var s := InitNewTbo(layers, prefill).value;
      var ops := Bind(s.operations, compute);
      var e := Overlapped(ops, ops, 0, s.deltaStages, a, b);
      if prefill && ExpertParallel(layers) then e.failure == Some(OpRaised(NoAttribute(MlpInput)))
      else
        && e.failure == None
        && e.lead == Serial(ops, a).data && e.trail == Serial(ops, b).data
        && HeadReply(e.lead, layers) == HeadReply(e.trail, layers) == Ack
        && e.trace == TraceOf(Schedule(1 + Base(layers), s.deltaStages))
  {
    var s := InitNewTbo(layers, prefill).value;
    var ops := Bind(s.operations, compute);
    BoundStreamIsAccepted(layers, prefill, compute);
    SerialPassSucceedsExactlyOffEpPrefill(layers, prefill, compute, a);
    SerialPassSucceedsExactlyOffEpPrefill(layers, prefill, compute, b);
    OverlapEndsAsSerial(ops, s.deltaStages, a, b, 1 + Base(layers));
  }

  /** A pass that completes has run through the very timeline of its stack's schedule. */
  lemma CompletedPassFollowsTheTimeline<V(!new)>(
      layers: seq<Layer>, prefill: bool, compute: Compute<V>, a: map<Key, V>, b: map<Key, V>)
    requires InitNewTbo(layers, prefill).Ok? && !(prefill && ExpertParallel(layers))
    requires a.Keys == InitialKeys(layers) == b.Keys
    ensures var s := InitNewTbo(layers, prefill).value;
      var ops := Bind(s.operations, compute);
      Overlapped(ops, ops, 0, s.deltaStages, a, b).trace == Coverage.Timeline(Coverage.StageCount(layers), Coverage.LeadOf(layers, prefill))
  {
    BuiltOperations(layers, prefill);
    OverlappedPassSucceedsExactlyOffEpPrefill(layers, prefill, compute, a, b);
  }
}
