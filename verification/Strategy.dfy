/** Per-layer op streams and their concatenation into one micro-batch's stream. */
module Strategy {
  import opened Common
  import opened Stages
  import opened Schedules

  datatype OpKind =
    | Attn | Mlp | Gate | DispatchA | SharedExperts | DispatchB | Experts | CombineA | CombineB

  /** A layer's op, bound to the layer it came from. */
  datatype LayerOp = LayerOp(kind: OpKind, layer: nat)

  /** What the strategy reads off a layer: its class name, and whether its `mlp`
    * carries an expert-parallel dispatcher. */
  datatype Layer = Layer(className: string, dispatcher: bool)

  datatype OperationsStrategy = OperationsStrategy(operations: seq<Item<LayerOp>>, deltaStages: nat)

  /** An empty stack has no first layer; the table's one entry does not take the
    * `prefill` keyword every builder is called with; and its layer has none of the ops
    * the other builders bind. */
  datatype BuildError = NoLayers | UnexpectedKeyword | MissingOp(layer: nat)

  function Run(kind: OpKind, layer: nat): Item<LayerOp> {
    Exec(LayerOp(kind, layer))
  }

  function DenseStrategy(i: nat): OperationsStrategy {
    OperationsStrategy([Run(Attn, i), Yield, Run(Mlp, i)], 0)
  }

  function EpMoeStrategy(i: nat): OperationsStrategy {
    OperationsStrategy(
      [Run(Attn, i), Yield, Run(Gate, i), Yield, Run(DispatchA, i), Run(SharedExperts, i), Yield,
       Run(DispatchB, i), Run(Experts, i), Run(CombineA, i), Yield, Run(CombineB, i)], 2)
  }

  function EpMoePrefillStrategy(i: nat): OperationsStrategy {
    OperationsStrategy(
      [Run(Attn, i), Yield, Run(Gate, i), Yield, Run(DispatchA, i), Yield,
       Run(DispatchB, i), Run(Experts, i), Run(CombineA, i), Yield, Run(SharedExperts, i), Run(CombineB, i)], 0)
  }

  function LayerStrategy(layer: Layer, i: nat, prefill: bool): OperationsStrategy {
    if layer.dispatcher then (if prefill then EpMoePrefillStrategy(i) else EpMoeStrategy(i))
    else DenseStrategy(i)
  }

  function AllOperations(items: seq<OperationsStrategy>): seq<Item<LayerOp>> {
    if items == [] then [] else AllOperations(Front(items)) + Last(items).operations
  }

  function WidestLead(items: seq<OperationsStrategy>): nat {
    if items == [] then 0
    else
      var before := WidestLead(Front(items));
      if Last(items).deltaStages > before then Last(items).deltaStages else before
  }

  function Concat(items: seq<OperationsStrategy>): OperationsStrategy {
    OperationsStrategy(AllOperations(items), WidestLead(items))
  }

  function Items(layers: seq<Layer>, prefill: bool): seq<OperationsStrategy> {
    seq(|layers|, i requires 0 <= i < |layers| => LayerStrategy(layers[i], i, prefill))
  }

  const UNSUPPORTED_LAYER := "DeepseekV4DecoderLayer"

  predicate Unsupported(layer: Layer) {
    layer.className == UNSUPPORTED_LAYER
  }

  /** One call of the builder the first layer selected. */
  function BuildLayer(layer: Layer, i: nat, unsupportedBuilder: bool, prefill: bool): Result<OperationsStrategy, BuildError> {
    if unsupportedBuilder then Err(UnexpectedKeyword)
    else if Unsupported(layer) then Err(MissingOp(i))
    else Ok(LayerStrategy(layer, i, prefill))
  }

  /** The builder called on layer after layer, until a call raises. */
  function BuildLayers(layers: seq<Layer>, unsupportedBuilder: bool, prefill: bool): Result<seq<OperationsStrategy>, BuildError> {
    if layers == [] then Ok([])
    else
      var before := BuildLayers(Front(layers), unsupportedBuilder, prefill);
      if before.Err? then Err(before.error)
      else
        var last := BuildLayer(Last(layers), |layers| - 1, unsupportedBuilder, prefill);
        if last.Err? then Err(last.error) else Ok(before.value + [last.value])
  }

  /** One builder for the whole stack, looked up by the first layer's class. */
  function InitNewTbo(layers: seq<Layer>, prefill: bool): Result<OperationsStrategy, BuildError> {
    if layers == [] then Err(NoLayers)
    else
      var items := BuildLayers(layers, Unsupported(layers[0]), prefill);
      if items.Err? then Err(items.error) else Ok(Concat(items.value))
  }

  lemma {:induction false} BuildLayersEnds(layers: seq<Layer>, unsupportedBuilder: bool, prefill: bool)
    ensures var r := BuildLayers(layers, unsupportedBuilder, prefill);
      && (r.Ok? <==> layers == [] || (!unsupportedBuilder && forall i :: 0 <= i < |layers| ==> !Unsupported(layers[i])))
      && (r.Ok? ==> r.value == Items(layers, prefill))
      && (r.Err? ==> r.error == if unsupportedBuilder then UnexpectedKeyword else MissingOp(FirstUnsupported(layers)))
  {
    if layers != [] {
      BuildLayersEnds(Front(layers), unsupportedBuilder, prefill);
      FirstUnsupportedIsFirst(Front(layers));
      assert forall i :: 0 <= i < |Front(layers)| ==> layers[i] == Front(layers)[i];
      assert Items(layers, prefill) == Items(Front(layers), prefill) + [LayerStrategy(Last(layers), |layers| - 1, prefill)];
    }
  }

  /** The first layer without a stream; the stack's depth if there is none. */
  function FirstUnsupported(layers: seq<Layer>): nat {
    if layers == [] then 0
    else
      var before := FirstUnsupported(Front(layers));
      if before < |layers| - 1 || Unsupported(Last(layers)) then before else |layers|
  }

  lemma {:induction false} FirstUnsupportedIsFirst(layers: seq<Layer>)
    ensures FirstUnsupported(layers) <= |layers|
    ensures forall i :: 0 <= i < |layers| && i < FirstUnsupported(layers) ==> !Unsupported(layers[i])
    ensures FirstUnsupported(layers) < |layers| ==> Unsupported(layers[FirstUnsupported(layers)])
  {
    if layers != [] {
      FirstUnsupportedIsFirst(Front(layers));
      assert forall i :: 0 <= i < |Front(layers)| ==> layers[i] == Front(layers)[i];
    }
  }

  /** A strategy is built exactly for a non-empty stack without an unsupported layer.
    * Otherwise an unsupported first layer raises for the keyword, and a later one for
    * the op it does not have, the first such layer first. */
  lemma BuildSucceedsExactlyWhenSupported(layers: seq<Layer>, prefill: bool)
    ensures InitNewTbo(layers, prefill).Ok? <==>
            layers != [] && forall i :: 0 <= i < |layers| ==> layers[i].className != "DeepseekV4DecoderLayer"
    ensures InitNewTbo(layers, prefill) == Err(NoLayers) <==> layers == []
    ensures InitNewTbo(layers, prefill) == Err(UnexpectedKeyword) <==>
            layers != [] && layers[0].className == "DeepseekV4DecoderLayer"
    ensures forall k: nat :: InitNewTbo(layers, prefill) == Err(MissingOp(k)) <==>
              (0 < k < |layers| && layers[k].className == "DeepseekV4DecoderLayer"
               && forall i :: 0 <= i < k ==> layers[i].className != "DeepseekV4DecoderLayer")
    ensures InitNewTbo(layers, prefill).Ok? ==> InitNewTbo(layers, prefill).value == Concat(Items(layers, prefill))
  {
    if layers != [] {
      BuildLayersEnds(layers, Unsupported(layers[0]), prefill);
      FirstUnsupportedIsFirst(layers);
    }
  }

  lemma BuiltOperations(layers: seq<Layer>, prefill: bool)
    requires InitNewTbo(layers, prefill).Ok?
    ensures layers != [] && InitNewTbo(layers, prefill).value.operations == Stream(layers, prefill)
    ensures InitNewTbo(layers, prefill).value.deltaStages == WidestLead(Items(layers, prefill))
  {
    BuildSucceedsExactlyWhenSupported(layers, prefill);
  }

  // ---------------------------------------------------------------------
  // The stages of a stack
  // ---------------------------------------------------------------------

  /** The op stream of the first layers of any stack, empty ones included. */
  function Stream(layers: seq<Layer>, prefill: bool): seq<Item<LayerOp>> {
    AllOperations(Items(layers, prefill))
  }

  lemma StreamGrows(layers: seq<Layer>, prefill: bool)
    requires layers != []
    ensures Stream(layers, prefill)
         == Stream(Front(layers), prefill) + LayerStrategy(Last(layers), |layers| - 1, prefill).operations
  {
    assert Front(Items(layers, prefill)) == Items(Front(layers), prefill);
  }

  function DenseCount(layers: seq<Layer>): nat {
    if layers == [] then 0 else DenseCount(Front(layers)) + (if Last(layers).dispatcher then 0 else 1)
  }

  function EpMoeCount(layers: seq<Layer>): nat {
    if layers == [] then 0 else EpMoeCount(Front(layers)) + (if Last(layers).dispatcher then 1 else 0)
  }

  /** The stage in which layer `|layers|` would start. */
  function Base(layers: seq<Layer>): nat {
    DenseCount(layers) + 4 * EpMoeCount(layers)
  }

  function LayerStages(layer: Layer, i: nat, prefill: bool): (stages: seq<seq<LayerOp>>)
    ensures stages != []
  {
    if !layer.dispatcher then [[LayerOp(Attn, i)], [LayerOp(Mlp, i)]]
    else if prefill then
      [[LayerOp(Attn, i)], [LayerOp(Gate, i)], [LayerOp(DispatchA, i)],
       [LayerOp(DispatchB, i), LayerOp(Experts, i), LayerOp(CombineA, i)],
       [LayerOp(SharedExperts, i), LayerOp(CombineB, i)]]
    else
      [[LayerOp(Attn, i)], [LayerOp(Gate, i)], [LayerOp(DispatchA, i), LayerOp(SharedExperts, i)],
       [LayerOp(DispatchB, i), LayerOp(Experts, i), LayerOp(CombineA, i)],
       [LayerOp(CombineB, i)]]
  }

  /** A yield splits a stream into its two sides' stages. */
  lemma CutAtYield<T>(a: seq<Item<T>>, stage: seq<T>)
    ensures Cut(a + [Yield] + Execs(stage)) == Cut(a) + [stage]
  {
    CutYield(a);
    CutExecs(a + [Yield], stage);
    assert Front(Cut(a) + [[]]) == Cut(a) && [] + stage == stage;
  }

  lemma CutStage<T>(stage: seq<T>)
    ensures Cut(Execs(stage)) == [stage]
  {
    CutExecs([], stage);
    assert [] + Execs(stage) == Execs(stage) && [] + stage == stage;
  }

  function Stream5<T>(a: seq<T>, b: seq<T>, c: seq<T>, d: seq<T>, e: seq<T>): seq<Item<T>> {
    Execs(a) + [Yield] + Execs(b) + [Yield] + Execs(c) + [Yield] + Execs(d) + [Yield] + Execs(e)
  }

  lemma CutStream5<T>(a: seq<T>, b: seq<T>, c: seq<T>, d: seq<T>, e: seq<T>)
    ensures Cut(Stream5(a, b, c, d, e)) == [a, b, c, d, e]
  {
    CutStage(a);
    var ops := Execs(a);
    CutAtYield(ops, b);
    ops := ops + [Yield] + Execs(b);
    CutAtYield(ops, c);
    ops := ops + [Yield] + Execs(c);
    CutAtYield(ops, d);
    ops := ops + [Yield] + Execs(d);
    CutAtYield(ops, e);
  }

  lemma DenseCut(i: nat)
    ensures Cut(DenseStrategy(i).operations) == [[LayerOp(Attn, i)], [LayerOp(Mlp, i)]]
  {
    var a, b := [LayerOp(Attn, i)], [LayerOp(Mlp, i)];
    CutStage(a);
    CutAtYield(Execs(a), b);
    assert Execs(a) + [Yield] + Execs(b) == DenseStrategy(i).operations;
  }

  lemma EpMoeCut(i: nat)
    ensures Cut(EpMoeStrategy(i).operations)
         == [[LayerOp(Attn, i)], [LayerOp(Gate, i)], [LayerOp(DispatchA, i), LayerOp(SharedExperts, i)],
             [LayerOp(DispatchB, i), LayerOp(Experts, i), LayerOp(CombineA, i)], [LayerOp(CombineB, i)]]
  {
    var a, b, c := [LayerOp(Attn, i)], [LayerOp(Gate, i)], [LayerOp(DispatchA, i), LayerOp(SharedExperts, i)];
    var d, e := [LayerOp(DispatchB, i), LayerOp(Experts, i), LayerOp(CombineA, i)], [LayerOp(CombineB, i)];
    CutStream5(a, b, c, d, e);
    assert Stream5(a, b, c, d, e) == EpMoeStrategy(i).operations;
  }

  lemma EpMoePrefillCut(i: nat)
    ensures Cut(EpMoePrefillStrategy(i).operations)
         == [[LayerOp(Attn, i)], [LayerOp(Gate, i)], [LayerOp(DispatchA, i)],
             [LayerOp(DispatchB, i), LayerOp(Experts, i), LayerOp(CombineA, i)],
             [LayerOp(SharedExperts, i), LayerOp(CombineB, i)]]
  {
    var a, b, c := [LayerOp(Attn, i)], [LayerOp(Gate, i)], [LayerOp(DispatchA, i)];
    var d := [LayerOp(DispatchB, i), LayerOp(Experts, i), LayerOp(CombineA, i)];
    var e := [LayerOp(SharedExperts, i), LayerOp(CombineB, i)];
    CutStream5(a, b, c, d, e);
    assert Stream5(a, b, c, d, e) == EpMoePrefillStrategy(i).operations;
  }

  /** The stream a layer gets: dense without a dispatcher, else EP decode or EP prefill. */
  lemma LayerGetsItsStream(layer: Layer, i: nat, prefill: bool)
    ensures !layer.dispatcher ==> LayerStrategy(layer, i, prefill) == DenseStrategy(i)
    ensures layer.dispatcher && prefill ==> LayerStrategy(layer, i, prefill) == EpMoePrefillStrategy(i)
    ensures layer.dispatcher && !prefill ==> LayerStrategy(layer, i, prefill) == EpMoeStrategy(i)
  {
  }

  lemma LayerCut(layer: Layer, i: nat, prefill: bool)
    ensures Cut(LayerStrategy(layer, i, prefill).operations) == LayerStages(layer, i, prefill)
  {
    if !layer.dispatcher {
      DenseCut(i);
    } else if prefill {
      EpMoePrefillCut(i);
    } else {
      EpMoeCut(i);
    }
  }

  /** A layer's stages start in the stage the layers before it end in. */
  lemma StagesOfStack(layers: seq<Layer>, prefill: bool)
    requires layers != []
    ensures Cut(Stream(layers, prefill))
         == Seam(Cut(Stream(Front(layers), prefill)), LayerStages(Last(layers), |layers| - 1, prefill))
  {
    StreamGrows(layers, prefill);
    LayerCut(Last(layers), |layers| - 1, prefill);
    CutConcat(Stream(Front(layers), prefill), LayerStrategy(Last(layers), |layers| - 1, prefill).operations);
  }

  lemma SeamNoneEmpty<T>(x: seq<seq<T>>, y: seq<seq<T>>)
    requires x != [] && y != [] && NoneEmpty(Front(x)) && NoneEmpty(y)
    ensures NoneEmpty(Seam(x, y))
  {
  }

  /** One stage, one more per dense layer and four more per EP MoE layer. */
  lemma {:induction false} StackStageCount(layers: seq<Layer>, prefill: bool)
    ensures |Cut(Stream(layers, prefill))| == 1 + DenseCount(layers) + 4 * EpMoeCount(layers)
  {
    if layers != [] {
      StackStageCount(Front(layers), prefill);
      StagesOfStack(layers, prefill);
    } else {
      assert Stream(layers, prefill) == [];
    }
  }

  /** No stage of a stack is empty, so no yield leads, trails or doubles. */
  lemma {:induction false} StackIsWellSeparated(layers: seq<Layer>, prefill: bool)
    requires layers != []
    ensures WellSeparated(Stream(layers, prefill))
  {
    var x, y := Cut(Stream(Front(layers), prefill)), LayerStages(Last(layers), |layers| - 1, prefill);
    if Front(layers) == [] {
      assert Stream(Front(layers), prefill) == [];
      assert Front(x) == [];
    } else {
      StackIsWellSeparated(Front(layers), prefill);
      CutAcceptsIffWellSeparated(Stream(Front(layers), prefill));
      NoneEmptyStep(x);
    }
    assert NoneEmpty(y);
    SeamNoneEmpty(x, y);
    StagesOfStack(layers, prefill);
    CutAcceptsIffWellSeparated(Stream(layers, prefill));
  }

  lemma {:induction false} StackLead(layers: seq<Layer>, prefill: bool)
    ensures WidestLead(Items(layers, prefill)) == if !prefill && EpMoeCount(layers) > 0 then 2 else 0
  {
    if layers != [] {
      StackLead(Front(layers), prefill);
      assert Front(Items(layers, prefill)) == Items(Front(layers), prefill);
    }
  }

  lemma EpLayersAreLayers(layers: seq<Layer>)
    ensures DenseCount(layers) + EpMoeCount(layers) == |layers|
  {
  }

  /** A stack that builds, builds a strategy both halves of which the executor accepts; the stage count is the same in decode and prefill. */
  lemma StackIsAccepted(layers: seq<Layer>, prefill: bool)
    ensures InitNewTbo(layers, prefill).Ok? ==>
      var s := InitNewTbo(layers, prefill).value;
      && Accepted(s.operations, s.operations, 0, s.deltaStages)
      && |Cut(s.operations)| == 1 + DenseCount(layers) + 4 * EpMoeCount(layers)
      && s.deltaStages == (if !prefill && EpMoeCount(layers) > 0 then 2 else 0)
  {
    BuildSucceedsExactlyWhenSupported(layers, prefill);
    StackStageCount(layers, prefill);
    if layers != [] {
      StackIsWellSeparated(layers, prefill);
      EpLayersAreLayers(layers);
    }
    StackLead(layers, prefill);
    CutKeepsEveryOp(Stream(layers, prefill));
  }

  // ---------------------------------------------------------------------
  // Where the exchanges are
  // ---------------------------------------------------------------------

  /** The two all-to-all exchanges of an EP MoE layer. */
  datatype Exchange = Dispatch | Combine

  function Launch(e: Exchange): OpKind {
    match e case Dispatch => DispatchA case Combine => CombineA
  }

  function Wait(e: Exchange): OpKind {
    match e case Dispatch => DispatchB case Combine => CombineB
  }

  /** The stage in which layer `i` launches the exchange. */
  function LaunchStage(layers: seq<Layer>, i: nat, e: Exchange): nat
    requires i < |layers|
  {
    Base(layers[..i]) + (match e case Dispatch => 2 case Combine => 3)
  }

  /** `z` has the closed stages of `x`, and more ops in `x`'s open one. */
  predicate Extends<T(==)>(x: seq<seq<T>>, z: seq<seq<T>>) {
    0 < |x| <= |z| && Front(x) == z[..|x| - 1] && Last(x) <= z[|x| - 1]
  }

  lemma SeamExtends<T>(x: seq<seq<T>>, y: seq<seq<T>>)
    requires x != [] && y != []
    ensures Extends(x, Seam(x, y))
  {
  }

  lemma ExtendsTransitive<T>(x: seq<seq<T>>, y: seq<seq<T>>, z: seq<seq<T>>)
    requires Extends(x, y) && Extends(y, z)
    ensures Extends(x, z)
  {
    assert |x| < |y| ==> Front(y)[..|x| - 1] == z[..|x| - 1] && Front(y)[|x| - 1] == z[|x| - 1];
    assert y[..|x| - 1] == z[..|x| - 1];
  }

  /** A stack's stages go on from those of its first `k` layers. */
  lemma {:induction false} StackExtends(layers: seq<Layer>, k: nat, prefill: bool)
    requires k <= |layers|
    ensures Extends(Cut(Stream(layers[..k], prefill)), Cut(Stream(layers, prefill)))
  {
    if k == |layers| {
      assert layers[..k] == layers;
    } else {
      assert Front(layers)[..k] == layers[..k];
      StackExtends(Front(layers), k, prefill);
      StagesOfStack(layers, prefill);
      SeamExtends(Cut(Stream(Front(layers), prefill)), LayerStages(Last(layers), |layers| - 1, prefill));
      ExtendsTransitive(Cut(Stream(layers[..k], prefill)), Cut(Stream(Front(layers), prefill)), Cut(Stream(layers, prefill)));
    }
  }

  /** Stage `t` of `own`, put at stage `base + t` of `stages`: an inner stage is that
    * stage, the first and the last are part of it. */
  predicate Placed<T(==)>(stages: seq<seq<T>>, own: seq<seq<T>>, base: nat, t: nat)
    requires t < |own|
  {
    && base + t < |stages|
    && (forall op :: op in own[t] ==> op in stages[base + t])
    && (0 < t < |own| - 1 ==> stages[base + t] == own[t])
  }

  /** Where a layer's stages are in its stack's. */
  lemma StageOfLayer(layers: seq<Layer>, prefill: bool, i: nat, t: nat)
    requires i < |layers| && t < |LayerStages(layers[i], i, prefill)|
    ensures Placed(Cut(Stream(layers, prefill)), LayerStages(layers[i], i, prefill), Base(layers[..i]), t)
  {
    var upTo := layers[..i + 1];
    assert Front(upTo) == layers[..i] && Last(upTo) == layers[i];
    StackStageCount(layers[..i], prefill);
    StagesOfStack(upTo, prefill);
    StackExtends(layers, i + 1, prefill);
    StageOfSeam(Cut(Stream(layers[..i], prefill)), LayerStages(layers[i], i, prefill), Cut(Stream(layers, prefill)),
                Base(layers[..i]), t);
  }

  lemma StageOfSeam<T>(x: seq<seq<T>>, y: seq<seq<T>>, z: seq<seq<T>>, base: nat, t: nat)
    requires |x| == base + 1 && t < |y| && Extends(Seam(x, y), z)
    ensures Placed(z, y, base, t)
  {
    var seam := Seam(x, y);
    var j := base + t;
    assert forall op :: op in y[t] ==> op in seam[j] by {
      assert t > 0 ==> seam[j] == y[t];
    }
    assert j < |seam| - 1 ==> Front(seam)[j] == z[j];
    assert seam[j] <= z[j];
    assert forall op :: op in seam[j] ==> op in z[j];
  }

  /** Every exchange is launched in one stage and waited for in the next. */
  lemma ExchangesSpanOneYield(layers: seq<Layer>, prefill: bool, i: nat, e: Exchange)
    requires i < |layers| && layers[i].dispatcher
    ensures var s := LaunchStage(layers, i, e);
      && s + 1 < |Cut(Stream(layers, prefill))|
      && LayerOp(Launch(e), i) in Cut(Stream(layers, prefill))[s]
      && LayerOp(Wait(e), i) in Cut(Stream(layers, prefill))[s + 1]
  {
    var own := LayerStages(layers[i], i, prefill);
    var t := match e case Dispatch => 2 case Combine => 3;
    StageOfLayer(layers, prefill, i, t);
    StageOfLayer(layers, prefill, i, t + 1);
    assert LayerOp(Launch(e), i) in own[t] && LayerOp(Wait(e), i) in own[t + 1];
  }

  lemma {:induction false} OpsOfAppend<T>(a: seq<Item<T>>, b: seq<Item<T>>)
    ensures OpsOf(a + b) == OpsOf(a) + OpsOf(b)
  {
    if b == [] {
      assert a + b == a;
    } else {
      OpsOfAppend(a, Front(b));
      assert Front(a + b) == a + Front(b);
    }
  }

  lemma LayerOpsOf(layer: Layer, i: nat, prefill: bool)
    ensures OpsOf(LayerStrategy(layer, i, prefill).operations) == Flatten(LayerStages(layer, i, prefill))
  {
    LayerCut(layer, i, prefill);
    CutKeepsEveryOp(LayerStrategy(layer, i, prefill).operations);
  }

  function FlatStages(s: seq<seq<LayerOp>>): seq<LayerOp>
    requires |s| == 2 || |s| == 5
  {
    if |s| == 2 then s[0] + s[1] else s[0] + s[1] + s[2] + s[3] + s[4]
  }

  lemma FlattenLayer(layer: Layer, i: nat, prefill: bool)
    ensures Flatten(LayerStages(layer, i, prefill)) == FlatStages(LayerStages(layer, i, prefill))
  {
    var s := LayerStages(layer, i, prefill);
    assert Flatten(s[..1]) == s[0] by { assert Front(s[..1]) == []; }
    assert Flatten(s[..2]) == Flatten(s[..1]) + s[1] by { assert Front(s[..2]) == s[..1]; }
    if layer.dispatcher {
      assert Flatten(s[..3]) == Flatten(s[..2]) + s[2] by { assert Front(s[..3]) == s[..2]; }
      assert Flatten(s[..4]) == Flatten(s[..3]) + s[3] by { assert Front(s[..4]) == s[..3]; }
      assert Flatten(s[..5]) == Flatten(s[..4]) + s[4] by { assert Front(s[..5]) == s[..4]; }
      assert s[..5] == s;
    } else {
      assert s[..2] == s;
    }
  }

  /** A stack's ops are its layers' ops, layer after layer. */
  lemma StackOps(layers: seq<Layer>, prefill: bool)
    requires layers != []
    ensures OpsOf(Stream(layers, prefill))
         == OpsOf(Stream(Front(layers), prefill)) + FlatStages(LayerStages(Last(layers), |layers| - 1, prefill))
  {
    StreamGrows(layers, prefill);
    OpsOfAppend(Stream(Front(layers), prefill), LayerStrategy(Last(layers), |layers| - 1, prefill).operations);
    LayerOpsOf(Last(layers), |layers| - 1, prefill);
    FlattenLayer(Last(layers), |layers| - 1, prefill);
  }

  lemma LayerOpsAreDistinct(layer: Layer, i: nat, prefill: bool)
    ensures Distinct(FlatStages(LayerStages(layer, i, prefill)))
    ensures forall op :: op in FlatStages(LayerStages(layer, i, prefill)) ==> op.layer == i
  {
    var ops := FlatStages(LayerStages(layer, i, prefill));
    var kinds :=
      if !layer.dispatcher then [Attn, Mlp]
      else if prefill then [Attn, Gate, DispatchA, DispatchB, Experts, CombineA, SharedExperts, CombineB]
      else [Attn, Gate, DispatchA, SharedExperts, DispatchB, Experts, CombineA, CombineB];
    assert ops == seq(|kinds|, k requires 0 <= k < |kinds| => LayerOp(kinds[k], i));
    assert forall j, k :: 0 <= j < k < |kinds| ==> kinds[j] != kinds[k];
  }

  predicate Distinct<T(==)>(s: seq<T>) {
    forall j, k :: 0 <= j < k < |s| ==> s[j] != s[k]
  }

  lemma DistinctAppend<T>(a: seq<T>, b: seq<T>)
    requires Distinct(a) && Distinct(b) && forall x :: x in a ==> x !in b
    ensures Distinct(a + b)
  {
    forall j, k | 0 <= j < k < |a + b| ensures (a + b)[j] != (a + b)[k] {
      if j < |a| <= k {
        assert a[j] in a && b[k - |a|] in b;
      }
    }
  }

  /** No op occurs twice, so "the stage that launches" is one stage. */
  lemma {:induction false} StackOpsAreDistinct(layers: seq<Layer>, prefill: bool)
    ensures forall op :: op in OpsOf(Stream(layers, prefill)) ==> op.layer < |layers|
    ensures Distinct(OpsOf(Stream(layers, prefill)))
  {
    if layers != [] {
      StackOpsAreDistinct(Front(layers), prefill);
      StackOps(layers, prefill);
      LayerOpsAreDistinct(Last(layers), |layers| - 1, prefill);
      DistinctAppend(OpsOf(Stream(Front(layers), prefill)),
                     FlatStages(LayerStages(Last(layers), |layers| - 1, prefill)));
    } else {
      assert Stream(layers, prefill) == [];
    }
  }

  predicate IsExchangeOp(kind: OpKind) {
    kind.DispatchA? || kind.DispatchB? || kind.CombineA? || kind.CombineB?
  }

  function ExchangeOps(ops: seq<LayerOp>): seq<LayerOp> {
    if ops == [] then []
    else ExchangeOps(Front(ops)) + if IsExchangeOp(Last(ops).kind) then [Last(ops)] else []
  }

  /** Launch, wait, launch, wait: what the EP layers' exchange ops ought to be. */
  function ExchangeOrder(layers: seq<Layer>): seq<LayerOp> {
    if layers == [] then []
    else
      var i := |layers| - 1;
      ExchangeOrder(Front(layers)) +
      if Last(layers).dispatcher
      then [LayerOp(DispatchA, i), LayerOp(DispatchB, i), LayerOp(CombineA, i), LayerOp(CombineB, i)]
      else []
  }

  lemma {:induction false} ExchangeOpsAppend(a: seq<LayerOp>, b: seq<LayerOp>)
    ensures ExchangeOps(a + b) == ExchangeOps(a) + ExchangeOps(b)
  {
    if b == [] {
      assert a + b == a;
    } else {
      ExchangeOpsAppend(a, Front(b));
      assert Front(a + b) == a + Front(b);
    }
  }

  function Kept(op: LayerOp): seq<LayerOp> {
    if IsExchangeOp(op.kind) then [op] else []
  }

  lemma ExchangeOpsStep(ops: seq<LayerOp>, op: LayerOp, more: seq<LayerOp>)
    requires more == ops + [op]
    ensures ExchangeOps(more) == ExchangeOps(ops) + Kept(op)
  {
    assert Front(more) == ops;
  }

  lemma ExchangeOpsOf4(a: LayerOp, b: LayerOp, c: LayerOp, d: LayerOp)
    ensures ExchangeOps([a, b]) == Kept(a) + Kept(b)
    ensures ExchangeOps([a, b, c, d]) == Kept(a) + Kept(b) + Kept(c) + Kept(d)
  {
    ExchangeOpsStep([], a, [a]);
    ExchangeOpsStep([a], b, [a, b]);
    ExchangeOpsStep([a, b], c, [a, b, c]);
    ExchangeOpsStep([a, b, c], d, [a, b, c, d]);
  }

  lemma EpExchangeOps(a: LayerOp, b: LayerOp, c: LayerOp, d: LayerOp, e: LayerOp, f: LayerOp, g: LayerOp, h: LayerOp)
    ensures ExchangeOps([a, b, c, d, e, f, g, h])
         == Kept(a) + Kept(b) + Kept(c) + Kept(d) + (Kept(e) + Kept(f) + Kept(g) + Kept(h))
  {
    assert [a, b, c, d, e, f, g, h] == [a, b, c, d] + [e, f, g, h];
    ExchangeOpsAppend([a, b, c, d], [e, f, g, h]);
    ExchangeOpsOf4(a, b, c, d);
    ExchangeOpsOf4(e, f, g, h);
  }

  /** The ops of a layer in stream order. */
  lemma LayerInOrder(layer: Layer, i: nat, prefill: bool)
    ensures FlatStages(LayerStages(layer, i, prefill))
         == if !layer.dispatcher then [LayerOp(Attn, i), LayerOp(Mlp, i)]
            else if prefill
            then [LayerOp(Attn, i), LayerOp(Gate, i), LayerOp(DispatchA, i), LayerOp(DispatchB, i),
                  LayerOp(Experts, i), LayerOp(CombineA, i), LayerOp(SharedExperts, i), LayerOp(CombineB, i)]
            else [LayerOp(Attn, i), LayerOp(Gate, i), LayerOp(DispatchA, i), LayerOp(SharedExperts, i),
                  LayerOp(DispatchB, i), LayerOp(Experts, i), LayerOp(CombineA, i), LayerOp(CombineB, i)]
  {
  }

  lemma LayerExchangeOps(layer: Layer, i: nat, prefill: bool)
    ensures ExchangeOps(FlatStages(LayerStages(layer, i, prefill)))
         == if layer.dispatcher
            then [LayerOp(DispatchA, i), LayerOp(DispatchB, i), LayerOp(CombineA, i), LayerOp(CombineB, i)]
            else []
  {
    LayerInOrder(layer, i, prefill);
    var attn, gate, shared, experts := LayerOp(Attn, i), LayerOp(Gate, i), LayerOp(SharedExperts, i), LayerOp(Experts, i);
    var da, db, ca, cb := LayerOp(DispatchA, i), LayerOp(DispatchB, i), LayerOp(CombineA, i), LayerOp(CombineB, i);
    if !layer.dispatcher {
      ExchangeOpsOf4(attn, LayerOp(Mlp, i), attn, attn);
    } else if prefill {
      EpExchangeOps(attn, gate, da, db, experts, ca, shared, cb);
    } else {
      EpExchangeOps(attn, gate, da, shared, db, experts, ca, cb);
    }
  }

  /** In each half an exchange is waited for before the next one is launched. */
  lemma {:induction false} ExchangesAlternate(layers: seq<Layer>, prefill: bool)
    ensures ExchangeOps(OpsOf(Stream(layers, prefill))) == ExchangeOrder(layers)
  {
    if layers != [] {
      ExchangesAlternate(Front(layers), prefill);
      StackOps(layers, prefill);
      var added := FlatStages(LayerStages(Last(layers), |layers| - 1, prefill));
      ExchangeOpsAppend(OpsOf(Stream(Front(layers), prefill)), added);
      LayerExchangeOps(Last(layers), |layers| - 1, prefill);
    } else {
      assert Stream(layers, prefill) == [];
    }
  }
}
