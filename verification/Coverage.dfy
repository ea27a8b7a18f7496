/** Whether the interleaved schedule hides each all-to-all exchange behind a stage
  * of the other micro-batch, and in which order the exchanges complete.
  */
module Coverage {
  import opened Common
  import opened Stages
  import opened Operations
  import opened Schedules
  import opened Strategy

  // ---------------------------------------------------------------------
  // Where a stage stands in the timeline
  // ---------------------------------------------------------------------

  /** The events of an interleaved run of two `n`-stage streams that completes. */
  function Timeline(n: nat, d: nat): Trace {
    TraceOf(Schedule(n, d))
  }

  function Position(n: nat, d: nat, half: Half, s: nat): nat
    requires d <= n && s < n
  {
    match half
    case Lead => if s < d then s else 2 * s - d
    case Trail => if s < n - d then d + 2 * s + 1 else n + s
  }

  /** The lead's stage `s`, or the trail's, is the turn at its position. */
  lemma PositionIsItsTurn(n: nat, d: nat, half: Half, s: nat)
    requires d <= n && s < n
    ensures var p := Position(n, d, half, s);
      && p < 2 * n
      && (match half case Lead => s case Trail => p - s) == LeadTurns(n, d, p)
      && half == if p < d then Lead else if p < d + 2 * Pairs(n, d) && (p - d) % 2 == 0 then Lead else Trail
  {
    match half
    case Lead =>
    case Trail => if s < n - d { assert (2 * s + 1) % 2 == 1; }
  }

  /** And a turn is at the position of the stage it runs. */
  lemma TurnIsAtItsPosition(n: nat, d: nat, p: nat)
    requires d <= n && p < 2 * n
    ensures var lead, l := p < d || (p < d + 2 * Pairs(n, d) && (p - d) % 2 == 0), LeadTurns(n, d, p);
      if lead then l < n && Position(n, d, Lead, l) == p
      else 0 <= p - l < n && Position(n, d, Trail, p - l) == p
  {
    if d <= p < d + 2 * Pairs(n, d) {
      var k := (p - d) / 2;
      if (p - d) % 2 == 0 {
        assert p == d + 2 * k && LeadTurns(n, d, p) == d + k;
      } else {
        assert p == d + 2 * k + 1 && LeadTurns(n, d, p) == d + k + 1;
      }
    }
  }

  lemma EventAt(n: nat, d: nat, half: Half, s: nat)
    requires d <= n && s < n
    ensures Position(n, d, half, s) < |Timeline(n, d)|
    ensures Timeline(n, d)[Position(n, d, half, s)] == (half, s)
  {
    var p := Position(n, d, half, s);
    PositionIsItsTurn(n, d, half, s);
    TurnsByPrefix(n, d, p);
    ScheduleTurn(n, d, p);
  }

  lemma EventIsOneOfTheirs(n: nat, d: nat, p: nat)
    requires d <= n && p < |Timeline(n, d)|
    ensures Timeline(n, d)[p].1 < n
    ensures Position(n, d, Timeline(n, d)[p].0, Timeline(n, d)[p].1) == p
  {
    TurnIsAtItsPosition(n, d, p);
    TurnsByPrefix(n, d, p);
    ScheduleTurn(n, d, p);
  }

  /** Every stage of both halves runs exactly once: at its position, nowhere else. */
  lemma EveryStageRunsOnce(n: nat, d: nat, half: Half, s: nat, p: nat)
    requires d <= n && s < n && p < |Timeline(n, d)|
    ensures Timeline(n, d)[p] == (half, s) <==> p == Position(n, d, half, s)
  {
    EventAt(n, d, half, s);
    EventIsOneOfTheirs(n, d, p);
  }

  function Other(half: Half): Half {
    match half case Lead => Trail case Trail => Lead
  }

  /** The events between stages `s` and `s + 1` of `half`. */
  function Gap(n: nat, d: nat, half: Half, s: nat): Trace
    requires d <= n && s + 1 < n
  {
    var p, q := Position(n, d, half, s), Position(n, d, half, s + 1);
    EventAt(n, d, half, s);
    EventAt(n, d, half, s + 1);
    if p < q then Timeline(n, d)[p + 1..q] else []
  }

  /** At most one stage, of the other half: none exactly in the lead's head start and in
    * the trail's drain, else the stage `d` before, or `d + 1` after. */
  function GapStage(n: nat, d: nat, half: Half, s: nat): (gap: Trace)
    ensures |gap| <= 1
  {
    match half
    case Lead => if s >= d then [(Trail, s - d)] else []
    case Trail => if s + d + 1 < n then [(Lead, s + d + 1)] else []
  }

  lemma GapPosition(n: nat, d: nat, half: Half, s: nat)
    requires d <= n && s + 1 < n
    ensures Position(n, d, half, s + 1) == Position(n, d, half, s) + 1 + |GapStage(n, d, half, s)|
    ensures GapStage(n, d, half, s) != [] ==>
              var x := GapStage(n, d, half, s)[0];
              x.1 < n && Position(n, d, x.0, x.1) == Position(n, d, half, s) + 1
  {
  }

  lemma SliceOfOne<T>(s: seq<T>, p: nat, q: nat, gap: seq<T>)
    requires q == p + 1 + |gap| <= |s| && |gap| <= 1 && (gap != [] ==> s[p + 1] == gap[0])
    ensures s[p + 1..q] == gap
  {
  }

  lemma GapIsGapStage(n: nat, d: nat, half: Half, s: nat)
    requires d <= n && s + 1 < n
    ensures Position(n, d, half, s) < Position(n, d, half, s + 1) < |Timeline(n, d)|
    ensures Gap(n, d, half, s) == GapStage(n, d, half, s)
  {
    GapPosition(n, d, half, s);
    EventAt(n, d, half, s + 1);
    if GapStage(n, d, half, s) != [] {
      GapEvent(n, d, half, s);
    }
    SliceOfOne(Timeline(n, d), Position(n, d, half, s), Position(n, d, half, s + 1), GapStage(n, d, half, s));
  }

  lemma GapEvent(n: nat, d: nat, half: Half, s: nat)
    requires d <= n && s + 1 < n && GapStage(n, d, half, s) != []
    ensures Position(n, d, half, s) + 1 < |Timeline(n, d)|
    ensures Timeline(n, d)[Position(n, d, half, s) + 1] == GapStage(n, d, half, s)[0]
  {
    GapPosition(n, d, half, s);
    var x := GapStage(n, d, half, s)[0];
    EventAt(n, d, x.0, x.1);
  }

  // ---------------------------------------------------------------------
  // What the schedule puts between an exchange's launch and its wait
  // ---------------------------------------------------------------------

  /** The lead the strategy picks for the stack. */
  function LeadOf(layers: seq<Layer>, prefill: bool): nat {
    WidestLead(Items(layers, prefill))
  }

  function StageCount(layers: seq<Layer>): nat {
    1 + Base(layers)
  }

  /** The events the schedule has between an exchange's launch and its wait. */
  function Meanwhile(layers: seq<Layer>, prefill: bool, half: Half, i: nat, e: Exchange): Trace
    requires i < |layers| && layers[i].dispatcher
  {
    ExchangesSpanOneYield(layers, prefill, i, e);
    StackStageCount(layers, prefill);
    LeadFits(layers, prefill);
    Gap(StageCount(layers), LeadOf(layers, prefill), half, LaunchStage(layers, i, e))
  }

  lemma MeanwhileIsGapStage(layers: seq<Layer>, prefill: bool, half: Half, i: nat, e: Exchange)
    requires i < |layers| && layers[i].dispatcher
    ensures LaunchStage(layers, i, e) + 1 < StageCount(layers)
    ensures Meanwhile(layers, prefill, half, i, e)
         == GapStage(StageCount(layers), LeadOf(layers, prefill), half, LaunchStage(layers, i, e))
  {
    ExchangesSpanOneYield(layers, prefill, i, e);
    StackStageCount(layers, prefill);
    LeadFits(layers, prefill);
    GapIsGapStage(StageCount(layers), LeadOf(layers, prefill), half, LaunchStage(layers, i, e));
  }

  /** Ops that keep the device busy; the others post an exchange or wait for one. */
  predicate IsCompute(kind: OpKind) {
    kind.Attn? || kind.Mlp? || kind.Gate? || kind.SharedExperts? || kind.Experts?
  }

  /** An op of a stream is compute, or posts or awaits one of the two exchanges. */
  lemma ComputeIsAllButExchanges(kind: OpKind)
    ensures IsCompute(kind) <==> kind != DispatchA && kind != DispatchB && kind != CombineA && kind != CombineB
  {
  }

  predicate HasCompute(stage: seq<LayerOp>) {
    exists op :: op in stage && IsCompute(op.kind)
  }

  /** Some stage of the other half with compute in it runs while the exchange is open. */
  predicate HiddenByCompute(layers: seq<Layer>, prefill: bool, half: Half, i: nat, e: Exchange)
    requires i < |layers| && layers[i].dispatcher
  {
    exists x :: x in Meanwhile(layers, prefill, half, i, e) && x.0 == Other(half)
                && x.1 < |Cut(Stream(layers, prefill))| && HasCompute(Cut(Stream(layers, prefill))[x.1])
  }

  lemma HiddenByStage(layers: seq<Layer>, prefill: bool, half: Half, i: nat, e: Exchange, j: nat)
    requires i < |layers| && layers[i].dispatcher && j < |Cut(Stream(layers, prefill))|
    requires Meanwhile(layers, prefill, half, i, e) == [(Other(half), j)]
    ensures HiddenByCompute(layers, prefill, half, i, e) <==> HasCompute(Cut(Stream(layers, prefill))[j])
  {
    assert (Other(half), j) in Meanwhile(layers, prefill, half, i, e);
  }

  lemma LeadFits(layers: seq<Layer>, prefill: bool)
    ensures LeadOf(layers, prefill) <= StageCount(layers)
  {
    StackLead(layers, prefill);
  }

  lemma {:induction false} EpLayerCounts(layers: seq<Layer>, i: nat)
    requires i < |layers| && layers[i].dispatcher
    ensures EpMoeCount(layers) > 0
  {
    if i < |layers| - 1 {
      EpLayerCounts(Front(layers), i);
    }
  }

  /** Any layer's second stage has compute: its MLP, or its gate. */
  lemma SecondStageComputes(layers: seq<Layer>, prefill: bool, i: nat)
    requires i < |layers|
    ensures Base(layers[..i]) + 1 < |Cut(Stream(layers, prefill))|
    ensures HasCompute(Cut(Stream(layers, prefill))[Base(layers[..i]) + 1])
  {
    StageOfLayer(layers, prefill, i, 1);
    var op := LayerOp(if layers[i].dispatcher then Gate else Mlp, i);
    assert op in LayerStages(layers[i], i, prefill)[1] && IsCompute(op.kind);
  }

  lemma OpComputes(layers: seq<Layer>, prefill: bool, i: nat, t: nat, kind: OpKind)
    requires i < |layers| && t < |LayerStages(layers[i], i, prefill)|
    requires LayerOp(kind, i) in LayerStages(layers[i], i, prefill)[t] && IsCompute(kind)
    ensures Base(layers[..i]) + t < |Cut(Stream(layers, prefill))|
    ensures HasCompute(Cut(Stream(layers, prefill))[Base(layers[..i]) + t])
  {
    StageOfLayer(layers, prefill, i, t);
  }

  // ---------------------------------------------------------------------
  // Prefill. No prefill run of a stack with an EP layer reaches its end (see
  // PrefillStop), so these are statements about the schedule alone.
  // ---------------------------------------------------------------------

  /** Between launch and wait there is one stage of the other half: for the lead the
    * trail's launch of the same exchange, for the trail the lead's wait for it. */
  lemma PrefillMeanwhile(layers: seq<Layer>, half: Half, i: nat, e: Exchange)
    requires i < |layers| && layers[i].dispatcher
    ensures Meanwhile(layers, true, half, i, e)
         == [(Other(half), LaunchStage(layers, i, e) + if half == Lead then 0 else 1)]
  {
    MeanwhileIsGapStage(layers, true, half, i, e);
    StackLead(layers, true);
  }

  /** That stage computes for every exchange but the lead's dispatches: while one of
    * those is open the trail does nothing but post its own. */
  lemma PrefillHidesAllButLeadDispatches(layers: seq<Layer>, half: Half, i: nat, e: Exchange)
    requires i < |layers| && layers[i].dispatcher
    ensures HiddenByCompute(layers, true, half, i, e) <==> !(half == Lead && e == Dispatch)
    ensures var s := LaunchStage(layers, i, Dispatch);
      && Meanwhile(layers, true, Lead, i, Dispatch) == [(Trail, s)]
      && s < |Cut(Stream(layers, true))| && Cut(Stream(layers, true))[s] == [LayerOp(DispatchA, i)]
  {
    PrefillMeanwhile(layers, half, i, e);
    PrefillMeanwhile(layers, Lead, i, Dispatch);
    StageOfLayer(layers, true, i, 2);
    OpComputes(layers, true, i, 3, Experts);
    OpComputes(layers, true, i, 4, SharedExperts);
    HiddenByStage(layers, true, half, i, e, LaunchStage(layers, i, e) + if half == Lead then 0 else 1);
  }

  // ---------------------------------------------------------------------
  // Decode
  // ---------------------------------------------------------------------

  /** For the lead, the trail's stage two before; for the trail, the lead's three after,
    * if there is one. */
  lemma DecodeMeanwhile(layers: seq<Layer>, half: Half, i: nat, e: Exchange)
    requires i < |layers| && layers[i].dispatcher
    ensures var n, s := StageCount(layers), LaunchStage(layers, i, e);
      && s + 1 < n
      && Meanwhile(layers, false, half, i, e) ==
         match half
         case Lead => [(Trail, s - 2)]
         case Trail => if s + 3 < n then [(Lead, s + 3)] else []
  {
    MeanwhileIsGapStage(layers, false, half, i, e);
    StackLead(layers, false);
    EpLayerCounts(layers, i);
  }

  /** Every exchange of the lead half is hidden behind compute of the trail half; one of
    * the trail half exactly when it is not launched in stage n - 3 or n - 2, where the
    * lead has nothing left to run. */
  lemma DecodeHidesAllButTrailsLast(layers: seq<Layer>, half: Half, i: nat, e: Exchange)
    requires i < |layers| && layers[i].dispatcher
    ensures var n, s := StageCount(layers), LaunchStage(layers, i, e);
      && (HiddenByCompute(layers, false, half, i, e) <==> half == Lead || !(s == n - 3 || s == n - 2))
      && (HiddenByCompute(layers, false, half, i, e) <==> Meanwhile(layers, false, half, i, e) != [])
  {
    DecodeMeanwhile(layers, half, i, e);
    match half
    case Lead => LeadIsHidden(layers, i, e);
    case Trail =>
      if LaunchStage(layers, i, e) + 3 < StageCount(layers) {
        LeadComputesThreeLater(layers, i, e);
        HiddenByStage(layers, false, Trail, i, e, LaunchStage(layers, i, e) + 3);
      }
  }

  /** While the lead's exchange is open the trail attends, or gates, in the same layer. */
  lemma LeadIsHidden(layers: seq<Layer>, i: nat, e: Exchange)
    requires i < |layers| && layers[i].dispatcher
    ensures HiddenByCompute(layers, false, Lead, i, e)
  {
    DecodeMeanwhile(layers, Lead, i, e);
    var j := LaunchStage(layers, i, e) - 2;
    if e == Dispatch {
      OpComputes(layers, false, i, 0, Attn);
      assert j == Base(layers[..i]) + 0;
    } else {
      SecondStageComputes(layers, false, i);
      assert j == Base(layers[..i]) + 1;
    }
    HiddenByStage(layers, false, Lead, i, e, j);
  }

  lemma NextLayerStarts(layers: seq<Layer>, i: nat)
    requires i < |layers|
    ensures Base(layers[..i + 1]) == Base(layers[..i]) + if layers[i].dispatcher then 4 else 1
    ensures i + 1 == |layers| ==> StageCount(layers) == Base(layers[..i + 1]) + 1
  {
    assert Front(layers[..i + 1]) == layers[..i];
    if i + 1 == |layers| {
      assert layers[..i + 1] == layers;
    }
  }

  /** Three stages after an exchange's launch comes a stage of one of the next two
    * layers, and it computes. */
  lemma LeadComputesThreeLater(layers: seq<Layer>, i: nat, e: Exchange)
    requires i < |layers| && layers[i].dispatcher && LaunchStage(layers, i, e) + 3 < StageCount(layers)
    ensures LaunchStage(layers, i, e) + 3 < |Cut(Stream(layers, false))|
    ensures HasCompute(Cut(Stream(layers, false))[LaunchStage(layers, i, e) + 3])
  {
    var j := LaunchStage(layers, i, e) + 3;
    NextLayerStarts(layers, i);
    if e == Dispatch {
      assert j == Base(layers[..i + 1]) + 1;
      SecondStageComputes(layers, false, i + 1);
    } else if layers[i + 1].dispatcher {
      assert j == Base(layers[..i + 1]) + 2;
      OpComputes(layers, false, i + 1, 2, SharedExperts);
    } else {
      NextLayerStarts(layers, i + 1);
      assert j == Base(layers[..i + 2]) + 1;
      SecondStageComputes(layers, false, i + 2);
    }
  }

  lemma {:induction false} BaseGrows(layers: seq<Layer>, i: nat)
    requires i <= |layers|
    ensures Base(layers) >= Base(layers[..i]) + (|layers| - i)
    ensures (exists j :: i <= j < |layers| && layers[j].dispatcher) ==> Base(layers) >= Base(layers[..i]) + 4
    ensures (forall j :: i <= j < |layers| ==> !layers[j].dispatcher) ==> Base(layers) == Base(layers[..i]) + (|layers| - i)
  {
    if i == |layers| {
      assert layers[..i] == layers;
    } else {
      assert Front(layers)[..i] == layers[..i];
      BaseGrows(Front(layers), i);
      assert forall j :: 0 <= j < |Front(layers)| ==> Front(layers)[j] == layers[j];
    }
  }

  /** In terms of the stack: in decode the trail half's dispatch is uncovered only in
    * the last layer; its combine there, and also in a last-but-one layer before a dense
    * one. */
  lemma DecodeTrailByLayer(layers: seq<Layer>, i: nat)
    requires i < |layers| && layers[i].dispatcher
    ensures HiddenByCompute(layers, false, Trail, i, Dispatch) <==> i < |layers| - 1
    ensures HiddenByCompute(layers, false, Trail, i, Combine) <==>
            i < |layers| - 2 || (i == |layers| - 2 && layers[i + 1].dispatcher)
  {
    DecodeHidesAllButTrailsLast(layers, Trail, i, Dispatch);
    DecodeHidesAllButTrailsLast(layers, Trail, i, Combine);
    NextLayerStarts(layers, i);
    BaseGrows(layers, i + 1);
  }

  /** Exchanges are waited for in the order they were launched, across both halves. */
  lemma WaitsFollowLaunchOrder(n: nat, d: nat, half1: Half, s1: nat, half2: Half, s2: nat)
    requires d <= n && s1 + 1 < n && s2 + 1 < n
    ensures Position(n, d, half1, s1) < Position(n, d, half2, s2)
       <==> Position(n, d, half1, s1 + 1) < Position(n, d, half2, s2 + 1)
  {
    if half1 != half2 {
      LeadBeforeTrail(n, d, if half1 == Lead then s1 else s2, if half1 == Lead then s2 else s1);
      LeadBeforeTrail(n, d, if half1 == Lead then s1 + 1 else s2 + 1, if half1 == Lead then s2 + 1 else s1 + 1);
    }
  }

  /** Lead stage `s` runs before trail stage `j` exactly when `s <= j + d`. */
  lemma LeadBeforeTrail(n: nat, d: nat, s: nat, j: nat)
    requires d <= n && s < n && j < n
    ensures Position(n, d, Lead, s) < Position(n, d, Trail, j) <==> s <= j + d
    ensures Position(n, d, Lead, s) != Position(n, d, Trail, j)
  {
  }

  /** In the schedule of a stack an exchange is launched at one event and waited for at
    * a later one, and `Meanwhile` is what comes in between. */
  lemma ExchangeInTimeline(layers: seq<Layer>, prefill: bool, half: Half, i: nat, e: Exchange)
      returns (p: nat, q: nat, s: nat)
    requires i < |layers| && layers[i].dispatcher
    ensures s + 1 < |Cut(Stream(layers, prefill))|
    ensures LayerOp(Launch(e), i) in Cut(Stream(layers, prefill))[s]
    ensures LayerOp(Wait(e), i) in Cut(Stream(layers, prefill))[s + 1]
    ensures var timeline := Timeline(StageCount(layers), LeadOf(layers, prefill));
      && p < q < |timeline| && timeline[p] == (half, s) && timeline[q] == (half, s + 1)
      && Meanwhile(layers, prefill, half, i, e) == timeline[p + 1..q]
  {
    s := LaunchStage(layers, i, e);
    ExchangesSpanOneYield(layers, prefill, i, e);
    StackStageCount(layers, prefill);
    LeadFits(layers, prefill);
    p, q := NeighboursInTimeline(StageCount(layers), LeadOf(layers, prefill), half, s);
  }

  lemma NeighboursInTimeline(n: nat, d: nat, half: Half, s: nat) returns (p: nat, q: nat)
    requires d <= n && s + 1 < n
    ensures p < q < |Timeline(n, d)| && Timeline(n, d)[p] == (half, s) && Timeline(n, d)[q] == (half, s + 1)
    ensures Gap(n, d, half, s) == Timeline(n, d)[p + 1..q]
  {
    p, q := Position(n, d, half, s), Position(n, d, half, s + 1);
    EventAt(n, d, half, s);
    EventAt(n, d, half, s + 1);
    GapIsGapStage(n, d, half, s);
  }

  /** For one stack: of any two exchanges, of either half, the one launched first is
    * waited for first. */
  lemma StackExchangesCompleteInOrder(
      layers: seq<Layer>, prefill: bool, half1: Half, i1: nat, e1: Exchange, half2: Half, i2: nat, e2: Exchange)
    requires i1 < |layers| && layers[i1].dispatcher && i2 < |layers| && layers[i2].dispatcher
    ensures var n, d := StageCount(layers), LeadOf(layers, prefill);
      var s1, s2 := LaunchStage(layers, i1, e1), LaunchStage(layers, i2, e2);
      && d <= n && s1 + 1 < n && s2 + 1 < n
      && (Position(n, d, half1, s1) < Position(n, d, half2, s2)
          <==> Position(n, d, half1, s1 + 1) < Position(n, d, half2, s2 + 1))
  {
    ExchangesSpanOneYield(layers, prefill, i1, e1);
    ExchangesSpanOneYield(layers, prefill, i2, e2);
    StackStageCount(layers, prefill);
    LeadFits(layers, prefill);
    WaitsFollowLaunchOrder(StageCount(layers), LeadOf(layers, prefill),
                           half1, LaunchStage(layers, i1, e1), half2, LaunchStage(layers, i2, e2));
  }
}
