# Two-batch overlap, kernels and layouts: a Dafny model

This project models the parts of `rapid_llm` whose correctness rests on reasoning
rather than on measurement, and proves what they promise:

* **The two-batch-overlap executor** (`StateDicts`, `StateHistory`, `Stages`,
  `Operations`, `OpSteps`, `Schedules`, `Refusals`, `SharedState`, `RunHistory`). Two
  micro-batches go through their op streams stage by stage, each over a state bag whose
  keys are written once until popped. An op is a script of accesses, each chosen from the
  replies to the earlier ones, that may raise at any of them. The classes `StateDict` and
  `StageExecutor` are updated in place as the source does; each method is tied to a pure
  function, and the refinement of the serial run is proved of those functions, aborted
  runs included. One state given for both halves is covered too.
* **The op streams of a layer stack** (`Strategy`, `Coverage`, `LayerState`,
  `PrefillStop`). Which stacks get a stream, that the executor accepts it, which
  all-to-all exchanges are hidden behind compute of the other half, and for which stacks
  a whole forward pass trips the state bag, and where.
* **The grouped, tiled GEMM** (`PidGrid`, `Matrices`, `Gemm`) over row-major buffers, and
  the SwiGLU MLP made of two launches of it, with `sigmoid` any function.
* **Trace interval arithmetic** (`Instants`, `Intervals`) against sizes of sets of
  instants.
* **Split softmax and nucleus filtering** (`Softmax`, `SoftmaxKernels`, `Nucleus`) with
  `exp` and `log` any functions that satisfy `ExpLaws`.
* **Quantisation and layout arithmetic** (`Rounding`, `Int8RoundTrip`, `Int4`,
  `Int4Groups`, `ContextDealing`, `RowTable`, `ReplicaBuckets`).

`Common` and `Arithmetic` hold shared datatypes and division facts.

## Where the code falls short of its description

Five properties that the repository's texts state, or that a reader would expect, do
not hold of the code. The model keeps the code, and the exact condition is proved.

* **The EP MoE prefill stream cannot complete.** It places `op_shared_experts` after
  `op_dispatch_b` (`rapid_llm/batch_overlap/operations_strategy.py:161-175`), but
  `op_dispatch_b` pops `mlp_input` and `op_shared_experts` reads it
  (`rapid_llm/models/base.py:333-341`). A pass over a stack succeeds if and only if it
  is not a prefill or the stack has no expert-parallel layer:
  `LayerState.SerialPassSucceedsExactlyOffEpPrefill` and
  `LayerState.OverlappedPassSucceedsExactlyOffEpPrefill`. Interleaved, it stops in the
  lead's stage two after the launch of the first EP layer's dispatch, with both halves'
  combines launched and never waited for: `PrefillStop.EpPrefillStops`,
  `PrefillStop.CombineIsNeverWaitedFor`.
* **The prefill schedule does not cover both exchanges with compute**, as the builder's
  text says it does (`rapid_llm/batch_overlap/operations_strategy.py:153-155`). While a
  dispatch of the lead is open, the trail runs one stage, and that stage is its own launch
  of the same dispatch. An exchange of the prefill schedule is hidden behind compute if
  and only if it is not a dispatch of the lead half:
  `Coverage.PrefillHidesAllButLeadDispatches`. As no prefill of a stack with an EP layer
  completes, this is a statement about the schedule alone.
* **Decode does not hide every exchange of the trail half** behind the other half's
  compute (`rapid_llm/models/base.py:329, 349`). With a lead of two, an exchange of the
  trail is uncovered exactly when it is launched in stage n-3 or n-2 of n. In terms of
  layers: its dispatch, when the EP layer is last in the stack; its combine, when the EP
  layer is last in the stack, or last but one and followed by a dense layer. The lead's
  are all hidden: `Coverage.DecodeHidesAllButTrailsLast`, `Coverage.DecodeTrailByLayer`.
* **An unsupported layer never raises the documented `NotImplementedError`**
  (`rapid_llm/batch_overlap/operations_strategy.py:24-36`). The builder is looked up by
  the first layer's class and called on every layer with a `prefill` keyword that
  `_unsupported_layer` does not take: a stack that starts with an unsupported layer raises
  `TypeError`, and one with a later such layer `AttributeError`, for the `op_attn` it does
  not have (`rapid_llm/models/deepseek_v4.py:401`). A stream is built if and only if the
  stack is non-empty and no layer is unsupported:
  `Strategy.BuildSucceedsExactlyWhenSupported`.
* **Group-wise int4 loses weights that lie far from zero.** The zero point saturates at 0
  and 15, so a weight comes back within half a step if and only if it is within 15.5 steps
  of zero, whatever else its group holds: `Int4Groups.SurvivesIffNearZero`,
  `Int4Groups.RowSurvivesIffNearZero`. A constant group, whose range is clamped to 1e-5,
  comes back if and only if its weight is within 15.5 * 1e-5 / 14 of zero:
  `Int4Groups.ConstantGroup`.

## Model

| member | source | states |
|---|---|---|
| `StateDicts.StateDict.constructor` | rapid_llm/batch_overlap/operations.py:64-65 | the bag starts with its initial contents |
| `StateDicts.StateDict.SetAttr` | rapid_llm/batch_overlap/operations.py:67-74 | writes a free key; a live one raises and stays as it was |
| `StateDicts.StateDict.GetAttr` | rapid_llm/batch_overlap/operations.py:76-80 | reads a live key, raises on an absent one, changes nothing |
| `StateDicts.StateDict.PopItem` | rapid_llm/batch_overlap/operations.py:82-84 | hands out the value and frees the name; an absent key raises |
| `StateDicts.StateDict.ClearAll` | rapid_llm/batch_overlap/operations.py:86-100 | empties the bag when the held keys are exactly those named, else raises and changes nothing |
| `StateHistory.FinalIsLatest` | rapid_llm/batch_overlap/operations.py:56-100 | after any accesses, each key holds its latest write unless released since |
| `StateHistory.RunIsDisciplined` | rapid_llm/batch_overlap/operations.py:57-61 | over any run, every write finds its key free and every read or pop finds the value the history says |
| `StateHistory.WritesAndReleasesAlternate` | rapid_llm/batch_overlap/operations.py:57-74 | two writes of one key have a release in between, two releases a write |
| `StateHistory.ReadsReturnLatestWrite` | rapid_llm/batch_overlap/operations.py:76-80 | a read returns the latest unreleased write, or the initial value when the key was never touched |
| `StateHistory.ValuesAreConserved` | rapid_llm/batch_overlap/operations.py:64-100 | initial plus written key-value pairs equal popped plus cleared plus live ones, as multisets, over any run |
| `StateHistory.ClearReleasesExactlyTheNamed` | rapid_llm/batch_overlap/operations.py:86-100 | a clear succeeds if and only if the keys live by the history are exactly the named ones; it then releases exactly those and leaves the bag empty |
| `StateHistory.ReadsAndPopsAnswerTheLatest` | rapid_llm/batch_overlap/operations.py:76-84 | after any accesses, a read or a pop is answered with a value if and only if it is the key's latest unreleased one, and raises for the key if and only if there is none |
| `StateHistory.WritesAreTakenOnce` | rapid_llm/batch_overlap/operations.py:67-74 | a write is taken if and only if the key carries nothing, raises for it otherwise, and is then its latest value |
| `StateHistory.OpsFailOfTheirOwn` | rapid_llm/batch_overlap/operations.py:116-118 | an access raises an op's own error if and only if it is that op's throw, and the throw leaves the state alone |
| `OpSteps.OpIsItsRun` | rapid_llm/batch_overlap/operations.py:116-118 | an op's accesses, each chosen from the replies before it and each answered by the state the ones before it left, give the op's outcome: what they leave, and the error of the last |
| `OpSteps.EveryOpHasARun` | rapid_llm/batch_overlap/operations.py:116-118 | every op has such a run, on every state |
| `OpSteps.ThrowEndsTheOp` | rapid_llm/batch_overlap/operations.py:116-118 | an op fails with a code of its own if and only if its last access was that throw; the accesses before it stay in force |
| `OpSteps.NextOp` | rapid_llm/batch_overlap/operations.py:116-118 | op by op, each runs on what the ones before it left, until one raises |
| `OpSteps.ErrorEndsTheSerialRun` | rapid_llm/batch_overlap/operations.py:148-153 | the first op that raises ends the serial run, with its error and with what it had done in force |
| `OpSteps.ThrowEndsTheSerialRun` | rapid_llm/batch_overlap/operations.py:148-153 | so does a throw anywhere in the stream, with the op's own code |
| `OpSteps.SerialRefusesExactlyBadStreams` | rapid_llm/batch_overlap/operations.py:211-215 | a serial run is refused if and only if its stream cannot be cut, before anything runs |
| `Stages.ConvertOperationsToStages` | rapid_llm/batch_overlap/operations.py:202-216 | returns the cut stages, or refuses exactly when a yield leads, trails or doubles or there is nothing to run |
| `Stages.CutAcceptsIffWellSeparated` | rapid_llm/batch_overlap/operations.py:211-215 | no stage is empty if and only if no yield leads, trails or doubles |
| `Stages.JoinUndoesCut` | rapid_llm/batch_overlap/operations.py:205-210 | joining the cut stages with yields gives back any stream |
| `Stages.CutUndoesJoin` | rapid_llm/batch_overlap/operations.py:205-210 | cutting joined stages gives back any non-empty stage list |
| `Stages.CutKeepsEveryOp` | rapid_llm/batch_overlap/operations.py:205-210 | one stage more than yields, the ops kept once each in stream order |
| `Stages.CutConcat` | rapid_llm/batch_overlap/operations_strategy.py:73-76 | streams concatenated with no yield share one stage at the seam |
| `Operations.StageExecutor.constructor` | rapid_llm/batch_overlap/operations.py:106-110 | an executor starts at stage zero of its stages over its state |
| `Operations.StageExecutor.Next` | rapid_llm/batch_overlap/operations.py:112-130 | runs the next stage's ops in order and steps on; a raise leaves the index; when done it refuses |
| `Operations.RunToCompletion` | rapid_llm/batch_overlap/operations.py:149-152 | one `next` per stage gives the fold of all stages and never trips the final assertion |
| `Operations.ExecuteOperations` | rapid_llm/batch_overlap/operations.py:133-153 | the state ends as the ops in stream order leave it, with the first error raised |
| `Operations.StagesRunAsTheirOps` | rapid_llm/batch_overlap/operations.py:141-143 | yields mean nothing to a lone stream: stage by stage is op by op |
| `Operations.FirstFailureEndsTheRun` | rapid_llm/batch_overlap/operations.py:116-118 | what a failing prefix of stages leaves is what the whole serial run leaves |
| `Operations.RunSchedule` | rapid_llm/batch_overlap/operations.py:189-195 | the three counting loops run exactly the schedule: lead alone, alternating, trail alone |
| `Operations.ExecuteOverlappedOperations` | rapid_llm/batch_overlap/operations.py:156-199 | both states, the error and the trace of (half, stage) events are those of the interleaved specification, refusals included, for two states and for one state given twice |
| `Schedules.OverlappedSucceedsExactlyWhenSerialDoes` | rapid_llm/batch_overlap/operations.py:136-199 | an interleaved run succeeds if and only if its arguments are accepted (zero lead delta, 0 <= delta <= stages, equal stage counts, well-separated yields) and both serial runs succeed; each state then equals its own serial result and the trace is the schedule |
| `Schedules.EveryEndingIsSerialPrefix` | rapid_llm/batch_overlap/operations.py:189-199 | success or abort, each half is at a point of its own serial run, the trace is a prefix of the schedule, and the lead is 0 to delta + 1 stages ahead |
| `Schedules.RaisesTheFirstErrorReached` | rapid_llm/batch_overlap/operations.py:189-195 | which half's error an accepted failing run raises: the lead's if and only if its failing stage is at most delta after the trail's |
| `Schedules.AbortLeaves` | rapid_llm/batch_overlap/operations.py:189-195 | where an accepted failing run stops and what it leaves: the raising half its whole failed serial run, the other exactly the stages the schedule had brought it to, in closed form |
| `Schedules.FailingStageIsFirst` | rapid_llm/batch_overlap/operations.py:112-118 | a prefix of stages succeeds if and only if it ends by the failing stage |
| `Schedules.LeadStaysAhead` | rapid_llm/batch_overlap/operations.py:189-195 | in every prefix of the schedule, lead minus trail progress is in 0 .. delta + 1 |
| `Schedules.PlayKeepsSound` | rapid_llm/batch_overlap/operations.py:112-118 | over any order of turns whatever, each half stays on its own serial path |
| `Schedules.RunShape` | rapid_llm/batch_overlap/operations.py:189-195 | the turns that succeeded are a prefix of the order and the indices count them |
| `RunHistory.OverlappedRunsAreSerialAccesses` | rapid_llm/batch_overlap/operations.py:156-199 | access by access, a finished or aborted interleaved run takes each half through a prefix of its serial accesses and loses no value |
| `SharedState.SharedRunIsOneStream` | rapid_llm/batch_overlap/operations.py:178-195 | given one state for both halves, an accepted run ends, error and all, as the two streams' stages woven in schedule order run serially on it |
| `Refusals.BadArgumentsAreRefused` | rapid_llm/batch_overlap/operations.py:181-187 | each of the three refusals is raised if and only if its argument is bad and the ones looked at before are not; no stage has run then and the states are as they were |
| `Refusals.MismatchedStagesEnd` | rapid_llm/batch_overlap/operations.py:189-198 | with ops that succeed, which error ends a run whose stage counts do not fit: the lead out of stages, the trail out of stages, or one stream ahead of the other, and none if they fit |
| `Strategy.DenseCut` | rapid_llm/batch_overlap/operations_strategy.py:114-123 | a dense stream is attention, then MLP: two stages |
| `Strategy.EpMoeCut` | rapid_llm/batch_overlap/operations_strategy.py:126-144 | the five stages of an EP decode stream, op by op |
| `Strategy.EpMoePrefillCut` | rapid_llm/batch_overlap/operations_strategy.py:147-177 | the five stages of an EP prefill stream, the shared experts after the combine launch |
| `Strategy.LayerGetsItsStream` | rapid_llm/batch_overlap/operations_strategy.py:97-111 | a layer without a dispatcher gets the dense stream, one with it the EP prefill or the EP decode stream |
| `Strategy.StagesOfStack` | rapid_llm/batch_overlap/operations_strategy.py:61-76 | a layer's first stage is the last stage of the layers before it |
| `Strategy.BuildSucceedsExactlyWhenSupported` | rapid_llm/batch_overlap/operations_strategy.py:90-94 | a strategy is built if and only if the stack is non-empty and no layer is a `DeepseekV4DecoderLayer`; one in front raises for the keyword, the first later one for the op it lacks |
| `Strategy.StackIsAccepted` | rapid_llm/batch_overlap/operations_strategy.py:78-111 | a strategy that is built is accepted for both halves, with 1 + #dense + 4 * #EP stages in decode and prefill alike and a lead of 2 exactly for an EP decode |
| `Strategy.StackStageCount` | rapid_llm/batch_overlap/operations_strategy.py:97-177 | the stage count of any stack |
| `Strategy.StackLead` | rapid_llm/batch_overlap/operations_strategy.py:73-76 | the widest lead of a mixed stack |
| `Strategy.StackIsWellSeparated` | rapid_llm/batch_overlap/operations.py:211-215 | no stage of a non-empty stack is empty |
| `Strategy.StageOfLayer` | rapid_llm/batch_overlap/operations_strategy.py:61-76 | where a layer's stages are in its stack's: the inner ones unchanged, the first and last part of one |
| `Strategy.ExchangesSpanOneYield` | rapid_llm/batch_overlap/operations_strategy.py:126-177 | every exchange of every EP layer is launched in one stage and waited for in the very next |
| `Strategy.StackOpsAreDistinct` | rapid_llm/batch_overlap/operations_strategy.py:61-76 | no op of a stack occurs twice |
| `Strategy.StackOps` | rapid_llm/batch_overlap/operations_strategy.py:61-76 | a stack's ops are its layers' ops, layer after layer |
| `Strategy.ExchangesAlternate` | rapid_llm/batch_overlap/operations_strategy.py:126-177 | in one half, exchange ops go launch, wait, launch, wait, dispatch before combine, layer by layer |
| `Coverage.EveryStageRunsOnce` | rapid_llm/batch_overlap/operations.py:189-195 | each stage of each half is exactly one event of the timeline, at its closed-form position |
| `Coverage.GapIsGapStage` | rapid_llm/batch_overlap/operations.py:189-195 | between two neighbouring stages of one half the schedule has one stage of the other, and which; none exactly in the lead's head start and the trail's drain |
| `Coverage.ComputeIsAllButExchanges` | rapid_llm/batch_overlap/operations_strategy.py:126-144 | every op of the streams counts as compute except the launches and waits of the two exchanges |
| `Coverage.ExchangeInTimeline` | rapid_llm/batch_overlap/operations_strategy.py:126-177 | in the schedule an exchange is launched at one event and waited for at a later one, and which events lie in between |
| `Coverage.PrefillMeanwhile` | rapid_llm/batch_overlap/operations_strategy.py:147-177 | in the prefill schedule the one stage between launch and wait is the trail's launch of the same exchange, or the lead's wait for it |
| `Coverage.PrefillHidesAllButLeadDispatches` | rapid_llm/batch_overlap/operations_strategy.py:153-160 | in the prefill schedule that stage computes if and only if the exchange is not a dispatch of the lead; for those it is the trail's launch and nothing else |
| `Coverage.DecodeMeanwhile` | rapid_llm/batch_overlap/operations_strategy.py:126-144 | in decode the lead's exchange has the trail's stage two before in between, the trail's the lead's stage three after, if there is one |
| `Coverage.DecodeHidesAllButTrailsLast` | rapid_llm/batch_overlap/operations_strategy.py:126-144 | in decode every exchange of the lead half is hidden behind compute; one of the trail half if and only if it is not launched in stage n-3 or n-2, where nothing lies in between |
| `Coverage.DecodeTrailByLayer` | rapid_llm/batch_overlap/operations_strategy.py:65-72 | the same by layer: the trail's dispatch is hidden if and only if its layer is not the last, its combine if and only if the layer is neither last nor last but one before a dense one |
| `Coverage.LeadBeforeTrail` | rapid_llm/batch_overlap/operations.py:189-195 | lead stage s runs before trail stage j if and only if s <= j + delta |
| `Coverage.WaitsFollowLaunchOrder` | rapid_llm/batch_overlap/operations.py:189-195 | across both halves and any lead, what is launched first is waited for first |
| `Coverage.StackExchangesCompleteInOrder` | rapid_llm/batch_overlap/operations_strategy.py:126-177 | any two exchanges of a stack, of either half, complete in launch order |
| `LayerState.OpRuns` | rapid_llm/models/base.py:280-361 | each layer op, given the keys its predecessor leaves, raises nothing and leaves the keys its successor needs |
| `LayerState.KeysByOp` | rapid_llm/models/base.py:280-361 | by name, the intermediates each op takes and leaves, and the keys that outlive the stack |
| `LayerState.OpsFollowKeys` | rapid_llm/models/base.py:271-361 | which ops raise, and which keys remain, depends on the keys only; keys that are only read keep their values |
| `LayerState.LayerRuns` | rapid_llm/models/base.py:280-361 | a layer outside EP prefill hands on exactly the intermediates it was handed |
| `LayerState.SharedExpertsAfterDispatchRaises` | rapid_llm/models/base.py:333-341 | after the dispatch is waited for, the shared experts find no `mlp_input` |
| `LayerState.EpPrefillLayerRaises` | rapid_llm/batch_overlap/operations_strategy.py:161-175 | the EP prefill stream of any layer raises on `mlp_input` |
| `LayerState.StackRuns` | rapid_llm/models/base.py:280-361 | a stack's ops raise if and only if it is a prefill with an EP layer; otherwise the keys come back as they were |
| `LayerState.HeadAcceptsExactly` | rapid_llm/batch_overlap/two_batch_overlap.py:515-530 | the head's pops and its clear succeed if and only if the keys held are exactly those a micro-batch starts with |
| `LayerState.InitialKeysByName` | rapid_llm/batch_overlap/two_batch_overlap.py:97-104 | which those are, with the expert-parallel context exactly when a layer has a dispatcher |
| `LayerState.SerialPassSucceedsExactlyOffEpPrefill` | rapid_llm/batch_overlap/two_batch_overlap.py:476-530 | alone, a micro-batch passes any supported stack, keeps every persistent value and leaves the head nothing unreleased, exactly off the EP prefill |
| `LayerState.OverlappedPassSucceedsExactlyOffEpPrefill` | rapid_llm/batch_overlap/two_batch_overlap.py:435-530 | interleaved as the strategy asks, both halves end with their serial results and clean heads, exactly off the EP prefill |
| `LayerState.CompletedPassFollowsTheTimeline` | rapid_llm/batch_overlap/operations.py:189-195 | a pass that completes has run through the timeline the coverage results speak of |
| `PrefillStop.EpPrefillStops` | rapid_llm/batch_overlap/operations_strategy.py:161-175 | an interleaved EP prefill stops in the lead's stage two after the launch of the first EP layer's dispatch, both halves having run exactly the stages before it and holding the experts' output |
| `PrefillStop.CombineIsNeverWaitedFor` | rapid_llm/batch_overlap/operations_strategy.py:168-174 | by then that layer's dispatch has been waited for and its combine launched, and no combine has been waited for |
| `PidGrid.GroupIsInhabited` | benchmarks/kernels/bench_fused_mlp_silu.py:66-69 | `group_size_m` is never zero and a program's offset stays in its group, partial last group included |
| `PidGrid.TileIsInGrid` | benchmarks/kernels/bench_fused_mlp_silu.py:63-71 | every launched program's tile is in the grid |
| `PidGrid.TileOfPid` | benchmarks/kernels/bench_fused_mlp_silu.py:63-71 | the map is onto: a closed-form inverse names the program of each tile, rotated residue included |
| `PidGrid.PidOfTile` | benchmarks/kernels/bench_fused_mlp_silu.py:63-71 | and one-to-one: the inverse of a program's tile is that program |
| `PidGrid.ExactlyOneProgramPerTile` | benchmarks/kernels/bench_fused_mlp_silu.py:63-71 | each tile of the grid has exactly one program |
| `PidGrid.GroupsStayTogether` | benchmarks/kernels/bench_fused_mlp_silu.py:66-71 | consecutive programs stay in one group of rows until it is full, and walk its columns in order |
| `Matrices.ProductAdds` | benchmarks/kernels/bench_fused_mlp_silu.py:174-182 | the reference product of a sum of left operands is the sum of the products |
| `Matrices.ProductScales` | benchmarks/kernels/bench_fused_mlp_silu.py:174-182 | of a multiple, the multiple of the product |
| `Matrices.OneHotPicksTheRow` | benchmarks/kernels/bench_fused_mlp_silu.py:174-182 | a one-hot row picks out that row of the right operand |
| `Matrices.ZeroTimesAnything` | benchmarks/kernels/bench_fused_mlp_silu.py:174-182 | a zero left operand gives the zero matrix |
| `Gemm.LiveLoadsAreInBounds` | benchmarks/kernels/bench_fused_mlp_silu.py:73-93 | every load the mask lets through is inside its buffer, wrapped rows and columns included |
| `Gemm.BlockExtendsRow` | benchmarks/kernels/bench_fused_mlp_silu.py:84-93 | a masked K-block adds exactly its live products to the row by the column, the tail adding zero |
| `Gemm.AddBlock` | benchmarks/kernels/bench_fused_mlp_silu.py:85-91 | one step of the K-loop on every lane of the accumulator |
| `Gemm.Accumulate` | benchmarks/kernels/bench_fused_mlp_silu.py:81-93 | after the K-loop both accumulators hold whole rows by whole columns |
| `Gemm.StoreTile` | benchmarks/kernels/bench_fused_mlp_silu.py:95-104 | the masked store writes the tile's live lanes and nothing else |
| `Gemm.MlpKernel` | benchmarks/kernels/bench_fused_mlp_silu.py:63-104 | one program fills its tile with the plain (or silu-gated) matrix elements and leaves the rest of C alone |
| `Gemm.OneProgramPerElement` | benchmarks/kernels/bench_fused_mlp_silu.py:63-71 | each output element lies in the tile of exactly one launched program |
| `Gemm.Launch` | benchmarks/kernels/bench_fused_mlp_silu.py:107-138 | all programs, in any order that covers the grid, leave C equal to the matrix product, or fused to the silu of one product times another |
| `Gemm.FusedCellsAreSwiglu` | benchmarks/kernels/bench_fused_mlp_silu.py:95-96 | a fused launch is swiglu of two matrix products |
| `Gemm.PlainCellsAreMatMul` | benchmarks/kernels/bench_fused_mlp_silu.py:97-98 | an unfused launch is the matrix product |
| `Gemm.MlpSilu` | benchmarks/kernels/bench_fused_mlp_silu.py:154-182 | two launches in arbitrary orders equal the eager reference: three matrix products with silu(gate) * up between them |
| `Intervals.Merge` | benchmarks/overlap/nsys.py:129-137 | the in-place loop computes the fold of its span rule |
| `Intervals.MergedIsSeparated` | benchmarks/overlap/nsys.py:129-137 | start-sorted intervals merge into increasing spans with gaps between them |
| `Intervals.MergedCoversTheSame` | benchmarks/overlap/nsys.py:129-137 | the spans cover exactly the instants the intervals cover |
| `Intervals.MergedIsIdempotent` | benchmarks/overlap/nsys.py:129-137 | merging merged spans changes nothing |
| `Intervals.SpansAreCanonical` | benchmarks/overlap/nsys.py:129-137 | positive separated spans are determined by what they cover |
| `Intervals.MergedIsCanonical` | benchmarks/overlap/nsys.py:129-137 | two start-sorted lists of positive kernels merge into the same spans if and only if they cover the same instants |
| `Intervals.BisectRight` | benchmarks/overlap/nsys.py:157 | the bisection returns the boundary between ends at or below and ends beyond the start |
| `Intervals.ScanFrom` | benchmarks/overlap/nsys.py:158-161 | the scan from that boundary sums the intersections with all spans and may stop where it does |
| `Intervals.HiddenUnder` | benchmarks/overlap/nsys.py:153-161 | a reduction's hidden time is its number of covered instants |
| `Instants.InstantsAreCounted` | benchmarks/overlap/nsys.py:151-162 | hidden time is the number of pairs of a reduction and an instant of it under compute; the rest of the total is the number of those under none |
| `Intervals.OverlapStats` | benchmarks/overlap/nsys.py:140-168 | a million times the overlap is the number of hidden instants, a million times the exposed time the number of exposed ones, both in all reductions, and the total is their sum |
| `Intervals.SeparatedClipSumIsCovered` | benchmarks/overlap/nsys.py:143-146 | over separated spans the sum of intersections counts every covered instant once |
| `Intervals.HiddenIsMonotone` | benchmarks/overlap/nsys.py:140-162 | more compute coverage hides no less |
| `Intervals.HiddenDependsOnUnionOnly` | benchmarks/overlap/nsys.py:143-146 | only the union of the compute kernels matters |
| `Intervals.HiddenIsWithinTotal` | benchmarks/overlap/nsys.py:162 | hidden time never exceeds total time |
| `Intervals.PairwiseOverlap` | benchmarks/overlap/arms.py:216-225 | the pairs are the exchanges and regions that meet, and the overlap the number of instants they share, pair by pair |
| `Intervals.PairwiseIsExactIffDisjoint` | benchmarks/overlap/arms.py:216-225 | the pairwise sum is never below the covered time, and equal to it if and only if no instant of an exchange lies in two compute regions |
| `Softmax.MaxShiftedSumIsSafe` | benchmarks/kernels/bench_softmax.py:104-106 | with one live lane the shifted sum is between 1 and the live count: no log of zero, no division by zero |
| `Softmax.LogSumExpIsLogOfTotal` | benchmarks/kernels/bench_softmax.py:104-106 | a tile's log-sum-exp is the log of its exponentials' total, padding ignored |
| `Softmax.LaunchedTileIsLive` | benchmarks/kernels/bench_softmax.py:99-103 | every launched tile has a live lane |
| `Softmax.TileLogsTotal` | benchmarks/kernels/bench_softmax.py:143-144 | a row's tile logs stand for the whole row's total |
| `Softmax.CombinedLogIsLogOfRow` | benchmarks/kernels/bench_softmax.py:111-119 | for every tiling and padding the combined value is the row's log-sum-exp |
| `Softmax.SoftmaxIgnoresTheShift` | benchmarks/kernels/bench_softmax.py:19-29 | softmax is the same for every shift |
| `Softmax.NaiveIsExpOverTotal` | benchmarks/kernels/bench_softmax.py:19-29 | the max-shifted reference is exp over the row's total |
| `Softmax.SoftmaxIsTheDistribution` | benchmarks/kernels/bench_softmax.py:19-29 | a row's softmax sums to one and its elements are to each other as their exponentials |
| `Softmax.SplitIsSoftmax` | benchmarks/kernels/bench_softmax.py:122-153 | for every row and tiling, exp(x - combined) is the reference softmax |
| `Softmax.OnePassIsSoftmax` | benchmarks/kernels/bench_softmax.py:51-58 | the one-pass form over padded lanes is the reference softmax |
| `SoftmaxKernels.LoadLanes` | benchmarks/kernels/bench_softmax.py:99-103 | a masked load reads the row's live lanes and minus infinity elsewhere |
| `SoftmaxKernels.LogsumexpKernel` | benchmarks/kernels/bench_softmax.py:94-108 | one program writes its tile's log-sum-exp at its own slot only |
| `SoftmaxKernels.CombineLogsumexpKernel` | benchmarks/kernels/bench_softmax.py:111-119 | one program writes its row's combination at its own slot only |
| `SoftmaxKernels.SoftmaxSplitKernel` | benchmarks/kernels/bench_softmax.py:122-131 | one program normalises the live lanes of its tile and nothing else |
| `SoftmaxKernels.SoftmaxSplit` | benchmarks/kernels/bench_softmax.py:135-153 | after the three launches every element is the reference softmax of its row |
| `SoftmaxKernels.SoftmaxKernelFwd` | benchmarks/kernels/bench_softmax.py:35-58 | one program stores the reference softmax of its row and nothing else |
| `SoftmaxKernels.SoftmaxNativeFwd` | benchmarks/kernels/bench_softmax.py:73-88 | the one-program-per-row launch is the reference softmax everywhere |
| `Nucleus.NucleusIsPrefix` | examples/teaching/hf_gpt2_manual_decode.py:57-61 | the kept tokens are a non-empty prefix of the sorted order |
| `Nucleus.TopTokensAreHeaviest` | examples/teaching/hf_gpt2_manual_decode.py:54-58 | of all sets of one size the likeliest tokens have most mass |
| `Nucleus.NucleusIsSmallest` | examples/teaching/hf_gpt2_manual_decode.py:57-61 | the nucleus has mass above `top_p` and no smaller set of ranks has |
| `Nucleus.NoSmallerTokenSet` | examples/teaching/hf_gpt2_manual_decode.py:54-61 | nor has any smaller set of token ids, through the sort's permutation |
| `Nucleus.SizeOutsideTheMass` | examples/teaching/hf_gpt2_manual_decode.py:57-61 | a `top_p` below zero keeps one token, one that the whole mass does not exceed keeps all |
| `Nucleus.SelectedIsCardinality` | examples/teaching/hf_gpt2_manual_decode.py:57-61 | the size of a token set is the number of its tokens |
| `Nucleus.CumSum` | examples/teaching/hf_gpt2_manual_decode.py:55 | the running sums are the prefix masses |
| `Nucleus.RemovalMask` | examples/teaching/hf_gpt2_manual_decode.py:58-61 | the mask compared, shifted in place and cleared at its head removes exactly what the nucleus does not keep |
| `Nucleus.ApplyTopP` | examples/teaching/hf_gpt2_manual_decode.py:58-64 | kept logits stay, the others become minus infinity |
| `Nucleus.SoftmaxIsDistribution` | examples/teaching/hf_gpt2_manual_decode.py:54-55 | sorted logits give positive, descending probabilities that sum to one |
| `Nucleus.RenormalisedShare` | examples/teaching/hf_gpt2_manual_decode.py:64-66 | after the mask a kept token has its share of the nucleus mass, any other zero |
| `Nucleus.SharesSumToOne` | examples/teaching/hf_gpt2_manual_decode.py:66 | the renormalised weights sum to one |
| `Nucleus.SampleTopP` | examples/teaching/hf_gpt2_manual_decode.py:53-72 | one step end to end, from the logits by token id: the sampled token is one of the kept ones, whose weights are their shares of the kept mass; for 0 <= `top_p` < 1 they have more mass than `top_p` and no smaller set of token ids has, below 0 one token is kept, from 1 on all |
| `Rounding.RoundIsNearestEven` | benchmarks/kernels/bench_fused_moe.py:377-384 | the rounding is the one integer roundTiesToEven allows |
| `Rounding.RoundIsMonotone` | benchmarks/kernels/bench_fused_moe.py:384 | rounding keeps order |
| `Rounding.RoundIsOdd` | benchmarks/kernels/bench_fused_moe.py:384 | ties to even treats both signs alike |
| `Int8RoundTrip.ScaleCoversRange` | benchmarks/kernels/bench_fused_moe.py:382-383 | 127 steps are exactly a non-zero row's maximum |
| `Int8RoundTrip.ClampIsIdle` | benchmarks/kernels/bench_fused_moe.py:384 | within the row's range the clamp never fires |
| `Int8RoundTrip.AbsMaxIs` | benchmarks/kernels/bench_fused_moe.py:382 | the row's maximum is the magnitude that one element has and none exceeds |
| `Int8RoundTrip.ElementIsNearestStep` | benchmarks/kernels/bench_fused_moe.py:384 | an element comes back as the nearest multiple of the scale |
| `Int8RoundTrip.RowErrorIsHalfAStep` | benchmarks/kernels/bench_fused_moe.py:381-384 | every element's error is at most scale / 2, amax / 254 on a non-zero row |
| `Int8RoundTrip.ZeroRowStaysZero` | benchmarks/kernels/bench_fused_moe.py:383 | a zero row has scale one and stays zero |
| `Int8RoundTrip.MaximumSurvives` | benchmarks/kernels/bench_fused_moe.py:382-384 | the row's largest magnitude comes back exactly |
| `Int8RoundTrip.RoundTripKeepsAbsMax` | benchmarks/kernels/bench_fused_moe.py:382-384 | so the row keeps its scale |
| `Int8RoundTrip.RoundTripIsIdempotent` | benchmarks/kernels/bench_fused_moe.py:374-384 | a second round trip changes nothing |
| `Int8RoundTrip.RoundTripIsMonotone` | benchmarks/kernels/bench_fused_moe.py:384 | larger elements of a row never come back smaller |
| `Int4.PackIsSignedValue` | rapid_llm/modules/quantization/utils.py:204-209 | the packed word is the nibbles' value as a signed 32-bit word, negative exactly when the top nibble is 8 or more |
| `Int4.PackByHand` | rapid_llm/modules/quantization/utils.py:206-209 | nibble i stands at 16 to the i, the top one with its sign |
| `Int4.UnpackUndoesPack` | benchmarks/kernels/bench_fused_moe.py:440-442 | arithmetic shift then mask gives back all eight nibbles, sign bit or not |
| `Int4.PackUndoesUnpack` | benchmarks/kernels/bench_fused_moe.py:440-442 | and every signed 32-bit word is the pack of its nibbles |
| `Int4.TopNibbleNeedsTheMask` | benchmarks/kernels/bench_fused_moe.py:437-438 | without the mask the top nibble is right if and only if it is below 8 |
| `Int4Groups.UnpackRowAt` | benchmarks/kernels/bench_fused_moe.py:440-444 | element t is nibble t mod 8 of word t div 8 less the zero of group t div 128, times that group's scale |
| `Int4Groups.RowKeepsItsCodes` | rapid_llm/modules/quantization/utils.py:191-209 | a row quantised, packed and unpacked gives each weight its own group's code |
| `Int4Groups.RowSurvivesIffNearZero` | rapid_llm/modules/quantization/utils.py:191-209 | quantised, packed and unpacked, a weight of a row comes back within half a step of its group if and only if it is within 15.5 of its steps from zero |
| `Int4Groups.SurvivesIffNearZero` | rapid_llm/modules/quantization/utils.py:196-202 | in any group, a weight comes back within half a step if and only if it is within 15.5 steps of zero |
| `Int4Groups.GroupSurvivesIffNearZero` | rapid_llm/modules/quantization/utils.py:196-202 | a whole group comes back within half a step if and only if no weight is further out |
| `Int4Groups.GroupAroundZeroSurvives` | rapid_llm/modules/quantization/utils.py:196-202 | a group that reaches zero always comes back within half a step |
| `Int4Groups.FarFromZeroIsLost` | rapid_llm/modules/quantization/utils.py:201-202 | a weight beyond 15.5 steps never does |
| `Int4Groups.ConstantGroup` | rapid_llm/modules/quantization/utils.py:200-202 | a group of one repeated weight comes back within half a step if and only if the weight is within 15.5 of the smallest steps, 1e-5 / 14 each |
| `Int4Groups.StepsSpanTheRange` | rapid_llm/modules/quantization/utils.py:196-200 | fourteen steps are exactly the group's range, or 1e-5 where the range is less |
| `Int4Groups.ZeroPointIsNearest` | rapid_llm/modules/quantization/utils.py:201 | the zero point is the nearest code to where zero falls, ties to even, kept in 0 .. 15 |
| `Int4Groups.NoCodeIsNearer` | rapid_llm/modules/quantization/utils.py:202 | no other code of the group brings a weight back nearer |
| `Int4Groups.ErrorIsWithinTheRange` | rapid_llm/modules/quantization/utils.py:196-202 | a weight of a group with a range of 1e-5 or more comes back within a twenty-eighth of the range if and only if it is within 15.5 fourteenths of it from zero |
| `Int4Groups.RowErrorIsWithinTheRange` | rapid_llm/modules/quantization/utils.py:191-209 | the same end to end, by the ends of the 128 weights around it |
| `Int4Groups.RowIsRefusedExactly` | rapid_llm/modules/quantization/utils.py:191-193 | a row is refused if and only if 128 does not divide its length |
| `ContextDealing.OwnedCountIsCardinality` | benchmarks/parallelism/bench_context_parallel.py:298 | the count of a rank's positions is the size of the set of positions below the context whose remainder is the rank |
| `ContextDealing.LocalCountIsOwned` | benchmarks/parallelism/bench_context_parallel.py:298 | the formula is the number of positions whose remainder is the rank |
| `ContextDealing.SharesPartitionContext` | benchmarks/parallelism/bench_context_parallel.py:298 | the ranks' shares add up to the context |
| `ContextDealing.SharesAreBalanced` | benchmarks/parallelism/bench_context_parallel.py:298 | shares differ by at most one, lower ranks no fewer |
| `ContextDealing.StridedViewWidth` | benchmarks/parallelism/bench_context_parallel.py:305-307 | the strided view of the table has exactly `local` columns |
| `ContextDealing.BuildTable` | benchmarks/parallelism/bench_context_parallel.py:305-309 | own columns hold consecutive rows from one, every other column row zero |
| `ContextDealing.EntriesAreInjective` | benchmarks/parallelism/bench_context_parallel.py:307-309 | no two own columns share a cache row, and rows stay in 1 .. batch * local |
| `ContextDealing.EntriesAreOnto` | benchmarks/parallelism/bench_context_parallel.py:300-309 | every cache row but the spare one is used |
| `ContextDealing.OwnedPositionsAreMapped` | benchmarks/parallelism/bench_context_parallel.py:303-307 | every own position has a column of the table |
| `RowTable.TotalCountsPositions` | benchmarks/kernels/kv_pool.py:126 | the token total is the number of (sequence, position) pairs |
| `RowTable.PoolIsRefusedExactly` | benchmarks/kernels/kv_pool.py:130-139 | refused if and only if there is no sequence, or an explicit capacity and the span are both below the floor |
| `RowTable.PoolIsAsSmallAsItMayBe` | benchmarks/kernels/kv_pool.py:130-133 | a default pool is the least at or above four times the tokens, the span and the floor; an explicit one the least at or above the capacity and the span |
| `RowTable.PoolHoldsEverySequence` | benchmarks/kernels/kv_pool.py:125-142 | whatever capacity was asked for, the pool holds one full-width span per sequence and so every token |
| `RowTable.LiveRowsAreDistinct` | benchmarks/kernels/kv_pool.py:197-203 | in both layouts live positions have distinct rows inside the pool |
| `RowTable.BuildRowTable` | benchmarks/kernels/kv_pool.py:204-218 | each live entry is its position's row, the rest zero, and no slice leaves the permutation |
| `RowTable.RowsFollowTheLayout` | benchmarks/kernels/kv_pool.py:206-217 | contiguous, position p of sequence i is row i * width + p; fragmented, the sequences take consecutive entries of the permutation |
| `RowTable.PagedTable` | benchmarks/kernels/kv_pool.py:125-218 | sizing then filling: refused exactly as above, else the least pool, distinct live rows below it, and rows in the order of the layout |
| `ReplicaBuckets.SlotOfRequest` | benchmarks/parallelism/bench_dp_attention.py:95-99 | request i is entry i div R of bucket i mod R |
| `ReplicaBuckets.FillBucket` | benchmarks/parallelism/bench_dp_attention.py:100-101 | a replica's outputs go to its own slots and no other |
| `ReplicaBuckets.ShapeMatchedReference` | benchmarks/parallelism/bench_dp_attention.py:88-104 | position i gets text i div R of the texts for bucket i mod R; it fails if and only if a bucket is answered short or long, or there are prompts and no replica |
| `ReplicaBuckets.EverySlotIsFilled` | benchmarks/parallelism/bench_dp_attention.py:102-103 | with every bucket answered, a slot is empty if and only if there is no replica |
| `ReplicaBuckets.PointwiseReplayIsUndivided` | benchmarks/parallelism/bench_dp_attention.py:88-104 | for an engine that answers prompts one by one, the replay equals one undivided call |

## Left out

- Floating-point rounding, dtype casts and overflow: all kernel and quantisation arithmetic is over `real`.
- CUDA streams, events, graphs and NCCL: launch and wait ops are labelled ops of a stream; the scheduler, planner, caches, load balancers and model loading are not part of this model.
- Op decoration and debug names of ops (`rapid_llm/batch_overlap/operations.py:19-48`): an op is its function; unpacking sequences of the wrong length at `rapid_llm/batch_overlap/operations.py:178-180` is not modelled.
- An op is a finite script of accesses: one that catches a state error and goes on, or loops without a bound, is not modelled.
- Objects held in the state and changed through it (the deferred all-reduce context, the MoE context, timelines) are values the ops read; error texts are dropped, error kinds and keys kept.
- The arithmetic of the layer ops: what an op writes is an arbitrary function of the op and of what it has read and popped.
- `Gemm.Launch`: contiguous row-major operands and one program after another; programs that interleave loads and stores are not modelled, nor is the batch reshape around the launches.
- `SoftmaxKernels.SoftmaxSplit`: contiguous row-major rows with at least one column; warp counts are not modelled.
- `Intervals.OverlapStats`: asks for start-sorted compute kernels, as the trace loader sorts them, and for kernels that do not end before they start.
- `Intervals.PairwiseOverlap`: the record times are integer ticks instead of floating milliseconds.
- `Nucleus.SampleTopP`: the sort, the sampler and the division by the temperature are inputs: the sorted logits come with the permutation that sorts them, and the sampler never draws weight zero.
- `Int4Groups.UnpackRowAt`: one row of the batch at a time, and the group size fixed at the 128 both files use by default.
- `RowTable.PagedTable`: the random permutation and the cache-size floor are parameters; only the rows are modelled, not the byte buffer.
- `ReplicaBuckets.ShapeMatchedReference`: the engine is a function of its prompts, the same on every call.
- `LayerState.OpRuns`: the key each op reads, pops or writes; the fences and timeline regions around them appear only as reads.
- Agreement scores, causal-mask variants, tuning loops, log parsing, plots and command-line handling: they would only add easy members.
