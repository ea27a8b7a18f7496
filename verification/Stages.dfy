/** Cutting an op stream into stages at its yields, and joining stages back. */
module Stages {
  import opened Common

  /** One entry of an op stream. */
  datatype Item<T> = Yield | Exec(op: T)

  function Cut<T>(ops: seq<Item<T>>): (stages: seq<seq<T>>)
    ensures stages != []
  {
    if ops == [] then [[]]
    else
      var stages := Cut(Front(ops));
      match Last(ops)
      case Yield => stages + [[]]
      case Exec(op) => Grow(stages, [op])
  }

  predicate NoneEmpty<T>(stages: seq<seq<T>>) {
    forall i :: 0 <= i < |stages| ==> |stages[i]| > 0
  }

  function Execs<T>(stage: seq<T>): seq<Item<T>> {
    seq(|stage|, i requires 0 <= i < |stage| => Exec(stage[i]))
  }

  function Join<T>(stages: seq<seq<T>>): seq<Item<T>>
    requires stages != []
  {
    if |stages| == 1 then Execs(stages[0])
    else Join(Front(stages)) + [Yield] + Execs(Last(stages))
  }

  /** The ops of a stream, its yields dropped. */
  function OpsOf<T>(ops: seq<Item<T>>): seq<T> {
    if ops == [] then []
    else OpsOf(Front(ops)) + (match Last(ops) case Yield => [] case Exec(op) => [op])
  }

  function YieldCount<T>(ops: seq<Item<T>>): nat {
    if ops == [] then 0 else YieldCount(Front(ops)) + (if Last(ops).Yield? then 1 else 0)
  }

  /** No yield leads, trails or doubles, and there is something to run. */
  predicate WellSeparated<T>(ops: seq<Item<T>>) {
    && ops != []
    && ops[0].Exec?
    && Last(ops).Exec?
    && (forall i :: 0 < i < |ops| ==> ops[i - 1].Exec? || ops[i].Exec?)
  }

  /** The stage cutter: appends to its list of lists op by op, then refuses empty stages. */
  method ConvertOperationsToStages<T>(ops: seq<Item<T>>) returns (r: Result<seq<seq<T>>, ()>)
    ensures r == if WellSeparated(ops) then Ok(Cut(ops)) else Err(())
  {
    var stages: seq<seq<T>> := [[]];
    for i := 0 to |ops|
      invariant stages == Cut(ops[..i])
    {
      assert Front(ops[..i + 1]) == ops[..i];
      if ops[i].Yield? {
        stages := stages + [[]];
      } else {
        var last := |stages| - 1;
        stages := stages[last := stages[last] + [ops[i].op]];
      }
    }
    assert ops[..|ops|] == ops;
    CutAcceptsIffWellSeparated(ops);
    for i := 0 to |stages|
      invariant forall j :: 0 <= j < i ==> |stages[j]| > 0
    {
      if |stages[i]| == 0 {
        return Err(());
      }
    }
    return Ok(stages);
  }

  /** More ops for the open stage. */
  function Grow<T>(stages: seq<seq<T>>, more: seq<T>): (grown: seq<seq<T>>)
    requires stages != []
    ensures |grown| == |stages|
  {
    Front(stages) + [Last(stages) + more]
  }

  /** Every stage has an op exactly when no yield leads, trails or doubles. */
  lemma {:induction false} CutAcceptsIffWellSeparated<T>(ops: seq<Item<T>>)
    ensures NoneEmpty(Cut(ops)) <==> WellSeparated(ops)
  {
    CutParts(ops);
    NoneEmptyStep(Cut(ops));
  }

  /** No yield leads or doubles; one may still trail. */
  predicate NoLeadNoDouble<T>(ops: seq<Item<T>>) {
    && (ops != [] ==> ops[0].Exec?)
    && (forall i :: 0 < i < |ops| ==> ops[i - 1].Exec? || ops[i].Exec?)
  }

  lemma NoLeadNoDoubleStep<T>(init: seq<Item<T>>, item: Item<T>)
    ensures NoLeadNoDouble(init + [item]) <==>
            NoLeadNoDouble(init) && (item.Exec? || (init != [] && Last(init).Exec?))
  {
    var ops := init + [item];
    if NoLeadNoDouble(ops) {
      assert init != [] ==> ops[0] == init[0];
      assert forall i :: 0 <= i < |init| ==> ops[i] == init[i];
      assert init != [] ==> ops[|init| - 1].Exec? || ops[|init|].Exec?;
    }
  }

  lemma NoneEmptyStep<T>(stages: seq<seq<T>>)
    requires stages != []
    ensures NoneEmpty(stages) <==> NoneEmpty(Front(stages)) && |Last(stages)| > 0
  {
    assert forall i :: 0 <= i < |Front(stages)| ==> Front(stages)[i] == stages[i];
  }

  /** The open stage is empty exactly after a yield (or nothing); the closed ones
    * are non-empty exactly when no yield leads or doubles. */
  lemma {:induction false} CutParts<T>(ops: seq<Item<T>>)
    ensures |Last(Cut(ops))| == 0 <==> ops == [] || Last(ops).Yield?
    ensures NoneEmpty(Front(Cut(ops))) <==> NoLeadNoDouble(ops)
  {
    if ops != [] {
      var init := Front(ops);
      CutParts(init);
      assert init + [Last(ops)] == ops;
      NoLeadNoDoubleStep(init, Last(ops));
      NoneEmptyStep(Cut(init));
      match Last(ops)
      case Yield =>
        CutYield(init);
        assert Front(Cut(ops)) == Cut(init);
      case Exec(op) =>
        CutExec(init, op);
        assert Front(Cut(ops)) == Front(Cut(init));
    }
  }

  lemma JoinClosed<T>(stages: seq<seq<T>>, stage: seq<T>)
    requires stages != []
    ensures Join(stages + [stage]) == Join(stages) + [Yield] + Execs(stage)
  {
    assert Front(stages + [stage]) == stages;
  }

  lemma JoinGrown<T>(stages: seq<seq<T>>, op: T)
    requires stages != []
    ensures Join(Grow(stages, [op])) == Join(stages) + [Exec(op)]
  {
    var grown := Grow(stages, [op]);
    assert Execs(Last(stages) + [op]) == Execs(Last(stages)) + [Exec(op)];
    if |stages| == 1 {
      assert grown == [stages[0] + [op]];
    } else {
      JoinClosed(Front(stages), Last(stages) + [op]);
    }
  }

  /** Joining the cut stages with yields gives back the stream. */
  lemma {:induction false} JoinUndoesCut<T>(ops: seq<Item<T>>)
    ensures Join(Cut(ops)) == ops
  {
    if ops != [] {
      var init := Front(ops);
      JoinUndoesCut(init);
      assert ops == init + [Last(ops)];
      match Last(ops)
      case Yield =>
        CutYield(init);
        JoinClosed(Cut(init), []);
        assert Execs<T>([]) == [];
      case Exec(op) =>
        CutExec(init, op);
        JoinGrown(Cut(init), op);
    }
  }

  lemma CutExec<T>(ops: seq<Item<T>>, op: T)
    ensures Cut(ops + [Exec(op)]) == Grow(Cut(ops), [op])
  {
    assert Front(ops + [Exec(op)]) == ops;
  }

  lemma GrowNothing<T>(stages: seq<seq<T>>)
    requires stages != []
    ensures Grow(stages, []) == stages
  {
    assert Last(stages) + [] == Last(stages);
  }

  lemma GrowTwice<T>(stages: seq<seq<T>>, init: seq<T>, op: T)
    requires stages != []
    ensures Grow(Grow(stages, init), [op]) == Grow(stages, init + [op])
  {
    assert Last(stages) + init + [op] == Last(stages) + (init + [op]);
  }

  lemma SnocExecs<T>(ops: seq<Item<T>>, init: seq<T>, op: T)
    ensures ops + Execs(init + [op]) == ops + Execs(init) + [Exec(op)]
  {
    assert Execs(init + [op]) == Execs(init) + [Exec(op)];
  }

  lemma CutGrows<T>(stages: seq<seq<T>>, init: seq<T>, op: T, before: seq<Item<T>>, after: seq<Item<T>>)
    requires stages != [] && Cut(before) == Grow(stages, init) && after == before + [Exec(op)]
    ensures Cut(after) == Grow(stages, init + [op])
  {
    CutExec(before, op);
    GrowTwice(stages, init, op);
  }

  lemma {:induction false} CutExecs<T>(ops: seq<Item<T>>, stage: seq<T>)
    ensures Cut(ops + Execs(stage)) == Grow(Cut(ops), stage)
  {
    if stage == [] {
      assert ops + Execs(stage) == ops;
      GrowNothing(Cut(ops));
    } else {
      var init, op := Front(stage), Last(stage);
      assert stage == init + [op];
      CutExecs(ops, init);
      SnocExecs(ops, init, op);
      CutGrows(Cut(ops), init, op, ops + Execs(init), ops + Execs(stage));
    }
  }

  lemma CutYield<T>(ops: seq<Item<T>>)
    ensures Cut(ops + [Yield]) == Cut(ops) + [[]]
  {
    assert Front(ops + [Yield]) == ops;
  }

  /** Cutting a stream joined from stages gives back those stages. */
  lemma {:induction false} CutUndoesJoin<T>(stages: seq<seq<T>>)
    requires stages != []
    ensures Cut(Join(stages)) == stages
  {
    var init, last := Front(stages), Last(stages);
    assert stages == init + [last];
    if init == [] {
      CutExecs([], last);
      assert [] + Execs(last) == Execs(last) && [] + last == last;
    } else {
      CutUndoesJoin(init);
      CutYield(Join(init));
      CutExecs(Join(init) + [Yield], last);
      assert Front(init + [[]]) == init && [] + last == last;
    }
  }

  /** One stage more than yields, and the stages hold the ops in stream order. */
  lemma {:induction false} CutKeepsEveryOp<T>(ops: seq<Item<T>>)
    ensures |Cut(ops)| == YieldCount(ops) + 1
    ensures Flatten(Cut(ops)) == OpsOf(ops)
  {
    if ops == [] {
      var start: seq<seq<T>> := [[]];
      assert Front(start) == [];
    } else {
      CutKeepsEveryOp(Front(ops));
      var stages := Cut(Front(ops));
      match Last(ops)
      case Yield => FlattenSnoc(stages, []);
      case Exec(op) => FlattenGrows(stages, op);
    }
  }

  lemma FlattenSnoc<T>(stages: seq<seq<T>>, stage: seq<T>)
    ensures Flatten(stages + [stage]) == Flatten(stages) + stage
  {
    assert Front(stages + [stage]) == stages;
  }

  lemma FlattenGrows<T>(stages: seq<seq<T>>, op: T)
    requires stages != []
    ensures Flatten(Grow(stages, [op])) == Flatten(stages) + [op]
  {
    FlattenSnoc(Front(stages), Last(stages) + [op]);
    assert Flatten(Front(stages)) + (Last(stages) + [op]) == Flatten(Front(stages)) + Last(stages) + [op];
  }

  /** Two stage lists put end to end, the stages at the seam made one. */
  function Seam<T>(x: seq<seq<T>>, y: seq<seq<T>>): (r: seq<seq<T>>)
    requires x != [] && y != []
    ensures |r| == |x| + |y| - 1
  {
    Front(x) + [Last(x) + y[0]] + y[1..]
  }

  lemma SeamThenOp<T>(x: seq<seq<T>>, y: seq<seq<T>>, op: T)
    requires x != [] && y != []
    ensures Seam(x, Grow(y, [op])) == Grow(Seam(x, y), [op])
  {
    if |y| == 1 {
      assert Last(x) + y[0] + [op] == Last(x) + (y[0] + [op]);
      assert y[1..] == [] && (Front(y) + [Last(y) + [op]])[1..] == [];
    } else {
      assert (Front(y) + [Last(y) + [op]])[1..] == Front(y)[1..] + [Last(y) + [op]];
      assert Front(Seam(x, y)) == Front(x) + [Last(x) + y[0]] + Front(y)[1..];
    }
  }

  lemma SeamThenStage<T>(x: seq<seq<T>>, y: seq<seq<T>>, stage: seq<T>)
    requires x != [] && y != []
    ensures Seam(x, y + [stage]) == Seam(x, y) + [stage]
  {
    assert (y + [stage])[1..] == y[1..] + [stage];
  }

  lemma CutConcatStep<T>(x: seq<seq<T>>, b: seq<Item<T>>, item: Item<T>, before: seq<Item<T>>, after: seq<Item<T>>)
    requires x != [] && Cut(before) == Seam(x, Cut(b)) && after == before + [item]
    ensures Cut(after) == Seam(x, Cut(b + [item]))
  {
    match item
    case Yield =>
      CutYield(before);
      CutYield(b);
      SeamThenStage(x, Cut(b), []);
    case Exec(op) =>
      CutExec(before, op);
      CutExec(b, op);
      SeamThenOp(x, Cut(b), op);
  }

  /** Streams concatenated without a yield share the stage at the seam. */
  lemma {:induction false} CutConcat<T>(a: seq<Item<T>>, b: seq<Item<T>>)
    ensures Cut(a + b) == Seam(Cut(a), Cut(b))
  {
    if b == [] {
      assert a + b == a;
      assert Last(Cut(a)) + [] == Last(Cut(a));
    } else {
      var init := Front(b);
      assert b == init + [Last(b)] && a + b == a + init + [Last(b)];
      CutConcat(a, init);
      CutConcatStep(Cut(a), init, Last(b), a + init, a + b);
    }
  }
}
