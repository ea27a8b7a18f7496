/** An op access by access, and a stream op by op: what each is chosen from, what it
  * leaves, and where an error ends it.
  */
module OpSteps {
  import opened Common
  import opened StateDicts
  import opened StateHistory
  import opened Stages
  import opened Operations

  // ---------------------------------------------------------------------
  // One op
  // ---------------------------------------------------------------------

  /** `acts` and `replies` so far: each access chosen from the replies to the ones before
    * it, each reply the answer of the bag as those accesses left it. */
  ghost predicate IsStart<K(!new), V(!new)>(
      script: Op<K, V>, m: map<K, V>, acts: seq<Action<K, V>>, replies: seq<Reply<K, V>>) {
    && |acts| == |replies| <= |script|
    && forall i :: 0 <= i < |acts| ==>
         acts[i] == script[i](replies[..i]) && replies[i] == Answer(m, acts[..i], acts[i])
  }

  /** A whole run of an op: to its last access, or to the first that raises. */
  ghost predicate IsRun<K(!new), V(!new)>(
      script: Op<K, V>, m: map<K, V>, acts: seq<Action<K, V>>, replies: seq<Reply<K, V>>) {
    && IsStart(script, m, acts, replies)
    && (forall i :: 0 <= i < |replies| - 1 ==> !replies[i].Raised?)
    && (|acts| < |script| ==> replies != [] && Last(replies).Raised?)
  }

  function ErrorOf<K, V>(replies: seq<Reply<K, V>>): Option<Error<K>> {
    if replies != [] && Last(replies).Raised? then Some(Last(replies).error) else None
  }

  lemma FinalStep<K, V>(m: map<K, V>, acts: seq<Action<K, V>>, i: nat)
    requires i < |acts|
    ensures Final(m, acts[..i + 1]) == Step(Final(m, acts[..i]), acts[i]).0
  {
    assert acts[..i + 1][..i] == acts[..i];
  }

  lemma OneAccess<K(!new), V(!new)>(
      script: Op<K, V>, m: map<K, V>, acts: seq<Action<K, V>>, replies: seq<Reply<K, V>>, i: nat)
    requires IsStart(script, m, acts, replies) && i < |acts|
    ensures RunScript(script[i..], replies[..i], Final(m, acts[..i]))
         == if replies[i].Raised? then Outcome(Final(m, acts[..i + 1]), Some(replies[i].error))
            else RunScript(script[i + 1..], replies[..i + 1], Final(m, acts[..i + 1]))
  {
    FinalStep(m, acts, i);
    assert script[i..][0] == script[i] && script[i..][1..] == script[i + 1..];
    assert replies[..i] + [replies[i]] == replies[..i + 1];
  }

  lemma {:induction false} RunFrom<K(!new), V(!new)>(
      script: Op<K, V>, m: map<K, V>, acts: seq<Action<K, V>>, replies: seq<Reply<K, V>>, i: nat)
    requires IsRun(script, m, acts, replies) && i <= |acts|
    requires i == |acts| ==> i == |script|
    ensures RunScript(script[i..], replies[..i], Final(m, acts[..i]))
         == if i == |acts| then Outcome(Final(m, acts), None) else Outcome(Final(m, acts), ErrorOf(replies))
    decreases |acts| - i
  {
    if i == |acts| {
      assert acts[..i] == acts;
    } else {
      OneAccess(script, m, acts, replies, i);
      if replies[i].Raised? {
        assert acts[..i + 1] == acts;
      } else {
        RunFrom(script, m, acts, replies, i + 1);
      }
    }
  }

  /** An op leaves what its accesses leave, and raises what the last of them raises. */
  lemma OpIsItsRun<K(!new), V(!new)>(
      script: Op<K, V>, m: map<K, V>, acts: seq<Action<K, V>>, replies: seq<Reply<K, V>>)
    requires IsRun(script, m, acts, replies)
    ensures RunScript(script, [], m) == Outcome(Final(m, acts), ErrorOf(replies))
  {
    RunFrom(script, m, acts, replies, 0);
    assert script[0..] == script && acts[..0] == [] && replies[..0] == [];
  }

  /** And every op has a run. */
  lemma {:induction false} EveryOpHasARun<K(!new), V(!new)>(
      script: Op<K, V>, m: map<K, V>, acts: seq<Action<K, V>>, replies: seq<Reply<K, V>>)
      returns (acts': seq<Action<K, V>>, replies': seq<Reply<K, V>>)
    requires IsStart(script, m, acts, replies) && forall i :: 0 <= i < |replies| ==> !replies[i].Raised?
    ensures IsRun(script, m, acts', replies')
    decreases |script| - |acts|
  {
    if |acts| == |script| {
      return acts, replies;
    }
    var act := script[|acts|](replies);
    var reply := Answer(m, acts, act);
    StartGrows(script, m, acts, replies, act, reply);
    if reply.Raised? {
      return acts + [act], replies + [reply];
    }
    acts', replies' := EveryOpHasARun(script, m, acts + [act], replies + [reply]);
  }

  lemma StartGrows<K(!new), V(!new)>(
      script: Op<K, V>, m: map<K, V>, acts: seq<Action<K, V>>, replies: seq<Reply<K, V>>,
      act: Action<K, V>, reply: Reply<K, V>)
    requires IsStart(script, m, acts, replies) && |acts| < |script|
    requires act == script[|acts|](replies) && reply == Answer(m, acts, act)
    ensures IsStart(script, m, acts + [act], replies + [reply])
  {
    forall i | 0 <= i < |acts| + 1
      ensures (acts + [act])[i] == script[i]((replies + [reply])[..i])
      ensures (replies + [reply])[i] == Answer(m, (acts + [act])[..i], (acts + [act])[i])
    {
      assert (replies + [reply])[..i] == replies[..i] && (acts + [act])[..i] == acts[..i];
      assert i == |acts| ==> replies[..i] == replies && acts[..i] == acts;
    }
  }

  /** An op fails with its own code exactly when the last access it made was the throw of
    * it; the accesses before the throw stay in force. */
  lemma ThrowEndsTheOp<K(!new), V(!new)>(
      script: Op<K, V>, m: map<K, V>, acts: seq<Action<K, V>>, replies: seq<Reply<K, V>>, code: int)
    requires IsRun(script, m, acts, replies)
    ensures RunScript(script, [], m).error == Some(OpFailed(code)) <==> acts != [] && Last(acts) == Throw(code)
    ensures acts != [] && Last(acts) == Throw(code) ==>
              RunScript(script, [], m) == Outcome(Final(m, Front(acts)), Some(OpFailed(code)))
  {
    OpIsItsRun(script, m, acts, replies);
    if acts != [] {
      var i := |acts| - 1;
      OpsFailOfTheirOwn(m, acts[..i], acts[i], code);
      FinalStep(m, acts, i);
      assert acts[..i + 1] == acts;
    }
  }

  // ---------------------------------------------------------------------
  // A stream of ops
  // ---------------------------------------------------------------------

  /** Op by op: each runs on what the ones before it left, until one raises. */
  lemma NextOp<K(!new), V(!new)>(ops: seq<Op<K, V>>, k: nat, m: map<K, V>)
    requires k < |ops|
    ensures RunOps(ops[..0], m) == Outcome(m, None)
    ensures RunOps(ops[..k + 1], m)
         == if RunOps(ops[..k], m).error.Some? then RunOps(ops[..k], m)
            else RunScript(ops[k], [], RunOps(ops[..k], m).data)
  {
    assert ops[..k + 1] == ops[..k] + [ops[k]];
    RunOpsAppend(ops[..k], [ops[k]], m);
    OneOp(ops[k], RunOps(ops[..k], m).data);
  }

  lemma OneOp<K(!new), V(!new)>(op: Op<K, V>, m: map<K, V>)
    ensures RunOps([op], m) == RunScript(op, [], m)
  {
    var o := RunScript(op, [], m);
    assert [op][1..] == [];
    assert o.error.None? ==> RunOps([op][1..], o.data) == Outcome(o.data, None);
  }

  /** The serial run of a stream ends with the first op that raises: with its error, and
    * with what it had done in force. */
  lemma ErrorEndsTheSerialRun<K(!new), V(!new)>(ops: seq<Item<Op<K, V>>>, k: nat, m: map<K, V>)
    requires WellSeparated(ops) && k < |OpsOf(ops)| && RunOps(OpsOf(ops)[..k], m).error.None?
    ensures var o := RunScript(OpsOf(ops)[k], [], RunOps(OpsOf(ops)[..k], m).data);
      o.error.Some? ==> Serial(ops, m) == SerialEnding(o.data, Some(OpRaised(o.error.value)))
  {
    var all := OpsOf(ops);
    NextOp(all, k, m);
    assert all == all[..k + 1] + all[k + 1..];
    RunOpsAppend(all[..k + 1], all[k + 1..], m);
  }

  /** A stream that cannot be cut is refused before any op of it runs, and only then. */
  lemma SerialRefusesExactlyBadStreams<K(!new), V(!new)>(ops: seq<Item<Op<K, V>>>, m: map<K, V>)
    ensures Serial(ops, m).failure == Some(EmptyStage) <==> !WellSeparated(ops)
    ensures !WellSeparated(ops) ==> Serial(ops, m).data == m
    ensures WellSeparated(ops) && Serial(ops, m).failure.Some? ==> Serial(ops, m).failure.value.OpRaised?
  {
  }

  /** A throw anywhere in a stream ends its serial run, with the op's own code. */
  lemma ThrowEndsTheSerialRun<K(!new), V(!new)>(
      ops: seq<Item<Op<K, V>>>, k: nat, m: map<K, V>, acts: seq<Action<K, V>>, replies: seq<Reply<K, V>>, code: int)
    requires WellSeparated(ops) && k < |OpsOf(ops)| && RunOps(OpsOf(ops)[..k], m).error.None?
    requires IsRun(OpsOf(ops)[k], RunOps(OpsOf(ops)[..k], m).data, acts, replies)
    requires acts != [] && Last(acts) == Throw(code)
    ensures Serial(ops, m)
         == SerialEnding(Final(RunOps(OpsOf(ops)[..k], m).data, Front(acts)), Some(OpRaised(OpFailed(code))))
  {
    ThrowEndsTheOp(OpsOf(ops)[k], RunOps(OpsOf(ops)[..k], m).data, acts, replies, code);
    ErrorEndsTheSerialRun(ops, k, m);
  }
}
