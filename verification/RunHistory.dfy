/** Every interleaved run, finished or aborted, is a run of bag accesses: each
  * half has made some first accesses of its serial run, and lost no value.
  */
module RunHistory {
  import opened Common
  import opened StateDicts
  import opened StateHistory
  import opened Stages
  import opened Operations
  import opened Schedules

  /** The accesses a script makes, the refused one included. */
  function ScriptActions<K(==), V>(script: Op<K, V>, replies: seq<Reply<K, V>>, m: map<K, V>): seq<Action<K, V>> {
    if script == [] then []
    else
      var action := script[0](replies);
      var (m', reply) := Step(m, action);
      if reply.Raised? then [action] else [action] + ScriptActions(script[1..], replies + [reply], m')
  }

  function OpsActions<K(==), V>(ops: seq<Op<K, V>>, m: map<K, V>): seq<Action<K, V>> {
    if ops == [] then []
    else
      var o := RunScript(ops[0], [], m);
      ScriptActions(ops[0], [], m) + if o.error.Some? then [] else OpsActions(ops[1..], o.data)
  }

  function StagesActions<K(==), V>(stages: seq<Stage<K, V>>, m: map<K, V>): seq<Action<K, V>> {
    if stages == [] then []
    else
      var o := RunStages(Front(stages), m);
      StagesActions(Front(stages), m) + if o.error.Some? then [] else OpsActions(Last(stages), o.data)
  }

  lemma OneAction<K(!new), V>(m: map<K, V>, action: Action<K, V>)
    ensures Final(m, [action]) == Step(m, action).0
  {
    assert [action][..0] == [];
  }

  lemma {:induction false} ScriptIsItsActions<K(!new), V(!new)>(script: Op<K, V>, replies: seq<Reply<K, V>>, m: map<K, V>)
    ensures Final(m, ScriptActions(script, replies, m)) == RunScript(script, replies, m).data
    decreases |script|
  {
    if script != [] {
      var action := script[0](replies);
      var (m', reply) := Step(m, action);
      OneAction(m, action);
      if !reply.Raised? {
        ScriptIsItsActions(script[1..], replies + [reply], m');
        FinalAppend(m, [action], ScriptActions(script[1..], replies + [reply], m'));
      }
    }
  }

  lemma {:induction false} OpsAreTheirActions<K(!new), V(!new)>(ops: seq<Op<K, V>>, m: map<K, V>)
    ensures Final(m, OpsActions(ops, m)) == RunOps(ops, m).data
    decreases |ops|
  {
    if ops != [] {
      var o := RunScript(ops[0], [], m);
      var acts := ScriptActions(ops[0], [], m);
      ScriptIsItsActions(ops[0], [], m);
      assert acts + [] == acts;
      if o.error.None? {
        OpsAreTheirActions(ops[1..], o.data);
        FinalAppend(m, acts, OpsActions(ops[1..], o.data));
      }
    }
  }

  lemma {:induction false} StagesAreTheirActions<K(!new), V(!new)>(stages: seq<Stage<K, V>>, m: map<K, V>)
    ensures Final(m, StagesActions(stages, m)) == RunStages(stages, m).data
  {
    if stages != [] {
      var o := RunStages(Front(stages), m);
      var acts := StagesActions(Front(stages), m);
      StagesAreTheirActions(Front(stages), m);
      assert acts + [] == acts;
      if o.error.None? {
        OpsAreTheirActions(Last(stages), o.data);
        FinalAppend(m, acts, OpsActions(Last(stages), o.data));
      }
    }
  }

  lemma {:induction false} FirstStagesFirstActions<K(!new), V(!new)>(stages: seq<Stage<K, V>>, c: nat, m: map<K, V>)
    requires c <= |stages|
    ensures StagesActions(stages[..c], m) <= StagesActions(stages, m)
  {
    if c == |stages| {
      assert stages[..c] == stages;
    } else {
      assert Front(stages)[..c] == stages[..c];
      FirstStagesFirstActions(Front(stages), c, m);
    }
  }

  /** `m` is where the first accesses of the serial run lead, with nothing lost. */
  ghost predicate ReachedSerially<K(!new), V(!new)>(
      ops: seq<Item<Op<K, V>>>, start: map<K, V>, acts: seq<Action<K, V>>, m: map<K, V>)
  {
    && acts <= StagesActions(Cut(ops), start)
    && m == Final(start, acts)
    && Live(start) + Written(History(start, acts)) == Released(History(start, acts)) + Live(m)
  }

  lemma SerialPrefixIsReached<K(!new), V(!new)>(
      ops: seq<Item<Op<K, V>>>, start: map<K, V>, c: nat, m: map<K, V>) returns (acts: seq<Action<K, V>>)
    requires WellSeparated(ops) && SerialPrefix(ops, start, c, m)
    ensures ReachedSerially(ops, start, acts, m)
  {
    var stages := Cut(ops);
    SerialRunsTheStages(ops, start);
    if m == RunStages(stages[..c], start).data {
      acts := StagesActions(stages[..c], start);
      StagesAreTheirActions(stages[..c], start);
      FirstStagesFirstActions(stages, c, start);
    } else {
      acts := StagesActions(stages, start);
      StagesAreTheirActions(stages, start);
    }
    ValuesAreConserved(start, acts);
  }

  /** Access by access, an interleaved run takes each half along its serial run and
    * conserves its values, also when it aborts in the middle of a stage. */
  lemma OverlappedRunsAreSerialAccesses<K(!new), V(!new)>(
      opsA: seq<Item<Op<K, V>>>, opsB: seq<Item<Op<K, V>>>, deltaA: int, deltaB: int, a: map<K, V>, b: map<K, V>)
    requires WellSeparated(opsA) && WellSeparated(opsB)
    ensures exists acts :: ReachedSerially(opsA, a, acts, Overlapped(opsA, opsB, deltaA, deltaB, a, b).lead)
    ensures exists acts :: ReachedSerially(opsB, b, acts, Overlapped(opsA, opsB, deltaA, deltaB, a, b).trail)
  {
    EveryEndingIsSerialPrefix(opsA, opsB, deltaA, deltaB, a, b);
    var e := Overlapped(opsA, opsB, deltaA, deltaB, a, b);
    var x := SerialPrefixIsReached(opsA, a, Completed(e.trace, Lead), e.lead);
    var y := SerialPrefixIsReached(opsB, b, Completed(e.trace, Trail), e.trail);
  }
}
