/** What any run of accesses leaves behind: the history of a state bag, read by
  * index, obeys the write-once-until-released discipline, and no value is lost.
  */
module StateHistory {
  import opened Common
  import opened StateDicts

  /** An access that succeeded. A refused access changes nothing and is no event. */
  datatype Event<K, V> =
    | Wrote(key: K, value: V)
    | Fetched(key: K, value: V)
    | Popped(key: K, value: V)
    | Cleared(held: map<K, V>)

  function EventsOf<K(==), V>(m: map<K, V>, action: Action<K, V>): seq<Event<K, V>> {
    match action
    case Put(k, v) => if k in m then [] else [Wrote(k, v)]
    case Get(k) => if k in m then [Fetched(k, m[k])] else []
    case Pop(k) => if k in m then [Popped(k, m[k])] else []
    case Clear(ks) => if m.Keys == KeySet(ks) then [Cleared(m)] else []
    case Compute => []
    case Throw(_) => []
  }

  function Final<K(==), V>(m: map<K, V>, actions: seq<Action<K, V>>): map<K, V> {
    if actions == [] then m
    else Step(Final(m, actions[..|actions| - 1]), actions[|actions| - 1]).0
  }

  function History<K(==), V>(m: map<K, V>, actions: seq<Action<K, V>>): seq<Event<K, V>> {
    if actions == [] then []
    else
      var before := actions[..|actions| - 1];
      History(m, before) + EventsOf(Final(m, before), actions[|actions| - 1])
  }

  lemma {:induction false} FinalAppend<K, V>(m: map<K, V>, a: seq<Action<K, V>>, b: seq<Action<K, V>>)
    ensures Final(m, a + b) == Final(Final(m, a), b)
  {
    if b == [] {
      assert a + b == a;
    } else {
      FinalAppend(m, a, b[..|b| - 1]);
      assert (a + b)[..|a + b| - 1] == a + b[..|b| - 1];
    }
  }

  // ---------------------------------------------------------------------
  // Reading a history
  // ---------------------------------------------------------------------

  function Lookup<K(==), V>(m: map<K, V>, k: K): Option<V> {
    if k in m then Some(m[k]) else None
  }

  predicate Writes<K(==), V>(e: Event<K, V>, k: K) {
    e.Wrote? && e.key == k
  }

  predicate Releases<K(==), V>(e: Event<K, V>, k: K) {
    (e.Popped? && e.key == k) || (e.Cleared? && k in e.held)
  }

  predicate Touches<K(==), V>(e: Event<K, V>, k: K) {
    Writes(e, k) || Releases(e, k)
  }

  /** The value `k` carries after `events`: its latest write, unless released since. */
  function Latest<K(==), V>(m: map<K, V>, events: seq<Event<K, V>>, k: K): Option<V> {
    if events == [] then Lookup(m, k)
    else
      var last := events[|events| - 1];
      if Writes(last, k) then Some(last.value)
      else if Releases(last, k) then None
      else Latest(m, events[..|events| - 1], k)
  }

  /** Whether event `j` found the bag as the events before it left it. */
  ghost predicate Disciplined<K(!new), V(!new)>(m: map<K, V>, events: seq<Event<K, V>>, j: nat)
    requires j < |events|
  {
    match events[j]
    case Wrote(k, _) => Latest(m, events[..j], k) == None
    case Fetched(k, v) => Latest(m, events[..j], k) == Some(v)
    case Popped(k, v) => Latest(m, events[..j], k) == Some(v)
    case Cleared(held) => forall k :: Latest(m, events[..j], k) == Lookup(held, k)
  }

  lemma StepThenLookup<K(!new), V(!new)>(m: map<K, V>, action: Action<K, V>, k: K)
    ensures |EventsOf(m, action)| <= 1
    ensures EventsOf(m, action) == [] ==> Step(m, action).0 == m
    ensures forall e :: e in EventsOf(m, action) ==>
      Lookup(Step(m, action).0, k)
        == if Writes(e, k) then Some(e.value) else if Releases(e, k) then None else Lookup(m, k)
  {
  }

  /** The live bag is exactly what the history says, key by key. */
  lemma {:induction false} FinalIsLatest<K(!new), V(!new)>(m: map<K, V>, actions: seq<Action<K, V>>, k: K)
    ensures Lookup(Final(m, actions), k) == Latest(m, History(m, actions), k)
  {
    if actions != [] {
      var before, last := actions[..|actions| - 1], actions[|actions| - 1];
      FinalIsLatest(m, before, k);
      StepThenLookup(Final(m, before), last, k);
      var h, es := History(m, before), EventsOf(Final(m, before), last);
      if es == [] {
        assert h + es == h;
      } else {
        assert es == [es[0]] && es[0] in es;
        LatestAppend(m, h, es[0], k);
      }
    }
  }

  lemma LatestAppend<K(!new), V(!new)>(m: map<K, V>, h: seq<Event<K, V>>, e: Event<K, V>, k: K)
    ensures Latest(m, h + [e], k)
         == if Writes(e, k) then Some(e.value) else if Releases(e, k) then None else Latest(m, h, k)
  {
    assert (h + [e])[..|h + [e]| - 1] == h;
  }

  /** Nothing is overwritten, nothing absent is read, over any run. */
  lemma {:induction false} RunIsDisciplined<K(!new), V(!new)>(m: map<K, V>, actions: seq<Action<K, V>>, j: nat)
    requires j < |History(m, actions)|
    ensures Disciplined(m, History(m, actions), j)
  {
    var before := actions[..|actions| - 1];
    var h, es := History(m, before), EventsOf(Final(m, before), actions[|actions| - 1]);
    if j < |h| {
      RunIsDisciplined(m, before, j);
      assert (h + es)[..j] == h[..j];
    } else {
      assert (h + es)[..j] == h;
      forall k ensures Lookup(Final(m, before), k) == Latest(m, h, k) {
        FinalIsLatest(m, before, k);
      }
    }
  }

  /** Untouched between `i` and `j`, a key still carries what it carried at `i`. */
  lemma {:induction false} LatestIsStable<K(!new), V(!new)>(m: map<K, V>, events: seq<Event<K, V>>, k: K, i: nat, j: nat)
    requires i <= j <= |events|
    requires forall l :: i <= l < j ==> !Touches(events[l], k)
    ensures Latest(m, events[..j], k) == Latest(m, events[..i], k)
  {
    if i < j {
      LatestIsStable(m, events, k, i, j - 1);
      assert events[..j][..j - 1] == events[..j - 1];
    }
  }

  lemma LatestAfter<K(!new), V(!new)>(m: map<K, V>, events: seq<Event<K, V>>, k: K, i: nat)
    requires i < |events|
    ensures Writes(events[i], k) ==> Latest(m, events[..i + 1], k) == Some(events[i].value)
    ensures Releases(events[i], k) ==> Latest(m, events[..i + 1], k) == None
  {
    assert events[..i + 1][..i] == events[..i];
  }

  /** With no touch of `k` strictly between `i` and `j`, event `j` finds `k` as
    * event `i` left it: so `j` cannot repeat the kind of touch that `i` was. */
  lemma NoTouchKindRepeats<K(!new), V(!new)>(m: map<K, V>, actions: seq<Action<K, V>>, k: K, i: nat, j: nat)
    requires i < j < |History(m, actions)|
    requires forall l :: i < l < j ==> !Touches(History(m, actions)[l], k)
    ensures !(Writes(History(m, actions)[i], k) && Writes(History(m, actions)[j], k))
    ensures !(Releases(History(m, actions)[i], k) && Releases(History(m, actions)[j], k))
  {
    var h := History(m, actions);
    RunIsDisciplined(m, actions, j);
    LatestAfter(m, h, k, i);
    LatestIsStable(m, h, k, i + 1, j);
  }

  /** Two writes of one key have a release between them, and two releases a write. */
  lemma {:induction false} WritesAndReleasesAlternate<K(!new), V(!new)>(
      m: map<K, V>, actions: seq<Action<K, V>>, k: K, i: nat, j: nat)
    requires i < j < |History(m, actions)|
    ensures Writes(History(m, actions)[i], k) && Writes(History(m, actions)[j], k) ==>
              exists l :: i < l < j && Releases(History(m, actions)[l], k)
    ensures Releases(History(m, actions)[i], k) && Releases(History(m, actions)[j], k) ==>
              exists l :: i < l < j && Writes(History(m, actions)[l], k)
  {
    var h := History(m, actions);
    if (Writes(h[i], k) && Writes(h[j], k)) || (Releases(h[i], k) && Releases(h[j], k)) {
      if forall l :: i < l < j ==> !Touches(h[l], k) {
        NoTouchKindRepeats(m, actions, k, i, j);
      } else {
        var last := LastTouch(h, k, i + 1, j);
        NoTouchKindRepeats(m, actions, k, last, j);
      }
    }
  }

  lemma {:induction false} LastTouch<K(!new), V(!new)>(events: seq<Event<K, V>>, k: K, i: nat, j: nat) returns (last: nat)
    requires i < j <= |events|
    requires exists l :: i <= l < j && Touches(events[l], k)
    ensures i <= last < j && Touches(events[last], k)
    ensures forall l :: last < l < j ==> !Touches(events[l], k)
  {
    if Touches(events[j - 1], k) {
      last := j - 1;
    } else {
      last := LastTouch(events, k, i, j - 1);
    }
  }

  /** What a key carries after any events: the initial value if untouched, else what
    * the last touch left. */
  lemma LatestIsLastTouch<K(!new), V(!new)>(m: map<K, V>, h: seq<Event<K, V>>, k: K, v: V, j: nat)
    requires j <= |h| && Latest(m, h[..j], k) == Some(v)
    ensures
      || (exists i :: 0 <= i < j && h[i] == Wrote(k, v) && Untouched(h, k, i + 1, j))
      || (k in m && m[k] == v && Untouched(h, k, 0, j))
  {
    if Untouched(h, k, 0, j) {
      LatestIsStable(m, h, k, 0, j);
    } else {
      var last := LastTouch(h, k, 0, j);
      LatestAfter(m, h, k, last);
      LatestIsStable(m, h, k, last + 1, j);
      assert Untouched(h, k, last + 1, j);
    }
  }

  ghost predicate Untouched<K, V>(h: seq<Event<K, V>>, k: K, i: nat, j: nat)
    requires j <= |h|
  {
    forall l :: i <= l < j ==> !Touches(h[l], k)
  }

  /** A read returns the latest unreleased write, or the initial value if none. */
  lemma ReadsReturnLatestWrite<K(!new), V(!new)>(
      m: map<K, V>, actions: seq<Action<K, V>>, k: K, v: V, j: nat)
    requires j < |History(m, actions)| && History(m, actions)[j] == Fetched(k, v)
    ensures var h := History(m, actions);
      || (exists i :: 0 <= i < j && h[i] == Wrote(k, v) && Untouched(h, k, i + 1, j))
      || (k in m && m[k] == v && Untouched(h, k, 0, j))
  {
    RunIsDisciplined(m, actions, j);
    LatestIsLastTouch(m, History(m, actions), k, v, j);
  }

  // ---------------------------------------------------------------------
  // Conservation
  // ---------------------------------------------------------------------

  ghost function Pairs<K, V>(m: map<K, V>): set<(K, V)> {
    set k | k in m :: (k, m[k])
  }

  ghost function Live<K, V>(m: map<K, V>): multiset<(K, V)> {
    multiset(Pairs(m))
  }

  /** What one event takes in, and what it gives out. */
  ghost function TakenIn<K, V>(e: Event<K, V>): multiset<(K, V)> {
    if e.Wrote? then multiset{(e.key, e.value)} else multiset{}
  }

  ghost function GivenOut<K, V>(e: Event<K, V>): multiset<(K, V)> {
    match e
    case Popped(k, v) => multiset{(k, v)}
    case Cleared(held) => Live(held)
    case _ => multiset{}
  }

  ghost function Written<K, V>(events: seq<Event<K, V>>): multiset<(K, V)> {
    if events == [] then multiset{}
    else Written(events[..|events| - 1]) + TakenIn(events[|events| - 1])
  }

  ghost function Released<K, V>(events: seq<Event<K, V>>): multiset<(K, V)> {
    if events == [] then multiset{}
    else Released(events[..|events| - 1]) + GivenOut(events[|events| - 1])
  }

  lemma PairsAfterPut<K, V>(m: map<K, V>, k: K, v: V)
    requires k !in m
    ensures Pairs(m[k := v]) == Pairs(m) + {(k, v)} && (k, v) !in Pairs(m)
  {
    var after, grown := m[k := v], Pairs(m) + {(k, v)};
    forall p | p in Pairs(after) ensures p in grown {
      var q :| q in after && p == (q, after[q]);
      assert q != k ==> (q, m[q]) in Pairs(m);
    }
    forall p | p in grown ensures p in Pairs(after) {
      assert k in after && after[k] == v;
      if p in Pairs(m) {
        var q :| q in m && p == (q, m[q]);
        assert q in after && after[q] == m[q];
      }
    }
  }

  lemma LiveAfterPut<K, V>(m: map<K, V>, k: K, v: V)
    requires k !in m
    ensures Live(m[k := v]) == Live(m) + multiset{(k, v)}
  {
    PairsAfterPut(m, k, v);
  }

  lemma LiveAfterPop<K, V>(m: map<K, V>, k: K)
    requires k in m
    ensures Live(m) == Live(m - {k}) + multiset{(k, m[k])}
  {
    LiveAfterPut(m - {k}, k, m[k]);
    assert (m - {k})[k := m[k]] == m;
  }

  lemma StepIsBalanced<K, V>(m: map<K, V>, action: Action<K, V>)
    ensures var es, after := EventsOf(m, action), Step(m, action).0;
      if es == [] then after == m else |es| == 1 && Live(m) + TakenIn(es[0]) == GivenOut(es[0]) + Live(after)
  {
    match action
    case Put(k, v) => if k !in m { LiveAfterPut(m, k, v); }
    case Pop(k) => if k in m { LiveAfterPop(m, k); }
    case Clear(_) =>
      var empty: map<K, V> := map[];
      assert Pairs(empty) == {};
    case _ =>
  }

  lemma BalancesCompose<T>(
      start: multiset<T>, w: multiset<T>, r: multiset<T>, mid: multiset<T>,
      t: multiset<T>, g: multiset<T>, end: multiset<T>)
    requires start + w == r + mid && mid + t == g + end
    ensures start + (w + t) == (r + g) + end
  {
    assert start + (w + t) == (start + w) + t == r + (mid + t);
  }

  /** What went in is what came out plus what is still live, over any run. */
  lemma {:induction false} ValuesAreConserved<K, V>(m: map<K, V>, actions: seq<Action<K, V>>)
    ensures Live(m) + Written(History(m, actions)) == Released(History(m, actions)) + Live(Final(m, actions))
  {
    if actions != [] {
      var before, last := actions[..|actions| - 1], actions[|actions| - 1];
      ValuesAreConserved(m, before);
      var now, h := Final(m, before), History(m, before);
      OneMoreStep(m, now, h, last);
    }
  }

  lemma OneMoreStep<K, V>(m: map<K, V>, now: map<K, V>, h: seq<Event<K, V>>, action: Action<K, V>)
    requires Live(m) + Written(h) == Released(h) + Live(now)
    ensures Live(m) + Written(h + EventsOf(now, action))
         == Released(h + EventsOf(now, action)) + Live(Step(now, action).0)
  {
    StepIsBalanced(now, action);
    var es, next := EventsOf(now, action), Step(now, action).0;
    if es == [] {
      assert h + es == h;
    } else {
      var e := es[0];
      assert h + es == h + [e];
      AppendedTotals(h, e);
      BalancesCompose(Live(m), Written(h), Released(h), Live(now), TakenIn(e), GivenOut(e), Live(next));
    }
  }

  lemma AppendedTotals<K, V>(h: seq<Event<K, V>>, e: Event<K, V>)
    ensures Written(h + [e]) == Written(h) + TakenIn(e)
    ensures Released(h + [e]) == Released(h) + GivenOut(e)
  {
    assert (h + [e])[..|h + [e]| - 1] == h;
  }

  /** A clear succeeds exactly when the live keys are the named ones; it then releases
    * them all at once and leaves the bag empty. */
  lemma ClearReleasesExactlyTheNamed<K(!new), V(!new)>(m: map<K, V>, actions: seq<Action<K, V>>, expected: seq<K>)
    ensures Step(Final(m, actions), Clear(expected)).1 == Ack <==>
            forall k :: Latest(m, History(m, actions), k).Some? <==> k in expected
    ensures Step(Final(m, actions), Clear(expected)).1 == Ack ==>
            var cleared := actions + [Clear(expected)]; var held := Final(m, actions);
            && held.Keys == KeySet(expected)
            && History(m, cleared) == History(m, actions) + [Cleared(held)]
            && Final(m, cleared) == map[]
  {
    var now := Final(m, actions);
    forall k ensures Latest(m, History(m, actions), k).Some? <==> k in now {
      FinalIsLatest(m, actions, k);
    }
    var cleared := actions + [Clear(expected)];
    assert cleared[..|cleared| - 1] == actions;
  }

  // ---------------------------------------------------------------------
  // What an access answers, read off the history
  // ---------------------------------------------------------------------

  /** What the next access is answered, after any accesses. */
  function Answer<K(==), V>(m: map<K, V>, actions: seq<Action<K, V>>, next: Action<K, V>): Reply<K, V> {
    Step(Final(m, actions), next).1
  }

  /** A read, or a pop, hands out exactly the value the key carries by the history, and
    * raises for the key when it carries none. */
  lemma ReadsAndPopsAnswerTheLatest<K(!new), V(!new)>(m: map<K, V>, actions: seq<Action<K, V>>, k: K)
    ensures forall v :: Answer(m, actions, Get(k)) == Value(v) <==> Latest(m, History(m, actions), k) == Some(v)
    ensures forall v :: Answer(m, actions, Pop(k)) == Value(v) <==> Latest(m, History(m, actions), k) == Some(v)
    ensures Answer(m, actions, Get(k)) == Raised(NoAttribute(k)) <==> Latest(m, History(m, actions), k) == None
    ensures Answer(m, actions, Pop(k)) == Raised(PopMissing(k)) <==> Latest(m, History(m, actions), k) == None
  {
    FinalIsLatest(m, actions, k);
  }

  /** A write is taken exactly when the key carries nothing, and raises for it otherwise. */
  lemma WritesAreTakenOnce<K(!new), V(!new)>(m: map<K, V>, actions: seq<Action<K, V>>, k: K, v: V)
    ensures Answer(m, actions, Put(k, v)) == Ack <==> Latest(m, History(m, actions), k) == None
    ensures Answer(m, actions, Put(k, v)) == Raised(AlreadyExists(k)) <==> Latest(m, History(m, actions), k).Some?
    ensures Latest(m, History(m, actions), k) == None ==>
              Latest(m, History(m, actions + [Put(k, v)]), k) == Some(v)
  {
    FinalIsLatest(m, actions, k);
    FinalIsLatest(m, actions + [Put(k, v)], k);
    assert (actions + [Put(k, v)])[..|actions|] == actions;
  }

  /** Only a throw of the op's own makes it fail, with the op's own code; work beside the
    * bag is acknowledged. */
  lemma OpsFailOfTheirOwn<K(!new), V(!new)>(m: map<K, V>, actions: seq<Action<K, V>>, next: Action<K, V>, code: int)
    ensures Answer(m, actions, next) == Raised(OpFailed(code)) <==> next == Throw(code)
    ensures Answer(m, actions, Compute) == Ack
    ensures Final(m, actions + [Throw(code)]) == Final(m, actions)
  {
    assert (actions + [Throw(code)])[..|actions|] == actions;
  }
}
