/** Replaying round-robin replica buckets and restoring the request order. */
module ReplicaBuckets {
  import opened Arithmetic
  import opened Common
  import opened ContextDealing

  datatype ReplayError = LengthMismatch | MissingPrompt

  /** The place of a replica's `j`-th prompt. */
  function Place(n: nat, replica: nat, replicas: nat, j: nat): (p: nat)
    requires replica < replicas && j < OwnedCount(n, replica, replicas)
    ensures p < n
  {
    IndexInBounds(n, replica, replicas, j);
    replica + j * replicas
  }

  /** One replica's places in the list: `range(replica, n, replicas)`. */
  function Indices(n: nat, replica: nat, replicas: nat): (places: seq<nat>)
    requires replica < replicas
    ensures |places| == OwnedCount(n, replica, replicas)
    ensures forall j :: 0 <= j < |places| ==> places[j] < n
  {
    seq(OwnedCount(n, replica, replicas), j requires 0 <= j < OwnedCount(n, replica, replicas) =>
      Place(n, replica, replicas, j))
  }

  /** The prompts of one replica. */
  function Bucket<P>(prompts: seq<P>, replica: nat, replicas: nat): (b: seq<P>)
    requires replica < replicas
    ensures |b| == OwnedCount(|prompts|, replica, replicas)
  {
    var places := Indices(|prompts|, replica, replicas);
    seq(|places|, j requires 0 <= j < |places| => prompts[places[j]])
  }

  lemma IndexInBounds(n: nat, replica: nat, replicas: nat, j: nat)
    requires replica < replicas
    ensures j < OwnedCount(n, replica, replicas) <==> replica + j * replicas < n
    ensures (replica + j * replicas) % replicas == replica && (replica + j * replicas) / replicas == j
    ensures j * replicas >= 0
  {
    LocalCountIsOwned(n, replica, replicas);
    RoundIsOwned(n, replica, replicas, j);
    ColumnOf(j, replica, replicas, j + 1);
    MulMonotone(0, j, replicas);
  }

  /** Request `i` is entry `i / replicas` of bucket `i % replicas`. */
  lemma SlotOfRequest<P>(prompts: seq<P>, replicas: nat, i: nat)
    requires replicas > 0 && i < |prompts|
    ensures i / replicas < |Bucket(prompts, i % replicas, replicas)|
    ensures Bucket(prompts, i % replicas, replicas)[i / replicas] == prompts[i]
  {
    assert i == i % replicas + i / replicas * replicas;
    IndexInBounds(|prompts|, i % replicas, replicas, i / replicas);
  }

  /** The engine answers every bucket it is given with one text per prompt. */
  ghost predicate AnswersBucket<P, T>(generate: seq<P> -> seq<T>, prompts: seq<P>, replicas: nat, replica: nat) {
    replica < replicas ==>
      var b := Bucket(prompts, replica, replicas);
      b == [] || |generate(b)| == |b|
  }

  /** The restored order: request `i` gets its bucket's text for it. */
  function Restored<P, T>(generate: seq<P> -> seq<T>, prompts: seq<P>, replicas: nat, i: nat): Option<T>
    requires i < |prompts|
  {
    if replicas == 0 then None
    else
      var out := generate(Bucket(prompts, i % replicas, replicas));
      if i / replicas < |out| then Some(out[i / replicas]) else None
  }

  /** A slot once the first `done` outputs of a replica's bucket are written. */
  function Written<T>(was: Option<T>, outputs: seq<T>, replicas: nat, replica: nat, done: nat, i: nat): Option<T>
    requires replicas > 0 && done <= |outputs|
  {
    if i % replicas == replica && i / replicas < done then Some(outputs[i / replicas]) else was
  }

  lemma WriteNext<T>(was: Option<T>, outputs: seq<T>, replicas: nat, replica: nat, j: nat, i: nat)
    requires replica < replicas && j < |outputs|
    ensures Written(was, outputs, replicas, replica, j + 1, i)
         == if i == replica + j * replicas then Some(outputs[j]) else Written(was, outputs, replicas, replica, j, i)
  {
    Rounds(i, replicas);
    ColumnOf(j, replica, replicas, j + 1);
  }

  /** `now` is `was` with the first `done` outputs of a replica's bucket written. */
  ghost predicate FilledTo<T>(
      now: seq<Option<T>>, was: seq<Option<T>>, outputs: seq<T>, replicas: nat, replica: nat, done: nat)
    requires replicas > 0 && done <= |outputs|
  {
    |now| == |was| && forall i :: 0 <= i < |was| ==> now[i] == Written(was[i], outputs, replicas, replica, done, i)
  }

  lemma NothingFilled<T>(was: seq<Option<T>>, outputs: seq<T>, replicas: nat, replica: nat)
    requires replicas > 0
    ensures FilledTo(was, was, outputs, replicas, replica, 0)
  {
    forall i | 0 <= i < |was| ensures Written(was[i], outputs, replicas, replica, 0, i) == was[i] {
      Rounds(i, replicas);
    }
  }

  lemma FillNextSlot<T>(
      now: seq<Option<T>>, was: seq<Option<T>>, outputs: seq<T>, replicas: nat, replica: nat, j: nat, slot: nat)
    requires replica < replicas && j < |outputs| == OwnedCount(|was|, replica, replicas)
    requires slot == Indices(|was|, replica, replicas)[j]
    requires FilledTo(now, was, outputs, replicas, replica, j)
    ensures FilledTo(now[slot := Some(outputs[j])], was, outputs, replicas, replica, j + 1)
  {
    forall i | 0 <= i < |was| {
      WriteNext(was[i], outputs, replicas, replica, j, i);
    }
  }

  /** One replica's outputs written into its slots, the others left alone. */
  method FillBucket<P, T>(texts: array<Option<T>>, prompts: seq<P>, replicas: nat, replica: nat, outputs: seq<T>)
    requires replica < replicas && texts.Length == |prompts|
    requires |outputs| == OwnedCount(|prompts|, replica, replicas)
    modifies texts
    ensures FilledTo(texts[..], old(texts[..]), outputs, replicas, replica, |outputs|)
  {
    ghost var was := texts[..];
    var places := Indices(|prompts|, replica, replicas);
    NothingFilled(was, outputs, replicas, replica);
    for j := 0 to |outputs|
      invariant FilledTo(texts[..], was, outputs, replicas, replica, j)
    {
      FillNextSlot(texts[..], was, outputs, replicas, replica, j, places[j]);
      texts[places[j]] := Some(outputs[j]);
    }
  }

  ghost predicate AllAnswered<P, T>(generate: seq<P> -> seq<T>, prompts: seq<P>, replicas: nat) {
    forall k: nat :: AnswersBucket(generate, prompts, replicas, k)
  }

  /** Replay bucket by bucket, then put the texts back in request order. */
  method ShapeMatchedReference<P, T>(generate: seq<P> -> seq<T>, prompts: seq<P>, replicas: nat)
    returns (r: Result<seq<T>, ReplayError>)
    ensures r == Err(LengthMismatch) <==> !AllAnswered(generate, prompts, replicas)
    ensures r == Err(MissingPrompt) <==> replicas == 0 && prompts != []
    ensures r.Ok? ==> |r.value| == |prompts|
    ensures r.Ok? ==> forall i :: 0 <= i < |prompts| ==> Restored(generate, prompts, replicas, i) == Some(r.value[i])
    ensures r.Ok? && prompts != [] ==> replicas > 0
    ensures r.Ok? ==> forall i :: 0 <= i < |prompts| ==>
              var texts := generate(Bucket(prompts, i % replicas, replicas));
              i / replicas < |texts| && r.value[i] == texts[i / replicas]
  {
    var texts := new Option<T>[|prompts|](i => None);
    for replica := 0 to replicas
      invariant forall k: nat :: k < replica ==> AnswersBucket(generate, prompts, replicas, k)
      invariant forall i :: 0 <= i < |prompts| ==>
                  texts[i] == SlotBefore(generate, prompts, replicas, replica, i)
    {
      var bucket := Bucket(prompts, replica, replicas);
      forall i | 0 <= i < |prompts| {
        NextReplica(generate, prompts, replicas, replica, i);
      }
      if |bucket| != 0 {
        var outputs := generate(bucket);
        if |outputs| != |bucket| {
          assert !AnswersBucket(generate, prompts, replicas, replica);
          return Err(LengthMismatch);
        }
        FillBucket(texts, prompts, replicas, replica, outputs);
      }
    }
    assert AllAnswered(generate, prompts, replicas);
    forall i | 0 <= i < |prompts| ensures texts[i] == Restored(generate, prompts, replicas, i) && (texts[i].Some? <==> replicas > 0) {
      EverySlotIsFilled(generate, prompts, replicas, i);
    }
    var whole, restored := Unwrap(texts);
    assert prompts != [] ==> (texts[0].Some? <==> replicas > 0);
    r := if whole then Ok(restored) else Err(MissingPrompt);
  }

  /** The texts of every slot, if none is empty. */
  method Unwrap<T>(texts: array<Option<T>>) returns (whole: bool, restored: seq<T>)
    ensures whole <==> forall k :: 0 <= k < texts.Length ==> texts[k].Some?
    ensures whole ==> |restored| == texts.Length
    ensures whole ==> forall k :: 0 <= k < texts.Length ==> texts[k] == Some(restored[k])
  {
    restored := [];
    for i := 0 to texts.Length
      invariant |restored| == i
      invariant forall k :: 0 <= k < i ==> texts[k] == Some(restored[k])
    {
      if texts[i].None? {
        return false, restored;
      }
      restored := restored + [texts[i].value];
    }
    whole := true;
  }

  /** Replaying one more replica writes its bucket's slots and no other. */
  lemma NextReplica<P, T>(generate: seq<P> -> seq<T>, prompts: seq<P>, replicas: nat, replica: nat, i: nat)
    requires replica < replicas && i < |prompts|
    ensures var bucket, was := Bucket(prompts, replica, replicas), SlotBefore(generate, prompts, replicas, replica, i);
      && (bucket == [] ==> SlotBefore(generate, prompts, replicas, replica + 1, i) == was)
      && (|generate(bucket)| == |bucket| ==>
            SlotBefore(generate, prompts, replicas, replica + 1, i)
            == Written(was, generate(bucket), replicas, replica, |bucket|, i))
  {
    SlotOfRequest(prompts, replicas, i);
  }

  /** What slot `i` holds once the first `done` replicas have been replayed. */
  function SlotBefore<P, T>(generate: seq<P> -> seq<T>, prompts: seq<P>, replicas: nat, done: nat, i: nat): Option<T>
    requires i < |prompts|
  {
    if replicas > 0 && i % replicas < done then Restored(generate, prompts, replicas, i) else None
  }

  /** With every bucket answered and at least one replica, no slot is left empty. */
  lemma EverySlotIsFilled<P, T>(generate: seq<P> -> seq<T>, prompts: seq<P>, replicas: nat, i: nat)
    requires i < |prompts| && AllAnswered(generate, prompts, replicas)
    ensures Restored(generate, prompts, replicas, i).Some? <==> replicas > 0
  {
    if replicas > 0 {
      SlotOfRequest(prompts, replicas, i);
      assert AnswersBucket(generate, prompts, replicas, i % replicas);
    }
  }

  ghost predicate Pointwise<P(!new), T>(generate: seq<P> -> seq<T>, answer: P -> T) {
    forall b: seq<P> :: PointwiseOn(generate, answer, b)
  }

  ghost predicate PointwiseOn<P, T>(generate: seq<P> -> seq<T>, answer: P -> T, b: seq<P>) {
    |generate(b)| == |b| && forall j :: 0 <= j < |b| ==> generate(b)[j] == answer(b[j])
  }

  lemma PointwiseSlot<P(!new), T>(generate: seq<P> -> seq<T>, answer: P -> T, prompts: seq<P>, replicas: nat, i: nat)
    requires Pointwise(generate, answer) && replicas > 0 && i < |prompts|
    ensures Restored(generate, prompts, replicas, i) == Some(answer(prompts[i]))
  {
    SlotOfRequest(prompts, replicas, i);
    assert PointwiseOn(generate, answer, Bucket(prompts, i % replicas, replicas));
  }

  /** For an engine that answers each prompt by itself, the restored texts are those
    * of one undivided call. */
  lemma PointwiseReplayIsUndivided<P(!new), T>(
      generate: seq<P> -> seq<T>, answer: P -> T, prompts: seq<P>, replicas: nat, texts: seq<T>)
    requires Pointwise(generate, answer)
    requires |texts| == |prompts|
    requires forall i :: 0 <= i < |prompts| ==> Restored(generate, prompts, replicas, i) == Some(texts[i])
    ensures texts == generate(prompts)
  {
    assert PointwiseOn(generate, answer, prompts);
    forall i | 0 <= i < |prompts| ensures texts[i] == answer(prompts[i]) {
      assert Restored(generate, prompts, replicas, i) == Some(texts[i]);
      PointwiseSlot(generate, answer, prompts, replicas, i);
    }
  }
}
