/** The micro-batch state bag: a key may be written once until it is popped.
  * `Step` says what one access does; the class `StateDict` does it in place.
  */
module StateDicts {

  /** What a dictionary access, or an op of its own accord, can raise. */
  datatype Error<K> =
    | AlreadyExists(key: K)
    | NoAttribute(key: K)
    | PopMissing(key: K)
    | UnexpectedKeys(held: set<K>, expected: set<K>)
    | OpFailed(code: int)

  /** One thing an op can do next. `Compute` is work that leaves the bag alone. */
  datatype Action<K, V> =
    | Put(key: K, value: V)
    | Get(key: K)
    | Pop(key: K)
    | Clear(expected: seq<K>)
    | Compute
    | Throw(code: int)

  datatype Reply<K, V> = Ack | Value(value: V) | Raised(error: Error<K>)

  function KeySet<K(==)>(ks: seq<K>): set<K> {
    set k | k in ks
  }

  /** The bag after one access, and what the access answered. */
  function Step<K(==), V>(m: map<K, V>, action: Action<K, V>): (map<K, V>, Reply<K, V>) {
    match action
    case Put(k, v) => if k in m then (m, Raised(AlreadyExists(k))) else (m[k := v], Ack)
    case Get(k) => if k in m then (m, Value(m[k])) else (m, Raised(NoAttribute(k)))
    case Pop(k) => if k in m then (m - {k}, Value(m[k])) else (m, Raised(PopMissing(k)))
    case Clear(ks) =>
      if m.Keys == KeySet(ks) then (map[], Ack) else (m, Raised(UnexpectedKeys(m.Keys, KeySet(ks))))
    case Compute => (m, Ack)
    case Throw(code) => (m, Raised(OpFailed(code)))
  }

  class StateDict<K(==), V> {
    var data: map<K, V>

    constructor (initial: map<K, V>)
      ensures data == initial
    {
      data := initial;
    }

    method SetAttr(key: K, value: V) returns (reply: Reply<K, V>)
      modifies this
      ensures (data, reply) == Step(old(data), Put(key, value))
      ensures key in old(data) ==> reply == Raised(AlreadyExists(key)) && data == old(data)
      ensures key !in old(data) ==> reply == Ack && data == old(data)[key := value]
    {
      if key in data {
        return Raised(AlreadyExists(key));
      }
      data := data[key := value];
      return Ack;
    }

    method GetAttr(key: K) returns (reply: Reply<K, V>)
      ensures (data, reply) == Step(data, Get(key))
      ensures reply == if key in data then Value(data[key]) else Raised(NoAttribute(key))
    {
      if key !in data {
        return Raised(NoAttribute(key));
      }
      return Value(data[key]);
    }

    method PopItem(key: K) returns (reply: Reply<K, V>)
      modifies this
      ensures (data, reply) == Step(old(data), Pop(key))
      ensures key in old(data) ==> reply == Value(old(data)[key]) && data == old(data) - {key}
      ensures key !in old(data) ==> reply == Raised(PopMissing(key)) && data == old(data)
    {
      if key !in data {
        return Raised(PopMissing(key));
      }
      reply := Value(data[key]);
      data := data - {key};
    }

    method ClearAll(expected: seq<K>) returns (reply: Reply<K, V>)
      modifies this
      ensures (data, reply) == Step(old(data), Clear(expected))
      ensures (forall k :: k in old(data) <==> k in expected) ==> reply == Ack && data == map[]
      ensures !(forall k :: k in old(data) <==> k in expected) ==>
                reply.Raised? && reply.error.UnexpectedKeys? && data == old(data)
    {
      if data.Keys != KeySet(expected) {
        return Raised(UnexpectedKeys(data.Keys, KeySet(expected)));
      }
      data := map[];
      return Ack;
    }

    /** Dispatches one action of an op to the access it names. */
    method Perform(action: Action<K, V>) returns (reply: Reply<K, V>)
      modifies this
      ensures (data, reply) == Step(old(data), action)
    {
      match action
      case Put(k, v) => reply := SetAttr(k, v);
      case Get(k) => reply := GetAttr(k);
      case Pop(k) => reply := PopItem(k);
      case Clear(ks) => reply := ClearAll(ks);
      case Compute => reply := Ack;
      case Throw(code) => reply := Raised(OpFailed(code));
    }
  }
}
