/** EventBus on values: a table of subscriptions by action, then by name, whose queues may
    have gone away, against a flat map from (action, name) to subscription. */
module EventBusSpec {
  import opened Basics

  type Queue = int
  type Callback = int
  type Data = int

  datatype Subscription = Subscription(queue: Queue, callback: Option<Callback>)

  type Actions = map<string, map<string, Subscription>>

  datatype Key = Key(action: string, name: string)

  // EventQueue::push of a callback bound to data, on behalf of the subscriber `name`.
  datatype Push = Push(name: string, queue: Queue, callback: Option<Callback>, data: Data)

  function Names(actions: Actions, action: string): map<string, Subscription> {
    if action in actions then actions[action] else map[]
  }

  /** get(): the subscription, if any. */
  function Lookup(actions: Actions, key: Key): Option<Subscription> {
    if key.action in actions && key.name in actions[key.action] then Some(actions[key.action][key.name]) else None
  }

  datatype Op =
    | Subscribe(key: Key, subscription: Subscription)
    | Unsubscribe(key: Key)
    | Notify(key: Key, data: Data)
    | Broadcast(action: string, data: Data)

  // The clean-up of unsubscribe: actions without a subscription are dropped.
  function Purged(actions: Actions): Actions {
    map action | action in actions && actions[action] != map[] :: actions[action]
  }

  function Without(actions: Actions, key: Key): Actions {
    if Lookup(actions, key).None? then actions else actions[key.action := actions[key.action] - {key.name}]
  }

  function Expired(names: map<string, Subscription>, action: string, live: set<Key>): set<string> {
    set name | name in names && Key(action, name) !in live
  }

  /** The table after an operation.  `live` holds the subscriptions whose queue still existed
      when the operation looked at them. */
  function Next(actions: Actions, op: Op, live: set<Key>): Actions {
    match op
    case Subscribe(key, subscription) =>
      if key in live && subscription.callback.Some?
      then actions[key.action := Names(actions, key.action)[key.name := subscription]] else actions
    case Unsubscribe(key) => if Lookup(actions, key).None? then actions else Purged(Without(actions, key))
    case Notify(key, _) => if Lookup(actions, key).Some? && key !in live then Without(actions, key) else actions
    case Broadcast(action, _) =>
      if action in actions then actions[action := actions[action] - Expired(actions[action], action, live)] else actions
  }

  // ---- The flat map ----

  type Flat = map<Key, Subscription>

  ghost function FlatNext(flat: Flat, op: Op, live: set<Key>): Flat {
    match op
    case Subscribe(key, subscription) =>
      if key in live && subscription.callback.Some? then flat[key := subscription] else flat
    case Unsubscribe(key) => flat - {key}
    case Notify(key, _) => if key !in live then flat - {key} else flat
    case Broadcast(action, _) => map key | key in flat && (key.action == action ==> key in live) :: flat[key]
  }

  // Whom an operation sends data to.
  predicate Addresses(op: Op, key: Key) {
    (op.Notify? && op.key == key) || (op.Broadcast? && op.action == key.action)
  }

  ghost predicate DueTo(flat: Flat, op: Op, live: set<Key>, key: Key, p: Push) {
    && Addresses(op, key) && key in flat && key in live
    && p == Push(key.name, flat[key].queue, flat[key].callback, op.data)
  }

  /** A push the operation owes: to a live subscriber it addresses, with its callback. */
  ghost predicate Due(flat: Flat, op: Op, live: set<Key>, p: Push) {
    exists key :: DueTo(flat, op, live, key, p)
  }

  /** The pushes an operation may make: exactly one for each it owes, in some order. */
  ghost predicate Pushes(flat: Flat, op: Op, live: set<Key>, pushes: seq<Push>) {
    && (forall i, j | 0 <= i < j < |pushes| :: pushes[i].name != pushes[j].name)
    && (forall p :: p in pushes <==> Due(flat, op, live, p))
  }

  ghost predicate Refines(actions: Actions, flat: Flat) {
    forall key: Key :: Lookup(actions, key) == if key in flat then Some(flat[key]) else None
  }

  /** Dropping empty actions changes no lookup. */
  lemma PurgeChangesNoLookup(actions: Actions, key: Key)
    ensures Lookup(Purged(actions), key) == Lookup(actions, key)
  {
  }

  lemma WithoutLookup(actions: Actions, key: Key, other: Key)
    ensures Lookup(Without(actions, key), other) == if other == key then None else Lookup(actions, other)
  {
  }

  /** What an operation does to every lookup: a subscription with a live queue and a callback is
      entered, an unsubscribed one goes, and one found expired while it was to be told goes. */
  lemma NextLookup(actions: Actions, op: Op, live: set<Key>, key: Key)
    ensures Lookup(Next(actions, op, live), key) ==
      match op
      case Subscribe(k, subscription) =>
        if key == k && k in live && subscription.callback.Some? then Some(subscription) else Lookup(actions, key)
      case Unsubscribe(k) => if key == k then None else Lookup(actions, key)
      case Notify(k, _) => if key == k && k !in live then None else Lookup(actions, key)
      case Broadcast(action, _) => if key.action == action && key !in live then None else Lookup(actions, key)
    ensures op.Unsubscribe? && Lookup(actions, op.key).Some? ==>
              forall a | a in Next(actions, op, live) :: Next(actions, op, live)[a] != map[]
  {
    match op
    case Unsubscribe(k) =>
      PurgeChangesNoLookup(Without(actions, k), key);
      WithoutLookup(actions, k, key);
    case Notify(k, _) => WithoutLookup(actions, k, key);
    case _ =>
  }

  /** Every operation does to the nested table what its flat form does to the flat map. */
  lemma StepRefines(actions: Actions, flat: Flat, op: Op, live: set<Key>)
    requires Refines(actions, flat)
    ensures Refines(Next(actions, op, live), FlatNext(flat, op, live))
  {
    var actions', flat' := Next(actions, op, live), FlatNext(flat, op, live);
    forall key: Key
      ensures Lookup(actions', key) == if key in flat' then Some(flat'[key]) else None
    {
      assert Lookup(actions, key) == if key in flat then Some(flat[key]) else None;
      match op
      case Unsubscribe(k) =>
        PurgeChangesNoLookup(Without(actions, k), key);
        WithoutLookup(actions, k, key);
      case Notify(k, _) =>
        WithoutLookup(actions, k, key);
        assert Lookup(actions, k) == if k in flat then Some(flat[k]) else None;
      case _ =>
    }
  }

  // ---- Runs ----

  /** A call, the subscriptions it found alive, and the pushes it made. */
  datatype Call = Call(op: Op, live: set<Key>, pushes: seq<Push>)

  function TableAfter(calls: seq<Call>): Actions {
    if calls == [] then map[]
    else var last := calls[|calls| - 1]; Next(TableAfter(calls[..|calls| - 1]), last.op, last.live)
  }

  ghost function FlatAfter(calls: seq<Call>): Flat {
    if calls == [] then map[]
    else var last := calls[|calls| - 1]; FlatNext(FlatAfter(calls[..|calls| - 1]), last.op, last.live)
  }

  /** Over all runs the nested table answers every lookup as the flat map does. */
  lemma {:induction false} RunRefines(calls: seq<Call>)
    ensures Refines(TableAfter(calls), FlatAfter(calls))
    decreases |calls|
  {
    if calls != [] {
      var n := |calls| - 1;
      RunRefines(calls[..n]);
      StepRefines(TableAfter(calls[..n]), FlatAfter(calls[..n]), calls[n].op, calls[n].live);
    }
  }

  /** Every call of a run made the pushes the flat map owes at that moment. */
  ghost predicate Faithful(calls: seq<Call>) {
    forall i | 0 <= i < |calls| :: Pushes(FlatAfter(calls[..i]), calls[i].op, calls[i].live, calls[i].pushes)
  }

  lemma FaithfulSnoc(calls: seq<Call>, call: Call)
    requires Faithful(calls) && Pushes(FlatAfter(calls), call.op, call.live, call.pushes)
    ensures Faithful(calls + [call])
  {
    var more := calls + [call];
    forall i | 0 <= i < |more|
      ensures Pushes(FlatAfter(more[..i]), more[i].op, more[i].live, more[i].pushes)
    {
      assert more[..i] == calls[..i] && calls[..|calls|] == calls;
    }
  }
}
