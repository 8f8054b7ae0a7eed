/** The EventBus object: its loops over the nested table compute the functions of EventBusSpec,
    and every run of its methods makes exactly the pushes the flat map owes. */
module EventBusObject {
  import opened Basics
  import opened EventBusSpec

  class EventBus {
    var actions: Actions
    ghost var calls: seq<Call>

    /** The table is that of the calls made so far, each of which pushed what it owed. */
    ghost predicate Valid()
      reads this
    {
      actions == TableAfter(calls) && Faithful(calls)
    }

    constructor ()
      ensures Valid() && calls == []
    {
      actions := map[];
      calls := [];
    }

    method Get(name: string, action: string) returns (found: Option<Subscription>)
      ensures found == Lookup(actions, Key(action, name))
    {
      if action !in actions {
        return None;
      }
      if name !in actions[action] {
        return None;
      }
      return Some(actions[action][name]);
    }

    // Adds a finished call to the history.
    ghost method Record(call: Call)
      requires actions == Next(TableAfter(calls), call.op, call.live) && Faithful(calls)
      requires forall flat | Refines(TableAfter(calls), flat) :: Pushes(flat, call.op, call.live, call.pushes)
      modifies this`calls
      ensures Valid() && calls == old(calls) + [call]
    {
      RunRefines(calls);
      FaithfulSnoc(calls, call);
      assert (calls + [call])[..|calls|] == calls;
      calls := calls + [call];
    }

    method SubscribeTo(name: string, action: string, subscription: Subscription, live: set<Key>)
      returns (accepted: bool)
      requires Valid()
      modifies this
      ensures accepted <==> Key(action, name) in live && subscription.callback.Some?
      ensures Valid() && calls == old(calls) + [Call(Subscribe(Key(action, name), subscription), live, [])]
    {
      NothingOwed(actions, Subscribe(Key(action, name), subscription), live);
      accepted := Key(action, name) in live && subscription.callback.Some?;
      if accepted {
        if action !in actions {
          actions := actions[action := map[]];
        }
        actions := actions[action := actions[action][name := subscription]];
      }
      Record(Call(Subscribe(Key(action, name), subscription), live, []));
    }

    method Unsubscribe(name: string, action: string)
      requires Valid()
      modifies this
      ensures Valid() && calls == old(calls) + [Call(Op.Unsubscribe(Key(action, name)), {}, [])]
    {
      ghost var call := Call(Op.Unsubscribe(Key(action, name)), {}, []);
      NothingOwed(actions, call.op, {});
      if action !in actions {
        Record(call);
        return;
      }
      if name !in actions[action] {
        Record(call);
        return;
      }
      actions := actions[action := actions[action] - {name}];
      // Clean up all actions without subscription.
      ghost var erased := actions;
      var todo := actions.Keys;
      while todo != {}
        invariant todo <= actions.Keys <= erased.Keys
        invariant forall a | a in erased ::
                    if a in actions then actions[a] == erased[a] && (a in todo || erased[a] != map[])
                    else erased[a] == map[]
        invariant calls == old(calls)
        decreases todo
      {
        var a :| a in todo;
        todo := todo - {a};
        if actions[a] == map[] {
          actions := actions - {a};
        }
      }
      assert actions == Purged(erased);
      Record(call);
    }

    method NotifyOne(name: string, action: string, data: Data, live: set<Key>) returns (pushes: seq<Push>)
      requires Valid()
      modifies this
      ensures Valid() && calls == old(calls) + [Call(Notify(Key(action, name), data), live, pushes)]
      ensures match Lookup(old(actions), Key(action, name))
        case None => pushes == []
        case Some(found) =>
          pushes == if Key(action, name) in live then [Push(name, found.queue, found.callback, data)] else []
    {
      var key := Key(action, name);
      ghost var before := actions;
      pushes := [];
      if action !in actions {
        OwedToOne(before, key, data, live, pushes);
        Record(Call(Notify(key, data), live, pushes));
        return;
      }
      if name !in actions[action] {
        OwedToOne(before, key, data, live, pushes);
        Record(Call(Notify(key, data), live, pushes));
        return;
      }
      var subscription := actions[action][name];
      if key !in live {
        actions := actions[action := actions[action] - {name}];
      } else {
        pushes := [Push(name, subscription.queue, subscription.callback, data)];
      }
      OwedToOne(before, key, data, live, pushes);
      Record(Call(Notify(key, data), live, pushes));
    }

    method BroadcastAll(action: string, data: Data, live: set<Key>) returns (pushes: seq<Push>)
      requires Valid()
      modifies this
      ensures Valid() && calls == old(calls) + [Call(Broadcast(action, data), live, pushes)]
      ensures forall i, j | 0 <= i < j < |pushes| :: pushes[i].name != pushes[j].name
      ensures forall p: Push :: p in pushes <==>
                Key(action, p.name) in live && p.data == data
                && Lookup(old(actions), Key(action, p.name)) == Some(Subscription(p.queue, p.callback))
    {
      pushes := [];
      if action !in actions {
        NobodyThere(actions, action, data, live);
        Record(Call(Broadcast(action, data), live, pushes));
        return;
      }
      ghost var before := actions[action];
      var todo := actions[action].Keys;
      while todo != {}
        invariant action in actions && todo <= before.Keys && calls == old(calls)
        invariant actions == old(actions)[action := actions[action]]
        invariant actions[action] == before - (Expired(before, action, live) - todo)
        invariant Reached(before, action, data, live, todo, pushes)
        decreases todo
      {
        var name :| name in todo;
        ghost var todo' := todo - {name};
        var subscription := actions[action][name];
        if Key(action, name) !in live {
          assert Expired(before, action, live) - todo' == (Expired(before, action, live) - todo) + {name};
          actions := actions[action := actions[action] - {name}];
        } else {
          assert Expired(before, action, live) - todo' == Expired(before, action, live) - todo;
          pushes := pushes + [Push(name, subscription.queue, subscription.callback, data)];
        }
        todo := todo - {name};
      }
      assert Expired(before, action, live) - {} == Expired(before, action, live);
      AllReached(old(actions), action, data, live, pushes);
      Record(Call(Broadcast(action, data), live, pushes));
    }
  }

  /** Over all runs of the object: every push a call made went to a live subscriber of the
      table as it was then, with its queue and callback. */
  lemma PushesReachLiveSubscribers(bus: EventBus, i: nat, p: Push)
    requires bus.Valid() && i < |bus.calls| && p in bus.calls[i].pushes
    ensures exists key ::
              && key in bus.calls[i].live && key.name == p.name
              && Lookup(TableAfter(bus.calls[..i]), key) == Some(Subscription(p.queue, p.callback))
  {
    var call, flat := bus.calls[i], FlatAfter(bus.calls[..i]);
    RunRefines(bus.calls[..i]);
    assert Due(flat, call.op, call.live, p);
    var key :| DueTo(flat, call.op, call.live, key, p);
    assert Lookup(TableAfter(bus.calls[..i]), key) == Some(flat[key]);
  }

  // A push to a subscriber that was alive.
  ghost predicate OwedIn(before: map<string, Subscription>, action: string, data: Data, live: set<Key>, p: Push) {
    && p.name in before && Key(action, p.name) in live
    && p == Push(p.name, before[p.name].queue, before[p.name].callback, data)
  }

  // Part of a broadcast: of the subscribers no longer in `todo`, each live one has its push.
  ghost predicate Reached(before: map<string, Subscription>, action: string, data: Data, live: set<Key>,
                          todo: set<string>, pushes: seq<Push>)
  {
    && (forall i, j | 0 <= i < j < |pushes| :: pushes[i].name != pushes[j].name)
    && (forall p :: p in pushes <==> OwedIn(before, action, data, live, p) && p.name !in todo)
  }

  lemma NothingOwed(actions: Actions, op: Op, live: set<Key>)
    requires op.Subscribe? || op.Unsubscribe?
    ensures forall flat | Refines(actions, flat) :: Pushes(flat, op, live, [])
  {
  }

  lemma OwedToOne(actions: Actions, key: Key, data: Data, live: set<Key>, pushes: seq<Push>)
    requires var found := Lookup(actions, key);
      pushes == if found.Some? && key in live
                then [Push(key.name, found.value.queue, found.value.callback, data)] else []
    ensures forall flat | Refines(actions, flat) :: Pushes(flat, Notify(key, data), live, pushes)
  {
    forall flat | Refines(actions, flat)
      ensures Pushes(flat, Notify(key, data), live, pushes)
    {
      assert Lookup(actions, key) == if key in flat then Some(flat[key]) else None;
      forall p
        ensures p in pushes <==> Due(flat, Notify(key, data), live, p)
      {
        assert p in pushes <==> DueTo(flat, Notify(key, data), live, key, p);
      }
    }
  }

  lemma AllReached(actions: Actions, action: string, data: Data, live: set<Key>, pushes: seq<Push>)
    requires action in actions && Reached(actions[action], action, data, live, {}, pushes)
    ensures forall flat | Refines(actions, flat) :: Pushes(flat, Broadcast(action, data), live, pushes)
  {
    forall flat | Refines(actions, flat)
      ensures Pushes(flat, Broadcast(action, data), live, pushes)
    {
      forall p
        ensures p in pushes <==> Due(flat, Broadcast(action, data), live, p)
      {
        var key := Key(action, p.name);
        assert Lookup(actions, key) == if key in flat then Some(flat[key]) else None;
        assert OwedIn(actions[action], action, data, live, p) <==> DueTo(flat, Broadcast(action, data), live, key, p);
      }
    }
  }

  lemma NobodyThere(actions: Actions, action: string, data: Data, live: set<Key>)
    requires action !in actions
    ensures forall flat | Refines(actions, flat) :: Pushes(flat, Broadcast(action, data), live, [])
  {
    forall flat | Refines(actions, flat)
      ensures Pushes(flat, Broadcast(action, data), live, [])
    {
      forall p
        ensures !Due(flat, Broadcast(action, data), live, p)
      {
        var key := Key(action, p.name);
        assert Lookup(actions, key).None?;
        assert forall k | Addresses(Broadcast(action, data), k) :: Lookup(actions, k).None?;
      }
    }
  }
}
