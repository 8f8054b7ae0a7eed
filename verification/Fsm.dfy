/** FSM: a transition table keyed by state and event packed into one 64-bit word. */
module Fsm {
  import opened Basics

  // Enumerators as 32-bit patterns.
  type Pattern = bv32

  type Callback = int

  // A 64-bit word by its halves; shifts by 32 and bitwise "or" work on halves.
  datatype Word64 = Word64(high: bv32, low: bv32) {
    function Shifted32(): Word64 {
      Word64(low, 0)
    }

    function Or(that: Word64): Word64 {
      Word64(high | that.high, low | that.low)
    }
  }

  // Whether the underlying types of State and Event are signed.
  datatype Types = Types(signedStates: bool, signedEvents: bool)

  // static_cast<std::uint64_t> of an enumerator: the sign bit fills the upper half.
  function Widened(p: Pattern, signed: bool): Word64 {
    Word64(if signed && p >= 0x8000_0000 then 0xFFFF_FFFF else 0, p)
  }

  function Combine(t: Types, state: Pattern, event: Pattern): Word64 {
    Widened(state, t.signedStates).Or(Widened(event, t.signedEvents).Shifted32())
  }

  predicate Negative(t: Types, state: Pattern) {
    t.signedStates && state >= 0x8000_0000
  }

  lemma CombineHalves(t: Types, state: Pattern, event: Pattern)
    ensures Combine(t, state, event) == Word64(if Negative(t, state) then 0xFFFF_FFFF else event, state)
  {
  }

  /** Two pairs share a key exactly when the states agree and either the events agree or
      the state is negative: its sign bits cover the event. */
  lemma CombineExact(t: Types, state: Pattern, event: Pattern, state': Pattern, event': Pattern)
    ensures Combine(t, state, event) == Combine(t, state', event')
       <==> state == state' && (event == event' || (t.signedStates && state >= 0x8000_0000))
  {
    CombineHalves(t, state, event);
    CombineHalves(t, state', event');
  }

  datatype Transition = Transition(from: Pattern, event: Pattern, to: Pattern, callback: Option<Callback>)

  // What the table maps a key to.
  type Table = map<Word64, (Pattern, Option<Callback>)>

  /** The first listed transition that `event` triggers in `state`: the one for the pair, or
      for a negative state any from that state. */
  function FirstMatch(t: Types, transitions: seq<Transition>, state: Pattern, event: Pattern): Option<Transition> {
    if transitions == [] then None
    else
      var first := transitions[0];
      if first.from == state && (first.event == event || Negative(t, state)) then Some(first)
      else FirstMatch(t, transitions[1..], state, event)
  }

  lemma {:induction false} FirstMatchSnoc(t: Types, transitions: seq<Transition>, last: Transition,
                                          state: Pattern, event: Pattern)
    ensures FirstMatch(t, transitions + [last], state, event) ==
      if FirstMatch(t, transitions, state, event).Some? then FirstMatch(t, transitions, state, event)
      else FirstMatch(t, [last], state, event)
  {
    if transitions == [] {
      assert transitions + [last] == [last];
    } else {
      FirstMatchSnoc(t, transitions[1..], last, state, event);
      assert (transitions + [last])[1..] == transitions[1..] + [last];
    }
  }

  /** The table answers every lookup as the list does. */
  ghost predicate Tabulates(t: Types, table: Table, transitions: seq<Transition>) {
    forall state, event ::
      var found := FirstMatch(t, transitions, state, event);
      var key := Combine(t, state, event);
      if found.None? then key !in table
      else key in table && table[key] == (found.value.to, found.value.callback)
  }

  // emplace() keeps an entry that is already there.
  function Emplaced(t: Types, table: Table, transition: Transition): Table {
    var key := Combine(t, transition.from, transition.event);
    if key in table then table else table[key := (transition.to, transition.callback)]
  }

  lemma EmplaceTabulates(t: Types, table: Table, transitions: seq<Transition>, next: Transition)
    requires Tabulates(t, table, transitions)
    ensures Tabulates(t, Emplaced(t, table, next), transitions + [next])
  {
    forall state, event
      ensures
        var found := FirstMatch(t, transitions + [next], state, event);
        var key := Combine(t, state, event);
        var table' := Emplaced(t, table, next);
        if found.None? then key !in table'
        else key in table' && table'[key] == (found.value.to, found.value.callback)
    {
      FirstMatchSnoc(t, transitions, next, state, event);
      CombineExact(t, next.from, next.event, state, event);
      assert FirstMatch(t, [next], state, event).Some?
        <==> next.from == state && (next.event == event || Negative(t, state));
    }
  }

  datatype Call = OnBefore(from: Pattern, event: Pattern, to: Pattern)
                | OnTransition(callback: Callback, from: Pattern, event: Pattern, to: Pattern)
                | OnInvalid(state: Pattern, event: Pattern)

  class FSM {
    const types: Types
    const initial: Pattern
    ghost const transitions: seq<Transition>
    const hasBefore: bool
    const hasInvalid: bool
    var state: Pattern
    var table: Table

    ghost predicate Valid()
      reads this
    {
      Tabulates(types, table, transitions)
    }

    constructor (types: Types, initial: Pattern, transitions: seq<Transition>, hasBefore: bool, hasInvalid: bool)
      ensures Valid() && this.types == types && this.initial == initial && this.transitions == transitions
      ensures this.hasBefore == hasBefore && this.hasInvalid == hasInvalid && state == initial
    {
      this.types, this.initial, this.transitions := types, initial, transitions;
      this.hasBefore, this.hasInvalid := hasBefore, hasInvalid;
      state := initial;
      var filled: Table := map[];
      for i := 0 to |transitions|
        invariant Tabulates(types, filled, transitions[..i])
      {
        EmplaceTabulates(types, filled, transitions[..i], transitions[i]);
        assert transitions[..i + 1] == transitions[..i] + [transitions[i]];
        filled := Emplaced(types, filled, transitions[i]);
      }
      assert transitions[..|transitions|] == transitions;
      table := filled;
    }

    method Reset()
      modifies this`state
      ensures state == initial
    {
      state := initial;
    }

    /** Follows the first listed transition, or rejects the event and stays. */
    method Apply(event: Pattern) returns (accepted: bool, calls: seq<Call>)
      requires Valid()
      modifies this`state
      ensures Valid()
      ensures var found := FirstMatch(types, transitions, old(state), event);
        && accepted == found.Some?
        && state == (if accepted then found.value.to else old(state))
        && calls == (
          if accepted then
            (if hasBefore then [OnBefore(old(state), event, state)] else []) +
            (if found.value.callback.Some?
             then [OnTransition(found.value.callback.value, old(state), event, state)] else [])
          else if hasInvalid then [OnInvalid(state, event)] else [])
    {
      var key := Combine(types, state, event);
      calls := [];
      if key !in table {
        if hasInvalid {
          calls := calls + [OnInvalid(state, event)];
        }
        return false, calls;
      }
      var from, to := state, table[key].0;
      if hasBefore {
        calls := calls + [OnBefore(from, event, to)];
      }
      if table[key].1.Some? {
        calls := calls + [OnTransition(table[key].1.value, from, event, to)];
      }
      state := to;
      accepted := true;
    }
  }

  // ---- Which transition is followed ----

  predicate Triggers(t: Types, x: Transition, state: Pattern, event: Pattern) {
    x.from == state && (x.event == event || Negative(t, state))
  }

  /** The match is the listed transition with the least index that the pair triggers; for a
      non-negative state that is the first one listed for exactly this state and event. */
  lemma {:induction false} FirstMatchIsFirst(t: Types, transitions: seq<Transition>, state: Pattern, event: Pattern)
    ensures var found := FirstMatch(t, transitions, state, event);
      if found.None? then forall x | x in transitions :: !Triggers(t, x, state, event)
      else exists k ::
             && 0 <= k < |transitions| && transitions[k] == found.value
             && Triggers(t, transitions[k], state, event)
             && forall j | 0 <= j < k :: !Triggers(t, transitions[j], state, event)
  {
    if transitions != [] && !Triggers(t, transitions[0], state, event) {
      FirstMatchIsFirst(t, transitions[1..], state, event);
      var found := FirstMatch(t, transitions, state, event);
      if found.Some? {
        var k :| && 0 <= k < |transitions[1..]| && transitions[1..][k] == found.value
                 && Triggers(t, transitions[1..][k], state, event)
                 && forall j | 0 <= j < k :: !Triggers(t, transitions[1..][j], state, event);
        assert transitions[k + 1] == transitions[1..][k];
        forall j | 0 <= j < k + 1
          ensures !Triggers(t, transitions[j], state, event)
        {
          assert j > 0 ==> transitions[j] == transitions[1..][j - 1];
        }
      }
    } else if transitions != [] {
      assert transitions[0] == FirstMatch(t, transitions, state, event).value;
    }
  }

  /** A negative state takes the first transition listed from it whatever the event. */
  lemma {:induction false} NegativeStateIgnoresEvent(t: Types, transitions: seq<Transition>,
                                                     state: Pattern, event: Pattern, event': Pattern)
    requires Negative(t, state)
    ensures FirstMatch(t, transitions, state, event) == FirstMatch(t, transitions, state, event')
  {
    if transitions != [] {
      NegativeStateIgnoresEvent(t, transitions[1..], state, event, event');
    }
  }

  // ---- Runs ----

  // The state before path[i]; after the whole path for i == |path|.
  ghost function StateAt(from: Pattern, path: seq<Transition>, i: nat): Pattern
    requires i <= |path|
  {
    if i == 0 then from else path[i - 1].to
  }

  // path[i] is the first match of event accepted[i], in the state the path has reached.
  ghost predicate TakenAt(t: Types, transitions: seq<Transition>, from: Pattern, events: seq<Pattern>,
                          accepted: seq<nat>, path: seq<Transition>, i: nat)
    requires i < |accepted| == |path|
  {
    accepted[i] < |events| && FirstMatch(t, transitions, StateAt(from, path, i), events[accepted[i]]) == Some(path[i])
  }

  // The events before accepted[i], or the end, and after the one accepted before.
  ghost function GapStart(accepted: seq<nat>, i: nat): nat
    requires i <= |accepted|
  {
    if i == 0 then 0 else accepted[i - 1] + 1
  }

  ghost function GapEnd(accepted: seq<nat>, i: nat, size: nat): nat {
    if i < |accepted| then accepted[i] else size
  }

  ghost predicate Rejects(t: Types, transitions: seq<Transition>, state: Pattern, event: Pattern) {
    FirstMatch(t, transitions, state, event).None?
  }

  ghost predicate GapAt(t: Types, transitions: seq<Transition>, from: Pattern, events: seq<Pattern>,
                        accepted: seq<nat>, path: seq<Transition>, i: nat)
    requires i <= |accepted| == |path|
  {
    && GapStart(accepted, i) <= GapEnd(accepted, i, |events|) <= |events|
    && forall k | GapStart(accepted, i) <= k < GapEnd(accepted, i, |events|) ::
         Rejects(t, transitions, StateAt(from, path, i), events[k])
  }

  /** `path` is the run of `events` from `from`: the indices in `accepted` increase, path[i]
      is the first match of events[accepted[i]] in the state the path has reached, and every
      event between two accepted ones is rejected in the state in which it comes. */
  ghost predicate Follows(t: Types, transitions: seq<Transition>, from: Pattern, events: seq<Pattern>,
                          accepted: seq<nat>, path: seq<Transition>)
  {
    && |accepted| == |path|
    && (forall i | 0 <= i < |path| :: TakenAt(t, transitions, from, events, accepted, path, i))
    && (forall i | 0 <= i <= |path| :: GapAt(t, transitions, from, events, accepted, path, i))
  }

  lemma AcceptedIncrease(t: Types, transitions: seq<Transition>, from: Pattern, events: seq<Pattern>,
                         accepted: seq<nat>, path: seq<Transition>, i: nat, j: nat)
    requires Follows(t, transitions, from, events, accepted, path) && i < j < |accepted|
    ensures accepted[i] < accepted[j]
  {
    hide TakenAt, Rejects;
    assert GapAt(t, transitions, from, events, accepted, path, j);
    if i < j - 1 {
      AcceptedIncrease(t, transitions, from, events, accepted, path, i, j - 1);
    }
  }

  /** A run goes along listed transitions only, each from the state reached, triggered by its
      event or, from a negative state, by any. */
  lemma FollowsListed(t: Types, transitions: seq<Transition>, from: Pattern, events: seq<Pattern>,
                      accepted: seq<nat>, path: seq<Transition>, i: nat)
    requires Follows(t, transitions, from, events, accepted, path) && i < |path|
    ensures accepted[i] < |events| && path[i] in transitions
    ensures Triggers(t, path[i], StateAt(from, path, i), events[accepted[i]])
  {
    assert TakenAt(t, transitions, from, events, accepted, path, i);
    FirstMatchIsFirst(t, transitions, StateAt(from, path, i), events[accepted[i]]);
    hide FirstMatch, Follows, GapAt;
  }

  // Later events and transitions change nothing of what was taken and rejected before.
  lemma EarlierStays(t: Types, transitions: seq<Transition>, from: Pattern, events: seq<Pattern>, event: Pattern,
                     accepted: seq<nat>, path: seq<Transition>, at: seq<nat>, more: seq<Transition>, i: nat)
    requires i < |path| == |accepted| && |at| == |more| && Follows(t, transitions, from, events, accepted, path)
    ensures TakenAt(t, transitions, from, events + [event], accepted + at, path + more, i)
    ensures GapAt(t, transitions, from, events + [event], accepted + at, path + more, i)
  {
    assert TakenAt(t, transitions, from, events, accepted, path, i);
    assert GapAt(t, transitions, from, events, accepted, path, i);
    hide FirstMatch, Follows;
    assert StateAt(from, path + more, i) == StateAt(from, path, i);
    assert GapStart(accepted + at, i) == GapStart(accepted, i);
    assert GapEnd(accepted + at, i, |events| + 1) == GapEnd(accepted, i, |events|);
  }

  lemma RejectedLast(t: Types, transitions: seq<Transition>, from: Pattern, events: seq<Pattern>, event: Pattern,
                     accepted: seq<nat>, path: seq<Transition>)
    requires Follows(t, transitions, from, events, accepted, path)
    requires Rejects(t, transitions, StateAt(from, path, |path|), event)
    ensures GapAt(t, transitions, from, events + [event], accepted, path, |path|)
  {
    assert GapAt(t, transitions, from, events, accepted, path, |path|);
    hide Rejects, Follows;
    assert (events + [event])[|events|] == event;
  }

  lemma AcceptedLast(t: Types, transitions: seq<Transition>, from: Pattern, events: seq<Pattern>, event: Pattern,
                     accepted: seq<nat>, path: seq<Transition>, next: Transition)
    requires Follows(t, transitions, from, events, accepted, path)
    requires FirstMatch(t, transitions, StateAt(from, path, |path|), event) == Some(next)
    ensures TakenAt(t, transitions, from, events + [event], accepted + [|events|], path + [next], |path|)
    ensures GapAt(t, transitions, from, events + [event], accepted + [|events|], path + [next], |path|)
    ensures GapAt(t, transitions, from, events + [event], accepted + [|events|], path + [next], |path| + 1)
  {
    assert GapAt(t, transitions, from, events, accepted, path, |path|);
    hide FirstMatch, Rejects, Follows;
    var n := |path|;
    assert StateAt(from, path + [next], n) == StateAt(from, path, n);
    assert GapStart(accepted + [|events|], n) == GapStart(accepted, n);
    assert GapEnd(accepted + [|events|], n, |events| + 1) == |events|;
    assert (events + [event])[|events|] == event;
    assert (path + [next])[n] == next && (accepted + [|events|])[n] == |events|;
  }

  // One more event.
  lemma FollowsSnoc(t: Types, transitions: seq<Transition>, from: Pattern, events: seq<Pattern>, event: Pattern,
                    accepted: seq<nat>, path: seq<Transition>)
    requires Follows(t, transitions, from, events, accepted, path)
    ensures var found := FirstMatch(t, transitions, StateAt(from, path, |path|), event);
      if found.Some? then Follows(t, transitions, from, events + [event], accepted + [|events|], path + [found.value])
      else Follows(t, transitions, from, events + [event], accepted, path)
  {
    var found := FirstMatch(t, transitions, StateAt(from, path, |path|), event);
    var at: seq<nat>, more := if found.Some? then [|events|] else [], if found.Some? then [found.value] else [];
    if found.Some? {
      AcceptedLast(t, transitions, from, events, event, accepted, path, found.value);
    } else {
      RejectedLast(t, transitions, from, events, event, accepted, path);
      assert accepted + [] == accepted && path + [] == path;
    }
    hide FirstMatch, TakenAt, GapAt, Rejects;
    forall i | 0 <= i < |path|
      ensures TakenAt(t, transitions, from, events + [event], accepted + at, path + more, i)
      ensures GapAt(t, transitions, from, events + [event], accepted + at, path + more, i)
    {
      EarlierStays(t, transitions, from, events, event, accepted, path, at, more, i);
    }
  }

  // The next accepted event of two runs that agree so far is the same.
  lemma NextIsSame(t: Types, transitions: seq<Transition>, from: Pattern, events: seq<Pattern>,
                   accepted: seq<nat>, path: seq<Transition>, accepted': seq<nat>, path': seq<Transition>, i: nat)
    requires Follows(t, transitions, from, events, accepted, path)
    requires Follows(t, transitions, from, events, accepted', path')
    requires i < |path| && i <= |path'| && accepted[..i] == accepted'[..i] && path[..i] == path'[..i]
    ensures i < |path'| && accepted'[i] <= accepted[i]
  {
    assert TakenAt(t, transitions, from, events, accepted, path, i);
    assert GapAt(t, transitions, from, events, accepted, path, i);
    assert GapAt(t, transitions, from, events, accepted', path', i);
    if i > 0 {
      assert accepted[i - 1] == accepted[..i][i - 1] == accepted'[i - 1];
      assert path[i - 1] == path[..i][i - 1] == path'[i - 1];
    }
    assert !Rejects(t, transitions, StateAt(from, path', i), events[accepted[i]]);
  }

  lemma {:induction false} RunsAgree(t: Types, transitions: seq<Transition>, from: Pattern, events: seq<Pattern>,
                                     accepted: seq<nat>, path: seq<Transition>,
                                     accepted': seq<nat>, path': seq<Transition>, n: nat)
    requires Follows(t, transitions, from, events, accepted, path)
    requires Follows(t, transitions, from, events, accepted', path')
    requires n <= |path|
    ensures n <= |path'| && accepted[..n] == accepted'[..n] && path[..n] == path'[..n]
  {
    if n > 0 {
      var i := n - 1;
      RunsAgree(t, transitions, from, events, accepted, path, accepted', path', i);
      NextIsSame(t, transitions, from, events, accepted, path, accepted', path', i);
      NextIsSame(t, transitions, from, events, accepted', path', accepted, path, i);
      assert TakenAt(t, transitions, from, events, accepted, path, i);
      assert TakenAt(t, transitions, from, events, accepted', path', i);
      hide FirstMatch, Follows, GapAt;
      assert i > 0 ==> path[i - 1] == path[..i][i - 1] == path'[i - 1];
      assert accepted[..n] == accepted[..i] + [accepted[i]] && path[..n] == path[..i] + [path[i]];
      assert accepted'[..n] == accepted'[..i] + [accepted'[i]] && path'[..n] == path'[..i] + [path'[i]];
    }
  }

  /** A run is determined by its events. */
  lemma RunsAreUnique(t: Types, transitions: seq<Transition>, from: Pattern, events: seq<Pattern>,
                      accepted: seq<nat>, path: seq<Transition>, accepted': seq<nat>, path': seq<Transition>)
    requires Follows(t, transitions, from, events, accepted, path)
    requires Follows(t, transitions, from, events, accepted', path')
    ensures accepted == accepted' && path == path'
  {
    RunsAgree(t, transitions, from, events, accepted, path, accepted', path', |path|);
    RunsAgree(t, transitions, from, events, accepted', path', accepted, path, |path'|);
    hide TakenAt, GapAt;
    assert accepted == accepted[..|path|] && accepted' == accepted'[..|path'|];
    assert path == path[..|path|] && path' == path'[..|path'|];
  }

  /** Applying events one after the other follows exactly that run, along listed transitions
      only, and ends in the state the run reaches. */
  method ApplyAll(fsm: FSM, events: seq<Pattern>) returns (accepted: seq<nat>, ghost path: seq<Transition>)
    requires fsm.Valid()
    modifies fsm`state
    ensures fsm.Valid() && Follows(fsm.types, fsm.transitions, old(fsm.state), events, accepted, path)
    ensures fsm.state == StateAt(old(fsm.state), path, |path|)
    ensures forall x | x in path :: x in fsm.transitions
  {
    hide FirstMatch, TakenAt, GapAt;
    accepted, path := [], [];
    NothingFollows(fsm.types, fsm.transitions, fsm.state);
    for k := 0 to |events|
      invariant fsm.Valid() && Follows(fsm.types, fsm.transitions, old(fsm.state), events[..k], accepted, path)
      invariant fsm.state == StateAt(old(fsm.state), path, |path|)
      invariant forall x | x in path :: x in fsm.transitions
    {
      FollowsSnoc(fsm.types, fsm.transitions, old(fsm.state), events[..k], events[k], accepted, path);
      MatchIsListed(fsm.types, fsm.transitions, fsm.state, events[k]);
      assert events[..k + 1] == events[..k] + [events[k]];
      hide Follows;
      ghost var found := FirstMatch(fsm.types, fsm.transitions, fsm.state, events[k]);
      var ok, _ := fsm.Apply(events[k]);
      if ok {
        accepted := accepted + [k];
        path := path + [found.value];
      }
    }
    assert events[..|events|] == events;
  }

  lemma NothingFollows(t: Types, transitions: seq<Transition>, from: Pattern)
    ensures Follows(t, transitions, from, [], [], [])
  {
  }

  lemma MatchIsListed(t: Types, transitions: seq<Transition>, state: Pattern, event: Pattern)
    ensures var found := FirstMatch(t, transitions, state, event); found.Some? ==> found.value in transitions
  {
    FirstMatchIsFirst(t, transitions, state, event);
  }
}
