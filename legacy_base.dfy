/** The legacy engine (base_sm.py): states and events are plain enumeration
    values, a transition carries at most one action, and an event with no
    entry for the current state is an error rather than a quiet no-op. */
module LegacyBase {
  import opened Actions

  /** A table entry; `action` and `description` are optional and absent
      unless given. */
  datatype Transition<S, E> = Transition(
    triggerEvent: E,
    fromState: S,
    toState: S,
    action: Option<Action> := None,
    description: Option<string> := None)

  /** What a machine definition supplies through `get_init_state()` and
      `get_transitions()`. */
  datatype Definition<S, E> = Definition(initState: S, transitions: seq<Transition<S, E>>)

  /** The exception `find_transition` raises: the rejected event and the
      machine's current state. */
  datatype InvalidEvent<S, E> = InvalidEvent(event: E, state: S)

  predicate Matches<S(==), E(==)>(t: Transition<S, E>, s: S, e: E)
  {
    t.fromState == s && t.triggerEvent == e
  }

  /** First entry of `ts`, in list order, that matches (s, e). */
  function FindFirst<S(==), E(==)>(ts: seq<Transition<S, E>>, s: S, e: E): Option<Transition<S, E>>
  {
    if ts == [] then None
    else if Matches(ts[0], s, e) then Some(ts[0])
    else FindFirst(ts[1..], s, e)
  }

  /** Nothing is found exactly when no entry matches. */
  lemma {:induction false} FindFirstNone<S, E>(ts: seq<Transition<S, E>>, s: S, e: E)
    ensures FindFirst(ts, s, e).None? <==> forall i :: 0 <= i < |ts| ==> !Matches(ts[i], s, e)
  {
    if ts != [] {
      FindFirstNone(ts[1..], s, e);
      assert forall i :: 1 <= i < |ts| ==> ts[i] == ts[1..][i - 1];
    }
  }

  /** First match wins: the earliest matching entry is the one found. */
  lemma {:induction false} FindFirstEarliest<S, E>(ts: seq<Transition<S, E>>, s: S, e: E, i: nat)
    requires i < |ts| && Matches(ts[i], s, e)
    requires forall j :: 0 <= j < i ==> !Matches(ts[j], s, e)
    ensures FindFirst(ts, s, e) == Some(ts[i])
  {
    if i > 0 {
      assert !Matches(ts[0], s, e);
      assert forall j :: 0 <= j < i - 1 ==> ts[1..][j] == ts[j + 1];
      FindFirstEarliest(ts[1..], s, e, i - 1);
    }
  }

  /** A found entry matches and no earlier entry does. */
  lemma {:induction false} FindFirstFound<S, E>(ts: seq<Transition<S, E>>, s: S, e: E)
    requires FindFirst(ts, s, e).Some?
    ensures exists i :: 0 <= i < |ts| && ts[i] == FindFirst(ts, s, e).value && Matches(ts[i], s, e) &&
                        forall j :: 0 <= j < i ==> !Matches(ts[j], s, e)
  {
    if !Matches(ts[0], s, e) {
      FindFirstFound(ts[1..], s, e);
      var i :| 0 <= i < |ts[1..]| && ts[1..][i] == FindFirst(ts[1..], s, e).value && Matches(ts[1..][i], s, e) &&
               forall j :: 0 <= j < i ==> !Matches(ts[1..][j], s, e);
      assert forall j :: 0 <= j < i + 1 ==> !Matches(ts[j], s, e) by {
        forall j | 0 <= j < i + 1 ensures !Matches(ts[j], s, e) {
          if j > 0 { assert ts[j] == ts[1..][j - 1]; }
        }
      }
      assert ts[i + 1] == ts[1..][i];
    } else {
      assert ts[0] == FindFirst(ts, s, e).value;
    }
  }

  /** The state `handle_event` moves to from `s` on `e`, or the exception
      it raises when the table has no entry for the pair. */
  function Next<S(==), E(==)>(s: S, ts: seq<Transition<S, E>>, e: E): (r: Result<S, InvalidEvent<S, E>>)
    ensures r.Err? <==> forall i :: 0 <= i < |ts| ==> !Matches(ts[i], s, e)
    ensures r.Err? ==> r.error == InvalidEvent(e, s)
    ensures r.Ok? ==> exists i :: 0 <= i < |ts| && Matches(ts[i], s, e) && r.value == ts[i].toState &&
                                  forall j :: 0 <= j < i ==> !Matches(ts[j], s, e)
  {
    FindFirstNone(ts, s, e);
    match FindFirst(ts, s, e)
    case None => Err(InvalidEvent(e, s))
    case Some(t) =>
      FindFirstFound(ts, s, e);
      Ok(t.toState)
  }

  /** The states entered while handling `events` one after another from `s`,
      or the exception raised by the first event the table rejects. */
  function Visit<S(==), E(==)>(s: S, ts: seq<Transition<S, E>>, events: seq<E>): (r: Result<seq<S>, InvalidEvent<S, E>>)
    ensures r.Ok? ==> |r.value| == |events|
    ensures r.Ok? && events != [] ==> Next(s, ts, events[0]) == Ok(r.value[0])
    decreases |events|
  {
    if events == [] then Ok([])
    else
      match Next(s, ts, events[0])
      case Err(x) => Err(x)
      case Ok(t) =>
        match Visit(t, ts, events[1..])
        case Err(x) => Err(x)
        case Ok(rest) => Ok([t] + rest)
  }

  /** A sequence of events whose every step is accepted walks along `path`:
      the run raises nothing and enters exactly the states after `path[0]`. */
  lemma {:induction false} VisitFollows<S, E>(ts: seq<Transition<S, E>>, events: seq<E>, path: seq<S>)
    requires |path| == |events| + 1
    requires forall k :: 0 <= k < |events| ==> Next(path[k], ts, events[k]) == Ok(path[k + 1])
    ensures Visit(path[0], ts, events) == Ok(path[1..])
    decreases |events|
  {
    if events != [] {
      forall k | 0 <= k < |events| - 1
        ensures Next(path[1..][k], ts, events[1..][k]) == Ok(path[1..][k + 1])
      {
        assert events[1..][k] == events[k + 1];
      }
      VisitFollows(ts, events[1..], path[1..]);
      assert Visit(path[1], ts, events[1..]) == Ok(path[2..]) by {
        assert path[1..][0] == path[1] && path[1..][1..] == path[2..];
      }
      assert Next(path[0], ts, events[0]) == Ok(path[1]);
      assert Visit(path[0], ts, events) == Ok([path[1]] + path[2..]);
      assert path[1..] == [path[1]] + path[2..];
    } else {
      assert path[1..] == [];
    }
  }

  class StateMachine<S(==), E(==)> {
    var state: S
    var transitions: seq<Transition<S, E>>

    /** `__init__`: does what `setup()` does, with the definition's initial
        state and table. */
    constructor (definition: Definition<S, E>)
      ensures state == definition.initState && transitions == definition.transitions
    {
      state := definition.initState;
      transitions := definition.transitions;
    }

    /** `setup()`: current state and table come from the definition. */
    method Setup(definition: Definition<S, E>)
      modifies this
      ensures state == definition.initState && transitions == definition.transitions
    {
      state := definition.initState;
      transitions := definition.transitions;
    }

    /** Linear search for the first entry leaving `from` on `event`; raises
        (here: returns Err) when there is none. */
    method FindTransition(from: S, event: E) returns (r: Result<Transition<S, E>, InvalidEvent<S, E>>)
      ensures r.Ok? <==> FindFirst(transitions, from, event).Some?
      ensures r.Ok? ==> FindFirst(transitions, from, event) == Some(r.value)
      ensures r.Err? ==> r.error == InvalidEvent(event, state) &&
                         forall i :: 0 <= i < |transitions| ==> !Matches(transitions[i], from, event)
    {
      for i := 0 to |transitions|
        invariant forall j :: 0 <= j < i ==> !Matches(transitions[j], from, event)
      {
        if transitions[i].fromState == from && transitions[i].triggerEvent == event {
          FindFirstEarliest(transitions, from, event, i);
          return Ok(transitions[i]);
        }
      }
      FindFirstNone(transitions, from, event);
      return Err(InvalidEvent(event, state));
    }

    /** `handle_event(event)`: look the transition up (raising if there is
        none, before anything changes), move to its target state, then run
        its action if it has one. The result carries what the action
        returned, which the source discards. */
    method HandleEvent(event: E) returns (r: Result<Option<string>, InvalidEvent<S, E>>)
      modifies this`state
      ensures r.Err? <==> FindFirst(transitions, old(state), event).None?
      ensures r.Err? ==> r.error == InvalidEvent(event, old(state)) && state == old(state)
      ensures r.Ok? ==>
        var t := FindFirst(transitions, old(state), event).value;
        state == t.toState &&
        r.value == (if t.action.Some? then Some(Invoke(t.action.value)) else None)
      ensures Next(old(state), transitions, event) == if r.Ok? then Ok(state) else Err(r.error)
    {
      var found := FindTransition(state, event);
      if found.Err? {
        return Err(found.error);
      }
      var t := found.value;
      state := t.toState;
      r := Ok(None);
      if t.action.Some? {
        var description := Invoke(t.action.value);
        r := Ok(Some(description));
      }
    }
  }
}
