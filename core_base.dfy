/** The current engine's dispatch algorithm (src/core/base.py): a machine
    holds its current State and an ordered transition table; handling an
    event runs the state's on-event hooks, looks up the first transition
    for (current state, event) and, when there is one, runs exit, trigger
    and enter hooks around the state change. */
module CoreBase {
  import opened Actions
  import opened CoreState
  import opened CoreTransition

  /** What a machine definition supplies through its two factories:
      `get_init_state()` and `get_transitions()`. */
  datatype Definition<E(==)> = Definition(initState: State<E>, transitions: seq<Transition<E>>)

  /** The lookup test of `find_transition`: same source state (structural
      equality) and same trigger event. */
  predicate Matches<E(==)>(t: Transition<E>, s: State<E>, e: E)
  {
    t.fromState == s && t.triggerEvent == e
  }

  /** First entry of `ts`, in declaration order, that matches (s, e). */
  function FindFirst<E(==)>(ts: seq<Transition<E>>, s: State<E>, e: E): Option<Transition<E>>
  {
    if ts == [] then None
    else if Matches(ts[0], s, e) then Some(ts[0])
    else FindFirst(ts[1..], s, e)
  }

  /** A found transition is an entry of the table that matches, and no
      earlier entry matches. */
  lemma {:induction false} FindFirstFound<E>(ts: seq<Transition<E>>, s: State<E>, e: E)
    requires FindFirst(ts, s, e).Some?
    ensures exists i :: 0 <= i < |ts| && ts[i] == FindFirst(ts, s, e).value && Matches(ts[i], s, e) &&
                        forall j :: 0 <= j < i ==> !Matches(ts[j], s, e)
  {
    if !Matches(ts[0], s, e) {
      FindFirstFound(ts[1..], s, e);
      var i :| 0 <= i < |ts[1..]| && ts[1..][i] == FindFirst(ts[1..], s, e).value && Matches(ts[1..][i], s, e) &&
               forall j :: 0 <= j < i ==> !Matches(ts[1..][j], s, e);
      assert forall j :: 0 <= j < i + 1 ==> !Matches(ts[j], s, e) by {
        forall j | 0 <= j < i + 1 ensures !Matches(ts[j], s, e) {
          if j > 0 { assert ts[j] == ts[1..][j - 1]; }
        }
      }
      assert ts[i + 1] == ts[1..][i];
    } else {
      assert ts[0] == FindFirst(ts, s, e).value;
    }
  }

  /** Nothing is found exactly when no entry of the table matches. */
  lemma {:induction false} FindFirstNone<E>(ts: seq<Transition<E>>, s: State<E>, e: E)
    ensures FindFirst(ts, s, e).None? <==> forall i :: 0 <= i < |ts| ==> !Matches(ts[i], s, e)
  {
    if ts != [] {
      FindFirstNone(ts[1..], s, e);
      assert forall i :: 1 <= i < |ts| ==> ts[i] == ts[1..][i - 1];
    }
  }

  /** First match wins: when entry i matches and no earlier one does, entry i
      is what is found, whatever later entries the table holds. */
  lemma {:induction false} FindFirstEarliest<E>(ts: seq<Transition<E>>, s: State<E>, e: E, i: nat)
    requires i < |ts| && Matches(ts[i], s, e)
    requires forall j :: 0 <= j < i ==> !Matches(ts[j], s, e)
    ensures FindFirst(ts, s, e) == Some(ts[i])
  {
    if i > 0 {
      assert !Matches(ts[0], s, e);
      assert forall j :: 0 <= j < i - 1 ==> ts[1..][j] == ts[j + 1];
      FindFirstEarliest(ts[1..], s, e, i - 1);
    }
  }

  /** The outcome of handling one event: the effect list, the matched
      transition if any, and the state the machine is in afterwards. */
  datatype Outcome<E(==)> = Outcome(results: seq<string>, matched: Option<Transition<E>>, next: State<E>)

  /** `handle_event` as a function of the current state, the table and the event. */
  function Dispatch<E(==)>(s: State<E>, ts: seq<Transition<E>>, e: E): Outcome<E>
  {
    match FindFirst(ts, s, e)
    case None => Outcome(s.EventResults(e), None, s)
    case Some(t) =>
      Outcome(s.EventResults(e) + s.ExitResults() + t.TriggerResults() + t.toState.EnterResults(), Some(t), t.toState)
  }

  /** What one event does: no transition exactly when no entry matches, and
      then the state stays and only the on-event effects are reported; with a
      transition, it comes from the table and leaves the current state on
      the event, the machine moves to its target, and the effects are the
      on-event, exit, trigger and enter results in this order. */
  lemma DispatchMeaning<E>(s: State<E>, ts: seq<Transition<E>>, e: E)
    ensures var o := Dispatch(s, ts, e);
      (o.matched.None? <==> forall i :: 0 <= i < |ts| ==> !Matches(ts[i], s, e)) &&
      (o.matched.None? ==> o.next == s && o.results == s.EventResults(e)) &&
      (o.matched.Some? ==>
        o.matched.value in ts && Matches(o.matched.value, s, e) &&
        o.next == o.matched.value.toState &&
        o.results == s.EventResults(e) + s.ExitResults() + o.matched.value.TriggerResults() + o.next.EnterResults())
  {
    FindFirstNone(ts, s, e);
    if FindFirst(ts, s, e).Some? {
      FindFirstFound(ts, s, e);
    }
  }

  /** The outcomes of handling `events` one after another from state `s`. */
  function Run<E(==)>(s: State<E>, ts: seq<Transition<E>>, events: seq<E>): (outs: seq<Outcome<E>>)
    ensures |outs| == |events|
    decreases |events|
  {
    if events == [] then []
    else
      var o := Dispatch(s, ts, events[0]);
      [o] + Run(o.next, ts, events[1..])
  }

  /** The state reached after the outcomes `outs`, starting from `s`. */
  function Final<E(==)>(s: State<E>, outs: seq<Outcome<E>>): State<E>
  {
    if outs == [] then s else outs[|outs| - 1].next
  }

  /** A run from `path[0]` whose every step lands on the next state of
      `path` produces, at each step, exactly the outcome of handling that
      event in that state, and it ends at the last state of `path`. */
  lemma {:induction false} RunFollows<E>(ts: seq<Transition<E>>, events: seq<E>, path: seq<State<E>>)
    requires |path| == |events| + 1
    requires forall k :: 0 <= k < |events| ==> Dispatch(path[k], ts, events[k]).next == path[k + 1]
    ensures forall k :: 0 <= k < |events| ==> Run(path[0], ts, events)[k] == Dispatch(path[k], ts, events[k])
    ensures Final(path[0], Run(path[0], ts, events)) == path[|events|]
    decreases |events|
  {
    if events != [] {
      forall k | 0 <= k < |events| - 1
        ensures Dispatch(path[1..][k], ts, events[1..][k]).next == path[1..][k + 1]
      {
        assert events[1..][k] == events[k + 1];
      }
      RunFollows(ts, events[1..], path[1..]);
      var rest := Run(path[1], ts, events[1..]);
      assert Run(path[0], ts, events) == [Dispatch(path[0], ts, events[0])] + rest;
      forall k | 1 <= k < |events|
        ensures Run(path[0], ts, events)[k] == Dispatch(path[k], ts, events[k])
      {
        assert rest[k - 1] == Dispatch(path[1..][k - 1], ts, events[1..][k - 1]);
      }
    }
  }

  /** Handling an event that no entry matches changes nothing but reports
      the on-event effects; doing it again gives the same answer. */
  lemma NoMatchIsStationary<E>(s: State<E>, ts: seq<Transition<E>>, e: E)
    requires forall i :: 0 <= i < |ts| ==> !Matches(ts[i], s, e)
    ensures Dispatch(s, ts, e) == Outcome(s.EventResults(e), None, s)
    ensures Dispatch(Dispatch(s, ts, e).next, ts, e) == Dispatch(s, ts, e)
  {
    FindFirstNone(ts, s, e);
  }

  /** When entry i is the first to match, handling the event takes exactly
      that entry: on-event, exit, trigger and enter effects in this order,
      and the machine ends in the entry's target state. */
  lemma {:induction false} DispatchTakes<E>(s: State<E>, ts: seq<Transition<E>>, e: E, i: nat)
    requires i < |ts| && Matches(ts[i], s, e)
    requires forall j :: 0 <= j < i ==> !Matches(ts[j], s, e)
    ensures Dispatch(s, ts, e) == Outcome(
      s.EventResults(e) + s.ExitResults() + ts[i].TriggerResults() + ts[i].toState.EnterResults(),
      Some(ts[i]), ts[i].toState)
  {
    FindFirstEarliest(ts, s, e, i);
  }

  /** Once entry i matches (s, e), every later entry j is dead for that
      pair: a transition is taken, and it is never entry j unless an equal
      entry comes before j. */
  lemma {:induction false} EarlierDuplicateWins<E>(ts: seq<Transition<E>>, s: State<E>, e: E, i: nat, j: nat)
    requires i < j < |ts| && Matches(ts[i], s, e)
    ensures Dispatch(s, ts, e).matched.Some?
    ensures ts[j] !in ts[..j] ==> Dispatch(s, ts, e).matched != Some(ts[j])
  {
    FindFirstNone(ts, s, e);
    FindFirstFound(ts, s, e);
    var k :| 0 <= k < |ts| && ts[k] == FindFirst(ts, s, e).value && Matches(ts[k], s, e) &&
             forall m :: 0 <= m < k ==> !Matches(ts[m], s, e);
    assert k <= i;
    assert ts[k] == ts[..j][k];
  }

  class StateMachine<E(==)> {
    var state: State<E>
    var transitions: seq<Transition<E>>

    /** `__init__`: does what `setup()` does, with the definition's initial
        state and table. */
    constructor (definition: Definition<E>)
      ensures state == definition.initState && transitions == definition.transitions
    {
      state := definition.initState;
      transitions := definition.transitions;
    }

    /** `setup()`: the current state becomes the initial state and the table
        becomes the definition's transitions. */
    method Setup(definition: Definition<E>)
      modifies this
      ensures state == definition.initState && transitions == definition.transitions
    {
      state := definition.initState;
      transitions := definition.transitions;
    }

    /** Linear search of the table, in declaration order, for the first entry
        leaving `from` on `event`. */
    method FindTransition(from: State<E>, event: E) returns (found: Option<Transition<E>>)
      ensures found == FindFirst(transitions, from, event)
      ensures found.None? <==> forall i :: 0 <= i < |transitions| ==> !Matches(transitions[i], from, event)
      ensures found.Some? ==> exists i :: 0 <= i < |transitions| && transitions[i] == found.value &&
                                          Matches(transitions[i], from, event) &&
                                          forall j :: 0 <= j < i ==> !Matches(transitions[j], from, event)
    {
      for i := 0 to |transitions|
        invariant forall j :: 0 <= j < i ==> !Matches(transitions[j], from, event)
      {
        if transitions[i].fromState == from && transitions[i].triggerEvent == event {
          FindFirstEarliest(transitions, from, event, i);
          return Some(transitions[i]);
        }
      }
      FindFirstNone(transitions, from, event);
      return None;
    }

    /** `transition(t)`: exit hooks of the current state, then the
        transition's own actions, then the state change, then the enter hooks
        of the new state. */
    method Fire(t: Transition<E>) returns (results: seq<string>)
      modifies this`state
      ensures state == t.toState
      ensures results == old(state).ExitResults() + t.TriggerResults() + t.toState.EnterResults()
    {
      var exits := state.OnExit();
      var triggers := t.OnTrigger();
      results := exits + triggers;
      state := t.toState;
      var enters := state.OnEnter();
      results := results + enters;
    }

    /** `handle_event(event)`: the on-event hooks always run; a matching
        transition, if any, is then fired. Only `state` is written. */
    method HandleEvent(event: E) returns (results: seq<string>, matched: Option<Transition<E>>)
      modifies this`state
      ensures matched == FindFirst(transitions, old(state), event)
      ensures matched.None? ==> state == old(state) && results == old(state).EventResults(event)
      ensures matched.Some? ==>
        matched.value.fromState == old(state) && matched.value.triggerEvent == event &&
        state == matched.value.toState &&
        results == old(state).EventResults(event) + old(state).ExitResults() +
                   matched.value.TriggerResults() + state.EnterResults()
      ensures Dispatch(old(state), transitions, event) == Outcome(results, matched, state)
    {
      results := state.OnEvent(event);
      matched := FindTransition(state, event);
      if matched.Some? {
        FindFirstFound(transitions, old(state), event);
        var more := Fire(matched.value);
        results := results + more;
      }
    }
  }
}
