/** A named node of the current engine with its three hook collections:
    actions run for events received while staying in the state, actions run
    on entering it and actions run on leaving it (src/core/state.py). */
module CoreState {
  import opened Actions

  const OnEventPrefix: string := "on_event       > "
  const OnEnterPrefix: string := "on_enter_state > "
  const OnExitPrefix: string := "on_exit_state  > "

  /** A State is a value: equality is structural, as for the source's dataclass. */
  datatype State<E(==)> = State(
    name: string,
    description: Option<string>,
    onEventActions: map<E, seq<Action>>,
    onEnterActions: seq<Action>,
    onExitActions: seq<Action>)
  {
    /** The actions registered for `event`; none when the event has no entry. */
    function ActionsFor(event: E): seq<Action>
    {
      if event in onEventActions then onEventActions[event] else []
    }

    /** What `on_event(event)` returns. */
    function EventResults(event: E): seq<string>
    {
      Described(OnEventPrefix, ActionsFor(event))
    }

    /** What `on_enter()` returns. */
    function EnterResults(): seq<string>
    {
      Described(OnEnterPrefix, onEnterActions)
    }

    /** What `on_exit()` returns. */
    function ExitResults(): seq<string>
    {
      Described(OnExitPrefix, onExitActions)
    }

    /** Runs the actions registered for `event`, in declaration order. */
    method OnEvent(event: E) returns (results: seq<string>)
      ensures event !in onEventActions ==> results == []
      ensures event in onEventActions ==>
        |results| == |onEventActions[event]| &&
        forall i :: 0 <= i < |results| ==> results[i] == OnEventPrefix + Invoke(onEventActions[event][i])
      ensures results == EventResults(event)
    {
      results := [];
      var actions := if event in onEventActions then onEventActions[event] else [];
      for k := 0 to |actions|
        invariant results == Described(OnEventPrefix, actions[..k])
      {
        assert actions[..k + 1] == actions[..k] + [actions[k]];
        DescribedAppend(OnEventPrefix, actions[..k], [actions[k]]);
        results := results + [OnEventPrefix + Invoke(actions[k])];
      }
      assert actions[..|actions|] == actions;
    }

    /** Runs the on-enter actions, in declaration order. */
    method OnEnter() returns (results: seq<string>)
      ensures |results| == |onEnterActions|
      ensures forall i :: 0 <= i < |results| ==> results[i] == OnEnterPrefix + Invoke(onEnterActions[i])
      ensures results == EnterResults()
    {
      results := [];
      for k := 0 to |onEnterActions|
        invariant results == Described(OnEnterPrefix, onEnterActions[..k])
      {
        assert onEnterActions[..k + 1] == onEnterActions[..k] + [onEnterActions[k]];
        DescribedAppend(OnEnterPrefix, onEnterActions[..k], [onEnterActions[k]]);
        results := results + [OnEnterPrefix + Invoke(onEnterActions[k])];
      }
      assert onEnterActions[..|onEnterActions|] == onEnterActions;
    }

    /** Runs the on-exit actions, in declaration order. */
    method OnExit() returns (results: seq<string>)
      ensures |results| == |onExitActions|
      ensures forall i :: 0 <= i < |results| ==> results[i] == OnExitPrefix + Invoke(onExitActions[i])
      ensures results == ExitResults()
    {
      results := [];
      for k := 0 to |onExitActions|
        invariant results == Described(OnExitPrefix, onExitActions[..k])
      {
        assert onExitActions[..k + 1] == onExitActions[..k] + [onExitActions[k]];
        DescribedAppend(OnExitPrefix, onExitActions[..k], [onExitActions[k]]);
        results := results + [OnExitPrefix + Invoke(onExitActions[k])];
      }
      assert onExitActions[..|onExitActions|] == onExitActions;
    }
  }

  /** A State built from its name alone: no description and empty hook
      collections, so none of its hooks produces anything. */
  function NamedState<E(==, !new)>(name: string): (s: State<E>)
    ensures s.name == name && s.description == None
    ensures forall e :: s.EventResults(e) == []
    ensures s.EnterResults() == [] && s.ExitResults() == []
  {
    State(name, None, map[], [], [])
  }
}
