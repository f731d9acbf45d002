/** An edge of the current engine: the event that triggers it, its endpoint
    states, the actions run while taking it and an optional description
    (src/core/transition.py). */
module CoreTransition {
  import opened Actions
  import opened CoreState

  const OnTransitionPrefix: string := "on_transition  > "

  datatype Transition<E(==)> = Transition(
    triggerEvent: E,
    fromState: State<E>,
    toState: State<E>,
    actions: seq<Action>,
    description: Option<string>)
  {
    /** What `on_trigger()` returns. */
    function TriggerResults(): seq<string>
    {
      Described(OnTransitionPrefix, actions)
    }

    /** Runs the transition's own actions, in declaration order; the hooks
        of the endpoint states are not involved. */
    method OnTrigger() returns (results: seq<string>)
      ensures |results| == |actions|
      ensures forall i :: 0 <= i < |results| ==> results[i] == OnTransitionPrefix + Invoke(actions[i])
      ensures results == TriggerResults()
    {
      results := [];
      for k := 0 to |actions|
        invariant results == Described(OnTransitionPrefix, actions[..k])
      {
        assert actions[..k + 1] == actions[..k] + [actions[k]];
        DescribedAppend(OnTransitionPrefix, actions[..k], [actions[k]]);
        results := results + [OnTransitionPrefix + Invoke(actions[k])];
      }
      assert actions[..|actions|] == actions;
    }
  }

  /** A Transition built with the default (empty) action list and no
      description: taking it produces no trigger results. */
  function PlainTransition<E(==)>(event: E, from: State<E>, to: State<E>): (t: Transition<E>)
    ensures t.triggerEvent == event && t.fromState == from && t.toState == to
    ensures t.description == None
    ensures t.TriggerResults() == []
  {
    Transition(event, from, to, [], None)
  }
}
