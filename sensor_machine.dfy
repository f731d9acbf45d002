/** The pressure-sensor machine of the current engine
    (src/pressure_sensor_sm.py): four States with their hooks and a
    six-entry transition table, plus the scenarios its table supports. */
module SensorMachine {
  import opened Actions
  import opened CoreState
  import opened CoreTransition
  import opened CoreBase

  datatype SensorEvent = ConnectOk | StartMeasure | Streaming | StopMeasure | Error | Reset

  // The transition actions: methods of the machine returning constant descriptions.
  const SensorReady := Action("Ready.")
  const StartMeasuring := Action("Measuring...")
  const HandleError := Action("Handling Error!")
  const Cleanup := Action("Cleaning Up...")

  const DisconnectedState: State<SensorEvent> := State(
    "disconnected", Some("Sensor is disconnected."), map[],
    [Action("Sensor disconnected.")], [Action("Leaving disconnected state.")])

  const ReadyState: State<SensorEvent> := State(
    "ready", Some("Sensor is ready."), map[],
    [Action("Sensor is now ready.")], [Action("Sensor is no longer ready.")])

  const MeasuringState: State<SensorEvent> := State(
    "measuring", Some("Sensor is measuring."), map[Streaming := [Action("Processing measurement...")]],
    [Action("Starting measurement.")], [Action("Stopping measurement.")])

  const ErrorState: State<SensorEvent> := State(
    "error", Some("Sensor encountered an error."), map[],
    [Action("Entering error state.")], [Action("Exiting error state.")])

  /** `get_transitions()`. */
  const Table: seq<Transition<SensorEvent>> := [
    Transition(ConnectOk, DisconnectedState, ReadyState, [SensorReady], Some("Connected")),
    Transition(StartMeasure, ReadyState, MeasuringState, [StartMeasuring], Some("Begin measurement")),
    Transition(Error, ReadyState, ErrorState, [HandleError], Some("Sensor error")),
    Transition(StopMeasure, MeasuringState, ReadyState, [SensorReady], Some("Stop measurement")),
    Transition(Error, MeasuringState, ErrorState, [HandleError], Some("Measurement error")),
    Transition(Reset, ErrorState, DisconnectedState, [Cleanup], Some("Reset sensor"))
  ]

  /** What the machine's two factories supply: `get_init_state()` is the
      disconnected state. */
  const PressureSensor: Definition<SensorEvent> := Definition(DisconnectedState, Table)

  /** The table has six entries and no two of them share (from state, event),
      so first-match lookup never has to break a tie. */
  lemma TableIsDeterministic()
    ensures PressureSensor.initState == DisconnectedState
    ensures |Table| == 6
    ensures forall i, j :: 0 <= i < j < |Table| ==>
      !(Table[i].fromState == Table[j].fromState && Table[i].triggerEvent == Table[j].triggerEvent)
  {
  }

  /** From the disconnected state only CONNECT_OK is accepted. */
  lemma DisconnectedAcceptsOnlyConnectOk(e: SensorEvent)
    ensures Dispatch(DisconnectedState, Table, e).matched.Some? <==> e == ConnectOk
  {
    DispatchMeaning(DisconnectedState, Table, e);
  }

  /** STOP_MEASURE while disconnected is rejected: no effects (the state has
      no on-event hooks), no transition, and the state stays disconnected. */
  lemma StopMeasureWhileDisconnected()
    ensures Dispatch(DisconnectedState, Table, StopMeasure) == Outcome([], None, DisconnectedState)
  {
    NoMatchIsStationary(DisconnectedState, Table, StopMeasure);
  }

  /** STREAMING is never a trigger; while measuring it only runs the
      measuring state's on-event hook. */
  lemma StreamingWhileMeasuring()
    ensures forall i :: 0 <= i < |Table| ==> Table[i].triggerEvent != Streaming
    ensures Dispatch(MeasuringState, Table, Streaming) ==
            Outcome([OnEventPrefix + "Processing measurement..."], None, MeasuringState)
  {
    NoMatchIsStationary(MeasuringState, Table, Streaming);
    DescribedSingle(OnEventPrefix, Action("Processing measurement..."));
  }

  /** CONNECT_OK from the disconnected state: exit hook of the disconnected
      state, the transition's action, enter hook of the ready state, in that
      order; the disconnected state has no on-event hook for it. */
  lemma ConnectOkEffects()
    ensures Dispatch(DisconnectedState, Table, ConnectOk) == Outcome(
      [OnExitPrefix + "Leaving disconnected state.",
       OnTransitionPrefix + "Ready.",
       OnEnterPrefix + "Sensor is now ready."],
      Some(Table[0]), ReadyState)
  {
    DispatchTakes(DisconnectedState, Table, ConnectOk, 0);
    DescribedSingle(OnExitPrefix, Action("Leaving disconnected state."));
    DescribedSingle(OnTransitionPrefix, SensorReady);
    DescribedSingle(OnEnterPrefix, Action("Sensor is now ready."));
  }

  /** Every entry of the table is the one its own (from state, event) pair
      selects: no entry is shadowed by an earlier one. */
  lemma EveryEntryReachable(k: nat)
    requires k < |Table|
    ensures Dispatch(Table[k].fromState, Table, Table[k].triggerEvent).matched == Some(Table[k])
    ensures Dispatch(Table[k].fromState, Table, Table[k].triggerEvent).next == Table[k].toState
  {
    TableIsDeterministic();
    FindFirstEarliest(Table, Table[k].fromState, Table[k].triggerEvent, k);
  }

  /** A full lifecycle: connect, measure, stop, fail, reset. */
  const LifecycleEvents: seq<SensorEvent> := [ConnectOk, StartMeasure, StopMeasure, Error, Reset]

  /** The states the lifecycle passes through, starting and ending disconnected. */
  const LifecyclePath: seq<State<SensorEvent>> :=
    [DisconnectedState, ReadyState, MeasuringState, ReadyState, ErrorState, DisconnectedState]

  /** Each lifecycle step is taken by a table entry and lands on the next
      state of the path. */
  lemma LifecycleStep(k: nat)
    requires k < |LifecycleEvents|
    ensures Dispatch(LifecyclePath[k], Table, LifecycleEvents[k]).matched.Some?
    ensures Dispatch(LifecyclePath[k], Table, LifecycleEvents[k]).next == LifecyclePath[k + 1]
  {
    EveryEntryReachable([0, 1, 3, 2, 5][k]);
  }

  /** The lifecycle from the disconnected state takes a transition at every
      step, visits ready, measuring, ready and error, and ends where it
      started. */
  lemma Lifecycle()
    ensures var outs := Run(LifecyclePath[0], Table, LifecycleEvents);
      (forall k :: 0 <= k < |LifecycleEvents| ==> outs[k].matched.Some? && outs[k].next == LifecyclePath[k + 1]) &&
      Final(LifecyclePath[0], outs) == LifecyclePath[|LifecycleEvents|] == DisconnectedState
  {
    forall k | 0 <= k < |LifecycleEvents|
      ensures Dispatch(LifecyclePath[k], Table, LifecycleEvents[k]).next == LifecyclePath[k + 1]
    {
      LifecycleStep(k);
    }
    RunFollows(Table, LifecycleEvents, LifecyclePath);
    var outs := Run(LifecyclePath[0], Table, LifecycleEvents);
    forall k | 0 <= k < |LifecycleEvents|
      ensures outs[k].matched.Some? && outs[k].next == LifecyclePath[k + 1]
    {
      LifecycleStep(k);
      assert outs[k] == Dispatch(LifecyclePath[k], Table, LifecycleEvents[k]);
    }
  }

  /** RESET is accepted in the error state and in no other state. */
  lemma ResetOnlyFromError(s: State<SensorEvent>)
    ensures Dispatch(s, Table, Reset).matched.Some? <==> s == ErrorState
  {
    if s == ErrorState {
      DispatchTakes(s, Table, Reset, 5);
    } else {
      assert forall i :: 0 <= i < |Table| ==> !Matches(Table[i], s, Reset) by {
        forall i | 0 <= i < |Table| ensures !Matches(Table[i], s, Reset) {
          if i == 5 { assert Table[i].fromState == ErrorState; }
        }
      }
      FindFirstNone(Table, s, Reset);
    }
  }

  /** The error state is entered only by ERROR, from the ready or the
      measuring state. */
  lemma ErrorEnteredOnlyByError(s: State<SensorEvent>, e: SensorEvent)
    requires Dispatch(s, Table, e).matched.Some? && Dispatch(s, Table, e).next == ErrorState
    ensures e == Error && (s == ReadyState || s == MeasuringState)
  {
    DispatchMeaning(s, Table, e);
    var t := Dispatch(s, Table, e).matched.value;
    assert t in Table && Matches(t, s, e) && t.toState == ErrorState;
    assert t == Table[2] || t == Table[4] by {
      assert ErrorState != ReadyState && ErrorState != MeasuringState && ErrorState != DisconnectedState;
    }
  }
}
