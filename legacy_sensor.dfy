/** The pressure-sensor machine of the legacy engine
    (pressure_sensor_sm.py): four states, five events and a six-entry table. */
module LegacySensor {
  import opened Actions
  import opened LegacyBase

  datatype SensorState = Disconnected | Ready | Measuring | Error

  datatype SensorEvent = ConnectOk | StartMeasure | StopMeasure | Error | Reset

  // The transition actions: methods of the machine returning constant descriptions.
  const SensorReady := Action("Ready.")
  const StartMeasuring := Action("Measuring...")
  const HandleError := Action("Handling Error!")
  const Cleanup := Action("Cleaning Up...")

  /** `get_transitions()`. */
  const Table: seq<Transition<SensorState, SensorEvent>> := [
    Transition(ConnectOk, Disconnected, Ready, Some(SensorReady), Some("Connected")),
    Transition(StartMeasure, Ready, Measuring, Some(StartMeasuring), Some("Begin measurement")),
    Transition(SensorEvent.Error, Ready, SensorState.Error, Some(HandleError), Some("Sensor error")),
    Transition(StopMeasure, Measuring, Ready, Some(SensorReady), Some("Stop measurement")),
    Transition(SensorEvent.Error, Measuring, SensorState.Error, Some(HandleError), Some("Measurement error")),
    Transition(Reset, SensorState.Error, Disconnected, Some(Cleanup), Some("Reset sensor"))
  ]

  /** `get_init_state()` is DISCONNECTED. */
  const PressureSensor: Definition<SensorState, SensorEvent> := Definition(Disconnected, Table)

  /** Six entries, no two sharing (from state, event). */
  lemma TableIsDeterministic()
    ensures PressureSensor.initState == Disconnected
    ensures |Table| == 6
    ensures forall i, j :: 0 <= i < j < |Table| ==>
      !(Table[i].fromState == Table[j].fromState && Table[i].triggerEvent == Table[j].triggerEvent)
  {
  }

  /** Every entry is the one its own (from state, event) pair selects: no
      entry is shadowed by an earlier one. */
  lemma EveryEntryReachable(k: nat)
    requires k < |Table|
    ensures Next(Table[k].fromState, Table, Table[k].triggerEvent) == Ok(Table[k].toState)
  {
    TableIsDeterministic();
    FindFirstEarliest(Table, Table[k].fromState, Table[k].triggerEvent, k);
  }

  /** CONNECT_OK, START_MEASURE, STOP_MEASURE, ERROR, RESET from DISCONNECTED
      is accepted at every step and ends back in DISCONNECTED. */
  lemma Lifecycle()
    ensures Visit(Disconnected, Table, [ConnectOk, StartMeasure, StopMeasure, SensorEvent.Error, Reset]) ==
            Ok([Ready, Measuring, Ready, SensorState.Error, Disconnected])
  {
    var events := [ConnectOk, StartMeasure, StopMeasure, SensorEvent.Error, Reset];
    var path := [Disconnected, Ready, Measuring, Ready, SensorState.Error, Disconnected];
    var entries := [0, 1, 3, 2, 5];
    forall k | 0 <= k < 5 ensures Next(path[k], Table, events[k]) == Ok(path[k + 1]) {
      EveryEntryReachable(entries[k]);
    }
    VisitFollows(Table, events, path);
  }

  /** STOP_MEASURE while DISCONNECTED has no entry, so it raises. */
  lemma StopMeasureWhileDisconnected()
    ensures Next(Disconnected, Table, StopMeasure) == Err(InvalidEvent(StopMeasure, Disconnected))
  {
  }

  /** MEASURING is entered only by START_MEASURE from READY. */
  lemma MeasuringOnlyFromReady(s: SensorState, e: SensorEvent)
    ensures Next(s, Table, e) == Ok(Measuring) <==> s == Ready && e == StartMeasure
  {
    if s == Ready && e == StartMeasure {
      EveryEntryReachable(1);
    }
  }

  /** RESET is accepted only in ERROR. */
  lemma ResetOnlyFromError(s: SensorState)
    ensures Next(s, Table, Reset).Ok? <==> s == SensorState.Error
  {
    if s == SensorState.Error {
      EveryEntryReachable(5);
    }
  }
}
