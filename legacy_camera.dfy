/** The camera machine of the legacy engine (camera_sm.py): five states,
    six events and an eight-entry table. */
module LegacyCamera {
  import opened Actions
  import opened LegacyBase

  datatype CameraState = Disconnected | Connecting | Ready | Streaming | Error

  datatype CameraEvent = Connect | ConnectOk | StartStream | StopStream | Error | Reset

  // The transition actions: methods of the machine returning constant descriptions.
  const InitCamera := Action("Initializing...")
  const CameraReady := Action("Ready.")
  const StartStreaming := Action("Streaming...")
  const HandleError := Action("Handling Error!")
  const Cleanup := Action("Cleaning Up...")

  /** `get_transitions()`. */
  const Table: seq<Transition<CameraState, CameraEvent>> := [
    Transition(Connect, Disconnected, Connecting, Some(InitCamera), Some("Begin connection")),
    Transition(ConnectOk, Connecting, Ready, Some(CameraReady), Some("Connection established")),
    Transition(CameraEvent.Error, Connecting, CameraState.Error, Some(HandleError), Some("Connection failed")),
    Transition(StartStream, Ready, Streaming, Some(StartStreaming), Some("Start streaming")),
    Transition(CameraEvent.Error, Ready, CameraState.Error, Some(HandleError), Some("Runtime error")),
    Transition(StopStream, Streaming, Ready, Some(CameraReady), Some("Stop streaming")),
    Transition(CameraEvent.Error, Streaming, CameraState.Error, Some(HandleError), Some("Streaming error")),
    Transition(Reset, CameraState.Error, Disconnected, Some(Cleanup), Some("Reset from error"))
  ]

  /** `get_init_state()` is DISCONNECTED. */
  const Camera: Definition<CameraState, CameraEvent> := Definition(Disconnected, Table)

  /** Eight entries, no two sharing (from state, event). */
  lemma TableIsDeterministic()
    ensures Camera.initState == Disconnected
    ensures |Table| == 8
    ensures forall i, j :: 0 <= i < j < |Table| ==>
      !(Table[i].fromState == Table[j].fromState && Table[i].triggerEvent == Table[j].triggerEvent)
  {
  }

  /** From DISCONNECTED only CONNECT is accepted; any other event raises. */
  lemma DisconnectedAcceptsOnlyConnect(e: CameraEvent)
    ensures Next(Disconnected, Table, e) ==
            if e == Connect then Ok(Connecting) else Err(InvalidEvent(e, Disconnected))
  {
    if e == Connect {
      FindFirstEarliest(Table, Disconnected, Connect, 0);
    }
  }

  /** Every entry is the one its own (from state, event) pair selects: no
      entry is shadowed by an earlier one. */
  lemma EveryEntryReachable(k: nat)
    requires k < |Table|
    ensures Next(Table[k].fromState, Table, Table[k].triggerEvent) == Ok(Table[k].toState)
  {
    TableIsDeterministic();
    FindFirstEarliest(Table, Table[k].fromState, Table[k].triggerEvent, k);
  }

  /** CONNECT, CONNECT_OK, START_STREAM, ERROR, RESET from DISCONNECTED goes
      through CONNECTING, READY, STREAMING and ERROR back to DISCONNECTED,
      every event being accepted. */
  lemma Lifecycle()
    ensures Visit(Disconnected, Table, [Connect, ConnectOk, StartStream, CameraEvent.Error, Reset]) ==
            Ok([Connecting, Ready, Streaming, CameraState.Error, Disconnected])
  {
    var events := [Connect, ConnectOk, StartStream, CameraEvent.Error, Reset];
    var path := [Disconnected, Connecting, Ready, Streaming, CameraState.Error, Disconnected];
    var entries := [0, 1, 3, 6, 7];
    forall k | 0 <= k < 5 ensures Next(path[k], Table, events[k]) == Ok(path[k + 1]) {
      EveryEntryReachable(entries[k]);
    }
    VisitFollows(Table, events, path);
  }

  /** ERROR from CONNECTING, READY or STREAMING leads to the ERROR state. */
  lemma ErrorFromActiveStates(s: CameraState)
    requires s == Connecting || s == Ready || s == Streaming
    ensures Next(s, Table, CameraEvent.Error) == Ok(CameraState.Error)
  {
    var i := if s == Connecting then 2 else if s == Ready then 4 else 6;
    FindFirstEarliest(Table, s, CameraEvent.Error, i);
  }

  /** The only way out of ERROR is RESET, which leads to DISCONNECTED. */
  lemma OnlyResetLeavesError(e: CameraEvent)
    ensures Next(CameraState.Error, Table, e).Ok? <==> e == Reset
    ensures e == Reset ==> Next(CameraState.Error, Table, e) == Ok(Disconnected)
  {
    if e == Reset {
      FindFirstEarliest(Table, CameraState.Error, Reset, 7);
    }
  }

  /** STOP_STREAM while STREAMING returns to READY. */
  lemma StopStreamReturnsToReady()
    ensures Next(Streaming, Table, StopStream) == Ok(Ready)
  {
    FindFirstEarliest(Table, Streaming, StopStream, 5);
  }
}
