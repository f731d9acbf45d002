# A verified model of a small finite-state-machine engine

The repository is a finite-state-machine engine in two generations, plus concrete machines built on each.

- **Current engine** (`src/core/`). A `State` is a named node with three hook collections: actions per event received while in the state, actions on entry and actions on exit. A `Transition` is an edge `(trigger event, from state, to state, actions, description)`. `BaseStateMachine.handle_event` always runs the current state's on-event hooks. It then looks for the first table entry leaving the current state on the event. With no entry it returns the on-event results and no transition, and the state is unchanged. With an entry it appends, in order, the old state's exit results, the transition's trigger results and the new state's enter results, and it moves to the new state. Every hook result is the action's description behind a fixed marker (`"on_event       > "`, `"on_exit_state  > "`, `"on_transition  > "`, `"on_enter_state > "`).
- **Legacy engine** (`base_sm.py`). States and events are enumeration values. A transition has at most one action. `find_transition` raises when no entry matches. `handle_event` assigns the new state and then runs the action, if there is one.
- **Concrete machines**. The pressure sensor of the current engine (`src/pressure_sensor_sm.py`), and the camera and pressure sensor of the legacy engine (`camera_sm.py`, `pressure_sensor_sm.py`).

Layout, one module per source file:

| file | module | source |
|---|---|---|
| `actions.dfy` | `Actions` | `Option`, `Result`, the `Action` hook and `Described`, which says what running an action list returns |
| `core_state.dfy` | `CoreState` | `src/core/state.py` |
| `core_transition.dfy` | `CoreTransition` | `src/core/transition.py` |
| `core_base.dfy` | `CoreBase` | `src/core/base.py` |
| `sensor_machine.dfy` | `SensorMachine` | `src/pressure_sensor_sm.py` |
| `legacy_base.dfy` | `LegacyBase` | `base_sm.py` |
| `legacy_camera.dfy` | `LegacyCamera` | `camera_sm.py` |
| `legacy_sensor.dfy` | `LegacySensor` | `pressure_sensor_sm.py` |

Modelling choices:

- `State` and `Transition` are datatypes, so their equality is structural. Lookup in `find_transition` compares states with the dataclass `==` (`src/core/base.py:59`), field by field, not by object identity. Where a field holds actions, the model compares actions by their descriptions (see "Left out").
- The legacy `Transition` datatype gives `action` and `description` the default `None`, as the dataclass does (`base_sm.py:12-13`).
- Both engines are classes. The mutable field is `state`. `transitions` is assigned only by construction and `Setup`. `HandleEvent` and `Fire` may write only `this`state`, so the table cannot change.
- Each hook loop (`OnEvent`, `OnEnter`, `OnExit`, `OnTrigger`) and each table search (`FindTransition`) is a method with a loop. It is proved against a pure function: `Described`, `FindFirst`. `Dispatch` (current engine) and `Next` (legacy engine) state what one `handle_event` does. `DispatchMeaning` and the contract of `Next` say what that is. `HandleEvent` is proved equal to them. `Run` and `Visit` chain them over an event sequence for the lifecycle scenarios.
- The abstract factories `get_init_state()` and `get_transitions()` become a `Definition` value that the constructor takes.
- The legacy exception becomes `Err(InvalidEvent(event, state))`. It carries the rejected event and the machine's current state, the two values the message text reports.

## Model

| member | source | states |
|---|---|---|
| `Actions.Described` | src/core/state.py:22-26 | running an action list yields one string per action, in declaration order; the i-th is the marker followed by the i-th action's result |
| `CoreState.State.OnEvent` | src/core/state.py:15-20 | `[]` when the event has no entry; otherwise one `"on_event       > "`-marked result per registered action, in order |
| `CoreState.State.OnEnter` | src/core/state.py:22-26 | length equals the number of on-enter actions; the i-th element is `"on_enter_state > "` plus the i-th action's result |
| `CoreState.State.OnExit` | src/core/state.py:28-32 | length equals the number of on-exit actions; the i-th element is `"on_exit_state  > "` plus the i-th action's result |
| `CoreState.NamedState` | src/core/state.py:9-13 | a State built from its name alone has no description, and all three hooks return `[]` for every event |
| `CoreTransition.Transition.OnTrigger` | src/core/transition.py:15-19 | one `"on_transition  > "`-marked result per transition action, in order; endpoint-state hooks are not involved |
| `CoreTransition.PlainTransition` | src/core/transition.py:8-13 | with default actions and description, the trigger results are `[]` and there is no description |
| `CoreBase.FindFirstFound` | src/core/base.py:52-62 | a found transition is an entry of the table, matches (from state, event), and no earlier entry matches |
| `CoreBase.FindFirstNone` | src/core/base.py:57-64 | lookup finds nothing if and only if no entry matches (from state, event) |
| `CoreBase.FindFirstEarliest` | src/core/base.py:57-62 | first match wins: the earliest matching entry is the one found, whatever follows it |
| `CoreBase.DispatchMeaning` | src/core/base.py:27-50 | no match iff no entry matches; with none, the results are the on-event results and the state stays; with a match, the transition comes from the table, leaves the current state, the machine moves to its target, and the results are on-event, then exit, then trigger, then enter |
| `CoreBase.DispatchTakes` | src/core/base.py:32-48 | when entry i is the first match, handling the event returns exactly entry i, on-event ++ exit ++ trigger ++ enter results, and ends in entry i's target |
| `CoreBase.EarlierDuplicateWins` | src/core/base.py:57-62 | once entry i matches (state, event), handling the event always takes a transition, and never a later entry j unless an equal entry precedes j |
| `CoreBase.NoMatchIsStationary` | src/core/base.py:32-36 | an event with no entry returns the on-event results and no transition, leaves the state unchanged, and repeating it gives the same outcome |
| `CoreBase.RunFollows` | src/core/base.py:27-36 | when each event of a sequence moves the machine to the next state of a given path, the run produces at every step exactly the single-event outcome for that state, and it ends at the last state of the path |
| `CoreBase.StateMachine.constructor` | src/core/base.py:11-17 | construction sets the current state to the initial state and the table to the definition's transitions |
| `CoreBase.StateMachine.Setup` | src/core/base.py:15-17 | `state` becomes the initial state and `transitions` the definition's table |
| `CoreBase.StateMachine.FindTransition` | src/core/base.py:52-64 | linear search returns the first entry matching (from state, event), `None` iff none matches |
| `CoreBase.StateMachine.Fire` | src/core/base.py:38-50 | results are the old state's exit results, then the trigger results, then the target's enter results; the state becomes the target; only `state` is written |
| `CoreBase.StateMachine.HandleEvent` | src/core/base.py:27-36 | the matched transition is the first match for (old state, event); with none, the state is unchanged and the results are the on-event results; with one, it leaves the old state, the state becomes its target and the results are on-event ++ exit ++ trigger ++ enter; the table is unchanged; the outcome equals `Dispatch` |
| `SensorMachine.TableIsDeterministic` | src/pressure_sensor_sm.py:55-102 | the initial state is the disconnected state; the table has 6 entries and no two share (from state, event) |
| `SensorMachine.DisconnectedAcceptsOnlyConnectOk` | src/pressure_sensor_sm.py:59-102 | from the disconnected state an event is matched iff it is CONNECT_OK |
| `SensorMachine.StopMeasureWhileDisconnected` | src/pressure_sensor_sm.py:26-31 | STOP_MEASURE while disconnected returns `([], None)` and the state stays disconnected |
| `SensorMachine.StreamingWhileMeasuring` | src/pressure_sensor_sm.py:38-46 | STREAMING is never a trigger; while measuring it returns only `"on_event       > Processing measurement..."`, with no transition, and the state stays measuring |
| `SensorMachine.ConnectOkEffects` | src/pressure_sensor_sm.py:26-66 | CONNECT_OK while disconnected returns exactly the exit text "Leaving disconnected state.", the trigger text "Ready." and the enter text "Sensor is now ready.", each behind its marker; it returns the first entry and moves to ready |
| `SensorMachine.EveryEntryReachable` | src/pressure_sensor_sm.py:59-102 | every entry is the one selected by its own (from state, event): no entry is shadowed |
| `SensorMachine.LifecycleStep` | src/pressure_sensor_sm.py:59-102 | each step of the lifecycle CONNECT_OK, START_MEASURE, STOP_MEASURE, ERROR, RESET is taken by a table entry and lands on the next state of disconnected, ready, measuring, ready, error, disconnected |
| `SensorMachine.Lifecycle` | src/pressure_sensor_sm.py:59-102 | CONNECT_OK, START_MEASURE, STOP_MEASURE, ERROR, RESET from disconnected matches a transition at every step, visits ready, measuring, ready, error and ends disconnected |
| `SensorMachine.ResetOnlyFromError` | src/pressure_sensor_sm.py:95-101 | RESET is matched from a state iff that state is the error state |
| `SensorMachine.ErrorEnteredOnlyByError` | src/pressure_sensor_sm.py:74-94 | a step that enters the error state is an ERROR event from ready or measuring |
| `LegacyBase.FindFirstNone` | base_sm.py:52-62 | lookup finds nothing if and only if no entry matches (from state, event) |
| `LegacyBase.FindFirstEarliest` | base_sm.py:52-57 | the earliest matching entry, in list order, is the one found |
| `LegacyBase.FindFirstFound` | base_sm.py:52-57 | a found entry matches and no earlier entry does |
| `LegacyBase.Next` | base_sm.py:36-45 | an event raises iff no entry matches, and the error names the event and the state; otherwise the new state is the target of the first matching entry |
| `LegacyBase.Visit` | base_sm.py:36-45 | a successful run enters one state per event, the first being the first step's target |
| `LegacyBase.VisitFollows` | base_sm.py:36-45 | events whose steps are each accepted along a path run without raising and enter exactly the path's states |
| `LegacyBase.StateMachine.constructor` | base_sm.py:20-22 | construction sets the current state and the table from the definition |
| `LegacyBase.StateMachine.Setup` | base_sm.py:24-26 | `state` becomes the initial state and `transitions` the definition's table |
| `LegacyBase.StateMachine.FindTransition` | base_sm.py:47-62 | returns the first entry matching (from state, event), or raises `InvalidEvent(event, current state)` exactly when none matches |
| `LegacyBase.StateMachine.HandleEvent` | base_sm.py:36-45 | with no match it raises, naming the event and the old state, and the state is unchanged; with a match the state becomes the entry's target and the entry's action runs iff present; the outcome equals `Next` |
| `LegacyCamera.TableIsDeterministic` | camera_sm.py:27-88 | the initial state is DISCONNECTED; the table has 8 entries with pairwise-distinct (from state, event) |
| `LegacyCamera.EveryEntryReachable` | camera_sm.py:30-88 | every entry is the one selected by its own (from state, event) |
| `LegacyCamera.DisconnectedAcceptsOnlyConnect` | camera_sm.py:32-38 | from DISCONNECTED, CONNECT leads to CONNECTING and every other event raises |
| `LegacyCamera.Lifecycle` | camera_sm.py:30-88 | CONNECT, CONNECT_OK, START_STREAM, ERROR, RESET visits CONNECTING, READY, STREAMING, ERROR, DISCONNECTED without raising |
| `LegacyCamera.ErrorFromActiveStates` | camera_sm.py:46-80 | ERROR from CONNECTING, READY or STREAMING leads to ERROR |
| `LegacyCamera.OnlyResetLeavesError` | camera_sm.py:81-87 | from ERROR an event is accepted iff it is RESET, which leads to DISCONNECTED |
| `LegacyCamera.StopStreamReturnsToReady` | camera_sm.py:67-73 | STOP_STREAM from STREAMING leads to READY |
| `LegacySensor.TableIsDeterministic` | pressure_sensor_sm.py:25-71 | the initial state is DISCONNECTED; the table has 6 entries with pairwise-distinct (from state, event) |
| `LegacySensor.EveryEntryReachable` | pressure_sensor_sm.py:28-71 | every entry is the one selected by its own (from state, event) |
| `LegacySensor.Lifecycle` | pressure_sensor_sm.py:28-71 | CONNECT_OK, START_MEASURE, STOP_MEASURE, ERROR, RESET from DISCONNECTED is accepted at every step and ends in DISCONNECTED |
| `LegacySensor.StopMeasureWhileDisconnected` | pressure_sensor_sm.py:28-72 | STOP_MEASURE in DISCONNECTED has no entry, so it raises |
| `LegacySensor.MeasuringOnlyFromReady` | pressure_sensor_sm.py:37-43 | a step leads to MEASURING iff it is START_MEASURE from READY |
| `LegacySensor.ResetOnlyFromError` | pressure_sensor_sm.py:65-70 | RESET is accepted iff the state is ERROR |

## Left out

- Actions are values carrying their description string. Every action the machines declare returns a constant, so running one is reading that string. Side effects an action might have are not modelled. `src/core/types.py`, where `Action` is declared, is not part of this model.
- Action identity. In the source, hooks are callables: lambdas compare by identity and bound methods by their object and function. The model compares actions by their description strings. So two separately built States with the same fields and look-alike hooks are unequal in the source but equal in the model, and `Matches` and `FindFirst` would accept such a pair where `find_transition` rejects it. None of the modelled machines builds such a pair: each builds its states once and reuses the same objects in its table.
- The machine's `name` (`self.__class__.__name__`) is diagnostic only. It is not modelled.
- The legacy `handle_event` prints a line and the legacy exception carries a formatted message. Both are console output. The model keeps only the error outcome and the values the message names.
- LegacyBase.StateMachine.HandleEvent: the model does not state that the action runs *after* the state is assigned. Actions are modelled as values that cannot observe the machine, so the order cannot be observed. The method body keeps the source's order.
- LegacyBase.StateMachine.HandleEvent returns what the action returned. The source discards it. It is returned only so that "the action runs if and only if it is present" can be stated.
- Using a machine before setup cannot happen in the model: the constructor takes the definition, so `state` is always set.
- The abstract-base-class machinery (`ABC`, `@abstractmethod`) is replaced by the `Definition` value passed to the constructor.
- `src/main.py` and `main.py` are scripted drivers that print. `utils.py` formats results for the console. None of them is modelled. `main.py` calls `change_state`, which neither engine defines.
- `pressure_sensore_sm.py` is a stale variant with a dictionary adjacency map that no engine consumes. It is not modelled.
- The camera machine of the current engine (`src/camera_sm.py`, used by `src/main.py`) is not part of this model.
