# FreeSWITCH ESL call logger — verified model of the event processor

The call logger listens to a FreeSWITCH switch over the Event Socket
Library (ESL). It keeps a tracker of active calls, keyed by
`Channel-Unique-ID`. It writes one log line per call transition:

- `CHANNEL_CREATE` with a destination starts tracking a call
  (`start_time`, `from`, `to`).
- `CHANNEL_ANSWER` stamps `answer_time` on a tracked call.
- `CHANNEL_HANGUP_COMPLETE` logs the end of a tracked call and drops it.

The event loop skips empty reads and events without an ID. It ends at the
first connection-class error (`eslNotConnectedError`, `BrokenPipeError`,
`AttributeError`). It logs any other error and carries on.

The model has four modules:

- `Events` (events.dfy): the values. A header is `Option<string>`, and
  Python's truthiness of a header is `Present` (present and non-empty).
  A received outcome is `Empty | Ev(event, now) | Fatal(kind) | Unexpected(reason)`.
  A call record, the log entries and the exact texts of the log messages
  are here too.
- `Transitions` (transitions.dfy): the specification, as functions on a
  snapshot `Tracker(calls, log)`. `Handle` dispatches one event.
  `Consume` handles one receive outcome and says whether the loop stops.
  `Run` is the loop over a finite sequence of outcomes.
- `Properties` (properties.dfy): lemmas about those functions. They cover
  the effect of each event kind, isolation between calls, the lifecycle
  of a call, which calls are tracked after a run, and where the loop stops.
- `Processor` (processor.dfy): the class `CallLogger`. It has the mutable
  `activeCalls` map and `log` sequence. `Step` updates them in place for one
  outcome. `ProcessEvents` is the loop, with a `break` on a lost connection.
  Both are proved equal to `Consume` and `Run`, and both keep the invariant
  `Valid()`: every tracked call has a non-empty ID and a non-empty destination.

Three behaviours of the code are worth stating plainly:

- A second `CHANNEL_CREATE` for a tracked ID overwrites its record
  (esl_call_logger.py:64).
- `answer_time >= start_time` is not promised, because both come from a
  wall clock that can go backwards.
- A missing ID means absent or empty, because the code tests
  `if not unique_id` (esl_call_logger.py:53).

In the `Call Initiated` line an absent caller is written as `None`. This
is how the f-string renders Python's `None`.

## Model

| member | source | states |
|---|---|---|
| Transitions.Handle | esl_call_logger.py:50-83 | one event changes at most the record of its own ID; only an opening CREATE adds a key and only a closing HANGUP_COMPLETE removes one; the log grows by at most one line; tracked calls keep non-empty IDs and destinations |
| Transitions.Consume | esl_call_logger.py:44-89 | the loop stops exactly on a connection-class error, which logs the lost-connection line; an empty read changes nothing; an unexpected error logs its message and leaves the tracker unchanged; an event is dispatched |
| Transitions.Run | esl_call_logger.py:43-89 | the loop consumes outcomes in order; if it ended on a lost connection, the last consumed outcome is the first connection-class error; otherwise it consumed all outcomes and none was fatal; the log only grows |
| Properties.IgnoredReads | esl_call_logger.py:46-54 | an empty read, or an event whose Channel-Unique-ID is absent or empty, leaves tracker and log unchanged |
| Properties.CreateEffect | esl_call_logger.py:58-69 | CREATE with a destination maps the ID to (clock, caller, destination, no answer time), overwriting any earlier record, and appends exactly one "Call Initiated" line |
| Properties.CreateWithoutDestinationIgnored | esl_call_logger.py:58-63 | CREATE with an absent or empty destination changes neither tracker nor log, whatever the other headers |
| Properties.AnswerEffect | esl_call_logger.py:71-75 | ANSWER on a tracked ID sets only its answer time, keeps from/to/start time and appends "Call Answered"; on an untracked ID it changes nothing |
| Properties.HangupEffect | esl_call_logger.py:77-83 | HANGUP_COMPLETE on a tracked ID removes that key and appends "Call Ended"; on an untracked ID it changes nothing |
| Properties.OtherNamesIgnored | esl_call_logger.py:58-83 | any other event name leaves tracker and log unchanged |
| Properties.UnexpectedErrorContinues | esl_call_logger.py:88-89 | an unexpected error logs one error line, leaves the tracker unchanged, and the loop goes on with the next outcome |
| Properties.Lifecycle | esl_call_logger.py:58-83 | from no record for X, CREATE(X), ANSWER(X), HANGUP_COMPLETE(X) leave the tracker as it was (no entry for X) and append exactly the initiated, answered and ended lines in that order |
| Properties.Isolation | esl_call_logger.py:43-89 | outcomes that never carry ID k leave k's record, or its absence, unchanged over a whole run |
| Properties.NeverOpenedStaysAbsent | esl_call_logger.py:63-83 | an ID that no CREATE-with-destination opens never enters the tracker, whatever answers or hangups arrive for it |
| Properties.RunSnoc | esl_call_logger.py:43-89 | without a lost connection, running one more outcome is one more loop iteration on the state reached so far |
| Properties.Presence | esl_call_logger.py:58-83 | after a run without a lost connection, an ID is tracked if and only if some CREATE-with-destination for it came with no HANGUP_COMPLETE for it afterwards, or it was tracked before and no HANGUP_COMPLETE for it came |
| Properties.StopsAtFirstFatal | esl_call_logger.py:85-87 | with the first connection-class error at position k, the run applies the outcomes before k, logs the lost-connection line and consumes exactly k+1 outcomes |
| Properties.LaterOutcomesIgnored | esl_call_logger.py:85-87 | once the loop has ended on a lost connection, appending further outcomes changes nothing |
| Processor.CallLogger.constructor | esl_call_logger.py:31 | the tracker starts empty, with an empty log |
| Processor.CallLogger.Step | esl_call_logger.py:44-89 | updating the map and the log in place gives exactly the state `Consume` specifies and keeps `Valid()`; `stop` holds exactly when `Consume` stops |
| Processor.CallLogger.ProcessEvents | esl_call_logger.py:33-89 | if the subscription request fails, tracker and log are unchanged and nothing is consumed; otherwise, after the subscription line, the in-place loop with its `break` leaves exactly the state, count and exit reason of `Run` |

## Left out

- The reconnecting supervisor `main` (esl_call_logger.py:92-113) is left out. It
  creates the connection, starts a thread, polls it with sleeps, and retries
  after 5 seconds, forever. This is network I/O and concurrency.
- Threads are left out. `process_events` is modelled as single-threaded
  because it is the only code that changes `active_calls`.
- The ESL client is left out: `connection.events("plain", "all")`, `recvEvent`
  and `getHeader`. Received outcomes are input data, and an event is the four
  headers it is read for. Whether the subscription request succeeded is an
  input flag of `ProcessEvents`; the exception that a failed request raises
  outside the `try` is not modelled beyond ending the processor unlogged.
- The configuration and logging setup (esl_call_logger.py:9-27) are left out.
  The log is the sequence of entries with their level and message. The
  timestamp, the format, the file and the console mirror are not modelled.
- `time.time()` is an integer clock reading carried by each received event,
  not a float.
- `end_time` is left out. It is written just before the record is deleted
  (esl_call_logger.py:80-83), so it is never observable.
- The `while True` loop runs over a finite sequence of outcomes. When the
  sequence runs out, the model stops where the program would block in
  `recvEvent`.
- Exceptions are outcomes of the receive step, and are raised before the
  event changes anything. In the handler body nothing after a mutation
  can raise, so no partial update is modelled.
