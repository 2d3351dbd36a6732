/** The values the event processor works with: headers of a received
    event, the outcome of one receive call, a call record and a log entry. */
module Events {

  datatype Option<T> = None | Some(value: T)

  /** The value of one event header: `getHeader` yields a string or nothing. */
  type Header = Option<string>

  /** Truthiness of a header value: present and not the empty string. */
  predicate Present(h: Header)
  {
    h.Some? && h.value != ""
  }

  /** How a header value is rendered inside a formatted log message
      (an absent value is written as `None`). */
  function Show(h: Header): string
  {
    match h
    case Some(s) => s
    case None => "None"
  }

  const ChannelCreate: string := "CHANNEL_CREATE"
  const ChannelAnswer: string := "CHANNEL_ANSWER"
  const ChannelHangupComplete: string := "CHANNEL_HANGUP_COMPLETE"

  /** The four headers the processor reads: `Event-Name`,
      `Channel-Unique-ID`, `Caller-Caller-ID-Number` and
      `Caller-Destination-Number`. */
  datatype Event = Event(name: Header, uniqueId: Header, caller: Header, destination: Header)

  /** The connection-class errors that end the processing loop. */
  datatype FatalKind = NotConnected | BrokenPipe | MissingAttribute

  /** The outcome of one receive call. `Ev` carries the wall-clock reading
      taken while that event is handled. */
  datatype Received =
    | Empty
    | Ev(event: Event, now: int)
    | Fatal(kind: FatalKind)
    | Unexpected(reason: string)

  /** One entry of the call tracker. `to` is the destination, which is
      never empty; `answerTime` is set once the call is answered. */
  datatype CallRecord = CallRecord(startTime: int, from: Header, to: string, answerTime: Option<int>)

  datatype LogEntry = Info(text: string) | Error(text: string)

  const SubscribedText: string := "Successfully connected to FreeSWITCH ESL and subscribed to events."
  const LostText: string := "Lost connection to FreeSWITCH ESL. Exiting thread."

  function InitiatedText(id: string, caller: Header, callee: string): string
  {
    "Call Initiated: " + id + " | From: " + Show(caller) + " | To: " + callee
  }

  function AnsweredText(id: string): string
  {
    "Call Answered: " + id
  }

  function EndedText(id: string): string
  {
    "Call Ended: " + id
  }

  function UnexpectedText(reason: string): string
  {
    "An unexpected error occurred in event processor: " + reason
  }
}
