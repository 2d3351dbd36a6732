/** The call-state transitions of the event processor, as functions on
    a snapshot of its state: the tracker of active calls and the log. */
module Transitions {
  import opened Events

  /** A snapshot of the processor's state. */
  datatype Tracker = Tracker(calls: map<string, CallRecord>, log: seq<LogEntry>)

  /** What one receive outcome leaves behind, and whether the loop goes on. */
  datatype Progress = Continue(tracker: Tracker) | Stop(tracker: Tracker)

  /** The state after a run of receive outcomes, how many of them were
      consumed, and whether the loop ended on a lost connection. */
  datatype Outcome = Outcome(tracker: Tracker, consumed: nat, lost: bool)

  /** Every tracked call has a non-empty ID and a non-empty destination. */
  predicate WellFormed(calls: map<string, CallRecord>)
  {
    forall id :: id in calls ==> id != "" && calls[id].to != ""
  }

  /** Key `k` is tracked in both maps with the same record, or in neither. */
  predicate KeptAt(m: map<string, CallRecord>, m': map<string, CallRecord>, k: string)
  {
    (k in m <==> k in m') && (k in m ==> m[k] == m'[k])
  }

  /** The event is a CHANNEL_CREATE for `id` that carries a destination. */
  predicate Opens(e: Event, id: string)
  {
    Present(e.uniqueId) && e.uniqueId.value == id && e.name == Some(ChannelCreate) && Present(e.destination)
  }

  /** The event is a CHANNEL_HANGUP_COMPLETE for `id`. */
  predicate Closes(e: Event, id: string)
  {
    Present(e.uniqueId) && e.uniqueId.value == id && e.name == Some(ChannelHangupComplete)
  }

  /** Dispatch of one received event on its name, at clock reading `now`. */
  function Handle(t: Tracker, e: Event, now: int): (r: Tracker)
    ensures WellFormed(t.calls) ==> WellFormed(r.calls)
    ensures forall k :: e.uniqueId != Some(k) ==> KeptAt(t.calls, r.calls, k)
    ensures r.calls.Keys <= t.calls.Keys + (if Present(e.uniqueId) then {e.uniqueId.value} else {})
    ensures t.log <= r.log && |r.log| <= |t.log| + 1
    ensures forall id :: Opens(e, id) ==> id in r.calls
    ensures forall id :: Closes(e, id) ==> id !in r.calls
    ensures forall id :: !Opens(e, id) && !Closes(e, id) ==> (id in r.calls <==> id in t.calls)
  {
    if !Present(e.uniqueId) then t
    else
      var id := e.uniqueId.value;
      if e.name == Some(ChannelCreate) then
        if Present(e.destination) then
          var callee := e.destination.value;
          Tracker(t.calls[id := CallRecord(now, e.caller, callee, None)],
                  t.log + [Info(InitiatedText(id, e.caller, callee))])
        else t
      else if e.name == Some(ChannelAnswer) then
        if id in t.calls then
          Tracker(t.calls[id := t.calls[id].(answerTime := Some(now))], t.log + [Info(AnsweredText(id))])
        else t
      else if e.name == Some(ChannelHangupComplete) then
        if id in t.calls then
          Tracker(t.calls - {id}, t.log + [Info(EndedText(id))])
        else t
      else t
  }

  /** One iteration of the processing loop on the outcome of one receive call. */
  function Consume(t: Tracker, rcv: Received): (p: Progress)
    ensures p.Stop? <==> rcv.Fatal?
    ensures !rcv.Ev? ==> p.tracker.calls == t.calls
    ensures rcv.Empty? ==> p.tracker.log == t.log
    ensures rcv.Fatal? ==> p.tracker.log == t.log + [Error(LostText)]
    ensures rcv.Unexpected? ==> p.tracker.log == t.log + [Error(UnexpectedText(rcv.reason))]
    ensures rcv.Ev? ==> p.tracker == Handle(t, rcv.event, rcv.now)
  {
    match rcv
    case Empty => Continue(t)
    case Ev(e, now) => Continue(Handle(t, e, now))
    case Fatal(_) => Stop(Tracker(t.calls, t.log + [Error(LostText)]))
    case Unexpected(reason) => Continue(Tracker(t.calls, t.log + [Error(UnexpectedText(reason))]))
  }

  /** No connection-class error among the outcomes. */
  predicate NoFatal(rs: seq<Received>)
  {
    forall i :: 0 <= i < |rs| ==> !rs[i].Fatal?
  }

  /** The processing loop over a finite sequence of receive outcomes: it
      consumes them in order and stops right after the first fatal one. */
  function Run(t: Tracker, rs: seq<Received>): (o: Outcome)
    ensures o.consumed <= |rs|
    ensures o.lost ==> 0 < o.consumed && rs[o.consumed - 1].Fatal? && NoFatal(rs[..o.consumed - 1])
    ensures !o.lost ==> o.consumed == |rs| && NoFatal(rs)
    ensures t.log <= o.tracker.log
    ensures WellFormed(t.calls) ==> WellFormed(o.tracker.calls)
    decreases |rs|
  {
    if rs == [] then Outcome(t, 0, false)
    else
      match Consume(t, rs[0])
      case Stop(t') => Outcome(t', 1, true)
      case Continue(t') =>
        var o := Run(t', rs[1..]);
        Outcome(o.tracker, o.consumed + 1, o.lost)
  }
}
