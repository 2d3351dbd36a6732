/** The event processor: the tracker of active calls and the log it
    appends to, updated in place one received outcome at a time. */
module Processor {
  import opened Events
  import opened Transitions

  class CallLogger {
    /** Active calls by `Channel-Unique-ID`. */
    var activeCalls: map<string, CallRecord>
    /** Everything logged so far, oldest first. */
    var log: seq<LogEntry>

    ghost predicate Valid()
      reads this
    {
      WellFormed(activeCalls)
    }

    function State(): Tracker
      reads this
    {
      Tracker(activeCalls, log)
    }

    constructor ()
      ensures Valid() && activeCalls == map[] && log == []
    {
      activeCalls := map[];
      log := [];
    }

    /** Handles the outcome of one receive call; `stop` is set when the
        connection is lost and the loop must end. */
    method Step(rcv: Received) returns (stop: bool)
      requires Valid()
      modifies this
      ensures Valid()
      ensures Consume(old(State()), rcv) == if stop then Stop(State()) else Continue(State())
    {
      stop := false;
      match rcv
      case Empty =>
      case Fatal(_) =>
        log := log + [Error(LostText)];
        stop := true;
      case Unexpected(reason) =>
        log := log + [Error(UnexpectedText(reason))];
      case Ev(e, now) =>
        if !Present(e.uniqueId) {
          return;
        }
        var id := e.uniqueId.value;
        if e.name == Some(ChannelCreate) {
          var caller, callee := e.caller, e.destination;
          if Present(callee) {
            activeCalls := activeCalls[id := CallRecord(now, caller, callee.value, None)];
            log := log + [Info(InitiatedText(id, caller, callee.value))];
          }
        } else if e.name == Some(ChannelAnswer) {
          if id in activeCalls {
            activeCalls := activeCalls[id := activeCalls[id].(answerTime := Some(now))];
            log := log + [Info(AnsweredText(id))];
          }
        } else if e.name == Some(ChannelHangupComplete) {
          if id in activeCalls {
            log := log + [Info(EndedText(id))];
            activeCalls := activeCalls - {id};
          }
        }
    }

    /** Subscribes to the event stream; `subscribed` is whether that
        request succeeded. If it failed, the processor ends at once with
        nothing logged. Otherwise it logs the subscription, then handles
        the outcomes in order until they run out or the connection is
        lost; `consumed` counts the outcomes handled and `lost` says
        whether the loop ended on a lost connection. */
    method ProcessEvents(subscribed: bool, rs: seq<Received>) returns (consumed: nat, lost: bool)
      requires Valid()
      modifies this
      ensures Valid()
      ensures !subscribed ==> activeCalls == old(activeCalls) && log == old(log) && consumed == 0 && !lost
      ensures subscribed ==>
        Run(Tracker(old(activeCalls), old(log) + [Info(SubscribedText)]), rs) == Outcome(State(), consumed, lost)
    {
      if !subscribed {
        return 0, false;
      }
      log := log + [Info(SubscribedText)];
      ghost var start := State();
      consumed, lost := 0, false;
      while consumed < |rs|
        invariant consumed <= |rs|
        invariant Valid()
        invariant var o := Run(State(), rs[consumed..]);
          Run(start, rs) == Outcome(o.tracker, consumed + o.consumed, o.lost)
      {
        ghost var before := State();
        assert rs[consumed..][0] == rs[consumed];
        assert rs[consumed..][1..] == rs[consumed + 1..];
        var stop := Step(rs[consumed]);
        consumed := consumed + 1;
        if stop {
          assert Run(before, rs[consumed - 1..]) == Outcome(State(), 1, true);
          lost := true;
          break;
        }
      }
    }
  }
}
