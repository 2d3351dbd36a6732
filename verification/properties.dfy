/** What the event processor promises: the effect of each event kind on
    the tracker and the log, isolation between calls, the lifecycle of a
    call, and where the processing loop stops. */
module Properties {
  import opened Events
  import opened Transitions

  // ---------------------------------------------------------------------
  // One event at a time

  /** An empty read, or an event without a usable `Channel-Unique-ID`,
      changes neither the tracker nor the log, and the loop goes on. */
  lemma IgnoredReads(t: Tracker, rcv: Received)
    requires rcv.Empty? || (rcv.Ev? && !Present(rcv.event.uniqueId))
    ensures Consume(t, rcv) == Continue(t)
  {
  }

  /** CHANNEL_CREATE with a destination (over)writes the record of its ID
      with the caller, the destination and the current clock, and logs
      exactly one "initiated" line. */
  lemma CreateEffect(t: Tracker, e: Event, now: int)
    requires Present(e.uniqueId) && e.name == Some(ChannelCreate) && Present(e.destination)
    ensures var r := Handle(t, e, now);
      && r.calls.Keys == t.calls.Keys + {e.uniqueId.value}
      && r.calls[e.uniqueId.value] == CallRecord(now, e.caller, e.destination.value, None)
      && r.log == t.log + [Info(InitiatedText(e.uniqueId.value, e.caller, e.destination.value))]
  {
  }

  /** CHANNEL_CREATE without a destination is filtered out, whatever the
      other headers say. */
  lemma CreateWithoutDestinationIgnored(t: Tracker, e: Event, now: int)
    requires e.name == Some(ChannelCreate) && !Present(e.destination)
    ensures Handle(t, e, now) == t
  {
  }

  /** CHANNEL_ANSWER stamps the answer time of a tracked call, keeping its
      other fields, and logs one "answered" line; for an untracked ID it
      does nothing. */
  lemma AnswerEffect(t: Tracker, e: Event, now: int)
    requires Present(e.uniqueId) && e.name == Some(ChannelAnswer)
    ensures var id, r := e.uniqueId.value, Handle(t, e, now);
      && (id in t.calls ==>
            && r.calls.Keys == t.calls.Keys
            && r.calls[id] == t.calls[id].(answerTime := Some(now))
            && r.log == t.log + [Info(AnsweredText(id))])
      && (id !in t.calls ==> r == t)
  {
  }

  /** CHANNEL_HANGUP_COMPLETE removes a tracked call and logs one "ended"
      line; for an untracked ID it does nothing. */
  lemma HangupEffect(t: Tracker, e: Event, now: int)
    requires Present(e.uniqueId) && e.name == Some(ChannelHangupComplete)
    ensures var id, r := e.uniqueId.value, Handle(t, e, now);
      && (id in t.calls ==> r.calls.Keys == t.calls.Keys - {id} && r.log == t.log + [Info(EndedText(id))])
      && (id !in t.calls ==> r == t)
  {
  }

  /** Every event name other than the three handled ones is ignored. */
  lemma OtherNamesIgnored(t: Tracker, e: Event, now: int)
    requires e.name != Some(ChannelCreate) && e.name != Some(ChannelAnswer)
    requires e.name != Some(ChannelHangupComplete)
    ensures Handle(t, e, now) == t
  {
  }

  /** An unexpected error is logged, leaves the tracker alone, and the
      loop carries on with the next outcome. */
  lemma UnexpectedErrorContinues(t: Tracker, reason: string, rs: seq<Received>)
    ensures var o, o' := Run(t, [Unexpected(reason)] + rs),
                         Run(Tracker(t.calls, t.log + [Error(UnexpectedText(reason))]), rs);
      o == Outcome(o'.tracker, o'.consumed + 1, o'.lost)
  {
  }

  // ---------------------------------------------------------------------
  // Runs of the processing loop

  /** A received outcome that opens, respectively closes, the call `id`. */
  predicate Opening(rcv: Received, id: string)
  {
    rcv.Ev? && Opens(rcv.event, id)
  }

  predicate Closing(rcv: Received, id: string)
  {
    rcv.Ev? && Closes(rcv.event, id)
  }

  /** Some outcome opens `id` and none after it closes `id`. */
  ghost predicate OpenSince(rs: seq<Received>, id: string)
  {
    exists i :: 0 <= i < |rs| && Opening(rs[i], id) && forall j :: i < j < |rs| ==> !Closing(rs[j], id)
  }

  ghost predicate NeverClosed(rs: seq<Received>, id: string)
  {
    forall j :: 0 <= j < |rs| ==> !Closing(rs[j], id)
  }

  /** The lifecycle of one call: starting with no record for `x`, its
      CHANNEL_CREATE, CHANNEL_ANSWER and CHANNEL_HANGUP_COMPLETE leave the
      tracker as it was and log exactly the initiated, answered and ended
      lines, in that order. */
  lemma Lifecycle(t: Tracker, create: Event, answer: Event, hangup: Event, n1: int, n2: int, n3: int)
    requires Present(create.uniqueId) && create.uniqueId.value !in t.calls
    requires create.name == Some(ChannelCreate) && Present(create.destination)
    requires answer.name == Some(ChannelAnswer) && answer.uniqueId == create.uniqueId
    requires hangup.name == Some(ChannelHangupComplete) && hangup.uniqueId == create.uniqueId
    ensures var x, o := create.uniqueId.value, Run(t, [Ev(create, n1), Ev(answer, n2), Ev(hangup, n3)]);
      && o.consumed == 3 && !o.lost
      && o.tracker.calls == t.calls
      && x !in o.tracker.calls
      && o.tracker.log == t.log + [Info(InitiatedText(x, create.caller, create.destination.value)),
                                   Info(AnsweredText(x)), Info(EndedText(x))]
  {
    var x := create.uniqueId.value;
    var t1 := Handle(t, create, n1);
    var t2 := Handle(t1, answer, n2);
    var t3 := Handle(t2, hangup, n3);
    assert t1.calls == t.calls[x := CallRecord(n1, create.caller, create.destination.value, None)];
    assert t2.calls == t1.calls[x := t1.calls[x].(answerTime := Some(n2))];
    assert t3.calls == t2.calls - {x};
    assert t3.calls == t.calls;
    assert Run(t2, [Ev(hangup, n3)]) == Outcome(t3, 1, false) by {
      assert [Ev(hangup, n3)][1..] == [];
    }
    assert Run(t1, [Ev(answer, n2), Ev(hangup, n3)]) == Outcome(t3, 2, false) by {
      assert [Ev(answer, n2), Ev(hangup, n3)][1..] == [Ev(hangup, n3)];
    }
    assert [Ev(create, n1), Ev(answer, n2), Ev(hangup, n3)][1..] == [Ev(answer, n2), Ev(hangup, n3)];
  }

  /** Calls are isolated: outcomes that never carry the ID `k` leave the
      record of `k` (or its absence) as it was. */
  lemma {:induction false} Isolation(t: Tracker, rs: seq<Received>, k: string)
    requires forall i :: 0 <= i < |rs| && rs[i].Ev? ==> rs[i].event.uniqueId != Some(k)
    ensures KeptAt(t.calls, Run(t, rs).tracker.calls, k)
    decreases |rs|
  {
    if rs != [] {
      var p := Consume(t, rs[0]);
      if p.Continue? {
        Isolation(p.tracker, rs[1..], k);
      }
    }
  }

  /** An ID that no outcome opens is never added to the tracker: answers
      and hangups for an untracked call neither create nor touch it. */
  lemma {:induction false} NeverOpenedStaysAbsent(t: Tracker, rs: seq<Received>, id: string)
    requires id !in t.calls
    requires forall i :: 0 <= i < |rs| ==> !Opening(rs[i], id)
    ensures id !in Run(t, rs).tracker.calls
    decreases |rs|
  {
    if rs != [] {
      var p := Consume(t, rs[0]);
      if p.Continue? {
        NeverOpenedStaysAbsent(p.tracker, rs[1..], id);
      }
    }
  }

  /** Without a lost connection, running one more outcome is one more step. */
  lemma {:induction false} RunSnoc(t: Tracker, rs: seq<Received>, rcv: Received)
    requires NoFatal(rs)
    ensures Run(t, rs + [rcv]).tracker == Consume(Run(t, rs).tracker, rcv).tracker
    decreases |rs|
  {
    if rs == [] {
      assert [rcv][1..] == [];
    } else {
      assert (rs + [rcv])[0] == rs[0];
      assert (rs + [rcv])[1..] == rs[1..] + [rcv];
      RunSnoc(Consume(t, rs[0]).tracker, rs[1..], rcv);
    }
  }

  /** Which calls are tracked after a run without a lost connection: `id`
      is tracked exactly when some outcome opened it and none after that
      closed it, or it was tracked before and no outcome closed it. */
  lemma {:induction false} Presence(t: Tracker, rs: seq<Received>, id: string)
    requires NoFatal(rs)
    ensures id in Run(t, rs).tracker.calls <==> OpenSince(rs, id) || (id in t.calls && NeverClosed(rs, id))
    decreases |rs|
  {
    if rs == [] {
      assert Run(t, rs).tracker == t;
    } else {
      var ps, rcv := rs[..|rs| - 1], rs[|rs| - 1];
      assert rs == ps + [rcv];
      assert NoFatal(ps) by {
        forall i | 0 <= i < |ps| ensures !ps[i].Fatal? {
          assert ps[i] == rs[i];
        }
      }
      Presence(t, ps, id);
      RunSnoc(t, ps, rcv);
      var before := Run(t, ps).tracker;
      var after := Run(t, rs).tracker;
      if Opening(rcv, id) {
        assert id in after.calls;
        assert OpenSince(rs, id) by {
          assert Opening(rs[|rs| - 1], id);
        }
      } else if Closing(rcv, id) {
        assert id !in after.calls;
        assert !NeverClosed(rs, id) by {
          assert Closing(rs[|rs| - 1], id);
        }
        assert !OpenSince(rs, id) by {
          forall i | 0 <= i < |rs| && Opening(rs[i], id)
            ensures exists j :: i < j < |rs| && Closing(rs[j], id)
          {
            assert i != |rs| - 1;
            assert Closing(rs[|rs| - 1], id);
          }
        }
      } else {
        assert id in after.calls <==> id in before.calls;
        assert OpenSince(rs, id) <==> OpenSince(ps, id) by {
          if OpenSince(ps, id) {
            var i :| 0 <= i < |ps| && Opening(ps[i], id) && forall j :: i < j < |ps| ==> !Closing(ps[j], id);
            assert Opening(rs[i], id);
            forall j | i < j < |rs| ensures !Closing(rs[j], id) {
              if j < |ps| { assert rs[j] == ps[j]; }
            }
          }
          if OpenSince(rs, id) {
            var i :| 0 <= i < |rs| && Opening(rs[i], id) && forall j :: i < j < |rs| ==> !Closing(rs[j], id);
            assert i < |ps|;
            assert Opening(ps[i], id);
            forall j | i < j < |ps| ensures !Closing(ps[j], id) {
              assert rs[j] == ps[j];
            }
          }
        }
        assert NeverClosed(rs, id) <==> NeverClosed(ps, id) by {
          if NeverClosed(ps, id) {
            forall j | 0 <= j < |rs| ensures !Closing(rs[j], id) {
              if j < |ps| { assert rs[j] == ps[j]; }
            }
          }
          if NeverClosed(rs, id) {
            forall j | 0 <= j < |ps| ensures !Closing(ps[j], id) {
              assert rs[j] == ps[j];
            }
          }
        }
      }
    }
  }

  /** The loop stops at the first connection-class error: the outcomes
      before it are applied, the "lost connection" line is logged, and
      nothing after it is consumed. */
  lemma {:induction false} StopsAtFirstFatal(t: Tracker, rs: seq<Received>, k: nat)
    requires k < |rs| && rs[k].Fatal? && NoFatal(rs[..k])
    ensures var p := Run(t, rs[..k]).tracker;
      Run(t, rs) == Outcome(Tracker(p.calls, p.log + [Error(LostText)]), k + 1, true)
    decreases k
  {
    if k > 0 {
      var t' := Consume(t, rs[0]).tracker;
      assert rs[..k][0] == rs[0];
      assert rs[..k][1..] == rs[1..][..k - 1];
      var tail := rs[1..][..k - 1];
      assert NoFatal(tail) by {
        forall i | 0 <= i < |tail| ensures !tail[i].Fatal? {
          assert tail[i] == rs[..k][i + 1];
        }
      }
      StopsAtFirstFatal(t', rs[1..], k - 1);
    }
  }

  /** Once the loop has ended on a lost connection, further outcomes
      change nothing. */
  lemma {:induction false} LaterOutcomesIgnored(t: Tracker, rs: seq<Received>, more: seq<Received>)
    requires Run(t, rs).lost
    ensures Run(t, rs + more) == Run(t, rs)
    decreases |rs|
  {
    assert rs != [];
    assert (rs + more)[0] == rs[0];
    match Consume(t, rs[0])
    case Stop(_) =>
    case Continue(t') =>
      assert (rs + more)[1..] == rs[1..] + more;
      LaterOutcomesIgnored(t', rs[1..], more);
  }
}
