/** Why a request ends as it does: every settlement of every run, traced to the operation that caused it. */
module JsonRpcSettlements {
  import opened Wrappers
  import opened JsonValues
  import opened Texts
  import opened JsonRpcClient

  // This operation, in this state, is a reason for that end of the request.
  ghost predicate Causes(s: System, e: Event, id: Id, how: Settlement) {
    match how
    case Completed(payload) => e.Complete? && s.client.reader == Found(id, payload) && id in s.client.pending
    case Cancelled => e == CancelRecord(id)
    case ResponseNotReceived => id in s.client.pending && (e == WriteFailed(id) || e.StreamClosed?)
    case Failed => id in s.client.pending && (e.Dispose? || Faults(s, e))
  }

  // The read loop stops on an error.
  predicate Faults(s: System, e: Event) {
    !s.client.reader.Faulted? && Step(s, e).Some? && Step(s, e).value.client.reader.Faulted?
  }

  ghost predicate Ended(s: System, id: Id, how: Settlement) {
    id in s.client.settled && s.client.settled[id] == how
  }

  lemma SweepSettles(s: System, t: System, id: Id, how: Settlement, swept: Settlement)
    requires Accounted(s.client) && t.client.settled == Swept(s.client.settled, s.client.pending, swept)
    ensures Ended(t, id, how) <==> Ended(s, id, how) || (id in s.client.pending && how == swept)
  {
  }

  lemma FaultSettles(s: System, e: Event, id: Id, how: Settlement)
    requires Accounted(s.client) && Step(s, e).Some? && Step(s, e).value.client == Fault(s.client)
    requires !s.client.reader.Faulted?
    ensures Ended(Step(s, e).value, id, how) <==> Ended(s, id, how) || (id in s.client.pending && how == Failed)
    ensures Faults(s, e)
  {
    SweepSettles(s, Step(s, e).value, id, how, Failed);
  }

  lemma ReaderSettlesExactly(s: System, e: Event, id: Id, how: Settlement)
    requires Accounted(s.client) && Step(s, e).Some? && (e.Receive? || e.Find? || e.Complete? || e.StreamFaulted?)
    ensures Ended(Step(s, e).value, id, how) <==> Ended(s, id, how) || Causes(s, e, id, how)
  {
    if Step(s, e).value.client == Fault(s.client) {
      FaultSettles(s, e, id, how);
    } else if e.Receive? {
      assert Step(s, e).value.client.settled == s.client.settled;
    }
  }

  lemma StepSettlesExactly(s: System, e: Event, id: Id, how: Settlement)
    requires Accounted(s.client) && Step(s, e).Some?
    ensures Ended(Step(s, e).value, id, how) <==> Ended(s, id, how) || Causes(s, e, id, how)
  {
    match e {
      case Receive(_) => ReaderSettlesExactly(s, e, id, how);
      case Find => ReaderSettlesExactly(s, e, id, how);
      case Complete => ReaderSettlesExactly(s, e, id, how);
      case StreamFaulted => ReaderSettlesExactly(s, e, id, how);
      case StreamClosed => SweepSettles(s, Step(s, e).value, id, how, ResponseNotReceived);
      case Dispose => SweepSettles(s, Step(s, e).value, id, how, Failed);
      case _ =>
    }
  }

  // The state before the i-th operation of a run.
  function Before(events: seq<Event>, i: nat): System
    requires i <= |events| && Run(Initial(), events[..i]).Some?
  {
    Run(Initial(), events[..i]).value
  }

  lemma {:induction false} RunsBefore(events: seq<Event>, i: nat)
    requires Run(Initial(), events).Some? && i <= |events|
    ensures Run(Initial(), events[..i]).Some?
    ensures i < |events| ==> Step(Before(events, i), events[i]) == Run(Initial(), events[..i + 1])
    decreases |events|
  {
    var n := |events|;
    if i == n {
      assert events[..i] == events;
    } else {
      assert events == events[..n - 1] + [events[n - 1]];
      RunAppends(Initial(), events[..n - 1], events[n - 1]);
      RunsBefore(events[..n - 1], i);
      assert events[..n - 1][..i] == events[..i];
      if i < n - 1 {
        assert events[..n - 1][..i + 1] == events[..i + 1];
      } else {
        assert events[..i + 1] == events;
      }
    }
  }

  ghost predicate CausedAt(events: seq<Event>, i: nat, id: Id, how: Settlement)
    requires Run(Initial(), events).Some? && i < |events|
  {
    RunsBefore(events, i);
    Causes(Before(events, i), events[i], id, how)
  }

  /**
    In every run a request has ended in a way exactly when some operation of the run was the cause of that: the
    completion by the response found for it, a recorded cancellation, a failed write or the end of the stream while it
    was pending, a fault or the disposal while it was pending.
   */
  lemma {:induction false} SettledExactly(events: seq<Event>, id: Id, how: Settlement)
    requires Run(Initial(), events).Some?
    ensures Ended(Run(Initial(), events).value, id, how) <==>
            exists i :: 0 <= i < |events| && CausedAt(events, i, id, how)
    decreases |events|
  {
    if events != [] {
      var n := |events| - 1;
      var init := events[..n];
      RunsBefore(events, n);
      RunsBefore(events, n + 1);
      assert events[..n + 1] == events;
      SettledExactly(init, id, how);
      RunAccounts(Initial(), init);
      StepSettlesExactly(Before(events, n), events[n], id, how);
      forall i | 0 <= i < n ensures CausedAt(events, i, id, how) == CausedAt(init, i, id, how) {
        assert init[..i] == events[..i];
      }
      assert CausedAt(events, n, id, how) == Causes(Before(events, n), events[n], id, how);
    }
  }

  // The response in the last message received, if that is one.
  function LastResponse(events: seq<Event>): Option<(Id, Payload)>
    decreases |events|
  {
    if events == [] then None
    else
      var last := events[|events| - 1];
      if !last.Receive? then LastResponse(events[..|events| - 1])
      else
        match Classify(last.message)
        case Response(id, payload) => Some((id, payload))
        case _ => None
  }

  lemma StepKeepsHand(s: System, e: Event)
    requires Step(s, e).Some? && Busy(Step(s, e).value.client.reader)
    ensures var r := Step(s, e).value.client.reader;
            if e.Receive? then Classify(e.message) == Response(r.id, r.payload)
            else Busy(s.client.reader) && s.client.reader.id == r.id && s.client.reader.payload == r.payload
  {
    if e.Receive? {
      assert Step(s, e).value.client == ReceiveMessage(s.client, Classify(e.message));
    }
  }

  // What the reader has in hand is the response it received last.
  lemma {:induction false} HandIsLastResponse(events: seq<Event>)
    requires Run(Initial(), events).Some?
    ensures var r := Run(Initial(), events).value.client.reader;
            Busy(r) ==> LastResponse(events) == Some((r.id, r.payload))
    decreases |events|
  {
    if events != [] {
      var n := |events| - 1;
      RunsBefore(events, n);
      assert events[..n + 1] == events;
      HandIsLastResponse(events[..n]);
      if Busy(Run(Initial(), events).value.client.reader) {
        StepKeepsHand(Before(events, n), events[n]);
      }
    }
  }

  ghost predicate AnsweredAt(events: seq<Event>, i: nat, id: Id, payload: Payload)
    requires Run(Initial(), events).Some? && i < |events|
  {
    RunsBefore(events, i);
    events[i].Complete? && LastResponse(events[..i]) == Some((id, payload)) && id in Before(events, i).client.pending
  }

  lemma AnswerIsCause(events: seq<Event>, i: nat, id: Id, payload: Payload)
    requires Run(Initial(), events).Some? && i < |events|
    ensures CausedAt(events, i, id, Completed(payload)) == AnsweredAt(events, i, id, payload)
  {
    RunsBefore(events, i);
    RunsBefore(events, i + 1);
    HandIsLastResponse(events[..i]);
    if events[i].Complete? {
      assert Before(events, i).client.reader.Found?;
    }
  }

  // A caller gets this answer exactly when it came in the last message received before some completion, while the
  // request was pending.
  lemma CompletedExactly(events: seq<Event>, id: Id, payload: Payload)
    requires Run(Initial(), events).Some?
    ensures Ended(Run(Initial(), events).value, id, Completed(payload)) <==>
            exists i :: 0 <= i < |events| && AnsweredAt(events, i, id, payload)
  {
    SettledExactly(events, id, Completed(payload));
    if i :| 0 <= i < |events| && CausedAt(events, i, id, Completed(payload)) {
      AnswerIsCause(events, i, id, payload);
    }
    if i :| 0 <= i < |events| && AnsweredAt(events, i, id, payload) {
      AnswerIsCause(events, i, id, payload);
    }
  }

  // ----- Marks and entrants -----

  // A response to that request is taken in without a settlement: it is late, or its completion finds it cancelled.
  predicate TakesMark(s: System, e: Event, id: Id) {
    || (e.Receive? && RespondsTo(e.message, id))
    || (e.Complete? && s.client.reader.Found? && s.client.reader.id == id && id !in s.client.pending)
  }

  // The mark of a cancellation is set when it is recorded, and stays until the response that it waits for.
  lemma MarksExactly(s: System, e: Event, id: Id)
    requires Accounted(s.client) && Step(s, e).Some?
    ensures id in Step(s, e).value.client.cancelled <==>
            e == CancelRecord(id) || (id in s.client.cancelled && !TakesMark(s, e, id))
  {
    if e.Receive? {
      AddressesExactly(e.message, id);
      match Classify(e.message) {
        case Response(other, _) => AddressesExactly(e.message, other);
        case _ =>
      }
    }
  }

  function Count(events: seq<Event>, which: Event): nat {
    if events == [] then 0
    else Count(events[..|events| - 1], which) + (if events[|events| - 1] == which then 1 else 0)
  }

  // Every invocation that registered had entered before, those that did not yet are the ones entering, and identifiers
  // count the registrations.
  lemma {:induction false} EntrantsAreCounted(events: seq<Event>)
    requires Run(Initial(), events).Some?
    ensures var c := Run(Initial(), events).value.client;
            Count(events, Enter) == Count(events, Register) + c.entering && Count(events, Register) == c.sequence
    decreases |events|
  {
    if events != [] {
      var n := |events| - 1;
      RunsBefore(events, n);
      assert events[..n + 1] == events;
      EntrantsAreCounted(events[..n]);
      StepCounts(Before(events, n), events[n]);
    }
  }

  lemma StepCounts(s: System, e: Event)
    requires Step(s, e).Some?
    ensures var c, d := s.client, Step(s, e).value.client;
            && d.entering == c.entering + (if e.Enter? then 1 else 0) - (if e.Register? then 1 else 0)
            && d.sequence == c.sequence + (if e.Register? then 1 else 0)
  {
  }

  // ----- Cancellations and losses -----

  // A caller sees its cancellation exactly when the run recorded it, ...
  lemma CancelledExactly(events: seq<Event>, id: Id)
    requires Run(Initial(), events).Some?
    ensures Ended(Run(Initial(), events).value, id, Cancelled) <==> CancelRecord(id) in events
  {
    SettledExactly(events, id, Cancelled);
    forall i | 0 <= i < |events| ensures CausedAt(events, i, id, Cancelled) == (events[i] == CancelRecord(id)) {
      RunsBefore(events, i);
    }
  }

  // ... and never sees a missing response without a failed write or the end of the stream.
  lemma NotReceivedOnlyWhenLost(events: seq<Event>, id: Id)
    requires Run(Initial(), events).Some? && Ended(Run(Initial(), events).value, id, ResponseNotReceived)
    ensures WriteFailed(id) in events || StreamClosed in events
  {
    SettledExactly(events, id, ResponseNotReceived);
  }
}
