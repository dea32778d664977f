/** What goes on the wire and what the user is told: every request of every run traced to the edit it carries. */
module AutosavePayloads {
  import opened Wrappers
  import opened AutosaveModel

  // ----- Attempts and the edits they carry -----

  // An attempt carries the queued draft of its generation, and was prepared exactly when it was sent.
  ghost predicate Carries<D>(slot: Option<Attempt<D>>, queued: seq<D>, sent: seq<Request<D>>) {
    slot.Some? ==>
      var a := slot.value;
      && 1 <= a.generation <= |queued| && a.draft == queued[a.generation - 1]
      && (a.prepared.Some? ==> Request(a.tx, a.prepared.value) in sent)
  }

  ghost predicate SlotsCarry<D, C>(s: System<D, C>, queued: seq<D>) {
    && Carries(s.client.inFlight, queued, s.sent)
    && Carries(s.client.retry, queued, s.sent)
    && Carries(s.client.conflict, queued, s.sent)
  }

  // The drafts that one event queues.
  function QueuedBy<D, C>(e: Event<D, C>): seq<D> {
    if e.Queue? then [e.draft] else []
  }

  lemma CarriesMore<D>(slot: Option<Attempt<D>>, queued: seq<D>, more: seq<D>, sent: seq<Request<D>>,
                       requests: seq<Request<D>>)
    requires Carries(slot, queued, sent)
    ensures Carries(slot, queued + more, sent + requests)
  {
  }

  lemma TakeCarries<D, C>(w: World<D, C>, s: System<D, C>, tx: Tx, queued: seq<D>)
    requires DraftsInv(s) && Step(w, s, Take(tx)).Some? && SlotsCarry(s, queued)
    requires s.client.generation == |queued| && (queued != [] ==> s.newest == Some(queued[|queued| - 1]))
    ensures SlotsCarry(Step(w, s, Take(tx)).value, queued)
  {
  }

  lemma SendCarries<D, C>(w: World<D, C>, s: System<D, C>, queued: seq<D>)
    requires DraftsInv(s) && WireInv(s) && Step(w, s, Event.Send).Some? && SlotsCarry(s, queued)
    ensures SlotsCarry(Step(w, s, Event.Send).value, queued)
  {
    var t := Step(w, s, Event.Send).value;
    var request := t.sent[|s.sent|];
    assert t.sent == s.sent + [request];
    CarriesMore(s.client.inFlight, queued, [], s.sent, [request]);
    CarriesMore(s.client.retry, queued, [], s.sent, [request]);
    CarriesMore(s.client.conflict, queued, [], s.sent, [request]);
    assert queued + [] == queued;
    assert request in t.sent;
  }

  // Other events leave the wire alone and only move attempts between the slots.
  lemma SlotsMove<D, C>(w: World<D, C>, s: System<D, C>, e: Event<D, C>)
    requires Step(w, s, e).Some? && !e.Take? && !e.Send?
    ensures var c, t := s.client, Step(w, s, e).value;
            && t.sent == s.sent
            && t.client.inFlight in {None, c.inFlight, c.retry}
            && t.client.retry in {None, c.inFlight, c.retry}
            && t.client.conflict in {None, c.inFlight, c.conflict}
  {
  }

  lemma OtherCarries<D, C>(w: World<D, C>, s: System<D, C>, e: Event<D, C>, queued: seq<D>)
    requires SlotsCarry(s, queued) && Step(w, s, e).Some? && !e.Take? && !e.Send?
    ensures SlotsCarry(Step(w, s, e).value, queued + QueuedBy(e))
  {
    CarriesMore(s.client.inFlight, queued, QueuedBy(e), s.sent, []);
    CarriesMore(s.client.retry, queued, QueuedBy(e), s.sent, []);
    CarriesMore(s.client.conflict, queued, QueuedBy(e), s.sent, []);
    assert s.sent + [] == s.sent;
    SlotsMove(w, s, e);
  }

  lemma {:induction false} RunAppends<D, C>(w: World<D, C>, s: System<D, C>, events: seq<Event<D, C>>, e: Event<D, C>)
    ensures Run(w, s, events + [e]) == if Run(w, s, events).None? then None else Step(w, Run(w, s, events).value, e)
    decreases |events|
  {
    if events == [] {
      assert [] + [e] == [e] && [e][1..] == [];
    } else {
      assert (events + [e])[1..] == events[1..] + [e];
      var next := Step(w, s, events[0]);
      if next.Some? {
        RunAppends(w, next.value, events[1..], e);
      }
    }
  }

  lemma {:induction false} QueuedAppends<D, C>(events: seq<Event<D, C>>, e: Event<D, C>)
    ensures Queued(events + [e]) == Queued(events) + QueuedBy(e)
  {
    if events == [] {
      assert [] + [e] == [e] && [e][1..] == [];
    } else {
      assert (events + [e])[1..] == events[1..] + [e];
      QueuedAppends(events[1..], e);
    }
  }

  // In every reachable state the slots hold what was queued, prepared exactly when it was sent.
  lemma {:induction false} ReachableCarries<D, C>(w: World<D, C>, current: C, store: Option<C>,
                                                  events: seq<Event<D, C>>)
    requires Run(w, Initial(current, store), events).Some?
    ensures SlotsCarry(Run(w, Initial(current, store), events).value, Queued(events))
    decreases |events|
  {
    if events != [] {
      var n := |events| - 1;
      var init, e := events[..n], events[n];
      assert events == init + [e];
      RunAppends(w, Initial(current, store), init, e);
      QueuedAppends(init, e);
      ReachableCarries(w, current, store, init);
      ReachableKeeps(w, current, store, init);
      HistoryIsTheRun(w, Initial(current, store), init);
      var s := Run(w, Initial(current, store), init).value;
      if e.Take? {
        TakeCarries(w, s, e.tx, Queued(init));
        assert Queued(events) == Queued(init);
      } else if e.Send? {
        SendCarries(w, s, Queued(init));
        assert Queued(events) == Queued(init);
      } else {
        OtherCarries(w, s, e, Queued(init));
      }
    }
  }

  // ----- Payloads -----

  ghost predicate SentBefore<D, C>(s: System<D, C>, tx: Tx) {
    exists k :: 0 <= k < |s.sent| && s.sent[k].tx == tx
  }

  // What an attempt's first request has to carry: the edit itself when there is no canonical object yet, and the
  // edit rebased on the one there is otherwise.  None: rebasing throws.
  function Rebased<D, C>(w: World<D, C>, draft: D, store: Option<C>): Option<D> {
    match store
    case None => Some(draft)
    case Some(canonical) => w.rebase(draft, canonical)
  }

  /**
    What a save sends, in every reachable state: the queued draft of its generation, rebased on the canonical object
    then in the store, if there is one; nothing if that throws; and the same request again ever after.
   */
  lemma SentIsRebased<D, C>(w: World<D, C>, current: C, store: Option<C>, events: seq<Event<D, C>>)
    requires Run(w, Initial(current, store), events).Some?
    requires Run(w, Initial(current, store), events).value.client.inFlight.Some?
    ensures var s := Run(w, Initial(current, store), events).value;
            var a, next := s.client.inFlight.value, Step(w, s, Event.Send);
            && 1 <= a.generation <= |Queued(events)| && a.draft == Queued(events)[a.generation - 1]
            && (forall k :: 0 <= k < |s.sent| && s.sent[k].tx == a.tx ==>
                  next.Some? && next.value.sent == s.sent + [s.sent[k]])
            && (!SentBefore(s, a.tx) ==>
                  match Rebased(w, a.draft, s.store)
                  case None => next.None?
                  case Some(payload) => next.Some? && next.value.sent == s.sent + [Request(a.tx, payload)])
  {
    ReachableCarries(w, current, store, events);
    ReachableKeeps(w, current, store, events);
  }

  // At this event the request was put together: the first of its transaction, from the queued draft and the store of
  // that moment.
  ghost predicate MadeAt<D, C>(w: World<D, C>, current: C, store: Option<C>, events: seq<Event<D, C>>, i: nat,
                               r: Request<D>)
    requires i < |events|
  {
    var run := Run(w, Initial(current, store), events[..i]);
    && events[i].Send? && run.Some? && run.value.client.inFlight.Some?
    && var a, queued := run.value.client.inFlight.value, Queued(events[..i]);
       && a.tx == r.tx && !SentBefore(run.value, r.tx) && 1 <= a.generation <= |queued|
       && Rebased(w, queued[a.generation - 1], run.value.store) == Some(r.payload)
  }

  lemma MadeEarlier<D, C>(w: World<D, C>, current: C, store: Option<C>, events: seq<Event<D, C>>, e: Event<D, C>,
                          r: Request<D>)
    requires exists i :: 0 <= i < |events| && MadeAt(w, current, store, events, i, r)
    ensures exists i :: 0 <= i < |events + [e]| && MadeAt(w, current, store, events + [e], i, r)
  {
    var i :| 0 <= i < |events| && MadeAt(w, current, store, events, i, r);
    assert (events + [e])[..i] == events[..i];
    assert MadeAt(w, current, store, events + [e], i, r);
  }

  lemma MadeNow<D, C>(w: World<D, C>, current: C, store: Option<C>, events: seq<Event<D, C>>, r: Request<D>)
    requires Run(w, Initial(current, store), events).Some?
    requires var s := Run(w, Initial(current, store), events).value;
             && Step(w, s, Event.Send).Some? && Step(w, s, Event.Send).value.sent == s.sent + [r]
             && !SentBefore(s, r.tx)
    ensures MadeAt(w, current, store, events + [Event.Send], |events|, r)
  {
    SentIsRebased(w, current, store, events);
    var s := Run(w, Initial(current, store), events).value;
    assert (s.sent + [r])[|s.sent|] == r;
    assert (events + [Event.Send])[..|events|] == events;
  }

  // Every request of every run was made so once, and only repeated afterwards.
  lemma {:induction false} EveryPayloadIsRebased<D, C>(w: World<D, C>, current: C, store: Option<C>,
                                                       events: seq<Event<D, C>>, k: nat)
    requires Run(w, Initial(current, store), events).Some?
    requires k < |Run(w, Initial(current, store), events).value.sent|
    ensures exists i :: 0 <= i < |events| &&
              MadeAt(w, current, store, events, i, Run(w, Initial(current, store), events).value.sent[k])
    decreases |events|
  {
    assert events != [];
    var n := |events| - 1;
    var init, e := events[..n], events[n];
    assert events == init + [e];
    RunAppends(w, Initial(current, store), init, e);
    var s, t := Run(w, Initial(current, store), init).value, Run(w, Initial(current, store), events).value;
    var r := t.sent[k];
    if k < |s.sent| {
      assert r == s.sent[k];
      EveryPayloadIsRebased(w, current, store, init, k);
      MadeEarlier(w, current, store, init, e, r);
    } else {
      assert e.Send?;
      SentIsRebased(w, current, store, init);
      if j :| 0 <= j < |s.sent| && s.sent[j].tx == r.tx {
        assert t.sent == s.sent + [s.sent[j]];
        EveryPayloadIsRebased(w, current, store, init, j);
        MadeEarlier(w, current, store, init, e, r);
      } else {
        MadeNow(w, current, store, init, r);
      }
    }
  }

  // The backend takes a request that it has no receipt for if it accepts it, and then all of it; otherwise nothing.
  lemma ProcessedExactly<D, C>(w: World<D, C>, b: Backend<D, C>, r: Request<D>)
    ensures var after := Process(w, b, r);
            if r.tx !in b.receipts && w.accepts(r.payload, b.current) then
              && after.current == w.apply(r.payload, b.current) && after.applied == b.applied + [r.tx]
              && after.receipts == b.receipts[r.tx := Receipt(r.payload, after.current)]
            else after == b
  {
  }

  // ----- What the user is told -----

  // The phase shown never promises a command that is not there, nor hides an edit that is not saved.
  ghost predicate PhaseHonest<D>(c: Client<D>) {
    && (c.phase.OfflineRetry? ==> c.retry.Some?)
    && (c.phase.Conflict? ==> c.conflict.Some?)
    && (c.phase.Saved? ==> c.latest.None?)
    && (c.phase.Stopped? ==> c.disposed)
  }

  lemma OutcomeIsHonest<D, C>(w: World<D, C>, s: System<D, C>, e: Event<D, C>)
    requires PhaseHonest(s.client) && Step(w, s, e).Some? && (e.Respond? || e.Fail?)
    ensures var c := Step(w, s, e).value.client; c.phase.Saved? || PhaseHonest(c)
  {
  }

  lemma StepIsHonest<D, C>(w: World<D, C>, s: System<D, C>, e: Event<D, C>)
    requires PhaseHonest(s.client) && Step(w, s, e).Some?
    ensures var c := Step(w, s, e).value.client; c.phase.Saved? || PhaseHonest(c)
  {
    if Quiet(e) {
      QuietChanges(w, s, e);
    } else if e.Respond? || e.Fail? {
      OutcomeIsHonest(w, s, e);
    }
  }

  lemma {:induction false} PhaseNeverLies<D, C>(w: World<D, C>, s: System<D, C>, events: seq<Event<D, C>>)
    requires DraftsInv(s) && PhaseHonest(s.client) && Run(w, s, events).Some?
    ensures PhaseHonest(Run(w, s, events).value.client)
    decreases |events|
  {
    if events != [] {
      DraftsStep(w, s, events[0]);
      StepIsHonest(w, s, events[0]);
      assert NewestKept(Step(w, s, events[0]).value);
      PhaseNeverLies(w, Step(w, s, events[0]).value, events[1..]);
    }
  }

  // Each failure is announced as what it is, and keeps the attempt where its command looks for it.
  lemma FailureIsAnnounced<D>(c: Client<D>, kind: FailureKind)
    requires c.inFlight.Some?
    ensures var d := AttemptFailed(c, kind);
            && (kind.Offline? <==> d.phase == Phase.OfflineRetry)
            && (kind.Conflict? <==> d.phase == Phase.Conflict)
            && (kind.Blocked? <==> d.phase == Phase.Blocked)
            && d.retry == (if d.phase.OfflineRetry? then c.inFlight else c.retry)
            && d.conflict == (if d.phase.Conflict? then c.inFlight else c.conflict)
  {
  }
}
