/**
  Durable editing over a lossy channel, as a state machine.

  Client is what AutosaveCoordinator keeps for one edited object; every function on it is one
  critical section of that class.  System adds the shared canonical store, the requests put on
  the wire and a backend that keeps a receipt per transaction, so that whole runs can be stated.
 */
module AutosaveModel {
  import opened Wrappers

  type Tx = string

  datatype Phase = Saved | Pending | Saving | OfflineRetry | Conflict | Blocked | Stopped

  datatype FailureKind = Offline | Conflict | Blocked

  datatype Attempt<D> = Attempt(draft: D, generation: nat, tx: Tx, prepared: Option<D>)

  datatype Client<D> = Client(
    latest: Option<D>,
    generation: nat,
    pending: bool,
    retry: Option<Attempt<D>>,
    conflict: Option<Attempt<D>>,
    phase: Phase,
    disposed: bool,
    inFlight: Option<Attempt<D>>)

  // rebase moves a draft onto a newer canonical object, or throws.  accepts and apply are the backend's
  // expected-revision check and its mutation.
  datatype World<!D, !C> = World(
    rebase: (D, C) -> Option<D>,
    accepts: (D, C) -> bool,
    apply: (D, C) -> C)

  // ----- The coordinator's critical sections -----

  function QueueDraft<D>(c: Client<D>, draft: D): Client<D> {
    c.(latest := Some(draft),
       generation := c.generation + 1,
       pending := true,
       phase := if c.retry.None? && c.conflict.None? then Phase.Pending else c.phase)
  }

  predicate CanTake<D>(c: Client<D>) {
    c.pending && c.latest.Some? && c.retry.None? && c.conflict.None?
  }

  function TakeAttempt<D>(c: Client<D>, tx: Tx): Client<D>
    requires CanTake(c)
  {
    c.(inFlight := Some(Attempt(c.latest.value, c.generation, tx, None)), pending := false)
  }

  function PreparedDraft<D, C>(rebase: (D, C) -> Option<D>, a: Attempt<D>, canonical: Option<C>): Option<D> {
    if a.prepared.Some? then a.prepared
    else if canonical.None? then Some(a.draft)
    else rebase(a.draft, canonical.value)
  }

  // An attempt is one object: preparing it is seen through every slot that holds it.
  function Prepared<D>(slot: Option<Attempt<D>>, tx: Tx, draft: D): Option<Attempt<D>> {
    if slot.Some? && slot.value.tx == tx then Some(slot.value.(prepared := Some(draft))) else slot
  }

  function PrepareAttempt<D>(c: Client<D>, draft: D): Client<D>
    requires c.inFlight.Some?
  {
    var tx := c.inFlight.value.tx;
    c.(inFlight := Prepared(c.inFlight, tx, draft),
       retry := Prepared(c.retry, tx, draft),
       conflict := Prepared(c.conflict, tx, draft))
  }

  function AttemptFailed<D>(c: Client<D>, kind: FailureKind): Client<D>
    requires c.inFlight.Some?
  {
    var kept := c.(latest := if c.pending then c.latest else Some(c.inFlight.value.draft), inFlight := None);
    match kind
    case Offline => kept.(retry := c.inFlight, phase := Phase.OfflineRetry)
    case Conflict => kept.(conflict := c.inFlight, phase := Phase.Conflict)
    case Blocked => kept.(phase := Phase.Blocked)
  }

  // The newer draft is rebased for the event inside the critical section; if that throws, the
  // saved attempt is handled as a failed one, its slots already cleared.
  predicate RebaseThrows<D, C>(rebase: (D, C) -> Option<D>, c: Client<D>, canonical: C) {
    c.pending && c.latest.Some? && rebase(c.latest.value, canonical).None?
  }

  function AttemptSaved<D, C>(rebase: (D, C) -> Option<D>, c: Client<D>, canonical: C, kind: FailureKind): Client<D>
    requires c.inFlight.Some?
  {
    var cleared := c.(retry := None, conflict := None);
    if RebaseThrows(rebase, c, canonical) then AttemptFailed(cleared, kind)
    else cleared.(
        latest := if c.pending && c.latest.Some? then c.latest else None,
        phase := if c.pending then Phase.Pending else Phase.Saved,
        inFlight := None)
  }

  function AttemptCancelled<D>(c: Client<D>): Client<D> {
    c.(inFlight := None)
  }

  function RetryAttempt<D>(c: Client<D>): Client<D> {
    c.(inFlight := c.retry)
  }

  function Reloaded<D>(c: Client<D>): Client<D> {
    c.(latest := None, pending := false, retry := None, conflict := None, phase := Phase.Saved)
  }

  function DraftToReapply<D>(c: Client<D>): Option<D> {
    if c.latest.Some? then c.latest
    else if c.conflict.Some? then Some(c.conflict.value.draft)
    else None
  }

  function Reapplied<D>(c: Client<D>): Client<D>
    requires DraftToReapply(c).Some?
  {
    c.(latest := DraftToReapply(c), pending := true, retry := None, conflict := None, phase := Phase.Pending)
  }

  // ----- The whole system -----

  datatype Request<D> = Request(tx: Tx, payload: D)

  datatype Receipt<D, C> = Receipt(payload: D, canonical: C)

  datatype Backend<D, C> = Backend(current: C, receipts: map<Tx, Receipt<D, C>>, applied: seq<Tx>)

  datatype Commit = Commit(generation: nat, tx: Tx)

  // newest, committed, discarded and dropped record history: the last draft queued, the commits
  // published, the generation thrown away by the last reload, and whether a save has ended Blocked
  // or cancelled since an edit was last queued or reapplied.
  datatype System<D, C> = System(
    client: Client<D>,
    store: Option<C>,
    used: set<Tx>,
    sent: seq<Request<D>>,
    backend: Backend<D, C>,
    newest: Option<D>,
    committed: seq<Commit>,
    discarded: nat,
    dropped: bool)

  datatype Event<D, C> =
    | Queue(draft: D)
    | Take(tx: Tx)
    | Announce
    | Send
    | Deliver(index: nat)
    | Respond(kind: FailureKind)
    | Fail(kind: FailureKind)
    | Cancel
    | Retry
    | Reload(canonical: C)
    | Reapply(canonical: C)
    | Accept(canonical: C)
    | OtherClient(current: C)
    | ReportBlocked
    | Dispose
    | Stop

  function Initial<D, C>(current: C, store: Option<C>): System<D, C> {
    System(Client(None, 0, false, None, None, Phase.Saved, false, None),
           store, {}, [], Backend(current, map[], []), None, [], 0, false)
  }

  // A request with a receipt is answered from it; a new one is applied if its expected revision holds.
  function Process<D, C>(w: World<D, C>, b: Backend<D, C>, r: Request<D>): Backend<D, C> {
    if r.tx in b.receipts || !w.accepts(r.payload, b.current) then b
    else
      var next := w.apply(r.payload, b.current);
      Backend(next, b.receipts[r.tx := Receipt(r.payload, next)], b.applied + [r.tx])
  }

  function Step<D, C>(w: World<D, C>, s: System<D, C>, e: Event<D, C>): Option<System<D, C>> {
    var c := s.client;
    match e
    case Queue(draft) =>
      if c.disposed then None
      else Some(s.(client := QueueDraft(c, draft), newest := Some(draft), dropped := false))
    case Take(tx) =>
      if c.inFlight.Some? || !CanTake(c) || tx in s.used then None
      else Some(s.(client := TakeAttempt(c, tx), used := s.used + {tx}))
    case Announce =>
      if c.inFlight.None? then None else Some(s.(client := c.(phase := Phase.Saving)))
    case Send =>
      if c.inFlight.None? then None
      else
        var payload := PreparedDraft(w.rebase, c.inFlight.value, s.store);
        if payload.None? then None
        else Some(s.(client := PrepareAttempt(c, payload.value),
                     sent := s.sent + [Request(c.inFlight.value.tx, payload.value)]))
    case Deliver(index) =>
      if index >= |s.sent| then None else Some(s.(backend := Process(w, s.backend, s.sent[index])))
    case Respond(kind) =>
      if c.inFlight.None? || c.inFlight.value.prepared.None? || c.inFlight.value.tx !in s.backend.receipts then None
      else
        var a := c.inFlight.value;
        var canonical := s.backend.receipts[a.tx].canonical;
        var threw := RebaseThrows(w.rebase, c, canonical);
        Some(s.(client := AttemptSaved(w.rebase, c, canonical, kind),
                store := Some(canonical),
                committed := if threw then s.committed else s.committed + [Commit(a.generation, a.tx)],
                dropped := s.dropped || (threw && kind.Blocked?)))
    case Fail(kind) =>
      if c.inFlight.None? then None
      else Some(s.(client := AttemptFailed(c, kind), dropped := s.dropped || kind.Blocked?))
    case Cancel =>
      if c.inFlight.None? then None else Some(s.(client := AttemptCancelled(c), dropped := true))
    case Retry =>
      if c.disposed || c.inFlight.Some? || c.retry.None? then None
      else Some(s.(client := RetryAttempt(c)))
    case Reload(canonical) =>
      if c.disposed || c.inFlight.Some? then None
      else Some(s.(client := Reloaded(c), store := Some(canonical), discarded := c.generation))
    case Reapply(canonical) =>
      if c.disposed || c.inFlight.Some? then None
      else if DraftToReapply(c).None? then Some(s.(store := Some(canonical)))
      else Some(s.(client := Reapplied(c), store := Some(canonical), dropped := false))
    case Accept(canonical) => Some(s.(store := Some(canonical)))
    case OtherClient(current) => Some(s.(backend := s.backend.(current := current)))
    case ReportBlocked => Some(s.(client := c.(phase := Phase.Blocked)))
    case Dispose => Some(s.(client := c.(disposed := true)))
    case Stop => if c.disposed then Some(s.(client := c.(phase := Phase.Stopped))) else None
  }

  function Run<D, C>(w: World<D, C>, s: System<D, C>, events: seq<Event<D, C>>): Option<System<D, C>>
    decreases |events|
  {
    if events == [] then Some(s)
    else
      var next := Step(w, s, events[0]);
      if next.None? then None else Run(w, next.value, events[1..])
  }

  // ----- What every reachable state keeps -----

  ghost function LastCommitted<D, C>(s: System<D, C>): nat {
    if s.committed == [] then 0 else s.committed[|s.committed| - 1].generation
  }

  ghost predicate OneAttempt<D>(c: Client<D>) {
    && (c.inFlight.Some? && c.retry.Some? ==> c.inFlight == c.retry)
    && (c.inFlight.Some? && c.conflict.Some? ==> c.inFlight == c.conflict)
    && (c.retry.Some? && c.conflict.Some? ==> c.retry == c.conflict)
  }

  ghost predicate AttemptCurrent<D, C>(s: System<D, C>, slot: Option<Attempt<D>>) {
    slot.Some? ==>
      var a, c := slot.value, s.client;
      && a.tx in s.used
      && LastCommitted(s) < a.generation
      && s.discarded < a.generation
      && (if c.pending then a.generation < c.generation
          else a.generation == c.generation && c.latest == s.newest == Some(a.draft))
  }

  // The draft slot: the newest edit, unless that very generation was committed or thrown away.
  ghost predicate NewestKept<D, C>(s: System<D, C>) {
    var c := s.client;
    && (s.newest.Some? <==> c.generation > 0)
    && LastCommitted(s) <= c.generation && s.discarded <= c.generation
    && (c.latest.Some? ==>
          c.latest == s.newest && LastCommitted(s) < c.generation && s.discarded < c.generation)
    && (c.latest.None? ==>
          c.generation == 0 || LastCommitted(s) == c.generation || s.discarded == c.generation)
    && (c.pending ==> c.latest.Some?)
    && (c.phase.Saved? ==> c.latest.None?)
  }

  ghost predicate DraftsInv<D, C>(s: System<D, C>) {
    var c := s.client;
    && OneAttempt(c)
    && AttemptCurrent(s, c.inFlight) && AttemptCurrent(s, c.retry) && AttemptCurrent(s, c.conflict)
    && NewestKept(s)
    && (forall i, j :: 0 <= i < j < |s.committed| ==> s.committed[i].generation < s.committed[j].generation)
    && (c.inFlight.None? && !c.pending && c.retry.None? && c.conflict.None? && c.latest.Some? ==> s.dropped)
  }

  ghost predicate SentAs<D>(sent: seq<Request<D>>, slot: Option<Attempt<D>>) {
    slot.Some? ==>
      forall i :: 0 <= i < |sent| && sent[i].tx == slot.value.tx ==> slot.value.prepared == Some(sent[i].payload)
  }

  ghost predicate OnePayloadPerTransaction<D>(sent: seq<Request<D>>) {
    forall i, j :: 0 <= i < |sent| && 0 <= j < |sent| && sent[i].tx == sent[j].tx ==> sent[i] == sent[j]
  }

  ghost predicate ReceiptsMatch<D, C>(s: System<D, C>) {
    var b := s.backend;
    && (forall t :: t in b.receipts ==> Request(t, b.receipts[t].payload) in s.sent)
    && (forall i :: 0 <= i < |b.applied| ==> b.applied[i] in b.receipts)
    && (forall t :: t in b.receipts ==> t in b.applied)
    && (forall i, j :: 0 <= i < j < |b.applied| ==> b.applied[i] != b.applied[j])
    && (forall i :: 0 <= i < |s.committed| ==> s.committed[i].tx in b.receipts)
  }

  ghost predicate SlotsSent<D, C>(s: System<D, C>) {
    var c := s.client;
    && OneAttempt(c)
    && (c.inFlight.Some? ==> c.inFlight.value.tx in s.used)
    && (c.retry.Some? ==> c.retry.value.tx in s.used)
    && (c.conflict.Some? ==> c.conflict.value.tx in s.used)
    && (forall i :: 0 <= i < |s.sent| ==> s.sent[i].tx in s.used)
    && SentAs(s.sent, c.inFlight) && SentAs(s.sent, c.retry) && SentAs(s.sent, c.conflict)
    && OnePayloadPerTransaction(s.sent)
  }

  ghost predicate WireInv<D, C>(s: System<D, C>) {
    SlotsSent(s) && ReceiptsMatch(s)
  }

  lemma RespondKeepsDrafts<D, C>(w: World<D, C>, s: System<D, C>, kind: FailureKind)
    requires DraftsInv(s) && Step(w, s, Respond(kind)).Some?
    ensures DraftsInv(Step(w, s, Respond(kind)).value)
  {
    var t := Step(w, s, Respond(kind)).value;
    var a := s.client.inFlight.value;
    assert t.committed == s.committed || t.committed == s.committed + [Commit(a.generation, a.tx)];
  }

  lemma FailKeepsDrafts<D, C>(w: World<D, C>, s: System<D, C>, kind: FailureKind)
    requires DraftsInv(s) && Step(w, s, Event.Fail(kind)).Some?
    ensures DraftsInv(Step(w, s, Event.Fail(kind)).value)
  {
  }

  lemma SendKeepsDrafts<D, C>(w: World<D, C>, s: System<D, C>)
    requires DraftsInv(s) && Step(w, s, Event.Send).Some?
    ensures DraftsInv(Step(w, s, Event.Send).value)
  {
  }

  lemma EditKeepsDrafts<D, C>(w: World<D, C>, s: System<D, C>, e: Event<D, C>)
    requires DraftsInv(s) && Step(w, s, e).Some? && (e.Queue? || e.Take? || e.Cancel? || e.Retry?)
    ensures DraftsInv(Step(w, s, e).value)
  {
  }

  lemma ResolveKeepsDrafts<D, C>(w: World<D, C>, s: System<D, C>, e: Event<D, C>)
    requires DraftsInv(s) && Step(w, s, e).Some? && (e.Reload? || e.Reapply?)
    ensures DraftsInv(Step(w, s, e).value)
  {
  }

  predicate Quiet<D, C>(e: Event<D, C>) {
    e.Announce? || e.Deliver? || e.Accept? || e.OtherClient? || e.ReportBlocked? || e.Dispose? || e.Stop?
  }

  lemma QuietChanges<D, C>(w: World<D, C>, s: System<D, C>, e: Event<D, C>)
    requires Step(w, s, e).Some? && Quiet(e)
    ensures var t := Step(w, s, e).value;
            && t == s.(client := t.client, store := t.store, backend := t.backend)
            && t.client == s.client.(phase := t.client.phase, disposed := t.client.disposed)
            && (t.client.phase.Saved? ==> s.client.phase.Saved?)
  {
  }

  lemma QuietKeepsDrafts<D, C>(w: World<D, C>, s: System<D, C>, e: Event<D, C>)
    requires DraftsInv(s) && Step(w, s, e).Some? && Quiet(e)
    ensures DraftsInv(Step(w, s, e).value)
  {
    var t := Step(w, s, e).value;
    QuietChanges(w, s, e);
    assert LastCommitted(t) == LastCommitted(s);
  }

  lemma DraftsStep<D, C>(w: World<D, C>, s: System<D, C>, e: Event<D, C>)
    requires DraftsInv(s) && Step(w, s, e).Some?
    ensures DraftsInv(Step(w, s, e).value)
  {
    if Quiet(e) {
      QuietKeepsDrafts(w, s, e);
    } else if e.Respond? {
      RespondKeepsDrafts(w, s, e.kind);
    } else if e.Fail? {
      FailKeepsDrafts(w, s, e.kind);
    } else if e.Send? {
      SendKeepsDrafts(w, s);
    } else if e.Reload? || e.Reapply? {
      ResolveKeepsDrafts(w, s, e);
    } else {
      EditKeepsDrafts(w, s, e);
    }
  }

  lemma SendKeepsSlots<D, C>(w: World<D, C>, s: System<D, C>)
    requires SlotsSent(s) && Step(w, s, Event.Send).Some?
    ensures SlotsSent(Step(w, s, Event.Send).value)
  {
  }

  lemma OutcomeKeepsSlots<D, C>(w: World<D, C>, s: System<D, C>, e: Event<D, C>)
    requires SlotsSent(s) && Step(w, s, e).Some? && (e.Respond? || e.Fail? || e.Cancel? || e.Retry?)
    ensures SlotsSent(Step(w, s, e).value)
  {
  }

  lemma SlotsStep<D, C>(w: World<D, C>, s: System<D, C>, e: Event<D, C>)
    requires SlotsSent(s) && Step(w, s, e).Some?
    ensures SlotsSent(Step(w, s, e).value)
  {
    if e.Send? {
      SendKeepsSlots(w, s);
    } else if e.Respond? || e.Fail? || e.Cancel? || e.Retry? {
      OutcomeKeepsSlots(w, s, e);
    }
  }

  lemma DeliverKeepsReceipts<D, C>(w: World<D, C>, s: System<D, C>, index: nat)
    requires ReceiptsMatch(s) && index < |s.sent|
    ensures ReceiptsMatch(s.(backend := Process(w, s.backend, s.sent[index])))
  {
    var b, b' := s.backend, Process(w, s.backend, s.sent[index]);
    if b' != b {
      assert b'.applied == b.applied + [s.sent[index].tx];
      assert forall tx :: tx in b'.receipts ==> tx == s.sent[index].tx || tx in b.receipts;
      assert b'.applied[|b.applied|] == s.sent[index].tx;
      forall tx | tx in b'.receipts ensures tx in b'.applied {
        if tx in b.receipts { assert tx in b.applied; }
      }
    }
  }

  lemma ReceiptsStep<D, C>(w: World<D, C>, s: System<D, C>, e: Event<D, C>)
    requires ReceiptsMatch(s) && Step(w, s, e).Some?
    ensures ReceiptsMatch(Step(w, s, e).value)
  {
    match e
    case Send =>
      var t := Step(w, s, e).value;
      forall tx | tx in t.backend.receipts
        ensures Request(tx, t.backend.receipts[tx].payload) in t.sent
      {
        assert Request(tx, s.backend.receipts[tx].payload) in s.sent;
      }
    case Deliver(index) => DeliverKeepsReceipts(w, s, index);
    case _ =>
  }

  // ----- Whole runs -----

  lemma {:induction false} RunKeeps<D, C>(w: World<D, C>, s: System<D, C>, events: seq<Event<D, C>>)
    requires DraftsInv(s) && WireInv(s) && Run(w, s, events).Some?
    ensures DraftsInv(Run(w, s, events).value) && WireInv(Run(w, s, events).value)
    decreases |events|
  {
    if events != [] {
      DraftsStep(w, s, events[0]);
      SlotsStep(w, s, events[0]);
      ReceiptsStep(w, s, events[0]);
      RunKeeps(w, Step(w, s, events[0]).value, events[1..]);
    }
  }

  lemma ReachableKeeps<D, C>(w: World<D, C>, current: C, store: Option<C>, events: seq<Event<D, C>>)
    requires Run(w, Initial(current, store), events).Some?
    ensures DraftsInv(Run(w, Initial(current, store), events).value)
    ensures WireInv(Run(w, Initial(current, store), events).value)
  {
    RunKeeps(w, Initial(current, store), events);
  }

  // The drafts a run queued, oldest first.
  function Queued<D, C>(events: seq<Event<D, C>>): seq<D> {
    if events == [] then []
    else (if events[0].Queue? then [events[0].draft] else []) + Queued(events[1..])
  }

  lemma StepHistory<D, C>(w: World<D, C>, s: System<D, C>, e: Event<D, C>)
    requires Step(w, s, e).Some?
    ensures var t := Step(w, s, e).value;
            && t.client.generation == s.client.generation + (if e.Queue? then 1 else 0)
            && t.newest == if e.Queue? then Some(e.draft) else s.newest
  {
  }

  lemma {:induction false} HistoryIsTheRun<D, C>(w: World<D, C>, s: System<D, C>, events: seq<Event<D, C>>)
    requires Run(w, s, events).Some?
    ensures var t, queued := Run(w, s, events).value, Queued(events);
            && t.client.generation == s.client.generation + |queued|
            && t.newest == if queued == [] then s.newest else Some(queued[|queued| - 1])
    decreases |events|
  {
    if events != [] {
      var next := Step(w, s, events[0]).value;
      StepHistory(w, s, events[0]);
      HistoryIsTheRun(w, next, events[1..]);
    }
  }

  // In every reachable state the draft slot holds the newest queued draft, or is empty because that
  // generation was committed or thrown away by a reload, or because nothing was ever queued.
  lemma NewestEditIsNeverForgotten<D, C>(w: World<D, C>, current: C, store: Option<C>, events: seq<Event<D, C>>)
    requires Run(w, Initial(current, store), events).Some?
    ensures var s, queued := Run(w, Initial(current, store), events).value, Queued(events);
            var c := s.client;
            && c.generation == |queued|
            && (c.latest.Some? ==> queued != [] && c.latest == Some(queued[|queued| - 1]))
            && (c.latest.None? && queued != [] ==>
                  || (s.committed != [] && s.committed[|s.committed| - 1].generation == |queued|)
                  || s.discarded == |queued|)
            && (c.pending ==> c.latest.Some?)
            && (c.phase.Saved? ==> c.latest.None?)
  {
    ReachableKeeps(w, current, store, events);
    HistoryIsTheRun(w, Initial(current, store), events);
  }

  // Every transaction ID is sent with one payload only, and the backend applies it at most once, with
  // that payload; published commits are applied transactions of strictly increasing generations.
  lemma EachTransactionOnce<D, C>(w: World<D, C>, current: C, store: Option<C>, events: seq<Event<D, C>>)
    requires Run(w, Initial(current, store), events).Some?
    ensures var s := Run(w, Initial(current, store), events).value;
            && OnePayloadPerTransaction(s.sent)
            && (forall i, j :: 0 <= i < j < |s.backend.applied| ==> s.backend.applied[i] != s.backend.applied[j])
            && (forall i, k :: 0 <= i < |s.backend.applied| && 0 <= k < |s.sent|
                               && s.sent[k].tx == s.backend.applied[i] ==>
                  s.backend.applied[i] in s.backend.receipts
                  && s.backend.receipts[s.backend.applied[i]].payload == s.sent[k].payload)
            && (forall i, j :: 0 <= i < j < |s.committed| ==>
                  s.committed[i].generation < s.committed[j].generation)
            && (forall i :: 0 <= i < |s.committed| ==> s.committed[i].tx in s.backend.applied)
  {
    ReachableKeeps(w, current, store, events);
    var s := Run(w, Initial(current, store), events).value;
    forall i, k | 0 <= i < |s.backend.applied| && 0 <= k < |s.sent| && s.sent[k].tx == s.backend.applied[i]
      ensures s.backend.applied[i] in s.backend.receipts
      ensures s.backend.receipts[s.backend.applied[i]].payload == s.sent[k].payload
    {
      var tx := s.backend.applied[i];
      assert Request(tx, s.backend.receipts[tx].payload) in s.sent;
      var j :| 0 <= j < |s.sent| && s.sent[j] == Request(tx, s.backend.receipts[tx].payload);
      assert s.sent[j] == s.sent[k];
    }
  }

  // A drain that stops with nothing parked, and with no save blocked or cancelled since the last edit,
  // has committed the newest generation (or a reload threw it away, or there was none).
  lemma IdleMeansCommitted<D, C>(w: World<D, C>, current: C, store: Option<C>, events: seq<Event<D, C>>)
    requires Run(w, Initial(current, store), events).Some?
    ensures var s := Run(w, Initial(current, store), events).value;
            var c, n := s.client, |Queued(events)|;
            c.inFlight.None? && !CanTake(c) && c.retry.None? && c.conflict.None? && !s.dropped ==>
              || n == 0
              || (s.committed != [] && s.committed[|s.committed| - 1].generation == n)
              || s.discarded == n
  {
    NewestEditIsNeverForgotten(w, current, store, events);
    ReachableKeeps(w, current, store, events);
  }

  // Delivering a request again never changes the backend a second time.
  lemma RedeliveryIsIdle<D, C>(w: World<D, C>, b: Backend<D, C>, r: Request<D>)
    ensures Process(w, Process(w, b, r), r) == Process(w, b, r)
  {
  }

  // Up to the send, a retry changes nothing but the phase, and puts the receipt's own payload on the wire again.
  lemma RetryResends<D, C>(w: World<D, C>, s: System<D, C>)
    requires DraftsInv(s) && WireInv(s)
    requires s.client.retry.Some? && s.client.inFlight.None? && !s.client.disposed
    requires s.client.retry.value.tx in s.backend.receipts
    ensures Step(w, s, Retry).Some? && Step(w, Step(w, s, Retry).value, Announce).Some?
    ensures var s2 := Step(w, Step(w, s, Retry).value, Announce).value;
            var request := Request(s.client.retry.value.tx, s.backend.receipts[s.client.retry.value.tx].payload);
            && Step(w, s2, Event.Send) ==
               Some(s.(client := s.client.(inFlight := s.client.retry, phase := Phase.Saving),
                       sent := s.sent + [request]))
            && s.client.retry.value.prepared == Some(request.payload)
  {
    var a, receipt := s.client.retry.value, s.backend.receipts[s.client.retry.value.tx];
    assert Request(a.tx, receipt.payload) in s.sent;
    assert a.prepared == Some(receipt.payload);
    var c := s.client.(inFlight := s.client.retry, phase := Phase.Saving);
    assert PrepareAttempt(c, receipt.payload) == c;
  }

  // Retrying an attempt whose first response was lost after the backend applied it replays the receipt:
  // the backend does not move and the commit published is that of the original application.
  lemma RetryReplays<D, C>(w: World<D, C>, s: System<D, C>, kind: FailureKind)
    requires DraftsInv(s) && WireInv(s)
    requires s.client.retry.Some? && s.client.inFlight.None? && !s.client.disposed
    requires s.client.retry.value.tx in s.backend.receipts
    ensures var a, receipt := s.client.retry.value, s.backend.receipts[s.client.retry.value.tx];
            var run := Run(w, s, [Retry, Announce, Send, Deliver(|s.sent|), Respond(kind)]);
            && run.Some?
            && run.value.backend == s.backend
            && run.value.sent == s.sent + [Request(a.tx, receipt.payload)]
            && run.value.store == Some(receipt.canonical)
            && (!RebaseThrows(w.rebase, s.client, receipt.canonical) ==>
                  run.value.committed == s.committed + [Commit(a.generation, a.tx)]
                  && run.value.client.retry.None?)
  {
    var a, receipt := s.client.retry.value, s.backend.receipts[s.client.retry.value.tx];
    RetryResends(w, s);
    var s1 := Step(w, s, Retry).value;
    var s2 := Step(w, s1, Announce).value;
    var s3 := Step(w, s2, Event.Send).value;
    ReplayedRespond(w, s3, kind);
    var s5 := Step(w, s3, Respond(kind)).value;
    var e5: seq<Event<D, C>> := [Respond(kind)] + [];
    var e4 := [Deliver(|s.sent|)] + e5;
    var e3 := [Event.Send] + e4;
    var e2 := [Announce] + e3;
    RunsThrough(w, s3, Respond(kind), s5, []);
    RunsThrough(w, s3, Deliver(|s.sent|), s3, e5);
    RunsThrough(w, s2, Event.Send, s3, e4);
    RunsThrough(w, s1, Announce, s2, e3);
    RunsThrough(w, s, Retry, s1, e2);
    assert [Retry] + e2 == [Retry, Announce, Send, Deliver(|s.sent|), Respond(kind)];
  }

  // The last request sent has a receipt: delivering it does nothing, and its response is the receipt's.
  lemma ReplayedRespond<D, C>(w: World<D, C>, s: System<D, C>, kind: FailureKind)
    requires s.client.inFlight.Some? && s.client.inFlight.value.prepared.Some? && s.sent != []
    requires s.client.inFlight.value.tx == s.sent[|s.sent| - 1].tx && s.client.inFlight.value.tx in s.backend.receipts
    ensures Step(w, s, Deliver(|s.sent| - 1)) == Some(s)
    ensures var a, receipt := s.client.inFlight.value, s.backend.receipts[s.client.inFlight.value.tx];
            var t := Step(w, s, Respond(kind));
            && t.Some? && t.value.backend == s.backend && t.value.sent == s.sent
            && t.value.store == Some(receipt.canonical)
            && (!RebaseThrows(w.rebase, s.client, receipt.canonical) ==>
                  t.value.committed == s.committed + [Commit(a.generation, a.tx)] && t.value.client.retry.None?)
  {
  }

  lemma RunsThrough<D, C>(w: World<D, C>, s: System<D, C>, e: Event<D, C>, t: System<D, C>, rest: seq<Event<D, C>>)
    requires Step(w, s, e) == Some(t)
    ensures Run(w, s, [e] + rest) == Run(w, t, rest)
  {
    assert ([e] + rest)[1..] == rest;
  }

  // The two parking slots do not exclude each other: a retry that meets a conflict fills both.
  lemma RetryAndConflictTogether<D, C>(w: World<D, C>, current: C, draft: D, tx: Tx)
    ensures var run := Run(w, Initial(current, None),
                           [Queue(draft), Take(tx), Event.Fail(Offline), Retry, Event.Fail(FailureKind.Conflict)]);
            run.Some? && run.value.client.retry.Some? && run.value.client.retry == run.value.client.conflict
  {
    var s0: System<D, C> := Initial(current, None);
    var s1 := Step(w, s0, Queue(draft)).value;
    var s2 := Step(w, s1, Take(tx)).value;
    var s3 := Step(w, s2, Event.Fail(Offline)).value;
    var s4 := Step(w, s3, Retry).value;
    var s5 := Step(w, s4, Event.Fail(FailureKind.Conflict)).value;
    RunsThrough(w, s4, Event.Fail(FailureKind.Conflict), s5, []);
    RunsThrough(w, s3, Retry, s4, [Event.Fail(FailureKind.Conflict)]);
    RunsThrough(w, s2, Event.Fail(Offline), s3, [Retry, Event.Fail(FailureKind.Conflict)]);
    RunsThrough(w, s1, Take(tx), s2, [Event.Fail(Offline), Retry, Event.Fail(FailureKind.Conflict)]);
    RunsThrough(w, s0, Queue(draft), s1, [Take(tx), Event.Fail(Offline), Retry, Event.Fail(FailureKind.Conflict)]);
  }

  // Reload must wait for the save in flight.  Run unguarded, the failure of that save brings the
  // discarded draft back.
  lemma ReloadDuringSaveResurrects<D, C>(w: World<D, C>, s: System<D, C>, canonical: C)
    requires DraftsInv(s) && s.client.inFlight.Some?
    ensures var unguarded := s.(client := Reloaded(s.client), store := Some(canonical),
                                discarded := s.client.generation);
            var failed := Step(w, unguarded, Event.Fail(Offline));
            && failed.Some?
            && failed.value.client.latest == Some(s.client.inFlight.value.draft)
            && !DraftsInv(failed.value)
  {
    var unguarded := s.(client := Reloaded(s.client), store := Some(canonical), discarded := s.client.generation);
    var failed := Step(w, unguarded, Event.Fail(Offline)).value;
    assert !AttemptCurrent(failed, failed.client.retry);
  }

  // Subscribers must not throw.  The commit is announced inside the try, so a subscriber that throws has the
  // attempt handled as a failed one as well: it is parked although its generation is committed already.
  lemma ThrowingSubscriberParksACommit<D, C>(w: World<D, C>, s: System<D, C>, kind: FailureKind)
    requires DraftsInv(s) && Step(w, s, Respond(kind)).Some?
    requires !RebaseThrows(w.rebase, s.client, s.backend.receipts[s.client.inFlight.value.tx].canonical)
    ensures var t := Step(w, s, Respond(kind)).value;
            var caught := t.(client := AttemptFailed(t.client.(inFlight := s.client.inFlight), Offline));
            && caught.client.retry == s.client.inFlight
            && caught.client.retry.value.generation == LastCommitted(caught)
            && !DraftsInv(caught)
  {
    var t := Step(w, s, Respond(kind)).value;
    var caught := t.(client := AttemptFailed(t.client.(inFlight := s.client.inFlight), Offline));
    assert !AttemptCurrent(caught, caught.client.retry);
  }
}
