/**
  The request/response correlator of the sidecar connection.

  Client is the correlator's shared state.  Its dictionaries are touched one operation at a time from the
  invoking tasks, cancellation callbacks and the read loop, so each Event is one such operation; a run is
  any interleaving of them.
 */
module JsonRpcClient {
  import opened Wrappers
  import opened JsonValues
  import opened Texts
  import Decimal

  datatype Id = Id(text: string)

  // ----- Inbound messages (JSON-RPC 2.0, sections 4 and 5) -----

  datatype Payload =
    | Success(result: Json)
    | RemoteError(code: int, message: string, data: Option<Json>)
    | NotExactlyOne
    | MalformedError

  datatype Inbound =
    | WrongVersion
    | BadResponseId
    | Response(id: Id, payload: Payload)
    | Notification(name: string, parameters: Option<Json>)
    | BadNotification

  function ClassifyPayload(m: seq<Member>): Payload {
    var result, error := Lookup(m, "result"), Lookup(m, "error");
    if result.Some? == error.Some? then NotExactlyOne
    else if result.Some? then Success(result.value)
    else if !error.value.JObject? then MalformedError
    else
      var e := error.value.members;
      var code, text := Lookup(e, "code"), Lookup(e, "message");
      if code.None? || !code.value.JInteger? || !(-0x8000_0000 <= code.value.whole < 0x8000_0000)
         || text.None? || !text.value.JString?
      then MalformedError
      else RemoteError(code.value.whole, text.value.text, Lookup(e, "data"))
  }

  function Classify(m: seq<Member>): Inbound {
    if Lookup(m, "jsonrpc") != Some(JString("2.0")) then WrongVersion
    else
      var id := Lookup(m, "id");
      if id.Some? then
        if !id.value.JString? || Blank(id.value.text) then BadResponseId
        else Response(Id(id.value.text), ClassifyPayload(m))
      else
        var name := Lookup(m, "method");
        if name.None? || !name.value.JString? || Blank(name.value.text) then BadNotification
        else Notification(name.value.text, Lookup(m, "params"))
  }

  predicate WellFormed(payload: Payload) {
    payload.Success? || payload.RemoteError?
  }

  // The members of the response a server sends, as section 5 of JSON-RPC 2.0 has it.
  function Reply(id: Id, payload: Payload): seq<Member>
    requires WellFormed(payload)
  {
    [Member("jsonrpc", JString("2.0")), Member("id", JString(id.text))] +
    (match payload
     case Success(result) => [Member("result", result)]
     case RemoteError(code, message, data) => [Member("error", JObject(ErrorMembers(code, message, data)))])
  }

  function ErrorMembers(code: int, message: string, data: Option<Json>): seq<Member> {
    [Member("code", JInteger(code)), Member("message", JString(message))] +
    (if data.Some? then [Member("data", data.value)] else [])
  }

  // Two lists have the same member of each of these names, or neither has one; other members are ignored.
  predicate Agree(m: seq<Member>, n: seq<Member>, names: seq<string>) {
    forall k :: 0 <= k < |names| ==> Lookup(m, names[k]) == Lookup(n, names[k])
  }

  // m says what the server's reply says: the same envelope, and the same result or the same error.
  predicate Says(m: seq<Member>, id: Id, payload: Payload)
    requires WellFormed(payload)
  {
    var reply := Reply(id, payload);
    && Agree(m, reply, ["jsonrpc", "id", "result"])
    && (payload.Success? ==> Agree(m, reply, ["error"]))
    && (payload.RemoteError? ==>
          && Lookup(m, "error").Some? && Lookup(m, "error").value.JObject?
          && Agree(Lookup(m, "error").value.members, ErrorMembers(payload.code, payload.message, payload.data),
                   ["code", "message", "data"]))
  }

  lemma ReplyMembers(id: Id, payload: Payload)
    requires WellFormed(payload)
    ensures var r := Reply(id, payload);
            && Lookup(r, "jsonrpc") == Some(JString("2.0")) && Lookup(r, "id") == Some(JString(id.text))
            && Lookup(r, "result") == (if payload.Success? then Some(payload.result) else None)
            && Lookup(r, "error") ==
               if payload.Success? then None
               else Some(JObject(ErrorMembers(payload.code, payload.message, payload.data)))
  {
    var r := Reply(id, payload);
    var last := r[2..];
    assert r[1..][1..] == last && last[1..] == [];
    assert "jsonrpc"[0] == 'j' && "id"[0] == 'i' && "result"[0] == 'r' && "error"[0] == 'e';
    assert Lookup(last[1..], "result") == None && Lookup(last[1..], "error") == None;
    assert Lookup(r[1..], "result") == Lookup(last, "result") && Lookup(r[1..], "error") == Lookup(last, "error");
  }

  lemma ErrorLookups(code: int, message: string, data: Option<Json>)
    ensures var e := ErrorMembers(code, message, data);
            && Lookup(e, "code") == Some(JInteger(code)) && Lookup(e, "message") == Some(JString(message))
            && Lookup(e, "data") == data
  {
    var e := ErrorMembers(code, message, data);
    var last := if data.Some? then [Member("data", data.value)] else [];
    assert e[1..][1..] == last;
    assert "code"[0] == 'c' && "message"[0] == 'm' && "data"[0] == 'd';
    assert Lookup(last, "data") == data;
    assert Lookup(e[1..], "data") == data;
  }

  // m is the answer of some server: it says what a reply says, under an identifier that is not blank and with a
  // 32-bit code.
  predicate Answers(m: seq<Member>, id: Id, payload: Payload) {
    && WellFormed(payload) && Says(m, id, payload) && !Blank(id.text)
    && (payload.RemoteError? ==> -0x8000_0000 <= payload.code < 0x8000_0000)
  }

  // m answers that request, well or not.
  predicate RespondsTo(m: seq<Member>, id: Id) {
    Agree(m, Reply(id, Success(JNull)), ["jsonrpc", "id"]) && !Blank(id.text)
  }

  // The members of a notification, as section 4.1 of JSON-RPC 2.0 has it.
  function Notice(name: string, parameters: Option<Json>): seq<Member> {
    [Member("jsonrpc", JString("2.0")), Member("method", JString(name))] +
    (if parameters.Some? then [Member("params", parameters.value)] else [])
  }

  predicate Notifies(m: seq<Member>, name: string, parameters: Option<Json>) {
    Agree(m, Notice(name, parameters), ["jsonrpc", "id", "method", "params"]) && !Blank(name)
  }

  // A message is taken as a response exactly when it says what some server's reply says, under an identifier that
  // is not blank and with a 32-bit code; order and further members make no difference.
  lemma ClassifiesExactly(m: seq<Member>, id: Id, payload: Payload)
    requires WellFormed(payload)
    ensures Classify(m) == Response(id, payload) <==> Answers(m, id, payload)
  {
    ReplyMembers(id, payload);
    var envelope, error := ["jsonrpc", "id", "result"], ["error"];
    assert envelope[0] == "jsonrpc" && envelope[1] == "id" && envelope[2] == "result" && error[0] == "error";
    if payload.RemoteError? {
      ErrorLookups(payload.code, payload.message, payload.data);
      var names := ["code", "message", "data"];
      assert names[0] == "code" && names[1] == "message" && names[2] == "data";
    }
  }

  // It is taken as a response to that request at all exactly when it agrees with a reply in version and identifier.
  lemma AddressesExactly(m: seq<Member>, id: Id)
    ensures Classify(m).Response? && Classify(m).id == id <==> RespondsTo(m, id)
  {
    ReplyMembers(id, Success(JNull));
    var names := ["jsonrpc", "id"];
    assert names[0] == "jsonrpc" && names[1] == "id";
  }

  // And as a notification exactly when it agrees with one, under a name that is not blank.
  lemma NotifiesExactly(m: seq<Member>, name: string, parameters: Option<Json>)
    ensures Classify(m) == Notification(name, parameters) <==> Notifies(m, name, parameters)
  {
    NoticeMembers(name, parameters);
    var names := ["jsonrpc", "id", "method", "params"];
    assert names[0] == "jsonrpc" && names[1] == "id" && names[2] == "method" && names[3] == "params";
  }

  lemma NoticeMembers(name: string, parameters: Option<Json>)
    ensures var n := Notice(name, parameters);
            && Lookup(n, "jsonrpc") == Some(JString("2.0")) && Lookup(n, "id") == None
            && Lookup(n, "method") == Some(JString(name)) && Lookup(n, "params") == parameters
  {
    var n := Notice(name, parameters);
    var last := if parameters.Some? then [Member("params", parameters.value)] else [];
    assert n[1..][1..] == last && (last != [] ==> last[1..] == []);
    assert "jsonrpc"[0] == 'j' && "id"[0] == 'i' && "method"[0] == 'm' && "params"[0] == 'p';
    assert Lookup(last, "id") == None && Lookup(last, "params") == parameters;
    assert Lookup(n[1..], "id") == Lookup(last, "id") && Lookup(n[1..], "params") == Lookup(last, "params");
  }

  // A reply is received as it was sent.
  lemma RepliesAreReceived(id: Id, payload: Payload)
    requires WellFormed(payload) && !Blank(id.text)
    requires payload.RemoteError? ==> -0x8000_0000 <= payload.code < 0x8000_0000
    ensures Classify(Reply(id, payload)) == Response(id, payload)
  {
    ReplyMembers(id, payload);
    ClassifiesExactly(Reply(id, payload), id, payload);
  }

  // ----- State -----

  datatype Settlement = Completed(payload: Payload) | Cancelled | ResponseNotReceived | Failed

  // Checked: the response is not that of a recorded cancellation; Found: its request was looked up and the
  // payload accepted, and only the removal is left.
  datatype Reader = Idle | Checked(id: Id, payload: Payload) | Found(id: Id, payload: Payload) | Closed | Faulted

  // entering: invocations that have passed the check for an open connection but are not registered yet.
  // unrecorded: requests a cancellation has removed but not yet recorded as cancelled.
  datatype Client = Client(
    sequence: nat,
    entering: nat,
    accepting: bool,
    disposed: bool,
    pending: set<Id>,
    unrecorded: set<Id>,
    cancelled: set<Id>,
    settled: map<Id, Settlement>,
    reader: Reader)

  // writing, written and answered are the other end: requests being written, written in full, and answered.
  datatype System = System(client: Client, writing: set<Id>, written: set<Id>, answered: set<Id>)

  datatype Event =
    | Enter
    | Register
    | WriteDone(id: Id)
    | WriteFailed(id: Id)
    | CancelRemove(id: Id)
    | CancelRecord(id: Id)
    | Receive(message: seq<Member>)
    | Find
    | Complete
    | StreamClosed
    | StreamFaulted
    | Dispose
    | ReaderStopped

  function RequestId(n: nat): Id {
    Id(Decimal.Name("request-", n))
  }

  lemma FirstRequestId()
    ensures RequestId(1).text == "request-1" && RequestId(10).text == "request-10"
  {
    assert Decimal.Numeral(10) == Decimal.Numeral(1) + "0";
  }

  function Initial(): System {
    System(Client(0, 0, true, false, {}, {}, {}, map[], Idle), {}, {}, {})
  }

  // ----- Operations -----

  function Swept(settled: map<Id, Settlement>, ids: set<Id>, how: Settlement): map<Id, Settlement> {
    settled + (map id <- ids :: how)
  }

  function FailPending(c: Client, how: Settlement): Client {
    c.(pending := {}, settled := Swept(c.settled, c.pending, how))
  }

  function Fault(c: Client): Client {
    FailPending(c, Failed).(accepting := false, reader := Faulted)
  }

  function AddPending(c: Client): Client {
    var id := RequestId(c.sequence + 1);
    c.(sequence := c.sequence + 1,
       entering := if c.entering > 0 then c.entering - 1 else 0,
       pending := c.pending + {id})
  }

  function Settle(c: Client, id: Id, how: Settlement): Client {
    c.(pending := c.pending - {id}, settled := c.settled[id := how])
  }

  // CancelPending's two operations.
  function StartCancel(c: Client, id: Id): Client {
    c.(pending := c.pending - {id}, unrecorded := c.unrecorded + {id})
  }

  function RecordCancel(c: Client, id: Id): Client {
    c.(unrecorded := c.unrecorded - {id}, cancelled := c.cancelled + {id}, settled := c.settled[id := Cancelled])
  }

  // The first step on a message: everything that needs no pending request.
  function ReceiveMessage(c: Client, inbound: Inbound): Client {
    match inbound
    case Notification(_, _) => c
    case Response(id, payload) =>
      if id in c.cancelled then c.(cancelled := c.cancelled - {id}) else c.(reader := Checked(id, payload))
    case _ => Fault(c)
  }

  function FindPending(c: Client): Client
    requires c.reader.Checked?
  {
    if c.reader.id !in c.pending || !WellFormed(c.reader.payload) then Fault(c)
    else c.(reader := Found(c.reader.id, c.reader.payload))
  }

  function CompletePending(c: Client): Client
    requires c.reader.Found?
  {
    var id := c.reader.id;
    if id in c.pending then Settle(c, id, Completed(c.reader.payload)).(reader := Idle)
    else if id in c.cancelled then c.(cancelled := c.cancelled - {id}, reader := Idle)
    else Fault(c)
  }

  function Step(s: System, e: Event): Option<System> {
    var c := s.client;
    match e
    case Enter =>
      if c.accepting && !c.disposed then Some(s.(client := c.(entering := c.entering + 1))) else None
    case Register =>
      if c.entering == 0 || RequestId(c.sequence + 1) in c.pending then None
      else Some(s.(client := AddPending(c), writing := s.writing + {RequestId(c.sequence + 1)}))
    case WriteDone(id) =>
      if id !in s.writing then None
      else Some(s.(writing := s.writing - {id}, written := s.written + {id}))
    case WriteFailed(id) =>
      if id !in s.writing then None
      else Some(s.(writing := s.writing - {id},
                   client := if id in c.pending then Settle(c, id, ResponseNotReceived) else c))
    case CancelRemove(id) =>
      if id !in c.pending then None
      else Some(s.(client := StartCancel(c, id)))
    case CancelRecord(id) =>
      if id !in c.unrecorded then None
      else Some(s.(client := RecordCancel(c, id)))
    case Receive(message) =>
      if !c.reader.Idle? then None
      else
        var inbound := Classify(message);
        Some(s.(client := ReceiveMessage(c, inbound),
                answered := if inbound.Response? then s.answered + {inbound.id} else s.answered))
    case Find => if !c.reader.Checked? then None else Some(s.(client := FindPending(c)))
    case Complete => if !c.reader.Found? then None else Some(s.(client := CompletePending(c)))
    case StreamClosed =>
      if !c.reader.Idle? then None
      else Some(s.(client := FailPending(c, ResponseNotReceived).(accepting := false, reader := Closed)))
    case StreamFaulted => if !c.reader.Idle? then None else Some(s.(client := Fault(c)))
    case Dispose =>
      if c.disposed then None
      else Some(s.(client := FailPending(c, Failed).(accepting := false, disposed := true)))
    case ReaderStopped =>
      if c.disposed && c.reader.Idle? then Some(s.(client := c.(reader := Closed))) else None
  }

  function Run(s: System, events: seq<Event>): Option<System>
    decreases |events|
  {
    if events == [] then Some(s)
    else
      var next := Step(s, events[0]);
      if next.None? then None else Run(next.value, events[1..])
  }

  // ----- Accounting -----

  function IssuedUpTo(n: nat): set<Id> {
    if n == 0 then {} else IssuedUpTo(n - 1) + {RequestId(n)}
  }

  lemma {:induction false} IssuedAreNumbered(n: nat, k: nat)
    requires RequestId(k) in IssuedUpTo(n)
    ensures 1 <= k <= n
  {
    if RequestId(k) == RequestId(n) {
      Decimal.NameInjective("request-", k, n);
    } else {
      IssuedAreNumbered(n - 1, k);
    }
  }

  // Every issued request is in exactly one place: pending, being cancelled, or settled.
  ghost predicate Accounted(c: Client) {
    && IssuedUpTo(c.sequence) == c.pending + c.unrecorded + c.settled.Keys
    && c.pending !! c.unrecorded && c.pending !! c.settled.Keys && c.unrecorded !! c.settled.Keys
    && (forall id <- c.cancelled :: id in c.settled && c.settled[id] == Cancelled)
  }

  // Settlements are final.
  ghost predicate Extends(later: map<Id, Settlement>, earlier: map<Id, Settlement>) {
    forall id <- earlier :: id in later && later[id] == earlier[id]
  }

  // What ends the connection.
  predicate Ends(c: Client, d: Client) {
    || (d.reader.Closed? && !c.reader.Closed? && !c.disposed)
    || (d.reader.Faulted? && !c.reader.Faulted?)
    || (d.disposed && !c.disposed)
  }

  ghost predicate AllSettled(c: Client, d: Client) {
    d.pending == {} && c.pending <= d.settled.Keys
  }

  // One operation takes c to d: the accounts balance, no settlement changes, and an ending settles all.
  ghost predicate Balanced(c: Client, d: Client) {
    Accounted(d) && Extends(d.settled, c.settled) && (Ends(c, d) ==> AllSettled(c, d))
  }

  lemma RegisterAccounts(c: Client)
    requires Accounted(c)
    ensures Balanced(c, AddPending(c)) && RequestId(c.sequence + 1) !in c.pending
  {
    if RequestId(c.sequence + 1) in IssuedUpTo(c.sequence) {
      IssuedAreNumbered(c.sequence, c.sequence + 1);
    }
    assert IssuedUpTo(c.sequence + 1) == IssuedUpTo(c.sequence) + {RequestId(c.sequence + 1)};
  }

  lemma SettleAccounts(c: Client, id: Id, how: Settlement)
    requires Accounted(c) && id in c.pending && how != Cancelled
    ensures Balanced(c, Settle(c, id, how))
  {
    assert Settle(c, id, how).settled.Keys == c.settled.Keys + {id};
  }

  lemma CancelAccounts(c: Client, id: Id)
    requires Accounted(c)
    ensures id in c.pending ==> Balanced(c, StartCancel(c, id))
    ensures id in c.unrecorded ==> Balanced(c, RecordCancel(c, id))
  {
    assert RecordCancel(c, id).settled.Keys == c.settled.Keys + {id};
  }

  lemma EndAccounts(c: Client, d: Client, how: Settlement)
    requires Accounted(c) && how != Cancelled
    requires d == FailPending(c, how).(accepting := d.accepting, disposed := d.disposed, reader := d.reader)
    ensures Balanced(c, d)
    ensures forall id <- c.pending :: d.settled[id] == how
  {
    assert d.settled.Keys == c.settled.Keys + c.pending;
  }

  lemma ReceiveAccounts(c: Client, inbound: Inbound)
    requires Accounted(c)
    ensures Balanced(c, ReceiveMessage(c, inbound))
  {
    EndAccounts(c, Fault(c), Failed);
  }

  lemma FindAccounts(c: Client)
    requires Accounted(c) && c.reader.Checked?
    ensures Balanced(c, FindPending(c))
  {
    EndAccounts(c, Fault(c), Failed);
  }

  lemma CompleteAccounts(c: Client)
    requires Accounted(c) && c.reader.Found?
    ensures Balanced(c, CompletePending(c))
  {
    EndAccounts(c, Fault(c), Failed);
    if c.reader.id in c.pending {
      SettleAccounts(c, c.reader.id, Completed(c.reader.payload));
    }
  }

  // Whatever one operation does, the accounts balance.
  lemma StepAccounts(s: System, e: Event)
    requires Accounted(s.client) && Step(s, e).Some?
    ensures Balanced(s.client, Step(s, e).value.client)
  {
    var c := s.client;
    var d := Step(s, e).value.client;
    match e {
      case Register => RegisterAccounts(c);
      case WriteFailed(id) => if id in c.pending { SettleAccounts(c, id, ResponseNotReceived); }
      case CancelRemove(id) => CancelAccounts(c, id);
      case CancelRecord(id) => CancelAccounts(c, id);
      case StreamClosed => EndAccounts(c, d, ResponseNotReceived);
      case StreamFaulted => EndAccounts(c, d, Failed);
      case Dispose => EndAccounts(c, d, Failed);
      case Receive(message) => ReceiveAccounts(c, Classify(message));
      case Find => FindAccounts(c);
      case Complete => CompleteAccounts(c);
      case _ =>
    }
  }

  // In every run the accounts balance, and what was settled stays settled that way.
  lemma {:induction false} RunAccounts(s: System, events: seq<Event>)
    requires Accounted(s.client) && Run(s, events).Some?
    ensures Accounted(Run(s, events).value.client)
    ensures Extends(Run(s, events).value.client.settled, s.client.settled)
    decreases |events|
  {
    if events != [] {
      StepAccounts(s, events[0]);
      RunAccounts(Step(s, events[0]).value, events[1..]);
    }
  }

  /**
    Request accounting over every interleaving: the issued identifiers are exactly the disjoint union of the
    pending, the half-cancelled and the settled, and none is both pending and recorded as cancelled.
   */
  lemma EveryRequestIsAccountedFor(events: seq<Event>)
    requires Run(Initial(), events).Some?
    ensures var c := Run(Initial(), events).value.client;
            && IssuedUpTo(c.sequence) == c.pending + c.unrecorded + c.settled.Keys
            && c.pending !! c.unrecorded && c.pending !! c.settled.Keys && c.unrecorded !! c.settled.Keys
            && c.pending !! c.cancelled
  {
    RunAccounts(Initial(), events);
  }

  // ----- Late entrants -----

  // Once the connection is closed with no invocation half-way in, nothing is ever pending again.
  ghost predicate Drained(c: Client) {
    !c.accepting && c.entering == 0 && c.pending == {}
  }

  lemma {:induction false} ClosedStaysDrained(s: System, events: seq<Event>)
    requires Drained(s.client) && Run(s, events).Some?
    ensures Drained(Run(s, events).value.client)
    ensures Run(s, events).value.client.sequence == s.client.sequence
    decreases |events|
  {
    if events != [] {
      ClosedStaysDrained(Step(s, events[0]).value, events[1..]);
    }
  }

  ghost predicate NeverPendingAgain(s: System) {
    forall events :: Run(s, events).Some? ==> Run(s, events).value.client.pending == {}
  }

  // Whatever ends the connection settles what is pending; those entering are still to come.
  lemma EndClears(s: System, e: Event)
    requires Accounted(s.client) && Step(s, e).Some? && Ends(s.client, Step(s, e).value.client)
    ensures var t := Step(s, e).value.client;
            Accounted(t) && !t.accepting && t.pending == {} && t.entering == s.client.entering
  {
    StepAccounts(s, e);
  }

  /**
    The end of the connection leaves nothing pending for good, whatever happens next, if and only if no invocation
    was between its check for an open connection and its registration: such a one registers afterwards.
   */
  lemma EndSettlesUnlessOneIsEntering(s: System, e: Event)
    requires Accounted(s.client) && Step(s, e).Some? && Ends(s.client, Step(s, e).value.client)
    ensures NeverPendingAgain(Step(s, e).value) <==> s.client.entering == 0
  {
    EndClears(s, e);
    NeverPendingAgainExactly(Step(s, e).value);
  }

  lemma NeverPendingAgainExactly(t: System)
    requires Accounted(t.client) && !t.client.accepting && t.client.pending == {}
    ensures NeverPendingAgain(t) <==> t.client.entering == 0
  {
    if t.client.entering == 0 {
      forall events | Run(t, events).Some? ensures Run(t, events).value.client.pending == {} {
        ClosedStaysDrained(t, events);
      }
    } else {
      RegisterAccounts(t.client);
      assert Run(t, [Register]) == Step(t, Register) by {
        assert [Register][1..] == [];
      }
      assert RequestId(t.client.sequence + 1) in Run(t, [Register]).value.client.pending;
    }
  }

  // ----- Late responses -----

  // A server that answers each request at most once, only if it was written, and as section 5 has it.
  predicate Lawful(s: System, e: Event) {
    if !e.Receive? then true
    else match Classify(e.message)
      case Notification(_, _) => true
      case Response(id, payload) => WellFormed(payload) && id in s.written && id !in s.answered
      case _ => false
  }

  // A run with a lawful server, no stream error and no disposal.
  predicate Served(s: System, events: seq<Event>)
    decreases |events|
  {
    if events == [] then true
    else
      && Lawful(s, events[0]) && !events[0].StreamFaulted? && !events[0].Dispose?
      && (Step(s, events[0]).Some? ==> Served(Step(s, events[0]).value, events[1..]))
  }

  function Awaited(c: Client): set<Id> {
    c.pending + c.unrecorded + c.cancelled
  }

  predicate Busy(r: Reader) {
    r.Checked? || r.Found?
  }

  // While the reader works, every request still to be answered is awaited, and so is the one in hand.
  ghost predicate Placed(s: System) {
    var c := s.client;
    && Accounted(c)
    && s.writing + s.written <= IssuedUpTo(c.sequence)
    && s.writing !! s.written
    && s.answered <= s.written
    && (!c.reader.Closed? && !c.reader.Faulted? ==> s.writing + (s.written - s.answered) <= Awaited(c))
    && (Busy(c.reader) ==> && c.reader.id in s.answered && c.reader.id in Awaited(c) && WellFormed(c.reader.payload))
  }

  // A cancellation that runs between the two look-ups for the response in hand, or is half done when its
  // own response is looked at or completed.
  predicate Overlap(s: System, e: Event) {
    var c := s.client;
    || (e.CancelRemove? && c.reader.Checked? && c.reader.id == e.id)
    || (e.Receive? && Classify(e.message).Response? && Classify(e.message).id in c.unrecorded)
    || (e.Complete? && c.reader.Found? && c.reader.id in c.unrecorded)
  }

  predicate Overlapped(s: System, events: seq<Event>)
    decreases |events|
  {
    if events == [] then false
    else
      var next := Step(s, events[0]);
      Overlap(s, events[0]) || (next.Some? && Overlapped(next.value, events[1..]))
  }

  // The reader has faulted, or holds a response it is bound to fault on: the look-up can no longer succeed.
  predicate Lost(c: Client) {
    c.reader.Faulted? || (c.reader.Checked? && c.reader.id !in c.pending)
  }

  lemma RegisterPlaces(s: System)
    requires Placed(s) && Step(s, Register).Some?
    ensures Placed(Step(s, Register).value)
  {
    var c := s.client;
    RegisterAccounts(c);
    IssuedSoFar(c.sequence);
    var t := Step(s, Register).value;
    assert Awaited(c) <= Awaited(t.client);
    assert RequestId(c.sequence + 1) in Awaited(t.client);
    assert RequestId(c.sequence + 1) !in s.written;
  }

  lemma IssuedSoFar(n: nat)
    ensures IssuedUpTo(n + 1) == IssuedUpTo(n) + {RequestId(n + 1)}
    ensures RequestId(n + 1) !in IssuedUpTo(n)
  {
    if RequestId(n + 1) in IssuedUpTo(n) {
      IssuedAreNumbered(n, n + 1);
    }
  }

  lemma StepPlaces(s: System, e: Event)
    requires Placed(s) && Step(s, e).Some? && Lawful(s, e) && !e.StreamFaulted? && !e.Dispose?
    ensures Placed(Step(s, e).value)
  {
    StepAccounts(s, e);
    if e.Register? {
      RegisterPlaces(s);
    }
  }

  lemma StepLoses(s: System, e: Event)
    requires Placed(s) && Step(s, e).Some? && Lawful(s, e) && !e.StreamFaulted? && !e.Dispose?
    ensures Lost(Step(s, e).value.client) <==> Lost(s.client) || Overlap(s, e)
  {
    match e {
      case Register => IssuedSoFar(s.client.sequence);
      case Receive(message) => ReceiveLoses(s, Classify(message));
      case CancelRemove(_) => CancelLoses(s, e);
      case Complete => CompleteLoses(s);
      case _ =>
    }
  }

  lemma CancelLoses(s: System, e: Event)
    requires Placed(s) && e.CancelRemove? && Step(s, e).Some?
    ensures Lost(Step(s, e).value.client) <==> Lost(s.client) || Overlap(s, e)
  {
  }

  lemma CompleteLoses(s: System)
    requires Placed(s) && Step(s, Complete).Some?
    ensures Lost(Step(s, Complete).value.client) <==> Overlap(s, Complete)
  {
  }

  lemma ReceiveLoses(s: System, inbound: Inbound)
    requires Placed(s) && s.client.reader.Idle?
    requires inbound.Notification? || (inbound.Response? && inbound.id in s.written && inbound.id !in s.answered)
    ensures Lost(ReceiveMessage(s.client, inbound)) <==> inbound.Response? && inbound.id in s.client.unrecorded
  {
    if inbound.Response? {
      assert inbound.id in Awaited(s.client);
    }
  }

  /**
    Against a lawful server the read loop faults, or is bound to at its next look-up, exactly when some
    cancellation overlapped the handling of its own response.
   */
  lemma {:induction false} OnlyOverlapsFault(s: System, events: seq<Event>)
    requires Placed(s) && Served(s, events) && Run(s, events).Some?
    ensures Lost(Run(s, events).value.client) <==> Lost(s.client) || Overlapped(s, events)
    decreases |events|
  {
    if events != [] {
      StepPlaces(s, events[0]);
      StepLoses(s, events[0]);
      OnlyOverlapsFault(Step(s, events[0]).value, events[1..]);
    }
  }

  // So from a fresh client, and a reader that has not faulted yet does so at its next step, a look-up, exactly
  // when there was an overlap.
  lemma LateResponsesFaultExactlyOnOverlap(events: seq<Event>)
    requires Served(Initial(), events) && Run(Initial(), events).Some?
    ensures var s := Run(Initial(), events).value;
            && (Lost(s.client) <==> Overlapped(Initial(), events))
            && (s.client.reader.Checked? ==>
                  (Step(s, Find).value.client.reader.Faulted? <==> Overlapped(Initial(), events)))
            && (!s.client.reader.Checked? ==> (s.client.reader.Faulted? <==> Overlapped(Initial(), events)))
  {
    OnlyOverlapsFault(Initial(), events);
    RunPlaces(Initial(), events);
  }

  lemma {:induction false} RunPlaces(s: System, events: seq<Event>)
    requires Placed(s) && Served(s, events) && Run(s, events).Some?
    ensures Placed(Run(s, events).value)
    decreases |events|
  {
    if events != [] {
      StepPlaces(s, events[0]);
      RunPlaces(Step(s, events[0]).value, events[1..]);
    }
  }

  // CancelPending's two operations, and the two look-ups of a response, each run without interruption.
  predicate Uninterrupted(s: System, events: seq<Event>)
    decreases |events|
  {
    if events == [] then true
    else
      && (s.client.unrecorded != {} ==> events[0].CancelRecord?)
      && (s.client.reader.Checked? ==> events[0].Find?)
      && (Step(s, events[0]).Some? ==> Uninterrupted(Step(s, events[0]).value, events[1..]))
  }

  lemma {:induction false} UninterruptedNeverOverlaps(s: System, events: seq<Event>)
    requires Uninterrupted(s, events) && Run(s, events).Some?
    ensures !Overlapped(s, events)
    decreases |events|
  {
    if events != [] {
      UninterruptedNeverOverlaps(Step(s, events[0]).value, events[1..]);
    }
  }

  // Then late responses are harmless, however cancellations fall between the steps.
  lemma LateResponsesAreHarmless(events: seq<Event>)
    requires Served(Initial(), events) && Run(Initial(), events).Some? && Uninterrupted(Initial(), events)
    ensures !Run(Initial(), events).value.client.reader.Faulted?
  {
    LateResponsesFaultExactlyOnOverlap(events);
    UninterruptedNeverOverlaps(Initial(), events);
  }

  // A cancellation between the two look-ups faults the connection, even one that is a single step itself.
  function Answer(id: Id): seq<Member> {
    Reply(id, Success(JNull))
  }

  lemma CancellationBetweenLookUpsFaults()
    ensures var id := RequestId(1);
            var events := [Enter, Register, WriteDone(id), Receive(Answer(id)),
                           CancelRemove(id), CancelRecord(id), Find];
            && Served(Initial(), events)
            && Run(Initial(), events).Some?
            && Run(Initial(), events).value.client.reader.Faulted?
  {
    var id := RequestId(1);
    assert !White(id.text[0]);
    RepliesAreReceived(id, Success(JNull));
    var s1 := Step(Initial(), Enter).value;
    var s2 := Step(s1, Register).value;
    var s3 := Step(s2, WriteDone(id)).value;
    var s4 := Step(s3, Receive(Answer(id))).value;
    var s5 := Step(s4, CancelRemove(id)).value;
    var s6 := Step(s5, CancelRecord(id)).value;
    assert s6.client.reader == Checked(id, Success(JNull));
    var s7 := Step(s6, Find).value;
    var e7: seq<Event> := [Find] + [];
    var e6 := [CancelRecord(id)] + e7;
    var e5 := [CancelRemove(id)] + e6;
    var e4 := [Receive(Answer(id))] + e5;
    var e3 := [WriteDone(id)] + e4;
    var e2 := [Register] + e3;
    RunsTo(s6, s7, Find, []);
    RunsTo(s5, s6, CancelRecord(id), e7);
    RunsTo(s4, s5, CancelRemove(id), e6);
    RunsTo(s3, s4, Receive(Answer(id)), e5);
    RunsTo(s2, s3, WriteDone(id), e4);
    RunsTo(s1, s2, Register, e3);
    RunsTo(Initial(), s1, Enter, e2);
    assert [Enter] + e2
           == [Enter, Register, WriteDone(id), Receive(Answer(id)), CancelRemove(id), CancelRecord(id), Find];
  }

  lemma RunsTo(s: System, t: System, e: Event, rest: seq<Event>)
    requires Step(s, e) == Some(t)
    ensures Run(s, [e] + rest) == Run(t, rest)
    ensures Served(s, [e] + rest) <==> Lawful(s, e) && !e.StreamFaulted? && !e.Dispose? && Served(t, rest)
  {
    assert ([e] + rest)[1..] == rest;
  }

  // ----- Answers -----

  // The responses among some inbound messages.
  function Responses(events: seq<Event>): set<(Id, Payload)>
    decreases |events|
  {
    if events == [] then {} else Responses(events[..|events| - 1]) + ResponseIn(events[|events| - 1])
  }

  function ResponseIn(e: Event): set<(Id, Payload)> {
    if !e.Receive? then {}
    else
      match Classify(e.message)
      case Response(id, payload) => {(id, payload)}
      case _ => {}
  }

  // Completed requests, and the response in hand, have what was received under their own identifier.
  ghost predicate Attributed(c: Client, received: set<(Id, Payload)>) {
    && (forall id <- c.settled :: c.settled[id].Completed? ==>
          (id, c.settled[id].payload) in received && WellFormed(c.settled[id].payload))
    && (Busy(c.reader) ==> (c.reader.id, c.reader.payload) in received)
    && (c.reader.Found? ==> WellFormed(c.reader.payload))
  }

  lemma StepAttributes(s: System, e: Event, received: set<(Id, Payload)>)
    requires Attributed(s.client, received) && Step(s, e).Some?
    ensures Attributed(Step(s, e).value.client, received + ResponseIn(e))
  {
    if e.Receive? {
      ReceiveAttributes(s.client, e, received);
    }
  }

  lemma ReceiveAttributes(c: Client, e: Event, received: set<(Id, Payload)>)
    requires Attributed(c, received) && e.Receive?
    ensures Attributed(ReceiveMessage(c, Classify(e.message)), received + ResponseIn(e))
  {
    match Classify(e.message) {
      case Response(id, payload) => assert (id, payload) in ResponseIn(e);
      case _ =>
    }
  }

  lemma {:induction false} RunAppends(s: System, events: seq<Event>, e: Event)
    ensures Run(s, events + [e]) == if Run(s, events).None? then None else Step(Run(s, events).value, e)
    decreases |events|
  {
    if events == [] {
      assert [] + [e] == [e] && [e][1..] == [];
    } else {
      assert (events + [e])[1..] == events[1..] + [e];
      var next := Step(s, events[0]);
      if next.Some? {
        RunAppends(next.value, events[1..], e);
      }
    }
  }

  // A caller's result or remote error is a well-formed response that arrived under the caller's own request ID.
  lemma {:induction false} AnswersAreTheirOwn(events: seq<Event>)
    requires Run(Initial(), events).Some?
    ensures Attributed(Run(Initial(), events).value.client, Responses(events))
    decreases |events|
  {
    if events != [] {
      var init, last := events[..|events| - 1], events[|events| - 1];
      assert events == init + [last];
      RunAppends(Initial(), init, last);
      AnswersAreTheirOwn(init);
      StepAttributes(Run(Initial(), init).value, last, Responses(init));
    }
  }

  // ----- The client -----

  // The task a caller of InvokeAsync awaits: only the first settlement takes.
  class PendingRequest {
    var completion: Option<Settlement>
    ghost const id: Id

    constructor (ghost id: Id)
      ensures completion == None && this.id == id
    {
      completion := None;
      this.id := id;
    }

    method TrySet(how: Settlement)
      modifies this
      ensures completion == if old(completion).None? then Some(how) else old(completion)
    {
      if completion.None? {
        completion := Some(how);
      }
    }
  }

  // What the read loop does with one message when nothing interrupts it.
  function Handled(c: Client, inbound: Inbound): Client {
    var checked := ReceiveMessage(c, inbound);
    var found := if checked.reader.Checked? then FindPending(checked) else checked;
    if found.reader.Found? then CompletePending(found) else found
  }

  lemma MeansExactly(m: seq<Member>)
    ensures forall name, parameters :: Notifies(m, name, parameters) <==> Classify(m) == Notification(name, parameters)
    ensures forall id, payload :: Answers(m, id, payload) ==> Classify(m) == Response(id, payload)
  {
    forall name, parameters
      ensures Notifies(m, name, parameters) <==> Classify(m) == Notification(name, parameters)
    {
      NotifiesExactly(m, name, parameters);
    }
    forall id, payload ensures Answers(m, id, payload) ==> Classify(m) == Response(id, payload) {
      if Answers(m, id, payload) {
        ClassifiesExactly(m, id, payload);
      }
    }
  }

  // The messages the client has a use for: notifications, late responses to recorded cancellations, and answers.
  ghost predicate Expected(c: Client, m: seq<Member>) {
    || (exists name, parameters :: Notifies(m, name, parameters))
    || (exists id :: RespondsTo(m, id) && id in c.cancelled)
    || (exists id, payload :: Answers(m, id, payload) && id in c.pending)
  }

  /**
    What one message does, by what it says: a notification nothing, a late response takes the mark of its
    cancellation away, an answer completes its own request with what it carries, and any other message fails all that
    is pending and ends the connection.
   */
  lemma HandledExactly(c: Client, m: seq<Member>)
    requires c.reader.Idle?
    ensures var d := Handled(c, Classify(m));
            && (forall name, parameters :: Notifies(m, name, parameters) ==> d == c)
            && (forall id :: RespondsTo(m, id) && id in c.cancelled ==> d == c.(cancelled := c.cancelled - {id}))
            && (forall id, payload :: Answers(m, id, payload) && id in c.pending && id !in c.cancelled ==>
                  d == c.(pending := c.pending - {id}, settled := c.settled[id := Completed(payload)]))
            && (!Expected(c, m) ==>
                  && d == c.(pending := {}, settled := d.settled, accepting := false, reader := Faulted)
                  && d.settled.Keys == c.settled.Keys + c.pending
                  && forall id <- d.settled :: d.settled[id] == if id in c.pending then Failed else c.settled[id])
  {
    MeansExactly(m);
    forall id ensures RespondsTo(m, id) == (Classify(m).Response? && Classify(m).id == id) {
      AddressesExactly(m, id);
    }
    if !Expected(c, m) {
      match Classify(m) {
        case Response(id, payload) =>
          if WellFormed(payload) {
            ClassifiesExactly(m, id, payload);
          }
          assert RespondsTo(m, id);
          assert Handled(c, Response(id, payload)) == Fault(c.(reader := Checked(id, payload)));
        case _ =>
      }
    }
  }

  lemma HandledAccounts(c: Client, inbound: Inbound)
    requires Accounted(c) && c.reader.Idle?
    ensures Balanced(c, Handled(c, inbound))
  {
    ReceiveAccounts(c, inbound);
    var checked := ReceiveMessage(c, inbound);
    if checked.reader.Checked? {
      FindAccounts(checked);
      var found := FindPending(checked);
      if found.reader.Found? {
        CompleteAccounts(found);
      }
    }
  }

  lemma SweptOneMore(settled: map<Id, Settlement>, all: set<Id>, left: set<Id>, id: Id, how: Settlement)
    requires id in left && left <= all
    ensures Swept(settled, all - left, how)[id := how] == Swept(settled, all - (left - {id}), how)
  {
  }

  ghost predicate Numbered(ids: set<Id>, n: nat) {
    ids == IssuedUpTo(n)
  }

  lemma NumberedNext(ids: set<Id>, n: nat)
    requires Numbered(ids, n)
    ensures RequestId(n + 1) !in ids && Numbered(ids + {RequestId(n + 1)}, n + 1)
  {
    IssuedSoFar(n);
  }

  datatype RpcNotification = RpcNotification(name: string, parameters: Option<Json>)

  // Why InvokeAsync refuses a call, in the order of its checks.
  datatype Refusal = ClientDisposed | BlankMethod | AlreadyCancelled | ConnectionClosed | ParametersNotAnObject

  // The request as it is written; parameters left out are an empty object.
  function BuildRequest(id: Id, name: string, parameters: Option<Json>): seq<Member> {
    [Member("jsonrpc", JString("2.0")), Member("id", JString(id.text)), Member("method", JString(name)),
     Member("params", if parameters.Some? then parameters.value else JObject([]))]
  }

  lemma RequestMembers(id: Id, name: string, parameters: Option<Json>)
    ensures var r := BuildRequest(id, name, parameters);
            && Lookup(r, "jsonrpc") == Some(JString("2.0")) && Lookup(r, "id") == Some(JString(id.text))
            && Lookup(r, "method") == Some(JString(name))
            && Lookup(r, "params") == Some(if parameters.Some? then parameters.value else JObject([]))
  {
    var r := BuildRequest(id, name, parameters);
    assert "jsonrpc"[0] == 'j' && "id"[0] == 'i' && "method"[0] == 'm' && "params"[0] == 'p';
    var third, fourth := r[2..], r[3..];
    assert r[1..][1..] == third && third[1..] == fourth;
    assert Lookup(third, "method") == Some(JString(name)) && Lookup(r[1..], "method") == Lookup(third, "method");
    assert Lookup(third, "params") == Lookup(fourth, "params") == Some(fourth[0].value);
    assert Lookup(r[1..], "params") == Lookup(third, "params");
  }

  class JsonRpcClient {
    var requestSequence: nat
    var acceptingRequests: bool
    var disposed: bool
    var pending: map<Id, PendingRequest>
    var cancelledRequestIds: set<Id>
    var reader: Reader
    ghost var issued: map<Id, PendingRequest>
    ghost var settled: map<Id, Settlement>

    ghost predicate Valid()
      reads this, issued.Values
    {
      Numbered(issued.Keys, requestSequence) && Linked()
    }

    // settled is what the issued requests' own completions say.
    ghost predicate Linked()
      reads this, issued.Values
    {
      && settled.Keys <= issued.Keys
      && (forall id <- issued ::
            && issued[id].id == id
            && issued[id].completion == if id in settled then Some(settled[id]) else None)
      && (forall id <- pending :: id in issued && issued[id] == pending[id] && id !in settled)
    }

    ghost function View(): Client
      reads this
    {
      Client(requestSequence, 0, acceptingRequests, disposed, pending.Keys, {}, cancelledRequestIds, settled, reader)
    }

    constructor ()
      ensures Valid() && View() == Initial().client && issued == map[]
    {
      requestSequence, acceptingRequests, disposed := 0, true, false;
      pending, cancelledRequestIds, reader := map[], {}, Idle;
      issued, settled := map[], map[];
    }

    // InvokeAsync up to its write: refused, or registered under the next identifier with the message to send.
    method Invoke(name: string, parameters: Option<Json>, cancelled: bool)
      returns (refusal: Option<Refusal>, id: Id, message: seq<Member>)
      requires Valid()
      modifies `requestSequence, `pending, `issued
      ensures Valid()
      ensures refusal == (if disposed then Some(ClientDisposed)
                          else if Blank(name) then Some(BlankMethod)
                          else if cancelled then Some(AlreadyCancelled)
                          else if !acceptingRequests then Some(ConnectionClosed)
                          else if parameters.Some? && !parameters.value.JObject? then Some(ParametersNotAnObject)
                          else None)
      ensures refusal.Some? ==> View() == old(View()) && issued == old(issued)
      ensures refusal.None? ==>
                && View() == AddPending(old(View())) && id == RequestId(requestSequence) && id in pending
                && Lookup(message, "jsonrpc") == Some(JString("2.0"))
                && Lookup(message, "id") == Some(JString(id.text))
                && Lookup(message, "method") == Some(JString(name))
                && Lookup(message, "params") == (if parameters.None? then Some(JObject([])) else parameters)
                && |message| == 4
    {
      id, message := Id(""), [];
      if disposed {
        refusal := Some(ClientDisposed);
      } else if Blank(name) {
        refusal := Some(BlankMethod);
      } else if cancelled {
        refusal := Some(AlreadyCancelled);
      } else if !acceptingRequests {
        refusal := Some(ConnectionClosed);
      } else if parameters.Some? && !parameters.value.JObject? {
        refusal := Some(ParametersNotAnObject);
      } else {
        var request;
        refusal := None;
        id, request := Register();
        message := BuildRequest(id, name, parameters);
        RequestMembers(id, name, parameters);
      }
    }

    // The registration in InvokeAsync.
    method Register() returns (id: Id, request: PendingRequest)
      requires Valid()
      modifies `requestSequence, `pending, `issued
      ensures Valid() && View() == AddPending(old(View()))
      ensures id == RequestId(requestSequence) && fresh(request)
      ensures pending == old(pending)[id := request] && issued == old(issued)[id := request]
    {
      NumberedNext(issued.Keys, requestSequence);
      requestSequence := requestSequence + 1;
      id := RequestId(requestSequence);
      request := Add(id);
    }

    method Add(id: Id) returns (request: PendingRequest)
      requires Linked() && id !in issued
      modifies `pending, `issued
      ensures Linked() && fresh(request)
      ensures pending == old(pending)[id := request] && pending.Keys == old(pending).Keys + {id}
      ensures issued == old(issued)[id := request] && issued.Keys == old(issued).Keys + {id}
    {
      request := new PendingRequest(id);
      pending := pending[id := request];
      issued := issued[id := request];
    }

    // Remove one pending request and settle it.
    method Remove(id: Id, how: Settlement)
      requires Valid() && id in pending
      modifies `pending, `settled, pending[id]
      ensures Valid() && pending == old(pending) - {id} && settled == old(settled)[id := how]
    {
      var request := pending[id];
      pending := pending - {id};
      request.TrySet(how);
      settled := settled[id := how];
    }

    method CancelPending(id: Id)
      requires Valid()
      modifies this, issued.Values
      ensures Valid() && issued == old(issued)
      ensures View() == if id in old(pending) then RecordCancel(StartCancel(old(View()), id), id) else old(View())
    {
      if id in pending {
        Remove(id, Cancelled);
        cancelledRequestIds := cancelledRequestIds + {id};
        assert pending.Keys == old(pending).Keys - {id};
      }
    }

    // The tail of InvokeAsync when the request could not be written.
    method OnWriteFailed(id: Id)
      requires Valid()
      modifies this, issued.Values
      ensures Valid() && issued == old(issued)
      ensures View() == if id in old(pending) then Settle(old(View()), id, ResponseNotReceived) else old(View())
    {
      if id in pending {
        Remove(id, ResponseNotReceived);
        assert pending.Keys == old(pending).Keys - {id};
      }
    }

    method FailAllPending(how: Settlement)
      requires Valid()
      modifies `pending, `settled, issued.Values
      ensures Valid() && pending == map[]
      ensures settled == Swept(old(settled), old(pending).Keys, how) && pending.Keys == {}
    {
      ghost var was, all := settled, pending.Keys;
      var snapshot := pending.Keys;
      assert all - snapshot == {} && settled == Swept(was, {}, how);
      while snapshot != {}
        invariant Valid() && snapshot == pending.Keys && snapshot <= all
        invariant settled == Swept(was, all - snapshot, how)
        decreases |snapshot|
      {
        var id :| id in snapshot;
        SweptOneMore(was, all, snapshot, id, how);
        snapshot := snapshot - {id};
        if id in pending {
          Remove(id, how);
        }
      }
      assert all - snapshot == all;
    }

    // One message; a notification is raised as an event.
    method HandleMessage(message: seq<Member>) returns (raised: Option<RpcNotification>)
      requires Valid() && reader.Idle?
      modifies this, issued.Values
      ensures Valid() && issued == old(issued)
      ensures View() == Handled(old(View()), Classify(message))
      ensures forall name, parameters ::
                raised == Some(RpcNotification(name, parameters)) <==> Notifies(message, name, parameters)
      ensures forall id, payload ::
                Answers(message, id, payload) && id in old(pending) && id !in old(cancelledRequestIds) ==>
                  && old(pending)[id].completion == Some(Completed(payload)) && pending == old(pending) - {id}
                  && forall other <- issued :: other != id ==> issued[other].completion == old(issued[other].completion)
      ensures Accounted(old(View())) ==> Balanced(old(View()), View())
    {
      var inbound := Classify(message);
      MeansExactly(message);
      if Accounted(View()) {
        HandledAccounts(View(), inbound);
      }
      raised := None;
      match inbound {
        case Notification(name, parameters) => raised := Some(RpcNotification(name, parameters));
        case Response(id, payload) => HandleResponse(id, payload);
        case _ => OnFault();
      }
    }

    method HandleResponse(id: Id, payload: Payload)
      requires Valid() && reader.Idle?
      modifies this, issued.Values
      ensures Valid() && issued == old(issued)
      ensures View() == Handled(old(View()), Response(id, payload))
      ensures WellFormed(payload) && id in old(pending) && id !in old(cancelledRequestIds) ==>
                && old(pending)[id].completion == Some(Completed(payload)) && pending == old(pending) - {id}
                && forall other <- issued :: other != id ==> issued[other].completion == old(issued[other].completion)
    {
      if id in cancelledRequestIds {
        cancelledRequestIds := cancelledRequestIds - {id};
      } else if id in pending && WellFormed(payload) {
        Remove(id, Completed(payload));
        assert pending.Keys == old(pending).Keys - {id};
      } else {
        OnFault();
      }
    }

    method OnFault()
      requires Valid()
      modifies this, issued.Values
      ensures Valid() && issued == old(issued)
      ensures View() == Fault(old(View()))
    {
      FailAllPending(Failed);
      acceptingRequests := false;
      reader := Faulted;
    }

    method OnStreamClosed()
      requires Valid()
      modifies this, issued.Values
      ensures Valid() && issued == old(issued)
      ensures View() == FailPending(old(View()), ResponseNotReceived).(accepting := false, reader := Closed)
    {
      FailAllPending(ResponseNotReceived);
      acceptingRequests := false;
      reader := Closed;
    }

    method Dispose()
      requires Valid()
      modifies this, issued.Values
      ensures Valid() && issued == old(issued)
      ensures View() == if old(disposed) then old(View())
                        else FailPending(old(View()), Failed).(accepting := false, disposed := true)
    {
      if !disposed {
        FailAllPending(Failed);
        disposed := true;
        acceptingRequests := false;
      }
    }
  }
}
