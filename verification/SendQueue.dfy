/**
 * The sender of plugin/Service.qml: one request process, a queue of rows, and the
 * handlers that move rows between them. Date.now(), the server's replies and the
 * classification of a failure are inputs.
 */
module SendQueue {
  import opened Prelude
  import opened Outgoing
  import Decimal
  import Text

  // ------------------------------------------------------------- attempt ids

  /** nextOutgoingId, from the clock and the send sequence. */
  function AttemptId(now: nat, sequence: nat): string {
    "pending-" + Decimal.Digits(now) + "-" + Decimal.Digits(sequence)
  }

  /** id was handed out before the sequence passed the given number. */
  ghost predicate Issued(id: string, sequence: nat) {
    exists now: nat, k: nat :: k <= sequence && id == AttemptId(now, k)
  }

  /** Attempt ids with different sequence numbers differ, whatever the clock said. */
  lemma {:induction false} AttemptIdInjective(now: nat, k: nat, now': nat, k': nat)
    requires AttemptId(now, k) == AttemptId(now', k')
    ensures k == k'
  {
    var a, b := Decimal.Digits(now), Decimal.Digits(now');
    var s, t := a + "-" + Decimal.Digits(k), b + "-" + Decimal.Digits(k');
    assert AttemptId(now, k)[8..] == s && AttemptId(now', k')[8..] == t;
    assert s[|a|] == '-' && t[|b|] == '-';
    assert forall i :: 0 <= i < |a| ==> s[i] == a[i];
    assert forall i :: 0 <= i < |b| ==> t[i] == b[i];
    assert |a| == |b|;
    assert s[|a| + 1..] == Decimal.Digits(k) && t[|b| + 1..] == Decimal.Digits(k');
    Decimal.ParseDigitsInverse(k);
    Decimal.ParseDigitsInverse(k');
  }

  lemma {:induction false} NextIdIsNew(now: nat, sequence: nat)
    ensures !Issued(AttemptId(now, sequence + 1), sequence)
  {
    if Issued(AttemptId(now, sequence + 1), sequence) {
      var now': nat, k: nat :| k <= sequence && AttemptId(now, sequence + 1) == AttemptId(now', k);
      AttemptIdInjective(now, sequence + 1, now', k);
      assert false;
    }
  }

  // ------------------------------------------------------------ state, events

  /** What the request process is given: messages.send or messages.send_attachment. */
  datatype Request = SendText(chatId: string, text: string, clientId: string) | SendFile(chatId: string, path: string)

  /** submitted lists the attempt ids handed to the request process, in order, and requests what it was given. */
  datatype State = State(outgoing: seq<Row>, running: bool, outgoingId: string, confirmed: bool,
                         sending: bool, sequence: nat, submitted: seq<string>, requests: seq<Request>)

  const IDLE := State([], false, "", false, false, 0, [], [])

  datatype Event =
    | Send(chatId: string, text: string, localPath: string, now: nat, createdAt: string)
    | Retry(id: string, now: nat, createdAt: string)
    | Echo(clientId: string)
    | Response(ok: bool)
    | Exited(exitCode: int, failure: SendState, error: string)

  /** classifySendFailure answers nothing else. */
  predicate Possible(e: Event) {
    e.Exited? ==> e.failure == Failed || e.failure == Unconfirmed
  }

  function RequestOf(row: Row): Request {
    if row.localPath != "" then SendFile(row.chatId, row.localPath) else SendText(row.chatId, row.text, row.id)
  }

  /** drainOutgoing: nothing while a request runs, else start the first queued row. */
  function Drain(s: State): State {
    var k := FirstQueued(s.outgoing);
    if s.running then s
    else if k == |s.outgoing| then s.(sending := false)
    else
      var id := s.outgoing[k].id;
      s.(outgoing := Updated(s.outgoing, id, Sending, ""), running := true, outgoingId := id,
         confirmed := false, sending := true, submitted := s.submitted + [id],
         requests := s.requests + [RequestOf(s.outgoing[k])])
  }

  function NewRow(id: string, e: Event): Row
    requires e.Send?
  {
    Row(id, e.chatId, e.text, e.localPath, e.createdAt, Queued, "")
  }

  /** The list when the request process ends; nothing changes for a failed row that was echoed. */
  function Settled(s: State, e: Event): seq<Row>
    requires e.Exited?
  {
    if e.exitCode == 0 && s.confirmed then Removed(s.outgoing, s.outgoingId)
    else Updated(s.outgoing, s.outgoingId, e.failure, e.error)
  }

  /** What a handler does before it calls drainOutgoing. */
  function Edit(s: State, e: Event): State {
    match e
    case Send(_, _, _, now, _) =>
      s.(outgoing := s.outgoing + [NewRow(AttemptId(now, s.sequence + 1), e)], sequence := s.sequence + 1)
    case Retry(id, now, createdAt) =>
      s.(outgoing := Retried(s.outgoing, id, AttemptId(now, s.sequence + 1), createdAt), sequence := s.sequence + 1)
    case Echo(clientId) => s.(outgoing := Removed(s.outgoing, clientId))
    case Response(ok) => s.(confirmed := ok)
    case Exited(_, _, _) =>
      if s.running
      then s.(outgoing := Settled(s, e), running := false, outgoingId := "", confirmed := false, sending := false)
      else s   // a process that is not running does not exit
  }

  function Step(s: State, e: Event): State {
    if e.Send? || e.Retry? || (e.Exited? && s.running) then Drain(Edit(s, e)) else Edit(s, e)
  }

  function Run(s: State, events: seq<Event>): State {
    if events == [] then s else Step(Run(s, events[..|events| - 1]), events[|events| - 1])
  }

  // --------------------------------------------------------------- invariants

  /** Ids come from the generator, rows and submissions each carry an id once. */
  ghost predicate IdsOk(s: State) {
    && DistinctIds(s.outgoing) && Distinct(s.submitted)
    && (forall i :: 0 <= i < |s.outgoing| ==> Issued(s.outgoing[i].id, s.sequence))
    && (forall i :: 0 <= i < |s.submitted| ==> Issued(s.submitted[i], s.sequence))
    && (forall i :: 0 <= i < |s.outgoing| ==> (s.outgoing[i].sendState == Queued <==> s.outgoing[i].id !in s.submitted))
  }

  /** The only row in state sending is the one the request process carries. */
  ghost predicate FlightOk(s: State) {
    && s.sending == s.running && (!s.running ==> s.outgoingId == "")
    && (s.running ==> s.submitted != [] && s.outgoingId == s.submitted[|s.submitted| - 1])
    && (forall i :: 0 <= i < |s.outgoing| ==>
          (s.outgoing[i].sendState == Sending <==> s.running && s.outgoing[i].id == s.outgoingId))
  }

  ghost predicate NothingQueued(s: State) {
    forall i :: 0 <= i < |s.outgoing| ==> s.outgoing[i].sendState != Queued
  }

  ghost predicate Inv(s: State) {
    IdsOk(s) && FlightOk(s) && (!s.running ==> NothingQueued(s))
  }

  lemma {:induction false} IssuedLater(id: string, sequence: nat, later: nat)
    requires Issued(id, sequence) && sequence <= later
    ensures Issued(id, later)
  {
    var now: nat, k: nat :| k <= sequence && id == AttemptId(now, k);
    assert k <= later && id == AttemptId(now, k);
  }

  /** drainOutgoing starts the first queued row, once, and leaves none queued behind an idle sender. */
  lemma {:induction false} DrainKeeps(s: State)
    requires IdsOk(s) && FlightOk(s)
    ensures Inv(Drain(s))
  {
    var k := FirstQueued(s.outgoing);
    if !s.running && k < |s.outgoing| {
      var row := s.outgoing[k];
      FindUnique(s.outgoing, row.id, k);
      assert row.id !in s.submitted;
    }
  }

  lemma {:induction false} LaterSequence(s: State)
    requires IdsOk(s)
    ensures IdsOk(s.(sequence := s.sequence + 1))
  {
    forall i | 0 <= i < |s.outgoing| ensures Issued(s.outgoing[i].id, s.sequence + 1) {
      IssuedLater(s.outgoing[i].id, s.sequence, s.sequence + 1);
    }
    forall i | 0 <= i < |s.submitted| ensures Issued(s.submitted[i], s.sequence + 1) {
      IssuedLater(s.submitted[i], s.sequence, s.sequence + 1);
    }
  }

  lemma {:induction false} QueueKeeps(s: State, e: Event)
    requires IdsOk(s) && FlightOk(s) && e.Send?
    ensures IdsOk(Edit(s, e)) && FlightOk(Edit(s, e))
  {
    hide AttemptId, Issued;
    NewIdFor(s, e.now);
    LaterSequence(s);
  }

  lemma {:induction false} RequeueKeepsIds(s: State, id: string, nextId: string, createdAt: string)
    requires IdsOk(s) && !HasId(s.outgoing, nextId) && nextId !in s.submitted && Issued(nextId, s.sequence)
    ensures IdsOk(s.(outgoing := Retried(s.outgoing, id, nextId, createdAt)))
  {
    var out := Retried(s.outgoing, id, nextId, createdAt);
    forall i, j | 0 <= i < j < |out| ensures out[i].id != out[j].id {
      assert s.outgoing[i].id != s.outgoing[j].id;
    }
  }

  lemma {:induction false} RequeueKeepsFlight(s: State, id: string, nextId: string, createdAt: string)
    requires FlightOk(s) && (s.running ==> s.outgoingId != nextId)
    ensures FlightOk(s.(outgoing := Retried(s.outgoing, id, nextId, createdAt)))
  {
  }

  lemma {:induction false} RequeueKeeps(s: State, e: Event)
    requires IdsOk(s) && FlightOk(s) && e.Retry?
    ensures IdsOk(Edit(s, e)) && FlightOk(Edit(s, e))
  {
    hide IdsOk, FlightOk, Retried, AttemptId, Issued, HasId;
    var next, nextId := s.(sequence := s.sequence + 1), AttemptId(e.now, s.sequence + 1);
    NewIdFor(s, e.now);
    LaterSequence(s);
    FlightOfLater(s);
    RequeueKeepsIds(next, e.id, nextId, e.createdAt);
    RequeueKeepsFlight(next, e.id, nextId, e.createdAt);
    assert Edit(s, e) == next.(outgoing := Retried(next.outgoing, e.id, nextId, e.createdAt));
  }

  lemma {:induction false} FlightOfLater(s: State)
    requires FlightOk(s)
    ensures FlightOk(s.(sequence := s.sequence + 1))
  {
  }

  lemma {:induction false} NewIdFor(s: State, now: nat)
    requires IdsOk(s) && FlightOk(s)
    ensures var id := AttemptId(now, s.sequence + 1);
            && !HasId(s.outgoing, id) && id !in s.submitted && Issued(id, s.sequence + 1)
            && (s.running ==> s.outgoingId != id)
  {
    NextIdIsNew(now, s.sequence);
    assert s.running ==> s.outgoingId in s.submitted;
  }

  lemma {:induction false} RemoveKeeps(s: State, id: string)
    requires IdsOk(s) && FlightOk(s)
    ensures IdsOk(s.(outgoing := Removed(s.outgoing, id)))
    ensures FlightOk(s.(outgoing := Removed(s.outgoing, id)))
    ensures NothingQueued(s) ==> NothingQueued(s.(outgoing := Removed(s.outgoing, id)))
  {
    var out := Removed(s.outgoing, id);
    RemovedMeaning(s.outgoing, id);
    RemovedDistinct(s.outgoing, id);
    forall i | 0 <= i < |out| ensures exists j :: 0 <= j < |s.outgoing| && s.outgoing[j] == out[i] {
      assert out[i] in s.outgoing;
    }
  }

  lemma {:induction false} SettleKeeps(s: State, e: Event)
    requires Inv(s) && s.running && e.Exited? && Possible(e)
    ensures IdsOk(Edit(s, e)) && FlightOk(Edit(s, e))
  {
    if e.exitCode == 0 && s.confirmed {
      RemoveKeeps(s, s.outgoingId);
      RemovedMeaning(s.outgoing, s.outgoingId);
      var out := Settled(s, e);
      forall i | 0 <= i < |out| ensures out[i].id != s.outgoingId {
        assert out[i] in out;
      }
    }
  }

  lemma {:induction false} StepKeeps(s: State, e: Event)
    requires Inv(s) && Possible(e)
    ensures Inv(Step(s, e))
  {
    match e
    case Send(_, _, _, _, _) => QueueKeeps(s, e); DrainKeeps(Edit(s, e));
    case Retry(_, _, _) => RequeueKeeps(s, e); DrainKeeps(Edit(s, e));
    case Echo(clientId) => RemoveKeeps(s, clientId);
    case Response(_) =>
    case Exited(_, _, _) =>
      if s.running {
        SettleKeeps(s, e);
        DrainKeeps(Edit(s, e));
      }
  }

  /**
   * Over every run: ids stay distinct, at most one row is sending and it is the one in
   * flight, no row is queued while the sender is idle, no attempt id is submitted twice.
   */
  lemma {:induction false} RunKeeps(events: seq<Event>)
    requires forall i :: 0 <= i < |events| ==> Possible(events[i])
    ensures Inv(Run(IDLE, events))
  {
    if events != [] {
      RunKeeps(events[..|events| - 1]);
      StepKeeps(Run(IDLE, events[..|events| - 1]), events[|events| - 1]);
    }
  }

  // ------------------------------------------------------- what one step does

  /** A row is started only in its turn: when it is submitted, no row before it is queued. */
  lemma {:induction false} StartsFirstQueued(s: State, e: Event)
    ensures Step(s, e).submitted == s.submitted ||
            exists k :: 0 <= k < |Step(s, e).outgoing| && StartedAt(s, Step(s, e), k)
  {
    if Step(s, e).submitted != s.submitted {
      DrainStarts(Edit(s, e));
      var k :| 0 <= k < |Step(s, e).outgoing| && StartedAt(Edit(s, e), Step(s, e), k);
      assert StartedAt(s, Step(s, e), k);
    }
  }

  lemma {:induction false} DrainStarts(s: State)
    requires Drain(s).submitted != s.submitted
    ensures exists k :: 0 <= k < |Drain(s).outgoing| && StartedAt(s, Drain(s), k)
  {
    var k := FirstQueued(s.outgoing);
    var f := Find(s.outgoing, s.outgoing[k].id);
    assert f <= k;
    assert StartedAt(s, Drain(s), f);
  }

  ghost predicate StartedAt(s: State, s': State, k: nat)
    requires k < |s'.outgoing|
  {
    && s'.submitted == s.submitted + [s'.outgoing[k].id]
    && s'.outgoing[k].sendState == Sending && s'.running && s'.outgoingId == s'.outgoing[k].id
    && forall j :: 0 <= j < k ==> s'.outgoing[j].sendState != Queued
  }

  /** What a row asks to be sent. */
  function Content(r: Row): (string, string, string) {
    (r.chatId, r.text, r.localPath)
  }

  /** The rows are all there, in their order, with their content; there may be more at the end. */
  ghost predicate NothingLost(rows: seq<Row>, later: seq<Row>) {
    |rows| <= |later| && forall i :: 0 <= i < |rows| ==> Content(later[i]) == Content(rows[i])
  }

  /** The id that an event takes out of the list: the one of an echo, or the one in flight at a confirmed exit. */
  function Taken(s: State, e: Event): Option<string> {
    match e
    case Echo(clientId) => Some(clientId)
    case Exited(exitCode, _, _) => if s.running && exitCode == 0 && s.confirmed then Some(s.outgoingId) else None
    case _ => None
  }

  function Remaining(s: State, e: Event): seq<Row> {
    match Taken(s, e)
    case Some(id) => Removed(s.outgoing, id)
    case None => s.outgoing
  }

  lemma {:induction false} EditLosesNothing(s: State, e: Event)
    ensures NothingLost(Remaining(s, e), Edit(s, e).outgoing)
  {
  }

  lemma {:induction false} DrainLosesNothing(s: State)
    ensures NothingLost(s.outgoing, Drain(s).outgoing)
  {
  }

  /**
   * Only an echo or a confirmed exit takes a row out of the list, and only the one it names: all
   * other rows stay in their order with their content, whatever fails, is retried or is sent later.
   */
  lemma {:induction false} OnlyConfirmationRemoves(s: State, e: Event)
    ensures NothingLost(Remaining(s, e), Step(s, e).outgoing)
  {
    EditLosesNothing(s, e);
    DrainLosesNothing(Edit(s, e));
    hide Edit, Drain, Remaining;
  }

  /**
   * An id that left the list never comes back: a row removed by its echo stays removed
   * when its request fails later, and so does an attempt replaced by a retry.
   */
  lemma {:induction false} GoneStaysGone(s: State, events: seq<Event>, id: string)
    requires Inv(s) && forall i :: 0 <= i < |events| ==> Possible(events[i])
    requires Issued(id, s.sequence) && !HasId(s.outgoing, id)
    ensures Inv(Run(s, events)) && Issued(id, Run(s, events).sequence) && !HasId(Run(s, events).outgoing, id)
  {
    if events != [] {
      var before, e := Run(s, events[..|events| - 1]), events[|events| - 1];
      GoneStaysGone(s, events[..|events| - 1], id);
      GoneInStep(before, e, id);
    }
  }

  lemma {:induction false} GoneInStep(s: State, e: Event, id: string)
    requires Inv(s) && Possible(e) && Issued(id, s.sequence) && !HasId(s.outgoing, id)
    ensures Inv(Step(s, e)) && Issued(id, Step(s, e).sequence) && !HasId(Step(s, e).outgoing, id)
  {
    hide AttemptId, Issued, Inv, Drain, HasId;
    StepKeeps(s, e);
    GoneInEdit(s, e, id);
    NoneAfterDrain(Edit(s, e), id);
    IssuedLater(id, s.sequence, Step(s, e).sequence);
  }

  lemma {:induction false} NoneAfterDrain(s: State, id: string)
    requires !HasId(s.outgoing, id)
    ensures !HasId(Drain(s).outgoing, id) && Drain(s).sequence == s.sequence
  {
  }

  lemma {:induction false} GoneInEdit(s: State, e: Event, id: string)
    requires Issued(id, s.sequence) && !HasId(s.outgoing, id)
    ensures !HasId(Edit(s, e).outgoing, id)
  {
    match e
    case Send(_, _, _, now, _) => NextIdIsNew(now, s.sequence);
    case Retry(_, now, _) => NextIdIsNew(now, s.sequence);
    case Echo(clientId) => NotAmong(s.outgoing, clientId, id);
    case Response(_) =>
    case Exited(_, _, _) => NotAmong(s.outgoing, s.outgoingId, id);
  }

  lemma {:induction false} NotAmong(rows: seq<Row>, removed: string, id: string)
    requires !HasId(rows, id)
    ensures !HasId(Removed(rows, removed), id)
  {
    RemovedMeaning(rows, removed);
    var out := Removed(rows, removed);
    forall i | 0 <= i < |out| ensures out[i].id != id {
      assert out[i] in rows;
    }
  }

  // ------------------------------------------------- what a message asks for

  /** What a call or a row asks to have sent. */
  datatype Ask = Ask(chatId: string, text: string, localPath: string)

  /** The row asks for this. */
  ghost predicate Asks(r: Row, a: Ask) {
    r.chatId == a.chatId && r.text == a.text && r.localPath == a.localPath
  }

  /** The request carries the chat of what is asked for, and its file, or if there is none its text and the id. */
  ghost predicate Carries(r: Request, a: Ask, id: string) {
    && (a.localPath == "" ==> r.SendText? && r.chatId == a.chatId && r.text == a.text && r.clientId == id)
    && (a.localPath != "" ==> r.SendFile? && r.chatId == a.chatId && r.path == a.localPath)
  }

  /** What an attempt is for: the call that it was made for, or what the attempt that it retries is for. */
  ghost function Origin(events: seq<Event>, id: string): Option<Ask> {
    if events == [] then None
    else
      var front, e := events[..|events| - 1], events[|events| - 1];
      var next := Run(IDLE, front).sequence + 1;
      if e.Send? && id == AttemptId(e.now, next) then Some(Ask(e.chatId, e.text, e.localPath))
      else if e.Retry? && id == AttemptId(e.now, next) then Origin(front, e.id)
      else Origin(front, id)
  }

  ghost predicate RowFrom(events: seq<Event>, r: Row) {
    Origin(events, r.id).Some? && Asks(r, Origin(events, r.id).value)
  }

  ghost predicate RequestFrom(events: seq<Event>, id: string, r: Request) {
    Origin(events, id).Some? && Carries(r, Origin(events, id).value, id)
  }

  /** Rows and requests are for what their attempts are for. */
  ghost predicate Faithful(events: seq<Event>, s: State) {
    && (forall i :: 0 <= i < |s.outgoing| ==> RowFrom(events, s.outgoing[i]))
    && |s.requests| == |s.submitted|
    && forall i :: 0 <= i < |s.submitted| ==> RequestFrom(events, s.submitted[i], s.requests[i])
  }

  /** An attempt keeps its origin. */
  lemma {:induction false} OriginStays(events: seq<Event>, e: Event, id: string)
    requires Issued(id, Run(IDLE, events).sequence)
    ensures Origin(events + [e], id) == Origin(events, id)
  {
    var next := Run(IDLE, events).sequence + 1;
    assert (events + [e])[..|events|] == events;
    if e.Send? || e.Retry? {
      NextIdIsNew(e.now, next - 1);
    }
  }

  lemma {:induction false} EditIsFaithful(events: seq<Event>, e: Event)
    requires var s := Run(IDLE, events); Inv(s) && Possible(e) && Faithful(events, s)
    ensures Faithful(events + [e], Edit(Run(IDLE, events), e))
  {
    hide Edit, AttemptId, Carries, Issued, Run;
    var s, all := Run(IDLE, events), events + [e];
    var later := Edit(s, e);
    assert all[..|events|] == events;
    forall i | 0 <= i < |s.submitted| ensures RequestFrom(all, s.submitted[i], s.requests[i]) {
      OriginStays(events, e, s.submitted[i]);
      assert RequestFrom(events, s.submitted[i], s.requests[i]);
    }
    forall i | 0 <= i < |s.outgoing| ensures RowFrom(all, s.outgoing[i]) {
      OriginStays(events, e, s.outgoing[i].id);
      assert RowFrom(events, s.outgoing[i]);
    }
    EditKeepsAsks(s, e);
    forall i | 0 <= i < |later.outgoing| ensures RowFrom(all, later.outgoing[i]) {
      if i < |Remaining(s, e)| {
        var r := Remaining(s, e)[i];
        RemainingAreRows(s, e, i);
        if later.outgoing[i].id != r.id {
          assert RowFrom(events, r);
        }
      }
    }
  }

  /** Rows keep what they ask for; an id changes only by a retry of that row. */
  lemma {:induction false} EditKeepsAsks(s: State, e: Event)
    ensures |Edit(s, e).outgoing| == |Remaining(s, e)| + if e.Send? then 1 else 0
    ensures forall i :: 0 <= i < |Remaining(s, e)| ==>
              var r, later := Remaining(s, e)[i], Edit(s, e).outgoing[i];
              && Content(later) == Content(r)
              && (later.id == r.id || (e.Retry? && r.id == e.id && later.id == AttemptId(e.now, s.sequence + 1)))
    ensures Edit(s, e).submitted == s.submitted && Edit(s, e).requests == s.requests
    ensures e.Send? ==> var r := Edit(s, e).outgoing[|s.outgoing|];
                        r.id == AttemptId(e.now, s.sequence + 1) && Asks(r, Ask(e.chatId, e.text, e.localPath))
  {
    hide AttemptId;
  }

  lemma {:induction false} RemainingAreRows(s: State, e: Event, i: nat)
    requires i < |Remaining(s, e)|
    ensures Remaining(s, e)[i] in s.outgoing
  {
    var id := Taken(s, e).GetOr("");
    RemovedMeaning(s.outgoing, id);
    assert Remaining(s, e)[i] in Remaining(s, e);
  }

  lemma {:induction false} DrainIsFaithful(events: seq<Event>, s: State)
    requires Faithful(events, s)
    ensures Faithful(events, Drain(s))
  {
    var k, later := FirstQueued(s.outgoing), Drain(s);
    if !s.running && k < |s.outgoing| {
      assert RowFrom(events, s.outgoing[k]);
      forall i | 0 <= i < |later.submitted| ensures RequestFrom(events, later.submitted[i], later.requests[i]) {
        assert i < |s.submitted| ==> RequestFrom(events, s.submitted[i], s.requests[i]);
      }
      forall i | 0 <= i < |later.outgoing| ensures RowFrom(events, later.outgoing[i]) {
        assert RowFrom(events, s.outgoing[i]);
      }
    }
  }

  /**
   * Over every run each request carries exactly the chat, the text and the file of the accepted call that
   * its attempt was made for, through however many retries, and each row in the list asks for that.
   */
  lemma {:induction false} SendsWhatWasAsked(events: seq<Event>)
    requires forall i :: 0 <= i < |events| ==> Possible(events[i])
    ensures Faithful(events, Run(IDLE, events))
  {
    if events != [] {
      var front, e := events[..|events| - 1], events[|events| - 1];
      SendsWhatWasAsked(front);
      RunKeeps(front);
      assert front + [e] == events;
      StepIsFaithful(front, e);
      hide Faithful, Step, Inv;
    }
  }

  lemma {:induction false} StepIsFaithful(events: seq<Event>, e: Event)
    requires var s := Run(IDLE, events); Inv(s) && Possible(e) && Faithful(events, s)
    ensures Faithful(events + [e], Step(Run(IDLE, events), e))
  {
    hide Faithful, Edit, Drain, Inv, Run;
    EditIsFaithful(events, e);
    DrainIsFaithful(events + [e], Edit(Run(IDLE, events), e));
  }

  /**
   * In every run an accepted call leaves one more row, at the end, which asks for what the call asked for
   * under an id that no row had; it is under way at once if the sender was idle, and queued otherwise.
   */
  lemma {:induction false} AcceptedIsQueued(events: seq<Event>, e: Event)
    requires e.Send? && forall i :: 0 <= i < |events| ==> Possible(events[i])
    ensures var s, later := Run(IDLE, events), Run(IDLE, events + [e]);
            var n := |s.outgoing|;
            && later.outgoing[..n] == s.outgoing && |later.outgoing| == n + 1
            && Asks(later.outgoing[n], Ask(e.chatId, e.text, e.localPath))
            && later.outgoing[n].createdAt == e.createdAt && later.outgoing[n].sendError == ""
            && !HasId(s.outgoing, later.outgoing[n].id)
            && later.running && later.outgoing[n].sendState == (if s.running then Queued else Sending)
            && (!s.running ==> later.outgoingId == later.outgoing[n].id)
  {
    hide AttemptId, Issued;
    RunKeeps(events);
    assert (events + [e])[..|events|] == events;
    QueuedBySend(Run(IDLE, events), e);
    hide Step;
  }

  lemma {:induction false} QueuedBySend(s: State, e: Event)
    requires Inv(s) && e.Send?
    ensures var later, n := Step(s, e).outgoing, |s.outgoing|;
            && |later| == n + 1 && Asks(later[n], Ask(e.chatId, e.text, e.localPath))
            && later[n].createdAt == e.createdAt && later[n].sendError == ""
            && later[n].id == AttemptId(e.now, s.sequence + 1) && !HasId(s.outgoing, later[n].id)
            && later[n].sendState == (if s.running then Queued else Sending)
            && Step(s, e).running && (!s.running ==> Step(s, e).outgoingId == later[n].id)
            && later[..n] == s.outgoing
  {
    hide AttemptId, Issued;
    NewIdFor(s, e.now);
    var edited := Edit(s, e);
    var k := FirstQueued(edited.outgoing);
    if !s.running {
      assert edited.outgoing[|s.outgoing|].sendState == Queued;
      assert k == |s.outgoing|;
      var f := Find(edited.outgoing, edited.outgoing[k].id);
      assert f == k;
    }
  }

  lemma {:induction false} SendAppends(s: State, e: Event)
    requires e.Send?
    ensures var later, n := Step(s, e).outgoing, |s.outgoing|;
            |later| == n + 1 && Asks(later[n], Ask(e.chatId, e.text, e.localPath))
  {
    hide AttemptId;
  }

  // --------------------------------------------------- what becomes of a row

  /** The row may be tried again: it was given up, or its fate is unknown. */
  ghost predicate Retriable(r: Row) {
    r.sendState == Failed || r.sendState == Unconfirmed
  }

  /** The row that a request takes up now: the same row, under way. */
  ghost predicate TakenUp(r: Row, later: Row, s: State) {
    r.sendState == Queued && later == r.(sendState := Sending, sendError := "") && s.running && s.outgoingId == r.id
  }

  /** The same row, or taken up now. */
  ghost predicate Goes(r: Row, later: Row, s: State) {
    later == r || TakenUp(r, later, s)
  }

  /**
   * What an event makes of each row that it leaves: the row of an ended request without confirmation takes
   * the failure and its message, the one retried, if it may be, a new id and time and its place in the
   * queue, and every other row stays as it is; then at most the first queued one is taken up.
   */
  lemma {:induction false} RowAfter(s: State, e: Event, i: nat)
    requires Inv(s) && Possible(e) && i < |Remaining(s, e)|
    ensures i < |Step(s, e).outgoing|
    ensures var r, later := Remaining(s, e)[i], Step(s, e).outgoing[i];
            if e.Exited? && s.running && r.id == s.outgoingId
            then later == r.(sendState := e.failure, sendError := e.error)
            else if e.Retry? && r.id == e.id && Retriable(r)
            then Goes(r.(id := AttemptId(e.now, s.sequence + 1), createdAt := e.createdAt,
                         sendState := Queued, sendError := ""), later, Step(s, e))
            else Goes(r, later, Step(s, e))
  {
    hide AttemptId;
    RemainingAreDistinct(s, e);
    var edited := Edit(s, e);
    EditKeepsIds(s, e);
    EditedRow(s, e, i);
    hide Edit, Inv, Remaining;
    DrainedRow(edited, i);
  }

  lemma {:induction false} RemainingAreDistinct(s: State, e: Event)
    requires Inv(s)
    ensures DistinctIds(Remaining(s, e))
    ensures e.Exited? && s.running && e.exitCode == 0 && s.confirmed ==> !HasId(Remaining(s, e), s.outgoingId)
  {
    var id := Taken(s, e).GetOr("");
    RemovedDistinct(s.outgoing, id);
    RemovedMeaning(s.outgoing, id);
  }

  lemma {:induction false} EditedRow(s: State, e: Event, i: nat)
    requires i < |Remaining(s, e)| && DistinctIds(Remaining(s, e))
    requires e.Exited? && s.running && e.exitCode == 0 && s.confirmed ==> !HasId(Remaining(s, e), s.outgoingId)
    ensures i < |Edit(s, e).outgoing|
    ensures var r, later := Remaining(s, e)[i], Edit(s, e).outgoing[i];
            later == if e.Exited? && s.running && r.id == s.outgoingId
                     then r.(sendState := e.failure, sendError := e.error)
                     else if e.Retry? && r.id == e.id && Retriable(r)
                     then r.(id := AttemptId(e.now, s.sequence + 1), createdAt := e.createdAt,
                             sendState := Queued, sendError := "")
                     else r
  {
    hide AttemptId;
    var rows := Remaining(s, e);
    if e.Retry? && rows[i].id == e.id {
      FindUnique(rows, e.id, i);
    }
    if e.Exited? && rows[i].id == s.outgoingId {
      FindUnique(rows, s.outgoingId, i);
    }
  }

  lemma {:induction false} EditKeepsIds(s: State, e: Event)
    requires Inv(s) && Possible(e)
    ensures DistinctIds(Edit(s, e).outgoing)
  {
    match e
    case Send(_, _, _, _, _) => QueueKeeps(s, e);
    case Retry(_, _, _) => RequeueKeeps(s, e);
    case Echo(clientId) => RemoveKeeps(s, clientId);
    case Response(_) =>
    case Exited(_, _, _) =>
      if s.running {
        SettleKeeps(s, e);
      }
  }

  lemma {:induction false} DrainedRow(s: State, i: nat)
    requires i < |s.outgoing| && DistinctIds(s.outgoing)
    ensures i < |Drain(s).outgoing| && Goes(s.outgoing[i], Drain(s).outgoing[i], Drain(s))
  {
    var k := FirstQueued(s.outgoing);
    if !s.running && k < |s.outgoing| {
      FindUnique(s.outgoing, s.outgoing[k].id, k);
    }
  }

  // ------------------------------------------------------------ confirmation

  /** The last answer since the last request was started. */
  ghost function Answer(events: seq<Event>): Option<bool> {
    if events == [] then None
    else
      var front, e := events[..|events| - 1], events[|events| - 1];
      if Run(IDLE, events).submitted != Run(IDLE, front).submitted then None
      else if e.Response? then Some(e.ok)
      else Answer(front)
  }

  /** Over every run a request counts as confirmed exactly if the last answer that it got itself was a good one. */
  lemma {:induction false} ConfirmedByItsAnswer(events: seq<Event>)
    requires Run(IDLE, events).running
    ensures Run(IDLE, events).confirmed <==> Answer(events) == Some(true)
  {
    if events != [] {
      var front, e := events[..|events| - 1], events[|events| - 1];
      var s := Run(IDLE, front);
      if Run(IDLE, events).submitted == s.submitted && !e.Exited? {
        ConfirmedByItsAnswer(front);
      }
    }
  }

  // ----------------------------------------------------------- the QML object

  class Service {
    var outgoing: seq<Row>
    var sending: bool
    var sendSequence: nat
    /** sendProc */
    var running: bool
    var outgoingId: string
    var confirmed: bool
    ghost var submitted: seq<string>
    ghost var requests: seq<Request>

    ghost function View(): State
      reads this
    {
      State(outgoing, running, outgoingId, confirmed, sending, sendSequence, submitted, requests)
    }

    constructor ()
      ensures View() == IDLE
    {
      outgoing, sending, sendSequence := [], false, 0;
      running, outgoingId, confirmed := false, "", false;
      submitted, requests := [], [];
    }

    method NextOutgoingId(now: nat) returns (id: string)
      modifies this`sendSequence
      ensures sendSequence == old(sendSequence) + 1 && id == AttemptId(now, sendSequence)
    {
      sendSequence := sendSequence + 1;
      id := AttemptId(now, sendSequence);
    }

    method StartRequest(request: Request)
      requires !running
      modifies this`running, this`requests
      ensures running && requests == old(requests) + [request]
    {
      running := true;
      requests := requests + [request];
    }

    method DrainOutgoing()
      modifies this
      ensures View() == Drain(old(View()))
    {
      if running {
        return;
      }
      var row := NextQueuedOutgoing(outgoing);
      if row.None? {
        sending := false;
        return;
      }
      var id := row.value.id;
      outgoing := UpdateOutgoing(outgoing, id, Sending, "");
      outgoingId := id;
      confirmed := false;
      submitted := submitted + [id];
      if row.value.localPath != "" {
        StartRequest(SendFile(row.value.chatId, row.value.localPath));
      } else {
        StartRequest(SendText(row.value.chatId, row.value.text, id));
      }
      sending := true;
    }

    /** The common part of sendMessage and sendAttachment. */
    method Send(chatId: string, text: string, localPath: string, now: nat, createdAt: string)
      modifies this
      ensures View() == Step(old(View()), Event.Send(chatId, text, localPath, now, createdAt))
    {
      var id := NextOutgoingId(now);
      outgoing := outgoing + [Row(id, chatId, text, localPath, createdAt, Queued, "")];
      DrainOutgoing();
    }

    /** Refuses a text that is only white space; what it queues is the text without white space around it. */
    method SendMessage(chatId: string, text: string, now: nat, createdAt: string) returns (accepted: bool)
      modifies this
      ensures accepted <==> chatId != "" && Text.Trim(text) != ""
      ensures View() == if accepted then Step(old(View()), Event.Send(chatId, Text.Trim(text), "", now, createdAt))
                        else old(View())
      ensures accepted ==> |outgoing| == |old(outgoing)| + 1
                           && Asks(outgoing[|old(outgoing)|], Ask(chatId, Text.Trim(text), ""))
    {
      var body := Text.Trim(text);
      if chatId == "" || text == "" || body == "" {
        assert text == "" ==> body == "";
        return false;
      }
      SendAppends(View(), Event.Send(chatId, body, "", now, createdAt));
      Send(chatId, body, "", now, createdAt);
      return true;
    }

    method SendAttachment(chatId: string, path: string, now: nat, createdAt: string) returns (accepted: bool)
      modifies this
      ensures accepted <==> chatId != "" && path != ""
      ensures View() == if accepted then Step(old(View()), Event.Send(chatId, "", path, now, createdAt))
                        else old(View())
      ensures accepted ==> |outgoing| == |old(outgoing)| + 1
                           && Asks(outgoing[|old(outgoing)|], Ask(chatId, "", path))
    {
      if chatId == "" || path == "" {
        return false;
      }
      SendAppends(View(), Event.Send(chatId, "", path, now, createdAt));
      Send(chatId, "", path, now, createdAt);
      return true;
    }

    method RetryMessage(id: string, now: nat, createdAt: string)
      modifies this
      ensures View() == Step(old(View()), Retry(id, now, createdAt))
    {
      hide AttemptId, Retried;
      var nextId := NextOutgoingId(now);
      outgoing := RetryOutgoing(outgoing, id, nextId, createdAt);
      DrainOutgoing();
    }

    /** applyPatch of a live message that carries the client_id of an attempt. */
    method ApplyEcho(clientId: string)
      modifies this
      ensures View() == Step(old(View()), Echo(clientId))
    {
      outgoing := RemoveOutgoing(outgoing, clientId);
    }

    method OnStreamFinished(ok: bool)
      modifies this
      ensures View() == Step(old(View()), Response(ok))
    {
      confirmed := ok;
    }

    /** The exit of the request process, which by then is not running. */
    method OnExited(exitCode: int, failure: SendState, error: string)
      requires running
      modifies this
      ensures View() == Step(old(View()), Exited(exitCode, failure, error))
    {
      running := false;
      if exitCode == 0 && confirmed {
        outgoing := RemoveOutgoing(outgoing, outgoingId);
      } else {
        var stillPending := Pending(outgoing, outgoingId);
        if !stillPending {
          confirmed := false;
          outgoingId := "";
          sending := false;
          DrainOutgoing();
          return;
        }
        outgoing := UpdateOutgoing(outgoing, outgoingId, failure, error);
      }
      confirmed := false;
      outgoingId := "";
      sending := false;
      assert View() == Edit(old(View()), Exited(exitCode, failure, error));
      DrainOutgoing();
    }
  }

  /** The search for the row in flight in the exit handler. */
  method Pending(outgoing: seq<Row>, id: string) returns (stillPending: bool)
    ensures stillPending <==> Find(outgoing, id) < |outgoing|
  {
    for i := 0 to |outgoing|
      invariant forall j :: 0 <= j < i ==> outgoing[j].id != id
    {
      if outgoing[i].id == id {
        return true;
      }
    }
    return false;
  }
}
