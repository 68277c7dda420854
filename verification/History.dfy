/**
 * The open thread of plugin/Service.qml: history requests that race with live events,
 * chat switches and further loads. The request process answers before it exits; the
 * server's replies are inputs.
 */
module History {
  import opened Prelude
  import opened Timeline

  /** before is "" when the newest messages are asked for. */
  datatype Request = Request(chatId: string, before: string)

  /**
   * selected is the chat of the panel, openChat is the chat whose thread is visible ("" for
   * none); running, chatId, cursor, live and pending are the fields of historyProc.
   */
  datatype State = State(selected: string, openChat: string, messages: seq<Msg>, running: bool,
                         chatId: string, cursor: string, live: seq<Msg>, pending: Option<Request>)

  const IDLE := State("", "", [], false, "", "", [], None)

  datatype Event =
    | Open(chat: string, visible: bool)
    | Show(visible: bool)
    | Load(request: Request)
    | Live(msg: Msg)
    | Reply(result: Option<seq<Msg>>)
    | Exit

  /** loadMessages: one request at a time, the last other one waits. */
  function LoadMessages(s: State, r: Request): State {
    if r.chatId == "" then s
    else if s.running then s.(pending := Some(r))
    else s.(running := true, chatId := r.chatId, cursor := r.before, live := [])
  }

  function Step(s: State, e: Event): State {
    match e
    case Open(chat, visible) =>
      var shown := s.(selected := chat, openChat := if visible then chat else "",
                      messages := if s.openChat != chat then [] else s.messages);
      LoadMessages(shown, Request(chat, ""))
    case Show(visible) => s.(openChat := if visible then s.selected else "")
    case Load(r) => LoadMessages(s, r)
    case Live(m) =>
      s.(live := if s.running && m.chatId == s.chatId then Append(s.live, m) else s.live,
         messages := if s.openChat != "" && m.chatId == s.openChat then Append(s.messages, m) else s.messages)
    case Reply(result) =>
      if !s.running then s
      else if result.Some? && s.chatId == s.openChat then
        var base := if s.cursor != "" then Merge(result.value, s.messages) else result.value;
        s.(messages := Merge(base, s.live), cursor := "")
      else s.(cursor := "")
    case Exit =>
      if !s.running then s
      else
        var idle := s.(running := false, pending := None);
        if s.pending.Some? && s.pending.value.chatId == s.openChat then LoadMessages(idle, s.pending.value) else idle
  }

  function Run(events: seq<Event>): State {
    if events == [] then IDLE else Step(Run(events[..|events| - 1]), events[|events| - 1])
  }

  /** The live messages received for the chat of the request in flight since that request started. */
  function Received(events: seq<Event>): seq<Msg> {
    if events == [] then []
    else
      var front, e := events[..|events| - 1], events[|events| - 1];
      var s := Run(front);
      if !s.running || e.Exit? then []
      else if e.Live? && e.msg.chatId == s.chatId then Received(front) + [e.msg]
      else Received(front)
  }

  // ---------------------------------------------------------- the history race

  /** While a request is in flight, its live list holds the last payload of every message received for its chat. */
  lemma {:induction false} LiveIsLatest(events: seq<Event>)
    ensures DistinctIds(Run(events).live)
    ensures Run(events).running ==> forall m :: m in Run(events).live <==> Latest(Received(events), m)
  {
    if events != [] {
      var front, e := events[..|events| - 1], events[|events| - 1];
      var s := Run(front);
      LiveIsLatest(front);
      if e.Live? && s.running && e.msg.chatId == s.chatId {
        AppendKeepsLatest(s.live, e.msg);
        forall m ensures m in Run(events).live <==> Latest(Received(events), m) {
          LatestSnoc(Received(front), e.msg, m);
        }
      }
    }
  }

  /**
   * A reply that is applied loses no live message: for every interleaving of loads, chat
   * switches and live events before it, each message received for the chat since its
   * request started is in the thread, with its last payload, once per id and in order.
   */
  lemma {:induction false} ReplyKeepsLive(events: seq<Event>, result: seq<Msg>)
    requires Run(events).running && Run(events).chatId == Run(events).openChat
    ensures var shown := Run(events + [Reply(Some(result))]).messages;
            && Ordered(shown)
            && (forall m :: Latest(Received(events), m) ==> m in shown)
            && (forall m :: m in shown && (forall x :: x in Received(events) ==> x.id != m.id) ==>
                  m in result || m in Run(events).messages)
            && (forall x :: x in result ==> exists m :: m in shown && m.id == x.id)
  {
    var s := Run(events);
    assert (events + [Reply(Some(result))])[..|events|] == events;
    LiveIsLatest(events);
    var base := if s.cursor != "" then Merge(result, s.messages) else result;
    var shown := Merge(base, s.live);
    MergedMeaning(base + s.live);
    forall m | Latest(Received(events), m) ensures m in shown {
      LatestOfDistinct(s.live, m);
      LatestConcat(base, s.live, m);
    }
    forall m | m in shown && (forall x :: x in Received(events) ==> x.id != m.id)
      ensures m in result || m in s.messages
    {
      LatestIn(base + s.live, m);
      if m in s.live {
        LatestIn(Received(events), m);
        assert false;
      }
      if s.cursor != "" {
        BaseMembers(result, s.messages, m);
      }
    }
    forall x | x in result ensures exists m :: m in shown && m.id == x.id {
      BaseIds(result, s.messages, x);
      var y :| y in base && y.id == x.id;
      assert y in base + s.live;
      LatestExists(base + s.live, x.id);
    }
  }

  lemma {:induction false} BaseMembers(result: seq<Msg>, messages: seq<Msg>, m: Msg)
    requires m in Merge(result, messages)
    ensures m in result || m in messages
  {
    MergedMeaning(result + messages);
    LatestIn(result + messages, m);
  }

  lemma {:induction false} BaseIds(result: seq<Msg>, messages: seq<Msg>, x: Msg)
    requires x in result
    ensures exists y :: y in Merge(result, messages) && y.id == x.id
  {
    assert x in result + messages;
    LatestExists(result + messages, x.id);
    MergedMeaning(result + messages);
  }

  lemma {:induction false} LatestIn(s: seq<Msg>, m: Msg)
    requires Latest(s, m)
    ensures m in s
  {
  }

  /** While a request is in flight nothing alters its chat, and only its own reply clears its cursor. */
  lemma {:induction false} InFlightFixed(s: State, e: Event)
    requires s.running && !e.Exit?
    ensures Step(s, e).running && Step(s, e).chatId == s.chatId
    ensures !e.Reply? ==> Step(s, e).cursor == s.cursor
    ensures e.Load? ==> Step(s, e).messages == s.messages && Step(s, e).live == s.live
  {
  }

  /** A reply for a chat that is no longer open changes no message. */
  lemma {:induction false} StaleReplyIgnored(s: State, e: Event)
    requires e.Reply? && s.chatId != s.openChat
    ensures Step(s, e).messages == s.messages
  {
  }

  lemma {:induction false} RunSnoc(past: seq<Event>, events: seq<Event>)
    requires events != []
    ensures Run(past + events) == Step(Run(past + events[..|events| - 1]), events[|events| - 1])
  {
    assert (past + events)[..|past + events| - 1] == past + events[..|events| - 1];
  }

  /**
   * From the start of a request to its exit, over every run of other loads, chat switches, live
   * events and replies: its chat stays fixed, and its cursor until its own reply.
   */
  lemma {:induction false} FlightIsFixed(past: seq<Event>, events: seq<Event>)
    requires Run(past).running && forall i :: 0 <= i < |events| ==> !events[i].Exit?
    ensures Run(past + events).running && Run(past + events).chatId == Run(past).chatId
    ensures (forall i :: 0 <= i < |events| ==> !events[i].Reply?) ==> Run(past + events).cursor == Run(past).cursor
  {
    if events == [] {
      assert past + events == past;
    } else {
      FlightIsFixed(past, events[..|events| - 1]);
      RunSnoc(past, events);
      InFlightFixed(Run(past + events[..|events| - 1]), events[|events| - 1]);
    }
  }

  /** While the open chat is another one, no number of further loads and replies changes a message of the thread. */
  lemma {:induction false} StaleFlightIsSilent(past: seq<Event>, events: seq<Event>)
    requires Run(past).running && Run(past).chatId != Run(past).openChat
    requires forall i :: 0 <= i < |events| ==> events[i].Load? || events[i].Reply?
    ensures Run(past + events).messages == Run(past).messages && Run(past + events).openChat == Run(past).openChat
  {
    if events == [] {
      assert past + events == past;
    } else {
      var before := Run(past + events[..|events| - 1]);
      StaleFlightIsSilent(past, events[..|events| - 1]);
      FlightIsFixed(past, events[..|events| - 1]);
      RunSnoc(past, events);
      if events[|events| - 1].Reply? {
        StaleReplyIgnored(before, events[|events| - 1]);
      } else {
        InFlightFixed(before, events[|events| - 1]);
      }
    }
  }

  // ------------------------------------------------------- requests in turn

  /** The chat whose thread is visible: the one opened last, unless the panel was hidden since. */
  ghost function Opened(events: seq<Event>): string {
    if events == [] then ""
    else
      var e := events[|events| - 1];
      if e.Open? then e.chat else Opened(events[..|events| - 1])
  }

  ghost function Visible(events: seq<Event>): bool {
    if events == [] then false
    else
      var e := events[|events| - 1];
      if e.Open? || e.Show? then e.visible else Visible(events[..|events| - 1])
  }

  ghost function ShownChat(events: seq<Event>): string {
    if Visible(events) then Opened(events) else ""
  }

  /** The request that a load or a switch asks for. */
  ghost function AskedBy(e: Event): Option<Request> {
    match e
    case Open(chat, _) => if chat != "" then Some(Request(chat, "")) else None
    case Load(r) => if r.chatId != "" then Some(r) else None
    case _ => None
  }

  /** The last request asked for while the one in flight is on its way. */
  ghost function Waiting(events: seq<Event>): Option<Request> {
    if events == [] || Flight(events[..|events| - 1]).None? || events[|events| - 1].Exit? then None
    else AskedBy(events[|events| - 1]).Or(Waiting(events[..|events| - 1]))
  }

  /**
   * The request in flight: one asked for while none is, and after its exit the last one asked for
   * meanwhile, if that is for the chat that is shown then; its cursor counts until it is answered.
   */
  ghost function Flight(events: seq<Event>): Option<Request> {
    if events == [] then None
    else
      var front, e := events[..|events| - 1], events[|events| - 1];
      match Flight(front)
      case None => AskedBy(e)
      case Some(r) =>
        if e.Exit? then
          (if Waiting(front).Some? && Waiting(front).value.chatId == ShownChat(front) then Waiting(front) else None)
        else if e.Reply? then Some(r.(before := ""))
        else Some(r)
  }

  lemma {:induction false} StepSelects(s: State, e: Event)
    ensures Step(s, e).selected == if e.Open? then e.chat else s.selected
    ensures Step(s, e).openChat == if (e.Open? || e.Show?) && !e.visible then ""
                                   else if e.Open? then e.chat else if e.Show? then s.selected else s.openChat
  {
  }

  lemma {:induction false} SelectionFollows(events: seq<Event>)
    ensures Run(events).selected == Opened(events) && Run(events).openChat == ShownChat(events)
  {
    if events != [] {
      SelectionFollows(events[..|events| - 1]);
      StepSelects(Run(events[..|events| - 1]), events[|events| - 1]);
      hide Step;
    }
  }

  ghost predicate InTurn(s: State, flight: Option<Request>, waiting: Option<Request>) {
    && (s.running <==> flight.Some?) && s.pending == waiting
    && (waiting.Some? ==> flight.Some? && waiting.value.chatId != "")
    && (s.running ==> flight == Some(Request(s.chatId, s.cursor)) && s.chatId != "")
  }

  lemma {:induction false} StepInTurn(s: State, e: Event, flight: Option<Request>, waiting: Option<Request>)
    requires InTurn(s, flight, waiting)
    ensures !s.running ==> InTurn(Step(s, e), AskedBy(e), None)
    ensures s.running && e.Exit? ==>
              var next := if waiting.Some? && waiting.value.chatId == s.openChat then waiting else None;
              InTurn(Step(s, e), next, None)
    ensures s.running && e.Reply? ==> InTurn(Step(s, e), Some(flight.value.(before := "")), waiting)
    ensures s.running && !e.Exit? && !e.Reply? ==> InTurn(Step(s, e), flight, AskedBy(e).Or(waiting))
  {
  }

  /** Over every run the request in flight and the one waiting are these. */
  lemma {:induction false} RequestsTakeTurns(events: seq<Event>)
    ensures InTurn(Run(events), Flight(events), Waiting(events))
    ensures Run(events).selected == Opened(events) && Run(events).openChat == ShownChat(events)
  {
    SelectionFollows(events);
    if events != [] {
      var front, e := events[..|events| - 1], events[|events| - 1];
      RequestsTakeTurns(front);
      StepInTurn(Run(front), e, Flight(front), Waiting(front));
      hide Step;
      if Flight(front).None? {
        assert Waiting(events) == None;
      } else if e.Exit? {
        assert Waiting(events) == None;
      } else if e.Reply? {
        assert Waiting(events) == Waiting(front);
      }
    }
  }

  /**
   * At the exit of a request the last one asked for meanwhile runs at once, with its chat and cursor and
   * no live message yet, if it is for the chat that is shown; otherwise, and if there was none, nothing
   * runs. Nothing waits then, and the thread stays.
   */
  lemma {:induction false} WaitingRequestStarts(events: seq<Event>)
    requires Flight(events).Some?
    ensures var s, later := Run(events), Run(events + [Exit]);
            && later.pending == None && later.messages == s.messages && later.openChat == s.openChat
            && match Waiting(events)
               case Some(r) =>
                 if r.chatId == ShownChat(events)
                 then later.running && later.chatId == r.chatId && later.cursor == r.before && later.live == []
                 else !later.running
               case None => !later.running
  {
    RequestsTakeTurns(events);
    assert (events + [Exit])[..|events|] == events;
  }

  /** A request asked for while none is in flight runs at once. */
  lemma {:induction false} IdleRequestStarts(events: seq<Event>, e: Event)
    requires Flight(events).None? && AskedBy(e).Some?
    ensures var later := Run(events + [e]);
            && later.running && later.chatId == AskedBy(e).value.chatId && later.cursor == AskedBy(e).value.before
            && later.live == [] && later.pending == None
  {
    RequestsTakeTurns(events);
    assert (events + [e])[..|events|] == events;
  }

  // ------------------------------------------------------------ the thread

  /**
   * What the thread is made of, in order of precedence: the live messages of the chat shown; a page in
   * answer for it goes before what is there if it is an older page, and else replaces it, and the live
   * messages received since that request go on top. Another chat starts from nothing.
   */
  ghost function Payloads(events: seq<Event>): seq<Msg> {
    if events == [] then []
    else
      var front, e := events[..|events| - 1], events[|events| - 1];
      match e
      case Open(chat, _) => if chat == ShownChat(front) then Payloads(front) else []
      case Live(m) =>
        if ShownChat(front) != "" && m.chatId == ShownChat(front) then Payloads(front) + [m] else Payloads(front)
      case Reply(Some(page)) =>
        (match Flight(front)
         case Some(r) =>
           if r.chatId != ShownChat(front) then Payloads(front)
           else (if r.before != "" then page + Payloads(front) else page) + Received(front)
         case None => Payloads(front))
      case _ => Payloads(front)
  }

  lemma {:induction false} SameLatest(a: seq<Msg>, b: seq<Msg>, c: seq<Msg>, d: seq<Msg>, m: Msg)
    requires forall x :: Latest(a, x) <==> Latest(b, x)
    requires forall x :: Latest(c, x) <==> Latest(d, x)
    ensures Latest(a + c, m) <==> Latest(b + d, m)
  {
    LatestConcat(a, c, m);
    LatestConcat(b, d, m);
    LatestExists(c, m.id);
    LatestExists(d, m.id);
    hide Latest;
  }

  /** The messages are the last payloads of these updates, each once. */
  ghost predicate Holds(messages: seq<Msg>, updates: seq<Msg>) {
    DistinctIds(messages) && forall m :: m in messages <==> Latest(updates, m)
  }

  lemma {:induction false} PageHolds(events: seq<Event>, page: seq<Msg>)
    requires Run(events).running && Run(events).chatId == Run(events).openChat
    requires Holds(Run(events).messages, Payloads(events))
    ensures Holds(Run(events + [Reply(Some(page))]).messages, Payloads(events + [Reply(Some(page))]))
  {
    var s, all := Run(events), events + [Reply(Some(page))];
    assert all[..|events|] == events;
    RequestsTakeTurns(events);
    LiveIsLatest(events);
    forall m ensures Latest(s.live, m) <==> Latest(Received(events), m) {
      LatestOfDistinct(s.live, m);
    }
    var base := if s.cursor != "" then Merge(page, s.messages) else page;
    var under := if s.cursor != "" then page + Payloads(events) else page;
    MergedMeaning(base + s.live);
    if s.cursor != "" {
      MergedMeaning(page + s.messages);
      forall m ensures Latest(s.messages, m) <==> Latest(Payloads(events), m) {
        LatestOfDistinct(s.messages, m);
      }
      forall m ensures Latest(base, m) <==> Latest(under, m) {
        SameLatest(page, page, s.messages, Payloads(events), m);
        LatestOfDistinct(base, m);
      }
    }
    forall m ensures Latest(base + s.live, m) <==> Latest(under + Received(events), m) {
      SameLatest(base, under, s.live, Received(events), m);
    }
  }

  lemma {:induction false} LiveHolds(messages: seq<Msg>, updates: seq<Msg>, m: Msg)
    requires Holds(messages, updates)
    ensures Holds(Append(messages, m), updates + [m])
  {
    AppendKeepsLatest(messages, m);
    forall x ensures x in Append(messages, m) <==> Latest(updates + [m], x) {
      LatestSnoc(updates, m, x);
    }
  }

  /** Any other event leaves the thread, or starts another one. */
  lemma {:induction false} OthersHold(events: seq<Event>, e: Event)
    requires Holds(Run(events).messages, Payloads(events))
    requires !e.Live?
    requires e.Reply? && e.result.Some? && Run(events).running ==> Run(events).chatId != Run(events).openChat
    ensures Holds(Run(events + [e]).messages, Payloads(events + [e]))
  {
    hide Holds, Append, Merge;
    assert (events + [e])[..|events|] == events;
    RequestsTakeTurns(events);
    assert Holds([], []) by { NothingHolds(); }
  }

  lemma {:induction false} NothingHolds()
    ensures Holds([], [])
  {
  }

  /** Over every run the thread holds the last payload of each message that it is made of, and nothing else. */
  lemma {:induction false} ThreadHolds(events: seq<Event>)
    ensures Holds(Run(events).messages, Payloads(events))
  {
    hide Holds, Append, Merge;
    NothingHolds();
    if events != [] {
      var front, e := events[..|events| - 1], events[|events| - 1];
      var s := Run(front);
      ThreadHolds(front);
      assert events == front + [e];
      if e.Live? {
        RequestsTakeTurns(front);
        LiveHolds(s.messages, Payloads(front), e.msg);
      } else if e.Reply? && e.result.Some? && s.running && s.chatId == s.openChat {
        PageHolds(front, e.result.value);
      } else {
        OthersHold(front, e);
      }
    }
  }

  // ---------------------------------------------------- one chat in the thread

  ghost predicate OfChat(messages: seq<Msg>, chat: string) {
    forall i :: 0 <= i < |messages| ==> messages[i].chatId == chat
  }

  /** Chats have ids, and the server answers a request with messages of its chat. */
  ghost predicate Possible(s: State, e: Event) {
    && (e.Open? ==> e.chat != "")
    && (e.Reply? && e.result.Some? ==> OfChat(e.result.value, s.chatId))
  }

  ghost predicate PossibleRun(events: seq<Event>) {
    events != [] ==> PossibleRun(events[..|events| - 1]) && Possible(Run(events[..|events| - 1]), events[|events| - 1])
  }

  lemma {:induction false} MergedOfChat(s: seq<Msg>, chat: string)
    requires OfChat(s, chat)
    ensures OfChat(Merged(s), chat)
  {
    MergedMeaning(s);
    forall i | 0 <= i < |Merged(s)| ensures Merged(s)[i].chatId == chat {
      assert Merged(s)[i] in Merged(s);
      LatestIn(s, Merged(s)[i]);
    }
  }

  lemma {:induction false} AppendOfChat(s: seq<Msg>, m: Msg, chat: string)
    requires OfChat(s, chat) && m.chatId == chat
    ensures OfChat(Append(s, m), chat)
  {
    MergedOfChat(s + [m], chat);
  }

  /** Over every run the thread shows messages of the selected chat only, whatever replies were on their way. */
  lemma {:induction false} ThreadOfOneChat(events: seq<Event>)
    requires PossibleRun(events)
    ensures var s := Run(events);
            && OfChat(s.messages, s.selected) && (s.openChat == "" || s.openChat == s.selected)
            && (s.running ==> s.chatId != "" && OfChat(s.live, s.chatId))
  {
    if events != [] {
      var front, e := events[..|events| - 1], events[|events| - 1];
      var s := Run(front);
      ThreadOfOneChat(front);
      match e
      case Live(m) =>
        if s.running && m.chatId == s.chatId {
          AppendOfChat(s.live, m, s.chatId);
        }
        if s.openChat != "" && m.chatId == s.openChat {
          AppendOfChat(s.messages, m, s.selected);
        }
      case Reply(result) =>
        if s.running && result.Some? && s.chatId == s.openChat {
          MergedOfChat(result.value + s.messages, s.chatId);
          MergedOfChat(result.value + s.live, s.chatId);
          MergedOfChat(Merge(result.value, s.messages) + s.live, s.chatId);
        }
      case _ =>
    }
  }

  // ----------------------------------------------------------- the QML object

  class Service {
    var selected: string
    var openChat: string
    var messages: seq<Msg>
    /** historyProc */
    var running: bool
    var chatId: string
    var cursor: string
    var live: seq<Msg>
    var pending: Option<Request>

    ghost function View(): State
      reads this
    {
      State(selected, openChat, messages, running, chatId, cursor, live, pending)
    }

    constructor ()
      ensures View() == IDLE
    {
      selected, openChat, messages := "", "", [];
      running, chatId, cursor, live, pending := false, "", "", [], None;
    }

    method LoadMessages(r: Request)
      modifies this
      ensures View() == Step(old(View()), Load(r))
    {
      if r.chatId == "" {
        return;
      }
      if running {
        pending := Some(r);
        return;
      }
      chatId := r.chatId;
      cursor := r.before;
      live := [];
      running := true;
    }

    method OpenChat(chat: string, visible: bool)
      modifies this
      ensures View() == Step(old(View()), Open(chat, visible))
    {
      selected := chat;
      if openChat != chat {
        messages := [];
      }
      UpdateActiveChat(visible);
      LoadMessages(Request(chat, ""));
    }

    method UpdateActiveChat(visible: bool)
      modifies this
      ensures View() == Step(old(View()), Show(visible))
    {
      openChat := if visible then selected else "";
    }

    /** ingest of a sync.message event, with the patch it leads to. */
    method Ingest(m: Msg)
      modifies this
      ensures View() == Step(old(View()), Live(m))
    {
      if running && m.chatId == chatId {
        live := AppendMessage(live, m);
      }
      if openChat != "" && m.chatId == openChat {
        messages := AppendMessage(messages, m);
      }
    }

    method OnStreamFinished(result: Option<seq<Msg>>)
      requires running
      modifies this
      ensures View() == Step(old(View()), Reply(result))
    {
      if result.Some? && chatId == openChat {
        var base := result.value;
        if cursor != "" {
          base := MergeMessages(result.value, messages);
        }
        messages := MergeMessages(base, live);
      }
      cursor := "";
    }

    method OnExited()
      requires running
      modifies this
      ensures View() == Step(old(View()), Exit)
    {
      running := false;
      var waiting := pending;
      pending := None;
      if waiting.Some? && waiting.value.chatId == openChat {
        LoadMessages(waiting.value);
      }
    }
  }
}
