/**
 * Runs of the cache's domain operations (sync/src/cache.rs): each is a sequence of the statements of
 * Tables, so the laws over statements hold of them, and unread counts are conserved in terms of the
 * guids of the server.
 */
module Conservation {
  import opened Prelude
  import opened Domain
  import opened Documents
  import opened Tables
  import opened Identities
  import opened Delivery
  import U = Unread

  // ------------------------------------------------------ operations as statements

  /** A sequence of statements that renames no sender leads from one state to the other. */
  ghost predicate Leads(db: Db, trace: seq<Op>, later: Db) {
    later == Tables.Run(db, trace) && forall i :: 0 <= i < |trace| ==> !trace[i].RenameSender?
  }

  lemma {:induction false} LeadsOn(a: Db, ab: seq<Op>, b: Db, op: Op)
    requires Leads(a, ab, b) && !op.RenameSender?
    ensures Leads(a, ab + [op], Tables.Step(b, op))
  {
    assert (ab + [op])[..|ab|] == ab;
  }

  lemma {:induction false} IdIsInserted(db: Db, guid: string)
    requires WithId(db, guid).Some?
    ensures WithId(db, guid).value.0 == Tables.Step(db, InsertIdentity(guid, WithId(db, guid).value.1))
  {
  }

  /** Every domain operation is a sequence of statements. */
  lemma {:induction false} PerformedIsRun(db: Db, op: DomainOp) returns (trace: seq<Op>)
    requires Performed(db, op).Some?
    ensures Leads(db, trace, Performed(db, op).value)
  {
    hide WithId, StoreChat, StoreMessage, ApplyLive, Leads;
    trace := [];
    assert Leads(db, trace, db) by { LeadsNowhere(db); }
    match op
    case PutChat(chat) =>
      var (known, id) := WithId(db, chat.guid).value;
      IdIsInserted(db, chat.guid);
      LeadsOn(db, trace, db, InsertIdentity(chat.guid, id));
      trace := trace + [InsertIdentity(chat.guid, id)];
      LeadsOn(db, trace, known, Op.UpsertChat(ChatDoc(chat, id)));
      trace := trace + [Op.UpsertChat(ChatDoc(chat, id))];
    case PutMessage(m) =>
      var (one, chatId) := WithId(db, m.chat).value;
      var (two, id) := WithId(one, m.guid).value;
      IdIsInserted(db, m.chat);
      LeadsOn(db, trace, db, InsertIdentity(m.chat, chatId));
      trace := trace + [InsertIdentity(m.chat, chatId)];
      IdIsInserted(one, m.guid);
      LeadsOn(db, trace, one, InsertIdentity(m.guid, id));
      trace := trace + [InsertIdentity(m.guid, id)];
      LeadsOn(db, trace, two, Op.UpsertMessage(MessageDoc(m, id, chatId)));
      trace := trace + [Op.UpsertMessage(MessageDoc(m, id, chatId))];
    case Deliver(m) =>
      var (known, chatId) := WithId(db, m.chat).value;
      var (one, _) := WithChat(db, m).value;
      var (two, id) := WithId(one, m.guid).value;
      var doc := FillSender(two.chats, chatId, MessageDoc(m, id, chatId));
      IdIsInserted(db, m.chat);
      LeadsOn(db, trace, db, InsertIdentity(m.chat, chatId));
      trace := trace + [InsertIdentity(m.chat, chatId)];
      if chatId !in known.chats {
        LeadsOn(db, trace, known, Op.UpsertChat(ChatDoc(Stub(m), chatId)));
        trace := trace + [Op.UpsertChat(ChatDoc(Stub(m), chatId))];
      }
      IdIsInserted(one, m.guid);
      LeadsOn(db, trace, one, InsertIdentity(m.guid, id));
      trace := trace + [InsertIdentity(m.guid, id)];
      LeadsOn(db, trace, two, Op.Live(doc));
      trace := trace + [Op.Live(doc)];
    case SetRead(id) =>
      LeadsOn(db, trace, db, MarkRead(id));
      trace := trace + [MarkRead(id)];
  }

  lemma {:induction false} LeadsNowhere(db: Db)
    ensures Leads(db, [], db)
  {
  }

  lemma {:induction false} LeadsFurther(a: Db, ab: seq<Op>, b: Db, bc: seq<Op>, c: Db)
    requires Leads(a, ab, b) && Leads(b, bc, c)
    ensures Leads(a, ab + bc, c)
  {
    RunConcat(a, ab, bc);
  }

  /** So every run of domain operations is a run of statements, between any two of its states. */
  lemma {:induction false} DomainRunIsRun(ops: seq<DomainOp>, states: seq<Db>, j: nat, k: nat) returns (trace: seq<Op>)
    requires DomainRun(ops, states) && j <= k <= |ops|
    ensures Leads(states[j], trace, states[k])
  {
    hide Performed, Leads;
    if j == k {
      trace := [];
      LeadsNowhere(states[j]);
    } else {
      trace := DomainRunIsRun(ops, states, j, k - 1);
      assert Performed(states[k - 1], ops[k - 1]) == Some(states[k]);
      var last := PerformedIsRun(states[k - 1], ops[k - 1]);
      LeadsFurther(states[j], trace, states[k - 1], last, states[k]);
      trace := trace + last;
    }
  }

  /** Over every run of domain operations: once the name of a person, always the name of a person. */
  lemma {:induction false} DomainRunKeepsNames(ops: seq<DomainOp>, states: seq<Db>, j: nat, k: nat)
    requires DomainRun(ops, states) && j <= k <= |ops|
    ensures Agrees(states[j]) && NamesKept(states[j], states[k])
  {
    var start := DomainRunIsRun(ops, states, 0, j);
    var trace := DomainRunIsRun(ops, states, j, k);
    ProjectionsAgree(start);
    NamesNeverRegress(states[j], trace);
  }

  // ------------------------------------------------------------ rows by guid

  ghost predicate HasRow(db: Db, chat: string) {
    chat in db.ids && db.ids[chat] in db.chats
  }

  ghost function CountOf(db: Db, chat: string): int
    requires HasRow(db, chat)
  {
    db.chats[db.ids[chat]].unread
  }

  ghost predicate HasMessage(db: Db, guid: string) {
    guid in db.ids && db.ids[guid] in db.messages
  }

  /** The two states have the same rows, with the same counts. */
  ghost predicate SameRows(db: Db, later: Db) {
    && (forall g :: HasRow(later, g) <==> HasRow(db, g)) && (forall g :: HasMessage(later, g) <==> HasMessage(db, g))
    && (forall g :: HasRow(db, g) ==> CountOf(later, g) == CountOf(db, g))
  }

  ghost predicate Sane(db: Db) {
    Agrees(db) && IdsOk(db.ids) && RowsHaveGuids(db)
  }

  /** More identities over the same rows: a new guid never has the id of a row. */
  lemma {:induction false} MoreIdentities(db: Db, later: Db)
    requires RowsHaveGuids(db) && IdsOk(later.ids) && Grows(db.ids, later.ids)
    requires later.chats == db.chats && later.messages == db.messages
    ensures SameRows(db, later) && RowsHaveGuids(later)
  {
    forall c | c in later.chats ensures exists g :: g in later.ids && later.ids[g] == c {
      var g :| g in db.ids && db.ids[g] == c;
      assert later.ids[g] == c;
    }
    forall i | i in later.messages ensures exists g :: g in later.ids && later.ids[g] == i {
      var g :| g in db.ids && db.ids[g] == i;
      assert later.ids[g] == i;
    }
    forall h | h in later.ids && (later.ids[h] in db.chats || later.ids[h] in db.messages) ensures h in db.ids {
      var g :| g in db.ids && db.ids[g] == later.ids[h];
      assert later.ids[g] == later.ids[h];
    }
  }

  /** Asking for an id makes no row. */
  lemma {:induction false} IdMakesNoRow(db: Db, guid: string)
    requires Sane(db) && WithId(db, guid).Some?
    ensures var (later, id) := WithId(db, guid).value;
            Sane(later) && SameRows(db, later) && guid in later.ids && later.ids[guid] == id && 1 <= id <= I64_MAX
  {
    hide RowsHaveGuids, SameRows, WithId;
    WithIdKeeps(db, guid);
    MoreIdentities(db, WithId(db, guid).value.0);
  }

  /** A chat stored under the id of its guid: one more row at most, with the server's count if it is new. */
  lemma {:induction false} ChatMakesRow(db: Db, doc: Doc, chat: string, g: string)
    requires Sane(db) && chat in db.ids && IdOf(Get(doc, Id)) == db.ids[chat] && AsStr(Get(doc, Guid)) == Some(chat)
    ensures var later := StoreChat(db, doc);
            && Sane(later) && later.ids == db.ids && later.messages == db.messages
            && (HasRow(later, g) <==> HasRow(db, g) || g == chat)
            && (HasRow(later, g) ==>
                  CountOf(later, g) == if HasRow(db, g) then CountOf(db, g) else AsCount(Get(doc, UnreadCount)))
  {
    var later, id := StoreChat(db, doc), db.ids[chat];
    StoreChatAgrees(db, doc);
    StoredChat(db, doc, id);
    assert id in db.chats ==> ChatAgrees(id, db.chats[id]);
  }

  /** The message has its row afterwards; no chat is touched. */
  lemma {:induction false} MessageMakesRow(db: Db, doc: Doc, guid: string, g: string)
    requires Sane(db) && guid in db.ids && IdOf(Get(doc, Id)) == db.ids[guid]
    ensures var later := StoreMessage(db, doc);
            && Sane(later) && later.ids == db.ids && later.chats == db.chats
            && (HasMessage(later, g) <==> HasMessage(db, g) || g == guid)
  {
    StoreMessageAgrees(db, doc);
  }

  /** And so after a live message, which counts in its chat if it is new and from someone else. */
  lemma {:induction false} LiveCounts(db: Db, doc: Doc, m: Message, g: string)
    requires Sane(db) && m.guid in db.ids && IdOf(Get(doc, Id)) == db.ids[m.guid]
    requires m.chat in db.ids && IdOf(Get(doc, ChatId)) == db.ids[m.chat] && Get(doc, IsFromMe) == Bool(m.isFromMe)
    ensures var later := ApplyLive(db, doc);
            && Sane(later) && later.ids == db.ids
            && (HasMessage(later, g) <==> HasMessage(db, g) || g == m.guid) && (HasRow(later, g) <==> HasRow(db, g))
            && (HasRow(db, g) ==>
                  CountOf(later, g) ==
                  if g == m.chat && !m.isFromMe && !HasMessage(db, m.guid) then Min(CountOf(db, g) + 1, I64_MAX)
                  else CountOf(db, g))
  {
    hide ApplyLive, Agrees, RowsHaveGuids;
    LiveMakesRow(db, doc, m.guid, g);
    if HasRow(db, g) {
      U.CountOfLive(db, doc, db.ids[g]);
    }
  }

  lemma {:induction false} LiveMakesRow(db: Db, doc: Doc, guid: string, g: string)
    requires Sane(db) && guid in db.ids && IdOf(Get(doc, Id)) == db.ids[guid]
    ensures var later := ApplyLive(db, doc);
            && Sane(later) && later.ids == db.ids
            && (HasMessage(later, g) <==> HasMessage(db, g) || g == guid) && (HasRow(later, g) <==> HasRow(db, g))
  {
    ApplyLiveAgrees(db, doc);
    MessageMakesRow(db, doc, guid, g);
    assert ApplyLive(db, doc).chats.Keys == db.chats.Keys;
  }

  // ------------------------------------------------------- what an operation does

  predicate StoresGuid(op: DomainOp, guid: string) {
    (op.PutMessage? || op.Deliver?) && op.m.guid == guid
  }

  predicate MakesGuid(op: DomainOp, chat: string) {
    (op.PutChat? && op.chat.guid == chat) || (op.Deliver? && op.m.chat == chat)
  }

  /** The operation marks the chat read. */
  ghost predicate Reads(db: Db, op: DomainOp, chat: string) {
    op.SetRead? && chat in db.ids && db.ids[chat] == op.id
  }

  /** The count that a chat begins with: the server's, or none for a stub and for a chat that was read. */
  function BaseOf(op: DomainOp): int {
    if op.PutChat? then AsCount(Num(op.chat.unreadCount)) else 0
  }

  ghost predicate CountsNow(db: Db, op: DomainOp, chat: string) {
    op.Deliver? && op.m.chat == chat && !op.m.isFromMe && !HasMessage(db, op.m.guid)
  }

  ghost function CountAfter(db: Db, op: DomainOp, chat: string): int {
    var start := if !HasRow(db, chat) || Reads(db, op, chat) then BaseOf(op) else CountOf(db, chat);
    if CountsNow(db, op, chat) then Min(start + 1, I64_MAX) else start
  }

  /** What one operation does to the rows and the count of a guid. */
  ghost predicate Follows(db: Db, op: DomainOp, later: Db, g: string) {
    && (HasMessage(later, g) <==> HasMessage(db, g) || StoresGuid(op, g))
    && (HasRow(later, g) <==> HasRow(db, g) || MakesGuid(op, g))
    && (HasRow(later, g) ==> CountOf(later, g) == CountAfter(db, op, g))
  }

  lemma {:induction false} PutChatFollows(db: Db, chat: Chat, g: string)
    requires Sane(db) && UpsertDomainChat(db, chat).Some?
    ensures Sane(UpsertDomainChat(db, chat).value) && Follows(db, PutChat(chat), UpsertDomainChat(db, chat).value, g)
  {
    hide Sane, WithId, StoreChat, ChatDoc;
    var (known, id) := WithId(db, chat.guid).value;
    IdMakesNoRow(db, chat.guid);
    ChatDocIds(chat, id);
    ChatDocCount(chat, id);
    ChatMakesRow(known, ChatDoc(chat, id), chat.guid, g);
  }

  lemma {:induction false} ChatDocCount(chat: Chat, id: int)
    ensures Get(ChatDoc(chat, id), UnreadCount) == Num(chat.unreadCount)
  {
  }

  lemma {:induction false} PutMessageFollows(db: Db, m: Message, g: string)
    requires Sane(db) && UpsertDomainMessage(db, m).Some?
    ensures Sane(UpsertDomainMessage(db, m).value)
            && Follows(db, PutMessage(m), UpsertDomainMessage(db, m).value, g)
  {
    hide Sane, WithId, StoreMessage, MessageDoc;
    var (one, chatId) := WithId(db, m.chat).value;
    var (two, id) := WithId(one, m.guid).value;
    IdMakesNoRow(db, m.chat);
    IdMakesNoRow(one, m.guid);
    MessageDocGuid(two.chats, m, id, chatId);
    MessageMakesRow(two, MessageDoc(m, id, chatId), m.guid, g);
  }

  /** The first half of a delivery: the chat has its row, a new one with nothing unread. */
  lemma {:induction false} KnownChatFollows(db: Db, m: Message, g: string)
    requires Sane(db) && WithChat(db, m).Some?
    ensures var (one, chatId) := WithChat(db, m).value;
            && Sane(one) && m.chat in one.ids && one.ids[m.chat] == chatId && 1 <= chatId <= I64_MAX
            && (HasMessage(one, g) <==> HasMessage(db, g)) && (HasRow(one, g) <==> HasRow(db, g) || g == m.chat)
            && (HasRow(one, g) ==> CountOf(one, g) == if HasRow(db, g) then CountOf(db, g) else 0)
  {
    hide Sane, WithId, StoreChat, ChatDoc;
    var (known, chatId) := WithId(db, m.chat).value;
    IdMakesNoRow(db, m.chat);
    if chatId !in known.chats {
      ChatDocIds(Stub(m), chatId);
      ChatDocCount(Stub(m), chatId);
      ChatMakesRow(known, ChatDoc(Stub(m), chatId), m.chat, g);
    }
  }

  lemma {:induction false} DeliverFollows(db: Db, m: Message, g: string)
    requires Sane(db) && ApplyDomainMessage(db, m).Some?
    ensures Sane(ApplyDomainMessage(db, m).value) && Follows(db, Deliver(m), ApplyDomainMessage(db, m).value, g)
  {
    hide Sane, WithId, WithChat, ApplyLive, FillSender, MessageDoc;
    var (one, chatId) := WithChat(db, m).value;
    var (two, id) := WithId(one, m.guid).value;
    KnownChatFollows(db, m, g);
    KnownChatFollows(db, m, m.guid);
    IdMakesNoRow(one, m.guid);
    WithIdGrows(one, m.guid, m.chat);
    LiveDoc(two.chats, m, id, chatId);
    LiveCounts(two, FillSender(two.chats, chatId, MessageDoc(m, id, chatId)), m, g);
  }

  lemma {:induction false} WithIdGrows(db: Db, guid: string, g: string)
    requires WithId(db, guid).Some? && g in db.ids
    ensures var later := WithId(db, guid).value.0; g in later.ids && later.ids[g] == db.ids[g]
  {
  }

  lemma {:induction false} SetReadFollows(db: Db, id: int, g: string)
    requires Sane(db)
    ensures Sane(Tables.Step(db, MarkRead(id))) && Follows(db, SetRead(id), Tables.Step(db, MarkRead(id)), g)
  {
    StepAgrees(db, MarkRead(id));
  }

  lemma {:induction false} PerformedFollows(db: Db, op: DomainOp, g: string)
    requires Sane(db) && Performed(db, op).Some?
    ensures Sane(Performed(db, op).value) && Follows(db, op, Performed(db, op).value, g)
  {
    hide Sane, Follows;
    match op
    case PutChat(chat) => PutChatFollows(db, chat, g);
    case PutMessage(m) => PutMessageFollows(db, m, g);
    case Deliver(m) => DeliverFollows(db, m, g);
    case SetRead(id) => SetReadFollows(db, id, g);
  }

  // --------------------------------------------------------- counts over a run

  ghost predicate StoredBefore(ops: seq<DomainOp>, t: nat, guid: string)
    requires t <= |ops|
  {
    exists u :: 0 <= u < t && StoresGuid(ops[u], guid)
  }

  ghost predicate MadeBefore(ops: seq<DomainOp>, t: nat, chat: string)
    requires t <= |ops|
  {
    exists u :: 0 <= u < t && MakesGuid(ops[u], chat)
  }

  /** The operation at t delivers an inbound message of the chat whose guid nothing stored before. */
  ghost predicate NewInbound(ops: seq<DomainOp>, t: nat, chat: string)
    requires t < |ops|
  {
    && ops[t].Deliver? && ops[t].m.chat == chat && !ops[t].m.isFromMe
    && !StoredBefore(ops, t, ops[t].m.guid)
  }

  /** The operation at t makes the chat, or marks it read. */
  ghost predicate ResetBy(ops: seq<DomainOp>, states: seq<Db>, t: nat, chat: string)
    requires t < |ops| && t < |states|
  {
    if MadeBefore(ops, t, chat) then Reads(states[t], ops[t], chat) else MakesGuid(ops[t], chat)
  }

  ghost predicate LastResetBy(ops: seq<DomainOp>, states: seq<Db>, t: nat, n: nat, chat: string)
    requires t < n <= |ops| && n <= |states|
  {
    ResetBy(ops, states, t, chat) && forall u :: t < u < n ==> !ResetBy(ops, states, u, chat)
  }

  /** The guids of the new inbound messages of the chat from t up to n. */
  ghost function NewGuids(ops: seq<DomainOp>, t: nat, n: nat, chat: string): set<string>
    requires n <= |ops|
  {
    set u | t <= u < n && NewInbound(ops, u, chat) :: ops[u].m.guid
  }

  /** What is there is what some operation put there. */
  lemma {:induction false} RowsOfRun(ops: seq<DomainOp>, states: seq<Db>, t: nat, g: string)
    requires DomainRun(ops, states) && t <= |ops|
    ensures Sane(states[t])
    ensures (HasMessage(states[t], g) <==> StoredBefore(ops, t, g)) && (HasRow(states[t], g) <==> MadeBefore(ops, t, g))
  {
    hide Performed, Sane;
    if t == 0 {
      SaneAtFirst();
    } else {
      RowsOfRun(ops, states, t - 1, g);
      assert Performed(states[t - 1], ops[t - 1]) == Some(states[t]);
      PerformedFollows(states[t - 1], ops[t - 1], g);
    }
  }

  lemma {:induction false} SaneAtFirst()
    ensures Sane(EMPTY)
  {
  }

  /** The operation at u is for a new inbound message with this guid. */
  ghost predicate NewWith(ops: seq<DomainOp>, u: nat, chat: string, g: string)
    requires u < |ops|
  {
    NewInbound(ops, u, chat) && ops[u].m.guid == g
  }

  lemma {:induction false} NewGuidsMeaning(ops: seq<DomainOp>, t: nat, n: nat, chat: string, g: string)
    requires n <= |ops|
    ensures g in NewGuids(ops, t, n, chat) <==> exists u :: t <= u < n && NewWith(ops, u, chat, g)
  {
    if u :| t <= u < n && NewWith(ops, u, chat, g) {
      assert NewInbound(ops, u, chat);
    }
    if g in NewGuids(ops, t, n, chat) {
      var u :| t <= u < n && NewInbound(ops, u, chat) && ops[u].m.guid == g;
      assert NewWith(ops, u, chat, g);
    }
  }

  lemma {:induction false} StoredByThen(ops: seq<DomainOp>, u: nat, n: nat, chat: string, g: string)
    requires u < n < |ops| && NewWith(ops, u, chat, g)
    ensures StoredBefore(ops, n, g)
  {
    assert StoresGuid(ops[u], g);
  }

  lemma {:induction false} NotStoredYet(ops: seq<DomainOp>, n: nat, chat: string, g: string)
    requires n < |ops| && NewWith(ops, n, chat, g)
    ensures !StoredBefore(ops, n, g)
  {
  }

  /** What a new inbound message carries is a guid not counted yet. */
  lemma {:induction false} NewGuidIsNew(ops: seq<DomainOp>, t: nat, n: nat, chat: string, g: string)
    requires t <= n < |ops| && NewWith(ops, n, chat, g)
    ensures g !in NewGuids(ops, t, n, chat)
  {
    hide NewGuids, NewWith, StoredBefore;
    NewGuidsMeaning(ops, t, n, chat, g);
    forall u | t <= u < n && NewWith(ops, u, chat, g) ensures StoredBefore(ops, n, g) {
      StoredByThen(ops, u, n, chat, g);
    }
    NotStoredYet(ops, n, chat, g);
  }

  lemma {:induction false} OneMoreGuid(ops: seq<DomainOp>, t: nat, n: nat, chat: string, g: string)
    requires t <= n < |ops|
    ensures g in NewGuids(ops, t, n + 1, chat) <==> g in NewGuids(ops, t, n, chat) || NewWith(ops, n, chat, g)
  {
    hide NewGuids, NewWith;
    NewGuidsMeaning(ops, t, n + 1, chat, g);
    NewGuidsMeaning(ops, t, n, chat, g);
  }

  /** So one more operation counts one more exactly if it is for a new inbound message. */
  lemma {:induction false} NewGuidsSnoc(ops: seq<DomainOp>, t: nat, n: nat, chat: string)
    requires t <= n < |ops|
    ensures |NewGuids(ops, t, n + 1, chat)| == |NewGuids(ops, t, n, chat)| + if NewInbound(ops, n, chat) then 1 else 0
  {
    var now, before := NewGuids(ops, t, n + 1, chat), NewGuids(ops, t, n, chat);
    var added: set<string> := if NewInbound(ops, n, chat) then {ops[n].m.guid} else {};
    if NewInbound(ops, n, chat) {
      NewGuidIsNew(ops, t, n, chat, ops[n].m.guid);
    }
    hide NewGuids, StoredBefore;
    forall g ensures g in now <==> g in before + added {
      OneMoreGuid(ops, t, n, chat, g);
    }
    assert now == before + added;
  }

  /** One more operation on a chat: its count starts again at a reset, and goes up by a new inbound message. */
  lemma {:induction false} CountOfOperation(ops: seq<DomainOp>, states: seq<Db>, n: nat, chat: string)
    requires DomainRun(ops, states) && n < |ops| && MadeBefore(ops, n + 1, chat)
    ensures HasRow(states[n + 1], chat) && (!ResetBy(ops, states, n, chat) ==> HasRow(states[n], chat))
    ensures var start := if ResetBy(ops, states, n, chat) then BaseOf(ops[n]) else CountOf(states[n], chat);
            CountOf(states[n + 1], chat) == if NewInbound(ops, n, chat) then Min(start + 1, I64_MAX) else start
  {
    hide Performed, Sane;
    RowsOfRun(ops, states, n, chat);
    RowsOfRun(ops, states, n + 1, chat);
    assert Performed(states[n], ops[n]) == Some(states[n + 1]);
    PerformedFollows(states[n], ops[n], chat);
    if ops[n].Deliver? {
      RowsOfRun(ops, states, n, ops[n].m.guid);
    }
  }

  /**
   * Unread conservation over every run of domain operations: a chat that was made or delivered to has
   * a row, and its count is the base of its last reset plus the number of different guids of inbound
   * messages that were first stored by a delivery since then, saturating at the largest 64-bit integer.
   */
  lemma {:induction false} UnreadIsConserved(ops: seq<DomainOp>, states: seq<Db>, n: nat, chat: string) returns (t: nat)
    requires DomainRun(ops, states) && n <= |ops| && MadeBefore(ops, n, chat)
    ensures HasRow(states[n], chat) && t < n && LastResetBy(ops, states, t, n, chat)
    ensures CountOf(states[n], chat) == Min(BaseOf(ops[t]) + |NewGuids(ops, t, n, chat)|, I64_MAX)
  {
    hide DomainRun, ResetBy, NewInbound, HasRow, CountOf, LastResetBy, NewGuids, BaseOf;
    assert n > 0 && |states| == |ops| + 1 by { RunLengths(ops, states); }
    CountOfOperation(ops, states, n - 1, chat);
    if ResetBy(ops, states, n - 1, chat) {
      t := n - 1;
      ResetNow(ops, states, t, chat);
    } else {
      StillMade(ops, states, n, chat);
      t := UnreadIsConserved(ops, states, n - 1, chat);
      NewGuidsSnoc(ops, t, n - 1, chat);
      NoResetSince(ops, states, t, n, chat);
    }
  }

  lemma {:induction false} RunLengths(ops: seq<DomainOp>, states: seq<Db>)
    requires DomainRun(ops, states)
    ensures |states| == |ops| + 1
  {
  }

  lemma {:induction false} ResetNow(ops: seq<DomainOp>, states: seq<Db>, t: nat, chat: string)
    requires t < |ops| && t < |states| && ResetBy(ops, states, t, chat)
    ensures LastResetBy(ops, states, t, t + 1, chat) && BaseOf(ops[t]) <= I64_MAX
    ensures |NewGuids(ops, t, t + 1, chat)| == if NewInbound(ops, t, chat) then 1 else 0
  {
    hide ResetBy, NewInbound;
    NewGuidsSnoc(ops, t, t, chat);
    assert NewGuids(ops, t, t, chat) == {};
  }

  lemma {:induction false} NoResetSince(ops: seq<DomainOp>, states: seq<Db>, t: nat, n: nat, chat: string)
    requires t < n - 1 < |ops| && n <= |states| && LastResetBy(ops, states, t, n - 1, chat)
    requires !ResetBy(ops, states, n - 1, chat)
    ensures LastResetBy(ops, states, t, n, chat)
  {
    hide ResetBy;
  }

  lemma {:induction false} StillMade(ops: seq<DomainOp>, states: seq<Db>, n: nat, chat: string)
    requires 0 < n <= |ops| && n <= |states| && MadeBefore(ops, n, chat) && !ResetBy(ops, states, n - 1, chat)
    ensures MadeBefore(ops, n - 1, chat)
  {
  }
}
