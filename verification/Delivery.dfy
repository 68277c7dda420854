/**
 * Messages and chats of the server on their way into the cache (the domain operations of
 * sync/src/cache.rs), and what at-least-once, reordered delivery of messages leads to.
 */
module Delivery {
  import opened Prelude
  import opened Domain
  import opened Documents
  import opened Tables
  import opened Identities
  import Text

  // ------------------------------------------------------ records as documents

  function OptionJson(s: Option<string>): Json {
    if s.Some? then Str(s.value) else Null
  }

  /** A guid with ";+;" in it names a group. */
  predicate IsGroupGuid(guid: string) {
    exists i :: 0 <= i < |guid| - 2 && guid[i] == ';' && guid[i + 1] == '+' && guid[i + 2] == ';'
  }

  function FirstPerson(handles: seq<Handle>): Option<string> {
    if handles == [] then None
    else if handles[0].name.Some? && IsPersonName(handles[0].name.value) then handles[0].name
    else FirstPerson(handles[1..])
  }

  function ChatName(chat: Chat): string {
    var shown := if chat.displayName.Some? && IsPersonName(chat.displayName.value) then chat.displayName else None;
    shown.Or(FirstPerson(chat.participants)).GetOr(chat.identifier)
  }

  /** Chat::to_cache_json */
  function ChatDoc(chat: Chat, id: int): Doc {
    map[Id := IdJson(id), Guid := Str(chat.guid), Name := Str(ChatName(chat)), ContactName := Str(ChatName(chat)),
        DisplayName := OptionJson(chat.displayName), Identifier := Str(chat.identifier),
        Participants := Arr(seq(|chat.participants|,
                                i requires 0 <= i < |chat.participants| => Str(chat.participants[i].address))),
        LastMessageAt := OptionJson(chat.lastMessageAt), UnreadCount := Num(chat.unreadCount),
        IsGroup := Bool(chat.isGroup)]
  }

  function AttachmentJson(a: Attachment): Json {
    Obj([("guid", Str(a.guid)), ("mime", OptionJson(a.mime)), ("name", OptionJson(a.name))])
  }

  /** Message::to_cache_json */
  function MessageDoc(m: Message, id: int, chatId: int): Doc {
    map[Id := IdJson(id), ChatId := IdJson(chatId), Guid := Str(m.guid), Key.Text := Str(m.text),
        CreatedAt := Str(m.createdAt), IsFromMe := Bool(m.isFromMe),
        Sender := if m.sender.Some? then Str(m.sender.value.address) else Null,
        SenderName := if m.sender.Some? then OptionJson(m.sender.value.name) else Null,
        Attachments := Arr(seq(|m.attachments|,
                               i requires 0 <= i < |m.attachments| => AttachmentJson(m.attachments[i])))]
  }

  /** The time of a message, if the server gave one. */
  function Time(m: Message): Option<string> {
    if m.createdAt == "" then None else Some(m.createdAt)
  }

  /** Chat::stub_from_message, as apply_domain_message inserts it: nothing unread yet. */
  function Stub(m: Message): Chat {
    Chat(m.chat, if m.sender.Some? then m.sender.value.address else m.chat,
         if m.sender.Some? then m.sender.value.name else None,
         if m.sender.Some? then [m.sender.value] else [], Time(m), 0, IsGroupGuid(m.chat))
  }

  /** The name of the person that a chat with one other person is with. */
  function PersonOf(chat: Doc): Option<string> {
    if AsBool(Get(chat, IsGroup)) then None
    else if NamesPerson(Get(chat, ContactName)) then AsStr(Get(chat, ContactName))
    else if NamesPerson(Get(chat, DisplayName)) then AsStr(Get(chat, DisplayName))
    else if NamesPerson(Get(chat, Name)) then AsStr(Get(chat, Name))
    else None
  }

  /** A live message without the name of a person takes the title of its chat. */
  function FillSender(chats: map<int, ChatRow>, chatId: int, doc: Doc): Doc {
    if NamesPerson(Get(doc, SenderName)) || chatId !in chats then doc
    else
      match PersonOf(chats[chatId].raw)
      case Some(name) => doc[SenderName := Str(name)]
      case None => doc
  }

  // -------------------------------------------------------- domain operations

  /** The id of a guid, with the table after it was asked for; None where id_for_guid does not return. */
  ghost function WithId(db: Db, guid: string): Option<(Db, int)> {
    match Allocated(db.ids, guid)
    case None => None
    case Some(id) => Some((db.(ids := InsertOrIgnore(db.ids, guid, id)), id))
  }

  /** upsert_domain_chat */
  ghost function UpsertDomainChat(db: Db, chat: Chat): Option<Db> {
    match WithId(db, chat.guid)
    case None => None
    case Some((known, id)) => Some(StoreChat(known, ChatDoc(chat, id)))
  }

  /** upsert_domain_message */
  ghost function UpsertDomainMessage(db: Db, m: Message): Option<Db> {
    match WithId(db, m.chat)
    case None => None
    case Some((one, chatId)) =>
      match WithId(one, m.guid)
      case None => None
      case Some((two, id)) => Some(StoreMessage(two, MessageDoc(m, id, chatId)))
  }

  /** The chat of a message: its id, and a stub when there is no row yet. */
  ghost function WithChat(db: Db, m: Message): Option<(Db, int)> {
    match WithId(db, m.chat)
    case None => None
    case Some((known, id)) =>
      Some((if id in known.chats then known else StoreChat(known, ChatDoc(Stub(m), id)), id))
  }

  /** apply_domain_message */
  ghost function ApplyDomainMessage(db: Db, m: Message): Option<Db> {
    match WithChat(db, m)
    case None => None
    case Some((one, chatId)) =>
      match WithId(one, m.guid)
      case None => None
      case Some((two, id)) => Some(ApplyLive(two, FillSender(two.chats, chatId, MessageDoc(m, id, chatId))))
  }

  /** The states of a cache, empty at first, to which these messages are delivered one by one. */
  ghost predicate Deliveries(msgs: seq<Message>, states: seq<Db>) {
    && |states| == |msgs| + 1 && states[0] == EMPTY
    && forall i :: 0 <= i < |msgs| ==> ApplyDomainMessage(states[i], msgs[i]) == Some(states[i + 1])
  }

  // --------------------------------------------------------------- convergence

  /** Redeliveries of a message agree on its chat, its side and its time; the rest may differ. */
  ghost predicate Consistent(msgs: set<Message>) {
    forall m, n :: m in msgs && n in msgs && m.guid == n.guid ==>
      m.chat == n.chat && m.isFromMe == n.isFromMe && m.createdAt == n.createdAt
  }

  /** The guids of the messages from others in a chat. */
  ghost function Inbound(msgs: set<Message>, chat: string): set<string> {
    set m | m in msgs && m.chat == chat && !m.isFromMe :: m.guid
  }

  /** The latest time among the messages of a chat that have one. */
  ghost predicate IsLatest(msgs: set<Message>, chat: string, time: Option<string>) {
    match time
    case None => forall m :: m in msgs && m.chat == chat ==> m.createdAt == ""
    case Some(t) =>
      && t != "" && (exists m :: m in msgs && m.chat == chat && m.createdAt == t)
      && forall m :: m in msgs && m.chat == chat ==> !Text.Less(t, m.createdAt)
  }

  ghost predicate ChatConverged(db: Db, msgs: set<Message>, chat: string) {
    && chat in db.ids && db.ids[chat] in db.chats
    && db.chats[db.ids[chat]].unread == Min(|Inbound(msgs, chat)|, I64_MAX)
    && IsLatest(msgs, chat, db.chats[db.ids[chat]].lastMessageAt)
  }

  ghost predicate IdsOk(ids: Ids) {
    Injective(ids) && forall g :: g in ids ==> 1 <= ids[g] <= I64_MAX
  }

  ghost predicate HasChat(msgs: set<Message>, chat: string) {
    exists m :: m in msgs && m.chat == chat
  }

  ghost predicate HasGuid(msgs: set<Message>, guid: string) {
    exists m :: m in msgs && m.guid == guid
  }

  /** Chat rows stand for chats delivered, and each chat delivered has its row and its count. */
  ghost predicate ChatsConverged(db: Db, msgs: set<Message>) {
    && (forall g {:trigger HasChat(msgs, g)} :: g in db.ids && db.ids[g] in db.chats ==> HasChat(msgs, g))
    && (forall g :: HasChat(msgs, g) ==> ChatConverged(db, msgs, g))
  }

  /** Message rows stand for messages delivered, and each message delivered has its row and its time. */
  ghost predicate MessagesConverged(db: Db, msgs: set<Message>) {
    && (forall g {:trigger HasGuid(msgs, g)} :: g in db.ids && db.ids[g] in db.messages ==> HasGuid(msgs, g))
    && (forall m :: m in msgs ==> m.guid in db.ids && db.ids[m.guid] in db.messages
                                  && db.messages[db.ids[m.guid]].createdAt == Time(m))
  }

  /** Every row has the id of some guid. */
  ghost predicate RowsHaveGuids(db: Db) {
    && (forall c :: c in db.chats ==> exists g :: g in db.ids && db.ids[g] == c)
    && (forall i :: i in db.messages ==> exists g :: g in db.ids && db.ids[g] == i)
  }

  ghost predicate Converged(db: Db, msgs: set<Message>) {
    && Agrees(db) && IdsOk(db.ids) && RowsHaveGuids(db)
    && ChatsConverged(db, msgs) && MessagesConverged(db, msgs)
  }

  lemma {:induction false} LatestGrows(msgs: set<Message>, m: Message, time: Option<string>)
    requires IsLatest(msgs, m.chat, time)
    ensures IsLatest(msgs + {m}, m.chat, LaterTimestamp(time, Time(m)))
  {
    var all := msgs + {m};
    assert m in all;
    Text.Irreflexive(m.createdAt);
    if time.Some? {
      var x :| x in msgs && x.chat == m.chat && x.createdAt == time.value;
      assert x in all;
      if Text.Less(time.value, m.createdAt) {
        forall n | n in msgs && n.chat == m.chat ensures !Text.Less(m.createdAt, n.createdAt) {
          if Text.Less(m.createdAt, n.createdAt) {
            Text.Transitive(time.value, m.createdAt, n.createdAt);
          }
        }
      }
    }
  }

  lemma {:induction false} LatestOther(msgs: set<Message>, m: Message, chat: string, time: Option<string>)
    requires IsLatest(msgs, chat, time) && m.chat != chat
    ensures IsLatest(msgs + {m}, chat, time)
  {
    if time.Some? {
      var x :| x in msgs && x.chat == chat && x.createdAt == time.value;
      assert x in msgs + {m};
    }
  }

  lemma {:induction false} LatestUnique(msgs: set<Message>, chat: string, s: Option<string>, t: Option<string>)
    requires IsLatest(msgs, chat, s) && IsLatest(msgs, chat, t)
    ensures s == t
  {
    if s.Some? && t.Some? {
      Text.Total(s.value, t.value);
    }
  }

  /** Asking for an id keeps the ids there are. */
  lemma {:induction false} WithIdKeeps(db: Db, guid: string)
    requires IdsOk(db.ids) && WithId(db, guid).Some?
    ensures var (later, id) := WithId(db, guid).value;
            && IdsOk(later.ids) && guid in later.ids && later.ids[guid] == id
            && later.chats == db.chats && later.messages == db.messages
            && (forall g :: g in db.ids ==> g in later.ids && later.ids[g] == db.ids[g])
  {
    AllocatedIsOwn(db.ids, guid);
  }

  /** The row of a stub: no unread message, and the time of the message that made it. */
  lemma {:induction false} StubRow(db: Db, m: Message, id: int)
    requires IdsOk(db.ids) && m.chat in db.ids && db.ids[m.chat] == id && id !in db.chats && Agrees(db)
    ensures var later := StoreChat(db, ChatDoc(Stub(m), id));
            && Agrees(later) && later.ids == db.ids && later.messages == db.messages
            && later.chats.Keys == db.chats.Keys + {id}
            && (forall c :: c in db.chats ==> later.chats[c] == db.chats[c])
            && later.chats[id].unread == 0 && later.chats[id].lastMessageAt == Time(m)
  {
    var doc := ChatDoc(Stub(m), id);
    IdRoundTrip(id);
    assert IdOf(Get(doc, Id)) == id;
    StoreChatAgrees(db, doc);
  }

  /** The document that a live message leads to. */
  lemma {:induction false} LiveDoc(chats: map<int, ChatRow>, m: Message, id: int, chatId: int)
    requires 1 <= id <= I64_MAX && 1 <= chatId <= I64_MAX
    ensures var doc := FillSender(chats, chatId, MessageDoc(m, id, chatId));
            && IdOf(Get(doc, Id)) == id && IdOf(Get(doc, ChatId)) == chatId && Get(doc, ChatId) != Null
            && Get(doc, IsFromMe) == Bool(m.isFromMe) && Get(doc, CreatedAt) == Str(m.createdAt)
            && ChatId in doc && IsFromMe in doc && CreatedAt in doc
  {
    IdRoundTrip(id);
    IdRoundTrip(chatId);
  }

  lemma {:induction false} MergedFields(db: Db, doc: Doc, m: Message, id: int, chatId: int)
    requires Agrees(db) && IdOf(Get(doc, Id)) == id && IdOf(Get(doc, ChatId)) == chatId >= 1
    requires ChatId in doc && IsFromMe in doc && CreatedAt in doc
    requires Get(doc, IsFromMe) == Bool(m.isFromMe) && Get(doc, CreatedAt) == Str(m.createdAt)
    requires id in db.messages ==> db.messages[id].createdAt == Time(m)
    ensures var merged := Merged(db, doc);
            && IdOf(Get(merged, ChatId)) == chatId && AsBool(Get(merged, IsFromMe)) == m.isFromMe
            && AsStr(Get(merged, CreatedAt)) == Time(m)
  {
    var merged := Merged(db, doc);
    assert Get(merged, ChatId) == doc[ChatId];
    assert Get(merged, IsFromMe) == doc[IsFromMe];
    if id in db.messages {
      assert MessageAgrees(id, db.messages[id]);
    }
  }
  /** What a live message does to the tables, given what it merges to. */
  lemma {:induction false} LiveEffectOf(db: Db, doc: Doc, id: int, chatId: int, time: Option<string>, mine: bool)
    requires Agrees(db) && IdOf(Get(doc, Id)) == id && chatId in db.chats
    requires var merged := Merged(db, doc);
             && IdOf(Get(merged, ChatId)) == chatId && AsBool(Get(merged, IsFromMe)) == mine
             && AsStr(Get(merged, CreatedAt)) == time
    ensures var later := ApplyLive(db, doc);
            && later.ids == db.ids && later.messages == db.messages[id := Project(Merged(db, doc))]
            && later.chats == db.chats[chatId := Advanced(db.chats[chatId], time, id !in db.messages && !mine)]
  {
    StoreMessageAgrees(db, doc);
  }

  lemma {:induction false} AdvancedCount(id: int, row: ChatRow, time: Option<string>, counts: bool)
    requires ChatAgrees(id, row)
    ensures var later := Advanced(row, time, counts);
            && later.unread == (if counts then Min(row.unread + 1, I64_MAX) else row.unread)
            && later.lastMessageAt == LaterTimestamp(row.lastMessageAt, time)
            && later.guid == row.guid
  {
  }

  /** The new rows of the chat and the message, and all other rows as they were. */
  ghost predicate LiveEffect(db: Db, later: Db, m: Message, id: int, chatId: int)
    requires chatId in db.chats
  {
    && later.ids == db.ids
    && later.messages.Keys == db.messages.Keys + {id} && later.messages[id].createdAt == Time(m)
    && (forall i :: i in db.messages && i != id ==> later.messages[i] == db.messages[i])
    && later.chats.Keys == db.chats.Keys
    && (forall c :: c in db.chats && c != chatId ==> later.chats[c] == db.chats[c])
    && later.chats[chatId].lastMessageAt == LaterTimestamp(db.chats[chatId].lastMessageAt, Time(m))
    && later.chats[chatId].unread ==
       (if id !in db.messages && !m.isFromMe then Min(db.chats[chatId].unread + 1, I64_MAX)
        else db.chats[chatId].unread)
  }

  lemma {:induction false} EffectOfRows(db: Db, later: Db, m: Message, id: int, chatId: int,
                                        message: MessageRow, chat: ChatRow)
    requires chatId in db.chats && later.ids == db.ids
    requires later.messages == db.messages[id := message] && message.createdAt == Time(m)
    requires later.chats == db.chats[chatId := chat]
    requires chat.lastMessageAt == LaterTimestamp(db.chats[chatId].lastMessageAt, Time(m))
    requires chat.unread == if id !in db.messages && !m.isFromMe then Min(db.chats[chatId].unread + 1, I64_MAX)
                            else db.chats[chatId].unread
    ensures LiveEffect(db, later, m, id, chatId)
  {
  }

  lemma {:induction false} LiveHasEffect(db: Db, m: Message, id: int, chatId: int)
    requires Agrees(db) && 1 <= id <= I64_MAX && 1 <= chatId <= I64_MAX && chatId in db.chats
    requires id in db.messages ==> db.messages[id].createdAt == Time(m)
    ensures LiveEffect(db, ApplyLive(db, FillSender(db.chats, chatId, MessageDoc(m, id, chatId))), m, id, chatId)
  {
    var doc := FillSender(db.chats, chatId, MessageDoc(m, id, chatId));
    var counts := id !in db.messages && !m.isFromMe;
    LiveDoc(db.chats, m, id, chatId);
    MergedFields(db, doc, m, id, chatId);
    LiveEffectOf(db, doc, id, chatId, Time(m), m.isFromMe);
    AdvancedCount(chatId, db.chats[chatId], Time(m), counts);
    EffectOfRows(db, ApplyLive(db, doc), m, id, chatId, Project(Merged(db, doc)),
                 Advanced(db.chats[chatId], Time(m), counts));
  }

  /** The row of the chat when the message is about to be applied: what the messages before it made of it, or a stub. */
  ghost predicate RowReady(row: ChatRow, msgs: set<Message>, m: Message) {
    && row.unread == Min(|Inbound(msgs, m.chat)|, I64_MAX)
    && IsLatest(msgs + {m}, m.chat, LaterTimestamp(row.lastMessageAt, Time(m)))
  }

  /** From db to one, the chat with this id got a row if it had none, and guids got ids. */
  ghost predicate ChatAdded(db: Db, one: Db, chat: string, chatId: int) {
    && (forall g :: g in db.ids ==> g in one.ids && one.ids[g] == db.ids[g])
    && chat in one.ids && one.ids[chat] == chatId
    && one.messages == db.messages && one.chats.Keys == db.chats.Keys + {chatId}
    && (forall c :: c in db.chats ==> one.chats[c] == db.chats[c])
  }

  lemma {:induction false} KnownChatReady(db: Db, known: Db, msgs: set<Message>, m: Message, id: int)
    requires ChatsConverged(db, msgs) && RowsHaveGuids(db) && IdsOk(known.ids)
    requires known.chats == db.chats && (forall g :: g in db.ids ==> g in known.ids && known.ids[g] == db.ids[g])
    requires m.chat in known.ids && known.ids[m.chat] == id && id in known.chats
    ensures RowReady(known.chats[id], msgs, m)
  {
    var g :| g in db.ids && db.ids[g] == id;
    assert g == m.chat;
    assert ChatConverged(db, msgs, g);
    LatestGrows(msgs, m, known.chats[id].lastMessageAt);
  }

  lemma {:induction false} NewChatReady(db: Db, row: ChatRow, msgs: set<Message>, m: Message)
    requires ChatsConverged(db, msgs) && !(m.chat in db.ids && db.ids[m.chat] in db.chats)
    requires row.unread == 0 && row.lastMessageAt == Time(m)
    ensures RowReady(row, msgs, m)
  {
    assert !HasChat(msgs, m.chat);
    assert Inbound(msgs, m.chat) == {};
    assert IsLatest(msgs, m.chat, None);
    LatestGrows(msgs, m, None);
  }

  /** The stub of a chat that had no row. */
  lemma {:induction false} StubReady(db: Db, known: Db, msgs: set<Message>, m: Message, id: int)
    requires ChatsConverged(db, msgs) && Agrees(known) && IdsOk(known.ids)
    requires known.chats == db.chats && known.messages == db.messages
    requires forall g :: g in db.ids ==> g in known.ids && known.ids[g] == db.ids[g]
    requires m.chat in known.ids && known.ids[m.chat] == id && id !in known.chats
    ensures var one := StoreChat(known, ChatDoc(Stub(m), id));
            && Agrees(one) && IdsOk(one.ids) && ChatAdded(db, one, m.chat, id) && RowReady(one.chats[id], msgs, m)
  {
    var one := StoreChat(known, ChatDoc(Stub(m), id));
    StubRow(known, m, id);
    NewChatReady(db, one.chats[id], msgs, m);
  }

  lemma {:induction false} ChatGetsReady(db: Db, msgs: set<Message>, m: Message)
    requires Converged(db, msgs) && WithChat(db, m).Some?
    ensures var (one, chatId) := WithChat(db, m).value;
            && Agrees(one) && IdsOk(one.ids) && ChatAdded(db, one, m.chat, chatId)
            && RowReady(one.chats[chatId], msgs, m)
  {
    var (known, id) := WithId(db, m.chat).value;
    assert IdsOk(known.ids) && Agrees(known) by { WithIdKeeps(db, m.chat); }
    WithIdKeeps(db, m.chat);
    if id in known.chats {
      KnownChatReady(db, known, msgs, m, id);
      assert WithChat(db, m).value == (known, id);
    } else {
      StubReady(db, known, msgs, m, id);
      assert WithChat(db, m).value == (StoreChat(known, ChatDoc(Stub(m), id)), id);
    }
  }

  lemma {:induction false} InboundCount(msgs: set<Message>, m: Message)
    requires Consistent(msgs + {m})
    ensures |Inbound(msgs + {m}, m.chat)| ==
            |Inbound(msgs, m.chat)| + if !m.isFromMe && !HasGuid(msgs, m.guid) then 1 else 0
  {
    var all := msgs + {m};
    assert m in all;
    forall n | n in msgs && n.guid == m.guid ensures n.chat == m.chat && n.isFromMe == m.isFromMe {
      assert n in all;
    }
    var before, later := Inbound(msgs, m.chat), Inbound(all, m.chat);
    forall g ensures g in later <==> g in before || (!m.isFromMe && g == m.guid) {
      if g in before {
        var n :| n in msgs && n.chat == m.chat && !n.isFromMe && n.guid == g;
        assert n in all;
      }
    }
    if m.isFromMe {
      assert later == before;
    } else if HasGuid(msgs, m.guid) {
      var n :| n in msgs && n.guid == m.guid;
      assert m.guid in before;
      assert later == before;
    } else {
      assert m.guid !in before;
      assert later == before + {m.guid};
    }
  }

  /** The chat of the message: one more unread if the message is new and from someone else, and the later time. */
  lemma {:induction false} OwnChatConverges(two: Db, later: Db, msgs: set<Message>, m: Message, id: int, chatId: int)
    requires Consistent(msgs + {m}) && m.chat in two.ids && two.ids[m.chat] == chatId && chatId in two.chats
    requires RowReady(two.chats[chatId], msgs, m) && LiveEffect(two, later, m, id, chatId)
    requires id in two.messages <==> HasGuid(msgs, m.guid)
    ensures ChatConverged(later, msgs + {m}, m.chat)
  {
    InboundCount(msgs, m);
  }

  lemma {:induction false} OtherChatConverges(db: Db, one: Db, two: Db, later: Db, msgs: set<Message>, m: Message,
                                              id: int, chatId: int, g: string)
    requires ChatConverged(db, msgs, g) && g != m.chat
    requires ChatAdded(db, one, m.chat, chatId) && IdsOk(two.ids) && two.chats == one.chats
    requires forall h :: h in one.ids ==> h in two.ids && two.ids[h] == one.ids[h]
    requires LiveEffect(two, later, m, id, chatId)
    ensures ChatConverged(later, msgs + {m}, g)
  {
    assert Inbound(msgs + {m}, g) == Inbound(msgs, g);
    LatestOther(msgs, m, g, db.chats[db.ids[g]].lastMessageAt);
  }

  lemma {:induction false} ChatsConverge(db: Db, one: Db, two: Db, later: Db, msgs: set<Message>, m: Message,
                                         id: int, chatId: int)
    requires ChatsConverged(db, msgs) && RowsHaveGuids(db) && Consistent(msgs + {m})
    requires ChatAdded(db, one, m.chat, chatId) && RowReady(one.chats[chatId], msgs, m)
    requires IdsOk(two.ids) && two.chats == one.chats
    requires forall h :: h in one.ids ==> h in two.ids && two.ids[h] == one.ids[h]
    requires LiveEffect(two, later, m, id, chatId) && (id in two.messages <==> HasGuid(msgs, m.guid))
    ensures ChatsConverged(later, msgs + {m})
  {
    var all := msgs + {m};
    assert m in all;
    OwnChatConverges(two, later, msgs, m, id, chatId);
    forall g | HasChat(all, g) && g != m.chat ensures ChatConverged(later, all, g) {
      var n :| n in all && n.chat == g;
      assert n in msgs && HasChat(msgs, g);
      OtherChatConverges(db, one, two, later, msgs, m, id, chatId, g);
    }
    forall g | g in later.ids && later.ids[g] in later.chats ensures HasChat(all, g) {
      if later.ids[g] == chatId {
        assert g == m.chat;
      } else {
        var h :| h in db.ids && db.ids[h] == later.ids[g];
        assert h == g && HasChat(msgs, g);
        var n :| n in msgs && n.chat == g;
        assert n in all;
      }
    }
  }

  lemma {:induction false} MessagesConverge(db: Db, two: Db, later: Db, msgs: set<Message>, m: Message, id: int,
                                            chatId: int)
    requires MessagesConverged(db, msgs) && RowsHaveGuids(db) && Consistent(msgs + {m})
    requires IdsOk(two.ids) && two.messages == db.messages && chatId in two.chats
    requires forall h :: h in db.ids ==> h in two.ids && two.ids[h] == db.ids[h]
    requires m.guid in two.ids && two.ids[m.guid] == id
    requires LiveEffect(two, later, m, id, chatId)
    ensures MessagesConverged(later, msgs + {m})
  {
    var all := msgs + {m};
    assert m in all;
    forall n | n in all
      ensures n.guid in later.ids && later.ids[n.guid] in later.messages
              && later.messages[later.ids[n.guid]].createdAt == Time(n)
    {
      if n.guid == m.guid {
        assert n.createdAt == m.createdAt;
      } else {
        assert n in msgs;
      }
    }
    forall g | g in later.ids && later.ids[g] in later.messages ensures HasGuid(all, g) {
      if later.ids[g] == id {
        assert g == m.guid;
      } else {
        var h :| h in db.ids && db.ids[h] == later.ids[g];
        assert h == g && HasGuid(msgs, g);
        var n :| n in msgs && n.guid == g;
        assert n in all;
      }
    }
  }

  /** A message is stored already exactly if it was delivered already, and then with its time. */
  lemma {:induction false} StoredIfDelivered(db: Db, ids: Ids, msgs: set<Message>, m: Message)
    requires MessagesConverged(db, msgs) && RowsHaveGuids(db) && Injective(ids) && m.guid in ids
    requires Consistent(msgs + {m})
    requires forall g :: g in db.ids ==> g in ids && ids[g] == db.ids[g]
    ensures ids[m.guid] in db.messages <==> HasGuid(msgs, m.guid)
    ensures ids[m.guid] in db.messages ==> db.messages[ids[m.guid]].createdAt == Time(m)
  {
    if ids[m.guid] in db.messages {
      var h :| h in db.ids && db.ids[h] == ids[m.guid];
      assert h == m.guid && HasGuid(msgs, h);
      var n :| n in msgs && n.guid == h;
      assert n in msgs + {m} && m in msgs + {m};
    }
  }

  lemma {:induction false} GuidsOfRows(db: Db, one: Db, two: Db, later: Db, m: Message, id: int, chatId: int)
    requires RowsHaveGuids(db) && ChatAdded(db, one, m.chat, chatId)
    requires two.chats == one.chats && two.messages == one.messages
    requires forall h :: h in one.ids ==> h in two.ids && two.ids[h] == one.ids[h]
    requires m.guid in two.ids && two.ids[m.guid] == id
    requires LiveEffect(two, later, m, id, chatId)
    ensures RowsHaveGuids(later)
  {
    forall c | c in later.chats ensures exists g :: g in later.ids && later.ids[g] == c {
      if c == chatId {
        assert later.ids[m.chat] == c;
      } else {
        var g :| g in db.ids && db.ids[g] == c;
        assert later.ids[g] == c;
      }
    }
    forall i | i in later.messages ensures exists g :: g in later.ids && later.ids[g] == i {
      if i == id {
        assert later.ids[m.guid] == i;
      } else {
        var g :| g in db.ids && db.ids[g] == i;
        assert later.ids[g] == i;
      }
    }
  }

  /** One more delivery. */
  lemma {:induction false} DeliveryConverges(db: Db, msgs: set<Message>, m: Message)
    requires Converged(db, msgs) && Consistent(msgs + {m}) && ApplyDomainMessage(db, m).Some?
    ensures Converged(ApplyDomainMessage(db, m).value, msgs + {m})
  {
    var (one, chatId) := WithChat(db, m).value;
    var (two, id) := WithId(one, m.guid).value;
    var later := ApplyDomainMessage(db, m).value;
    ChatGetsReady(db, msgs, m);
    WithIdKeeps(one, m.guid);
    StoredIfDelivered(db, two.ids, msgs, m);
    LiveHasEffect(two, m, id, chatId);
    ApplyLiveAgrees(two, FillSender(two.chats, chatId, MessageDoc(m, id, chatId)));
    GuidsOfRows(db, one, two, later, m, id, chatId);
    MessagesConverge(db, two, later, msgs, m, id, chatId);
    ChatsConverge(db, one, two, later, msgs, m, id, chatId);
  }

  ghost function SetOf(msgs: seq<Message>): set<Message> {
    set m | m in msgs
  }

  lemma {:induction false} RunConverges(msgs: seq<Message>, states: seq<Db>)
    requires Consistent(SetOf(msgs)) && Deliveries(msgs, states)
    ensures Converged(states[|msgs|], SetOf(msgs))
  {
    hide ApplyDomainMessage;
    if msgs != [] {
      var n := |msgs| - 1;
      assert msgs == msgs[..n] + [msgs[n]];
      assert SetOf(msgs) == SetOf(msgs[..n]) + {msgs[n]};
      RunConverges(msgs[..n], states[..n + 1]);
      assert ApplyDomainMessage(states[n], msgs[n]) == Some(states[n + 1]);
      DeliveryConverges(states[n], SetOf(msgs[..n]), msgs[n]);
    }
  }

  /**
   * Convergence: whatever the order and however often messages are delivered to an empty cache,
   * the unread count of a chat is the number of different inbound guids delivered to it, and its
   * last_message_at the latest time among them.
   */
  lemma {:induction false} DeliveriesConverge(msgs: seq<Message>, states: seq<Db>, chat: string)
    requires Consistent(SetOf(msgs)) && Deliveries(msgs, states) && HasChat(SetOf(msgs), chat)
    ensures var db := states[|msgs|];
            && chat in db.ids && db.ids[chat] in db.chats
            && db.chats[db.ids[chat]].unread == Min(|Inbound(SetOf(msgs), chat)|, I64_MAX)
            && IsLatest(SetOf(msgs), chat, db.chats[db.ids[chat]].lastMessageAt)
  {
    hide ApplyDomainMessage;
    RunConverges(msgs, states);
    assert ChatConverged(states[|msgs|], SetOf(msgs), chat);
  }

  /** Two deliveries of the same messages, in any two orders and with any repetitions, agree. */
  lemma {:induction false} OrderDoesNotMatter(a: seq<Message>, x: seq<Db>, b: seq<Message>, y: seq<Db>, chat: string)
    requires Consistent(SetOf(a)) && SetOf(a) == SetOf(b) && HasChat(SetOf(a), chat)
    requires Deliveries(a, x) && Deliveries(b, y)
    ensures var s, t := x[|a|], y[|b|];
            && chat in s.ids && s.ids[chat] in s.chats && chat in t.ids && t.ids[chat] in t.chats
            && s.chats[s.ids[chat]].unread == t.chats[t.ids[chat]].unread
            && s.chats[s.ids[chat]].lastMessageAt == t.chats[t.ids[chat]].lastMessageAt
  {
    hide ApplyDomainMessage;
    var s, t := x[|a|], y[|b|];
    DeliveriesConverge(a, x, chat);
    DeliveriesConverge(b, y, chat);
    LatestUnique(SetOf(a), chat, s.chats[s.ids[chat]].lastMessageAt, t.chats[t.ids[chat]].lastMessageAt);
  }

  // ------------------------------------------------- from the id back to the guid

  /** guid_for_chat_id: the guid of the chat's row, else the one that the id was given to. */
  ghost function GuidForChatId(db: Db, id: int): Option<string> {
    if id in db.chats && db.chats[id].guid.GetOr("") != "" then db.chats[id].guid
    else if exists g :: g in db.ids && db.ids[g] == id then
      var g :| g in db.ids && db.ids[g] == id;
      Some(g)
    else None
  }

  /** op makes chats only under the id of their guid. Updates of a chat that has a row are not restricted. */
  ghost predicate Domestic(db: Db, op: Op) {
    op.UpsertChat? ==>
      || IdOf(Get(op.doc, Id)) in db.chats
      || exists g :: g in db.ids && g != "" && Get(op.doc, Guid) == Str(g) && db.ids[g] == IdOf(Get(op.doc, Id))
  }

  ghost predicate DomesticRun(db: Db, ops: seq<Op>) {
    ops != [] ==> DomesticRun(db, ops[..|ops| - 1]) && Domestic(Tables.Run(db, ops[..|ops| - 1]), ops[|ops| - 1])
  }

  /** The row at c carries the guid that c was given to. */
  ghost predicate OwnGuid(db: Db, c: int, guid: Option<string>) {
    guid.Some? && guid.value != "" && guid.value in db.ids && db.ids[guid.value] == c
  }

  ghost predicate GuidsOk(db: Db) {
    Injective(db.ids) && forall c :: c in db.chats ==> OwnGuid(db, c, db.chats[c].guid)
  }

  lemma {:induction false} StoreChatKeepsGuids(db: Db, doc: Doc)
    requires GuidsOk(db) && Domestic(db, UpsertChat(doc))
    ensures GuidsOk(StoreChat(db, doc))
  {
    var id := IdOf(Get(doc, Id));
    var later := StoreChat(db, doc);
    var kept := if id in db.chats then KeepTitle(db.chats[id].raw, doc) else doc;
    InsertGrows(db.ids, AsStr(Get(kept, Guid)).GetOr(""), id);
    if id in db.chats {
      assert later.chats[id].guid == db.chats[id].guid;
    } else {
      assert later.chats[id].guid == AsStr(Get(doc, Guid));
    }
  }

  lemma {:induction false} LiveKeepsGuids(db: Db, doc: Doc)
    requires GuidsOk(db)
    ensures GuidsOk(ApplyLive(db, doc))
  {
    var later := ApplyLive(db, doc);
    assert later.chats.Keys == db.chats.Keys;
    assert forall c :: c in db.chats ==> later.chats[c].guid == db.chats[c].guid;
  }

  lemma {:induction false} StepKeepsGuids(db: Db, op: Op)
    requires GuidsOk(db) && Domestic(db, op)
    ensures GuidsOk(Tables.Step(db, op))
  {
    match op
    case UpsertChat(doc) => StoreChatKeepsGuids(db, doc);
    case Live(doc) => LiveKeepsGuids(db, doc);
    case InsertIdentity(guid, id) => InsertGrows(db.ids, guid, id);
    case _ =>
  }

  lemma {:induction false} RunKeepsGuids(db: Db, ops: seq<Op>)
    requires GuidsOk(db) && DomesticRun(db, ops)
    ensures GuidsOk(Tables.Run(db, ops))
  {
    if ops != [] {
      RunKeepsGuids(db, ops[..|ops| - 1]);
      StepKeepsGuids(Tables.Run(db, ops[..|ops| - 1]), ops[|ops| - 1]);
    }
  }

  lemma {:induction false} DomesticConcat(db: Db, a: seq<Op>, b: seq<Op>)
    requires DomesticRun(db, a) && DomesticRun(Tables.Run(db, a), b)
    ensures DomesticRun(db, a + b)
  {
    if b == [] {
      assert a + b == a;
    } else {
      var front := b[..|b| - 1];
      DomesticConcat(db, a, front);
      RunConcat(db, a, front);
      assert (a + b)[..|a + b| - 1] == a + front;
    }
  }

  /** Chats of the server, and stubs of their messages, are made under the id of their guid. */
  lemma {:induction false} ChatsAreDomestic(db: Db, chat: Chat, id: int)
    requires chat.guid != "" && chat.guid in db.ids && db.ids[chat.guid] == id && I64_MIN <= id <= I64_MAX
    ensures Domestic(db, UpsertChat(ChatDoc(chat, id)))
  {
    IdRoundTrip(id);
    assert IdOf(Get(ChatDoc(chat, id), Id)) == id;
    assert Get(ChatDoc(chat, id), Guid) == Str(chat.guid);
  }

  // ----------------------------------------------------- runs of domain operations

  /** The operations that the daemon calls with records of the server, and mark_read. */
  datatype DomainOp = PutChat(chat: Chat) | PutMessage(m: Message) | Deliver(m: Message) | SetRead(id: int)

  ghost function Performed(db: Db, op: DomainOp): Option<Db> {
    match op
    case PutChat(chat) => UpsertDomainChat(db, chat)
    case PutMessage(m) => UpsertDomainMessage(db, m)
    case Deliver(m) => ApplyDomainMessage(db, m)
    case SetRead(id) => Some(Tables.Step(db, MarkRead(id)))
  }

  /** The states of a cache, empty at first, on which these operations are performed one by one. */
  ghost predicate DomainRun(ops: seq<DomainOp>, states: seq<Db>) {
    && |states| == |ops| + 1 && states[0] == EMPTY
    && forall i :: 0 <= i < |ops| ==> Performed(states[i], ops[i]) == Some(states[i + 1])
  }

  /** ChatGuid::parse and MessageGuid::parse: no white space around a guid, and something in it. */
  predicate ParsedGuid(guid: string) {
    guid != "" && Text.Trim(guid) == guid
  }

  predicate Parsed(op: DomainOp) {
    match op
    case PutChat(chat) => ParsedGuid(chat.guid)
    case PutMessage(m) => ParsedGuid(m.chat) && ParsedGuid(m.guid)
    case Deliver(m) => ParsedGuid(m.chat) && ParsedGuid(m.guid)
    case SetRead(_) => true
  }

  ghost predicate Trimmed(ids: Ids) {
    forall g :: g in ids ==> Text.Trim(g) == g
  }

  predicate TrimmedGuid(guid: Option<string>) {
    guid.Some? ==> Text.Trim(guid.value) == guid.value
  }

  /** The guids in the tables are trimmed. */
  ghost predicate TrimmedRows(db: Db) {
    && Trimmed(db.ids)
    && (forall c :: c in db.chats ==> TrimmedGuid(db.chats[c].guid))
    && (forall id :: id in db.messages ==> TrimmedGuid(db.messages[id].guid))
  }

  /** Rows have ids of 64 bits. */
  ghost predicate KeysInRange(db: Db) {
    && (forall c :: c in db.chats ==> 1 <= c <= I64_MAX)
    && (forall id :: id in db.messages ==> 1 <= id <= I64_MAX)
  }

  /** What the domain operations keep. */
  ghost predicate DomainOk(db: Db) {
    Agrees(db) && IdsOk(db.ids) && GuidsOk(db) && TrimmedRows(db) && KeysInRange(db)
  }

  lemma {:induction false} MoreIdsOk(db: Db, guid: string)
    requires DomainOk(db) && WithId(db, guid).Some? && ParsedGuid(guid)
    ensures var (later, id) := WithId(db, guid).value;
            && DomainOk(later) && Grows(db.ids, later.ids)
            && guid in later.ids && later.ids[guid] == id && 1 <= id <= I64_MAX
  {
    WithIdKeeps(db, guid);
    InsertGrows(db.ids, guid, WithId(db, guid).value.1);
  }

  lemma {:induction false} StoreChatOk(db: Db, chat: Chat, id: int)
    requires DomainOk(db) && ParsedGuid(chat.guid) && chat.guid in db.ids && db.ids[chat.guid] == id
    ensures DomainOk(StoreChat(db, ChatDoc(chat, id)))
  {
    hide StoreChat, ChatDoc, Agrees, GuidsOk, Domestic;
    var doc := ChatDoc(chat, id);
    ChatDocIds(chat, id);
    ChatsAreDomestic(db, chat, id);
    StoreChatKeepsGuids(db, doc);
    StoreChatAgrees(db, doc);
    StoredChat(db, doc, id);
  }

  lemma {:induction false} ChatDocIds(chat: Chat, id: int)
    requires I64_MIN <= id <= I64_MAX
    ensures IdOf(Get(ChatDoc(chat, id), Id)) == id && AsStr(Get(ChatDoc(chat, id), Guid)) == Some(chat.guid)
  {
    IdRoundTrip(id);
  }

  /** A chat stored under the id of its guid leaves the identities, and every other row, as they were. */
  lemma {:induction false} StoredChat(db: Db, doc: Doc, id: int)
    requires IdOf(Get(doc, Id)) == id && AsStr(Get(doc, Guid)).Some? && AsStr(Get(doc, Guid)).value in db.ids
    ensures var later := StoreChat(db, doc);
            && later.ids == db.ids && later.messages == db.messages && later.chats.Keys == db.chats.Keys + {id}
            && (forall c :: c in db.chats ==> later.chats[c].guid == db.chats[c].guid)
            && (id !in db.chats ==> later.chats[id].guid == AsStr(Get(doc, Guid)))
  {
  }

  lemma {:induction false} MergedGuid(db: Db, doc: Doc)
    requires Agrees(db) && TrimmedRows(db) && TrimmedGuid(AsStr(Get(doc, Guid)))
    ensures TrimmedGuid(Project(Merged(db, doc)).guid)
  {
    var id := IdOf(Get(doc, Id));
    var merged := Merged(db, doc);
    if id in db.messages {
      assert MessageAgrees(id, db.messages[id]) && TrimmedGuid(db.messages[id].guid);
    }
    assert || AsStr(Get(merged, Guid)) == AsStr(Get(doc, Guid))
           || (id in db.messages && AsStr(Get(merged, Guid)) == db.messages[id].guid);
  }

  lemma {:induction false} StoreMessageOk(db: Db, doc: Doc)
    requires DomainOk(db) && 1 <= IdOf(Get(doc, Id)) <= I64_MAX && TrimmedGuid(AsStr(Get(doc, Guid)))
    ensures DomainOk(StoreMessage(db, doc))
  {
    hide Agrees, Merged, Project, TrimmedGuid;
    StoreMessageAgrees(db, doc);
    MergedGuid(db, doc);
  }

  lemma {:induction false} LiveOk(db: Db, doc: Doc)
    requires DomainOk(db) && 1 <= IdOf(Get(doc, Id)) <= I64_MAX && TrimmedGuid(AsStr(Get(doc, Guid)))
    ensures DomainOk(ApplyLive(db, doc))
  {
    StoreMessageOk(db, doc);
    ApplyLiveAgrees(db, doc);
    LiveKeepsGuids(db, doc);
    var later := ApplyLive(db, doc);
    assert later.messages == StoreMessage(db, doc).messages && later.ids == db.ids && later.chats.Keys == db.chats.Keys;
    assert forall c :: c in db.chats ==> later.chats[c].guid == db.chats[c].guid;
  }

  lemma {:induction false} MessageDocGuid(chats: map<int, ChatRow>, m: Message, id: int, chatId: int)
    requires I64_MIN <= id <= I64_MAX
    ensures var doc := MessageDoc(m, id, chatId);
            IdOf(Get(doc, Id)) == id && AsStr(Get(doc, Guid)) == Some(m.guid)
    ensures var doc := FillSender(chats, chatId, MessageDoc(m, id, chatId));
            IdOf(Get(doc, Id)) == id && AsStr(Get(doc, Guid)) == Some(m.guid)
  {
    IdRoundTrip(id);
  }

  lemma {:induction false} DeliverOk(db: Db, m: Message)
    requires DomainOk(db) && ParsedGuid(m.chat) && ParsedGuid(m.guid) && ApplyDomainMessage(db, m).Some?
    ensures DomainOk(ApplyDomainMessage(db, m).value)
  {
    hide DomainOk, WithId, ApplyLive, StoreChat, FillSender, MessageDoc, ChatDoc;
    var (known, chatId) := WithId(db, m.chat).value;
    var (one, _) := WithChat(db, m).value;
    var (two, id) := WithId(one, m.guid).value;
    MoreIdsOk(db, m.chat);
    if chatId !in known.chats {
      StoreChatOk(known, Stub(m), chatId);
    }
    MoreIdsOk(one, m.guid);
    MessageDocGuid(two.chats, m, id, chatId);
    LiveOk(two, FillSender(two.chats, chatId, MessageDoc(m, id, chatId)));
  }

  lemma {:induction false} PutMessageOk(db: Db, m: Message)
    requires DomainOk(db) && ParsedGuid(m.chat) && ParsedGuid(m.guid) && UpsertDomainMessage(db, m).Some?
    ensures DomainOk(UpsertDomainMessage(db, m).value)
  {
    hide DomainOk, WithId, StoreMessage, MessageDoc;
    var (one, chatId) := WithId(db, m.chat).value;
    var (two, id) := WithId(one, m.guid).value;
    MoreIdsOk(db, m.chat);
    MoreIdsOk(one, m.guid);
    MessageDocGuid(two.chats, m, id, chatId);
    StoreMessageOk(two, MessageDoc(m, id, chatId));
  }

  lemma {:induction false} ReadOk(db: Db, id: int)
    requires DomainOk(db)
    ensures DomainOk(Tables.Step(db, MarkRead(id)))
  {
    StepAgrees(db, MarkRead(id));
    StepKeepsGuids(db, MarkRead(id));
  }

  lemma {:induction false} PerformedOk(db: Db, op: DomainOp)
    requires DomainOk(db) && Parsed(op) && Performed(db, op).Some?
    ensures DomainOk(Performed(db, op).value)
  {
    hide DomainOk;
    match op
    case PutChat(chat) =>
      MoreIdsOk(db, chat.guid);
      var (known, id) := WithId(db, chat.guid).value;
      StoreChatOk(known, chat, id);
    case PutMessage(m) => PutMessageOk(db, m);
    case Deliver(m) => DeliverOk(db, m);
    case SetRead(id) => ReadOk(db, id);
  }

  /**
   * Every database that the domain operations build has agreeing columns, trimmed guids and ids of
   * 64 bits, and chats under the id of their guid: what open asks of the tables it finds.
   */
  lemma {:induction false} DomainRunKeeps(ops: seq<DomainOp>, states: seq<Db>)
    requires DomainRun(ops, states) && forall i :: 0 <= i < |ops| ==> Parsed(ops[i])
    ensures DomainOk(states[|ops|])
  {
    hide Performed;
    if ops != [] {
      var n := |ops| - 1;
      DomainRunKeeps(ops[..n], states[..n + 1]);
      assert Performed(states[n], ops[n]) == Some(states[n + 1]);
      PerformedOk(states[n], ops[n]);
    }
  }

  /** In every such run guid_for_chat_id undoes id_for_guid, for the guids of chats and of messages. */
  lemma {:induction false} GuidsInvert(ops: seq<DomainOp>, states: seq<Db>, guid: string)
    requires DomainRun(ops, states) && forall i :: 0 <= i < |ops| ==> Parsed(ops[i])
    requires guid in states[|ops|].ids
    ensures GuidForChatId(states[|ops|], states[|ops|].ids[guid]) == Some(guid)
  {
    hide Performed;
    var db := states[|ops|];
    DomainRunKeeps(ops, states);
    assert db.ids[guid] in db.chats ==> OwnGuid(db, db.ids[guid], db.chats[db.ids[guid]].guid);
  }
}
