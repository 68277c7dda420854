/**
 * The tables of the message cache and what each statement of sync/src/cache.rs does to
 * them. Every operation of the cache is a sequence of these statements (PerformedIsRun in
 * Conservation, Passed in Cache), so what holds of every sequence holds of every run of the cache.
 */
module Tables {
  import opened Prelude
  import opened Domain
  import opened Documents
  import Decimal
  import Text

  datatype MessageRow = MessageRow(chatId: int, guid: Option<string>, sender: Option<string>,
                                   senderName: Option<string>,
                                   text: Option<string>, createdAt: Option<string>, isFromMe: bool, raw: Doc)

  datatype ChatRow = ChatRow(guid: Option<string>, name: Option<string>, identifier: Option<string>,
                             service: Option<string>, lastMessageAt: Option<string>, unread: int,
                             participants: Json, raw: Doc)

  /** The tables chats, messages and identities. */
  datatype Db = Db(chats: map<int, ChatRow>, messages: map<int, MessageRow>, ids: map<string, int>)

  const EMPTY := Db(map[], map[], map[])

  // -------------------------------------------------------------- messages

  /** The columns that persist_message writes next to a document. */
  function Project(doc: Doc): MessageRow {
    MessageRow(IdOf(Get(doc, ChatId)), AsStr(Get(doc, Guid)), AsStr(Get(doc, Sender)), AsStr(Get(doc, SenderName)),
               AsStr(Get(doc, Key.Text)), AsStr(Get(doc, CreatedAt)), AsBool(Get(doc, IsFromMe)), doc)
  }

  /** The document that results from an incoming one. */
  function Merged(db: Db, doc: Doc): Doc {
    var id := IdOf(Get(doc, Id));
    Merge(if id in db.messages then db.messages[id].raw else map[], doc)
  }

  /** upsert_message, and the first half of apply_live_message. */
  function StoreMessage(db: Db, doc: Doc): Db {
    var merged := Merged(db, doc);
    db.(messages := db.messages[IdOf(Get(merged, Id)) := Project(merged)])
  }

  // ----------------------------------------------------------------- chats

  function NameColumn(doc: Doc): Option<string> {
    AsStr(Get(doc, Name)).Or(AsStr(Get(doc, ContactName)))
  }

  /** What the panel shows as the title of a chat. */
  function Title(doc: Doc): string {
    AsStr(Get(doc, ContactName)).Or(AsStr(Get(doc, Name))).GetOr("")
  }

  /** upsert_chat does not give up the name of a person for something else. */
  function KeepTitle(stored: Doc, chat: Doc): Doc {
    if IsPersonName(Title(stored)) && !IsPersonName(Title(chat)) then
      var named := chat[Name := Get(stored, Name)][ContactName := Get(stored, ContactName)];
      if IsPersonName(NameText(Get(stored, DisplayName))) then named[DisplayName := Get(stored, DisplayName)] else named
    else chat
  }

  function NewChat(doc: Doc): ChatRow {
    ChatRow(AsStr(Get(doc, Guid)), NameColumn(doc), AsStr(Get(doc, Identifier)), AsStr(Get(doc, Service)),
            AsStr(Get(doc, LastMessageAt)), AsCount(Get(doc, UnreadCount)), Get(doc, Participants), doc)
  }

  /** ON CONFLICT(id) DO UPDATE: the local unread count survives, in the column and in the document. */
  function Overwritten(row: ChatRow, doc: Doc): ChatRow {
    row.(name := NameColumn(doc), lastMessageAt := AsStr(Get(doc, LastMessageAt)),
         raw := doc[UnreadCount := Num(row.unread)])
  }

  /** INSERT OR IGNORE into identities: guid is the primary key, id is unique. */
  function InsertOrIgnore(ids: map<string, int>, guid: string, id: int): map<string, int> {
    if guid in ids || id in ids.Values then ids else ids[guid := id]
  }

  function StoreChat(db: Db, chat: Doc): Db {
    var id := IdOf(Get(chat, Id));
    var doc := if id in db.chats then KeepTitle(db.chats[id].raw, chat) else chat;
    var row := if id in db.chats then Overwritten(db.chats[id], doc) else NewChat(doc);
    var guid := AsStr(Get(doc, Guid)).GetOr("");
    db.(chats := db.chats[id := row], ids := if guid != "" then InsertOrIgnore(db.ids, guid, id) else db.ids)
  }

  /** later_timestamp */
  function LaterTimestamp(existing: Option<string>, incoming: Option<string>): Option<string> {
    match (existing, incoming)
    case (Some(a), Some(b)) => Some(Text.Later(a, b))
    case (Some(a), None) => Some(a)
    case (None, b) => b
  }

  /** The row of a chat after a live message of it. */
  function Advanced(row: ChatRow, createdAt: Option<string>, counts: bool): ChatRow {
    var last := LaterTimestamp(AsStr(Get(row.raw, LastMessageAt)), createdAt);
    var dated := if last.Some? then row.raw[LastMessageAt := Str(last.value)] else row.raw;
    var count := AsCount(Get(dated, UnreadCount));
    var unread := if counts then Min(count + 1, I64_MAX) else count;
    var doc := dated[UnreadCount := Num(unread)];
    row.(lastMessageAt := AsStr(Get(doc, LastMessageAt)), unread := unread, name := NameColumn(doc), raw := doc)
  }

  function AdvanceChat(chats: map<int, ChatRow>, id: int, createdAt: Option<string>, counts: bool): map<int, ChatRow> {
    if id in chats then chats[id := Advanced(chats[id], createdAt, counts)] else chats
  }

  /** apply_live_message, which is one transaction. */
  function ApplyLive(db: Db, doc: Doc): Db {
    var isNew := IdOf(Get(doc, Id)) !in db.messages;
    var merged := Merged(db, doc);
    var counts := isNew && !AsBool(Get(merged, IsFromMe));
    StoreMessage(db, doc).(
      chats := AdvanceChat(db.chats, IdOf(Get(merged, ChatId)), AsStr(Get(merged, CreatedAt)), counts))
  }

  function ReadChat(row: ChatRow): ChatRow {
    row.(unread := 0, raw := row.raw[UnreadCount := Num(0)])
  }

  function RenamedSender(row: MessageRow, name: string): MessageRow {
    row.(senderName := Some(name), raw := row.raw[SenderName := Str(name)])
  }

  // ------------------------------------------------- repair_message_projections

  /** SQLite's reading of values that are neither integers nor text; its rules are not needed. */
  const OtherInteger: Json -> int
  const OtherText: Json -> string

  /** CAST(json AS INTEGER) */
  function SqlInteger(v: Json): int {
    if v.Num? && I64_MIN <= v.n <= I64_MAX then v.n
    else if v.Str? && Decimal.ParseI64(v.s).Some? then Decimal.ParseI64(v.s).value
    else OtherInteger(v)
  }

  /** The text that a JSON value is stored as in a column of type TEXT. */
  function SqlText(v: Json): string {
    if v.Str? then v.s else OtherText(v)
  }

  /** The WHERE clause: a column is unset that the document could set. */
  predicate NeedsRepair(row: MessageRow) {
    || (row.chatId == 0 && Get(row.raw, ChatId) != Null)
    || (row.createdAt == None && Get(row.raw, CreatedAt) != Null)
  }

  function Repaired(row: MessageRow): MessageRow {
    var chat, created, mine := Get(row.raw, ChatId), Get(row.raw, CreatedAt), Get(row.raw, IsFromMe);
    row.(chatId := if chat == Null then row.chatId else SqlInteger(chat),
         createdAt := if created == Null then row.createdAt else Some(SqlText(created)),
         isFromMe := if mine == Bool(true) || mine == Num(1) then true
                     else if mine == Bool(false) || mine == Num(0) then false
                     else row.isFromMe)
  }

  function RepairAll(messages: map<int, MessageRow>): map<int, MessageRow> {
    map id | id in messages :: if NeedsRepair(messages[id]) then Repaired(messages[id]) else messages[id]
  }

  // ------------------------------------------------------------- statements

  datatype Op =
    | UpsertChat(doc: Doc)
    | UpsertMessage(doc: Doc)
    | Live(doc: Doc)
    | MarkRead(id: int)
    | RenameSender(id: int, name: string)
    | RepairProjections
    | InsertIdentity(guid: string, id: int)

  function Step(db: Db, op: Op): Db {
    match op
    case UpsertChat(doc) => StoreChat(db, doc)
    case UpsertMessage(doc) => StoreMessage(db, doc)
    case Live(doc) => ApplyLive(db, doc)
    case MarkRead(id) => if id in db.chats then db.(chats := db.chats[id := ReadChat(db.chats[id])]) else db
    case RenameSender(id, name) =>
      if id in db.messages then db.(messages := db.messages[id := RenamedSender(db.messages[id], name)]) else db
    case RepairProjections => db.(messages := RepairAll(db.messages))
    case InsertIdentity(guid, id) => db.(ids := InsertOrIgnore(db.ids, guid, id))
  }

  function Run(db: Db, ops: seq<Op>): Db {
    if ops == [] then db else Step(Run(db, ops[..|ops| - 1]), ops[|ops| - 1])
  }

  lemma {:induction false} RunConcat(db: Db, a: seq<Op>, b: seq<Op>)
    ensures Run(db, a + b) == Run(Run(db, a), b)
  {
    hide Step;
    if b == [] {
      assert a + b == a;
    } else {
      RunConcat(db, a, b[..|b| - 1]);
      assert (a + b)[..|a + b| - 1] == a + b[..|b| - 1];
    }
  }

  // ---------------------------------------------------- columns and documents

  /** The columns of a message are the fields of its document, which never holds an unusable chat or time. */
  ghost predicate MessageAgrees(id: int, row: MessageRow) {
    && IdOf(Get(row.raw, Id)) == id
    && row.chatId == IdOf(Get(row.raw, ChatId)) && row.guid == AsStr(Get(row.raw, Guid))
    && row.sender == AsStr(Get(row.raw, Sender)) && row.senderName == AsStr(Get(row.raw, SenderName))
    && row.text == AsStr(Get(row.raw, Key.Text)) && row.createdAt == AsStr(Get(row.raw, CreatedAt))
    && row.isFromMe == AsBool(Get(row.raw, IsFromMe))
    && (Get(row.raw, ChatId) == Null || NamesChat(Get(row.raw, ChatId)))
    && (Get(row.raw, CreatedAt) == Null || HasText(Get(row.raw, CreatedAt)))
  }

  /** The columns of a chat that the cache filters and sorts by are the fields of its document. */
  ghost predicate ChatAgrees(id: int, row: ChatRow) {
    && IdOf(Get(row.raw, Id)) == id
    && row.unread == AsCount(Get(row.raw, UnreadCount))
    && row.lastMessageAt == AsStr(Get(row.raw, LastMessageAt))
    && row.name == NameColumn(row.raw)
  }

  ghost predicate Agrees(db: Db) {
    && (forall id :: id in db.messages ==> MessageAgrees(id, db.messages[id]))
    && (forall id :: id in db.chats ==> ChatAgrees(id, db.chats[id]))
  }

  lemma {:induction false} MergedAgrees(db: Db, doc: Doc)
    requires Agrees(db)
    ensures MessageAgrees(IdOf(Get(doc, Id)), Project(Merged(db, doc)))
  {
    var id := IdOf(Get(doc, Id));
    var stored := if id in db.messages then db.messages[id].raw else map[];
    var merged := Merge(stored, doc);
    assert Get(merged, Id) == if Id in doc && doc[Id] != Null then doc[Id] else Get(stored, Id);
    assert Get(merged, ChatId) ==
           if ChatId in doc && Accepts(stored, ChatId, doc[ChatId]) then doc[ChatId] else Get(stored, ChatId);
    assert Get(merged, CreatedAt) ==
           if CreatedAt in doc && Accepts(stored, CreatedAt, doc[CreatedAt]) then doc[CreatedAt]
           else Get(stored, CreatedAt);
  }

  lemma {:induction false} StoreMessageAgrees(db: Db, doc: Doc)
    requires Agrees(db)
    ensures Agrees(StoreMessage(db, doc)) && IdOf(Get(Merged(db, doc), Id)) == IdOf(Get(doc, Id))
  {
    MergedAgrees(db, doc);
  }

  lemma {:induction false} StoreChatAgrees(db: Db, chat: Doc)
    requires Agrees(db)
    ensures Agrees(StoreChat(db, chat))
  {
    var id := IdOf(Get(chat, Id));
    if id in db.chats {
      var doc := KeepTitle(db.chats[id].raw, chat);
      assert Get(doc, Id) == Get(chat, Id);
      assert ChatAgrees(id, Overwritten(db.chats[id], doc));
    } else {
      assert ChatAgrees(id, NewChat(chat));
    }
  }

  lemma {:induction false} AdvanceAgrees(chats: map<int, ChatRow>, id: int, createdAt: Option<string>, counts: bool)
    requires id in chats ==> ChatAgrees(id, chats[id])
    ensures id in chats ==> ChatAgrees(id, AdvanceChat(chats, id, createdAt, counts)[id])
  {
  }

  /** Storing a chat gives its guid the id of its row, unless the guid or the id is taken, and adds nothing else. */
  lemma {:induction false} ChatIdentity(db: Db, chat: Doc)
    ensures var later, id := StoreChat(db, chat).ids, IdOf(Get(chat, Id));
            && (forall g :: g in db.ids ==> g in later && later[g] == db.ids[g])
            && (forall g :: g in later && g !in db.ids ==>
                  g != "" && Get(chat, Guid) == Str(g) && later[g] == id && id !in db.ids.Values)
            && (NameText(Get(chat, Guid)) != "" ==> NameText(Get(chat, Guid)) in later || id in db.ids.Values)
  {
    var id := IdOf(Get(chat, Id));
    assert id in db.chats ==> Get(KeepTitle(db.chats[id].raw, chat), Guid) == Get(chat, Guid);
  }

  lemma {:induction false} ApplyLiveAgrees(db: Db, doc: Doc)
    requires Agrees(db)
    ensures Agrees(ApplyLive(db, doc))
  {
    var merged := Merged(db, doc);
    var counts := IdOf(Get(doc, Id)) !in db.messages && !AsBool(Get(merged, IsFromMe));
    StoreMessageAgrees(db, doc);
    AdvanceAgrees(db.chats, IdOf(Get(merged, ChatId)), AsStr(Get(merged, CreatedAt)), counts);
  }

  lemma {:induction false} StepAgrees(db: Db, op: Op)
    requires Agrees(db)
    ensures Agrees(Step(db, op))
  {
    match op
    case UpsertChat(doc) => StoreChatAgrees(db, doc);
    case UpsertMessage(doc) => StoreMessageAgrees(db, doc);
    case Live(doc) => ApplyLiveAgrees(db, doc);
    case MarkRead(id) => assert id in db.chats ==> ChatAgrees(id, ReadChat(db.chats[id]));
    case RenameSender(id, name) => assert id in db.messages ==> MessageAgrees(id, RenamedSender(db.messages[id], name));
    case RepairProjections => RepairChangesNothing(db);
    case InsertIdentity(_, _) =>
  }

  /** In every reachable state the columns agree with the documents. */
  lemma {:induction false} ProjectionsAgree(ops: seq<Op>)
    ensures Agrees(Run(EMPTY, ops))
  {
    if ops != [] {
      ProjectionsAgree(ops[..|ops| - 1]);
      StepAgrees(Run(EMPTY, ops[..|ops| - 1]), ops[|ops| - 1]);
    }
  }

  /** The repair at open finds nothing to do on a database that the cache wrote. */
  lemma {:induction false} RepairChangesNothing(db: Db)
    requires Agrees(db)
    ensures RepairAll(db.messages) == db.messages
  {
    forall id | id in db.messages ensures !NeedsRepair(db.messages[id]) {
      assert MessageAgrees(id, db.messages[id]);
    }
  }

  /**
   * What it is for: a row found with unset columns gets the chat, the time and the side that its
   * document says, whenever the document has a usable chat, a time and a side.
   */
  lemma {:induction false} RepairedProjects(row: MessageRow)
    requires NamesChat(Get(row.raw, ChatId)) && HasText(Get(row.raw, CreatedAt)) && Get(row.raw, IsFromMe).Bool?
    requires row.chatId == 0 || row.createdAt == None
    ensures var repaired, projected := Repaired(row), Project(row.raw);
            && NeedsRepair(row) && !NeedsRepair(repaired) && repaired.raw == row.raw
            && repaired.chatId == projected.chatId && repaired.createdAt == projected.createdAt
            && repaired.isFromMe == projected.isFromMe
  {
  }

  /** The document has a value for a column that is unset. */
  ghost predicate Unset(row: MessageRow) {
    || (row.chatId == 0 && ChatId in row.raw && row.raw[ChatId] != Null)
    || (row.createdAt == None && CreatedAt in row.raw && row.raw[CreatedAt] != Null)
  }

  /** Of the columns chat, time and side those change that the document has a value for; no other column does. */
  ghost predicate RepairedTo(row: MessageRow, later: MessageRow) {
    && later == row.(chatId := later.chatId, createdAt := later.createdAt, isFromMe := later.isFromMe)
    && (Get(row.raw, ChatId) == Null ==> later.chatId == row.chatId)
    && (forall n :: I64_MIN <= n <= I64_MAX && Get(row.raw, ChatId) in {Num(n), Str(Decimal.Render(n))} ==>
          later.chatId == n)
    && (Get(row.raw, CreatedAt) == Null ==> later.createdAt == row.createdAt)
    && (Get(row.raw, CreatedAt).Str? ==> later.createdAt == Some(Get(row.raw, CreatedAt).s))
    && (Get(row.raw, IsFromMe) in {Bool(true), Num(1)} ==> later.isFromMe)
    && (Get(row.raw, IsFromMe) in {Bool(false), Num(0)} ==> !later.isFromMe)
    && (Get(row.raw, IsFromMe) !in {Bool(true), Num(1), Bool(false), Num(0)} ==> later.isFromMe == row.isFromMe)
  }

  /** The repair changes exactly the rows with a column unset that their document has a value for. */
  lemma {:induction false} RepairMeaning(db: Db, id: int)
    requires id in db.messages
    ensures var later := Step(db, RepairProjections);
            && later == db.(messages := later.messages) && later.messages.Keys == db.messages.Keys
            && if Unset(db.messages[id]) then RepairedTo(db.messages[id], later.messages[id])
               else later.messages[id] == db.messages[id]
  {
    var row := db.messages[id];
    if Unset(row) {
      forall n | I64_MIN <= n <= I64_MAX && Get(row.raw, ChatId) in {Num(n), Str(Decimal.Render(n))}
        ensures Repaired(row).chatId == n
      {
        Decimal.ParseInverse(n);
      }
    }
  }

  /** A second repair finds nothing more to do, whatever the rows are. */
  lemma {:induction false} RepairTwice(messages: map<int, MessageRow>)
    ensures RepairAll(RepairAll(messages)) == RepairAll(messages)
  {
    forall id | id in messages ensures Repaired(Repaired(messages[id])) == Repaired(messages[id]) {
    }
  }

  /** A message of the chat before a point in time, by columns. */
  predicate Selected(row: MessageRow, chatId: int, before: Option<string>) {
    row.chatId == chatId &&
    (before.Some? ==> row.createdAt.Some? && Text.Less(row.createdAt.value, before.value))
  }

  /** The same, read off the document. */
  predicate SelectedByDocument(doc: Doc, chatId: int, before: Option<string>) {
    IdOf(Get(doc, ChatId)) == chatId &&
    (before.Some? ==> Get(doc, CreatedAt).Str? && Text.Less(Get(doc, CreatedAt).s, before.value))
  }

  /** Filtering and sorting by columns gives the answer that scanning the documents would give. */
  lemma {:induction false} ColumnsAnswerForDocuments(db: Db, chatId: int, before: Option<string>)
    requires Agrees(db)
    ensures forall id :: id in db.messages ==>
              && (Selected(db.messages[id], chatId, before) <==>
                  SelectedByDocument(db.messages[id].raw, chatId, before))
              && db.messages[id].createdAt == AsStr(Get(db.messages[id].raw, CreatedAt))
    ensures forall id :: id in db.chats ==> db.chats[id].lastMessageAt == AsStr(Get(db.chats[id].raw, LastMessageAt))
  {
    forall id | id in db.messages
      ensures Selected(db.messages[id], chatId, before) <==> SelectedByDocument(db.messages[id].raw, chatId, before)
    {
      assert MessageAgrees(id, db.messages[id]);
    }
  }

  // ------------------------------------------------- a message over a whole run

  /** op stores a document for the message with this id. */
  predicate Stores(op: Op, id: int) {
    (op.UpsertMessage? || op.Live?) && IdOf(Get(op.doc, Id)) == id
  }

  /** A rename, as an update of the document. */
  function NameDoc(name: string): Doc {
    map[SenderName := Str(name)]
  }

  /** What a run does to the document of a message, in order: the documents it stores, and the names it gives. */
  function Updates(ops: seq<Op>, id: int): seq<Doc> {
    if ops == [] then []
    else
      var front, op := Updates(ops[..|ops| - 1], id), ops[|ops| - 1];
      if Stores(op, id) then front + [op.doc]
      else if front != [] && op.RenameSender? && op.id == id then front + [NameDoc(op.name)]
      else front
  }

  /** One statement merges what it stores for a message, renames its sender, or leaves its document alone. */
  lemma {:induction false} DocumentOfStep(db: Db, op: Op, id: int)
    requires Agrees(db)
    ensures id in Step(db, op).messages <==> id in db.messages || Stores(op, id)
    ensures Stores(op, id) ==>
              Step(db, op).messages[id].raw == Merge(if id in db.messages then db.messages[id].raw else map[], op.doc)
    ensures !Stores(op, id) && id in db.messages ==>
              Step(db, op).messages[id].raw ==
              if op.RenameSender? && op.id == id then db.messages[id].raw[SenderName := Str(op.name)]
              else db.messages[id].raw
  {
    hide Merge, AdvanceChat, ParseId, Agrees;
    if op.UpsertMessage? || op.Live? {
      StoreMessageAgrees(db, op.doc);
    } else if op.RepairProjections? {
      RepairChangesNothing(db);
    }
  }

  /** The merge decides every key but sender_name by that key alone. */
  lemma {:induction false} MergeByKey(a: Doc, b: Doc, doc: Doc, k: Key)
    requires k != SenderName && Lookup(a, k) == Lookup(b, k)
    ensures Lookup(Merge(a, doc), k) == Lookup(Merge(b, doc), k)
  {
  }

  lemma {:induction false} RenameIsMerge(d: Doc, name: string)
    ensures IsPersonName(name) ==> Merge(d, NameDoc(name)) == d[SenderName := Str(name)]
    ensures forall k :: k != SenderName ==> Lookup(Merge(d, NameDoc(name)), k) == Lookup(d[SenderName := Str(name)], k)
  {
  }

  /**
   * Over every run a message is there exactly if some document was stored for it, and its document
   * holds what the fold of its updates holds under every key but sender_name, whichever way and in
   * whatever company the updates came.
   */
  lemma {:induction false} MessageIsAFold(ops: seq<Op>, id: int, k: Key)
    requires k != SenderName
    ensures var db, docs := Run(EMPTY, ops), Updates(ops, id);
            && (id in db.messages <==> docs != [])
            && (id in db.messages ==> Lookup(db.messages[id].raw, k) == Lookup(Folded(docs), k))
  {
    if ops != [] {
      hide Step, Merge, Folded;
      var front, op := ops[..|ops| - 1], ops[|ops| - 1];
      var db, docs := Run(EMPTY, front), Updates(front, id);
      MessageIsAFold(front, id, k);
      ProjectionsAgree(front);
      DocumentOfStep(db, op, id);
      if Stores(op, id) {
        FoldedSnoc(docs, op.doc);
        if id in db.messages {
          MergeByKey(db.messages[id].raw, Folded(docs), op.doc, k);
        } else {
          FoldedNone();
        }
      } else if docs != [] && op.RenameSender? && op.id == id {
        FoldedSnoc(docs, NameDoc(op.name));
        RenameIsMerge(db.messages[id].raw, op.name);
        MergeByKey(db.messages[id].raw, Folded(docs), NameDoc(op.name), k);
      }
    }
  }

  /** And with renames to names of persons, as the cache makes them, its whole document is that fold. */
  lemma {:induction false} DocumentIsAFold(ops: seq<Op>, id: int)
    requires forall i :: 0 <= i < |ops| ==> NamesAPerson(ops[i])
    requires id in Run(EMPTY, ops).messages
    ensures Run(EMPTY, ops).messages[id].raw == Folded(Updates(ops, id))
  {
    if ops != [] {
      hide Step, Merge, Folded;
      var front, op := ops[..|ops| - 1], ops[|ops| - 1];
      var db, docs := Run(EMPTY, front), Updates(front, id);
      MessageIsAFold(front, id, Id);
      ProjectionsAgree(front);
      DocumentOfStep(db, op, id);
      FoldedNone();
      if id in db.messages {
        DocumentIsAFold(front, id);
      }
      if Stores(op, id) {
        FoldedSnoc(docs, op.doc);
      } else if docs != [] && op.RenameSender? && op.id == id {
        FoldedSnoc(docs, NameDoc(op.name));
        RenameIsMerge(db.messages[id].raw, op.name);
      }
    }
  }

  lemma {:induction false} FoldedNone()
    ensures Folded([]) == map[]
  {
  }

  lemma {:induction false} FoldedSnoc(docs: seq<Doc>, doc: Doc)
    ensures Folded(docs + [doc]) == Merge(Folded(docs), doc)
  {
    assert (docs + [doc])[..|docs|] == docs;
  }

  // --------------------------------------------------------- names of persons

  /** The repair of sender names only ever writes the name of a person. */
  predicate NamesAPerson(op: Op) {
    op.RenameSender? ==> IsPersonName(op.name)
  }

  ghost predicate TitlesKept(chats: map<int, ChatRow>, later: map<int, ChatRow>) {
    chats.Keys <= later.Keys &&
    forall id :: id in chats && IsPersonName(Title(chats[id].raw)) ==> IsPersonName(Title(later[id].raw))
  }

  ghost predicate SendersKept(messages: map<int, MessageRow>, later: map<int, MessageRow>) {
    messages.Keys <= later.Keys &&
    forall id :: id in messages && NamesPerson(Get(messages[id].raw, SenderName)) ==>
      NamesPerson(Get(later[id].raw, SenderName))
  }

  /** No chat title and no sender name that is the name of a person is given up for one that is not. */
  ghost predicate NamesKept(db: Db, later: Db) {
    TitlesKept(db.chats, later.chats) && SendersKept(db.messages, later.messages)
  }

  lemma {:induction false} TitleKept(stored: Doc, chat: Doc)
    requires IsPersonName(Title(stored))
    ensures IsPersonName(Title(KeepTitle(stored, chat)))
  {
  }

  lemma {:induction false} SenderKept(stored: Doc, doc: Doc)
    requires NamesPerson(Get(stored, SenderName))
    ensures NamesPerson(Get(Merge(stored, doc), SenderName))
  {
    assert !IsPersonName("");
  }

  lemma {:induction false} StoreKeepsNames(db: Db, doc: Doc)
    requires Agrees(db)
    ensures SendersKept(db.messages, StoreMessage(db, doc).messages)
  {
    var id := IdOf(Get(doc, Id));
    StoreMessageAgrees(db, doc);
    if id in db.messages && NamesPerson(Get(db.messages[id].raw, SenderName)) {
      SenderKept(db.messages[id].raw, doc);
    }
  }

  lemma {:induction false} ChatKeepsNames(db: Db, chat: Doc)
    ensures TitlesKept(db.chats, StoreChat(db, chat).chats)
  {
    var id := IdOf(Get(chat, Id));
    if id in db.chats && IsPersonName(Title(db.chats[id].raw)) {
      TitleKept(db.chats[id].raw, chat);
    }
  }

  lemma {:induction false} AdvanceKeepsNames(chats: map<int, ChatRow>, id: int, createdAt: Option<string>, counts: bool)
    ensures TitlesKept(chats, AdvanceChat(chats, id, createdAt, counts))
  {
  }

  lemma {:induction false} LiveKeepsNames(db: Db, doc: Doc)
    requires Agrees(db)
    ensures NamesKept(db, ApplyLive(db, doc))
  {
    var merged := Merged(db, doc);
    var counts := IdOf(Get(doc, Id)) !in db.messages && !AsBool(Get(merged, IsFromMe));
    StoreKeepsNames(db, doc);
    AdvanceKeepsNames(db.chats, IdOf(Get(merged, ChatId)), AsStr(Get(merged, CreatedAt)), counts);
  }

  lemma {:induction false} StepKeepsNames(db: Db, op: Op)
    requires Agrees(db) && NamesAPerson(op)
    ensures NamesKept(db, Step(db, op))
  {
    match op
    case UpsertChat(doc) => ChatKeepsNames(db, doc);
    case UpsertMessage(doc) => StoreKeepsNames(db, doc);
    case Live(doc) => LiveKeepsNames(db, doc);
    case MarkRead(_) =>
    case RenameSender(_, _) =>
    case RepairProjections => RepairChangesNothing(db);
    case InsertIdentity(_, _) =>
  }

  /** Over every run: once the name of a person, always the name of a person. */
  lemma {:induction false} NamesNeverRegress(db: Db, ops: seq<Op>)
    requires Agrees(db) && forall i :: 0 <= i < |ops| ==> NamesAPerson(ops[i])
    ensures Agrees(Run(db, ops)) && NamesKept(db, Run(db, ops))
  {
    if ops != [] {
      var front := ops[..|ops| - 1];
      NamesNeverRegress(db, front);
      StepAgrees(Run(db, front), ops[|ops| - 1]);
      StepKeepsNames(Run(db, front), ops[|ops| - 1]);
    }
  }
}
