/**
 * What the rows of the cache hold of the chats and messages of the server (to_cache_json and stub in
 * sync/src/domain.rs, upsert_domain_chat and apply_domain_message in sync/src/cache.rs), field by field.
 */
module Rows {
  import opened Prelude
  import opened Domain
  import opened Documents
  import opened Tables
  import opened Identities
  import opened Delivery

  // ------------------------------------------------------------------ titles

  /** The keys that may hold the name of the person that a chat is with, the preferred one first. */
  const TITLE_KEYS: seq<Key> := [ContactName, DisplayName, Name]

  ghost predicate SaysGroup(chat: Doc) {
    Get(chat, IsGroup) == Bool(true)
  }

  /** The first of the three titles that names a person is this name. */
  ghost predicate TitledFor(chat: Doc, name: string) {
    exists i :: 0 <= i < 3 && Get(chat, TITLE_KEYS[i]) == Str(name) && IsPersonName(name)
                && forall j :: 0 <= j < i ==> !NamesPerson(Get(chat, TITLE_KEYS[j]))
  }

  /** None of them names a person. */
  ghost predicate Untitled(chat: Doc) {
    forall i :: 0 <= i < 3 ==> !NamesPerson(Get(chat, TITLE_KEYS[i]))
  }

  /** A chat gives its senders a name exactly if it is no group and a title names a person, and then the first such. */
  lemma {:induction false} PersonOfMeaning(chat: Doc)
    ensures PersonOf(chat).None? <==> SaysGroup(chat) || Untitled(chat)
    ensures PersonOf(chat).Some? ==> TitledFor(chat, PersonOf(chat).value)
  {
    assert !IsPersonName("");
    assert TITLE_KEYS[0] == ContactName && TITLE_KEYS[1] == DisplayName && TITLE_KEYS[2] == Name;
  }

  lemma {:induction false} TitledForOne(chat: Doc, a: string, b: string)
    requires TitledFor(chat, a)
    ensures !Untitled(chat) && (TitledFor(chat, b) ==> a == b)
  {
  }

  /** The titles of a chat are all that the choice depends on. */
  lemma {:induction false} SameTitles(a: Doc, b: Doc)
    requires Get(a, IsGroup) == Get(b, IsGroup)
    requires forall i :: 0 <= i < 3 ==> Get(a, TITLE_KEYS[i]) == Get(b, TITLE_KEYS[i])
    ensures SaysGroup(a) <==> SaysGroup(b)
    ensures Untitled(a) <==> Untitled(b)
    ensures forall name :: TitledFor(a, name) <==> TitledFor(b, name)
  {
  }

  /**
   * The name of a sender in a chat: the one given, unless the chat is no group and has a title that
   * names a person while the one given does not; then it is that title.
   */
  ghost predicate Shown(chat: Doc, given: Json, shown: Json) {
    if SaysGroup(chat) || NamesPerson(given) || Untitled(chat) then shown == given
    else shown.Str? && TitledFor(chat, shown.s)
  }

  lemma {:induction false} SameShown(a: Doc, b: Doc, given: Json, shown: Json)
    requires forall k :: k != LastMessageAt && k != UnreadCount ==> Get(b, k) == Get(a, k)
    ensures Shown(a, given, shown) <==> Shown(b, given, shown)
  {
    hide TitledFor, Untitled;
    SameTitles(a, b);
  }

  // -------------------------------------------------------- delivered messages

  function OrNull(s: Option<string>): Json {
    if s.Some? then Str(s.value) else Null
  }

  /** The sender's address and name, as the server gave them. */
  function GivenSender(m: Message): Option<string> {
    match m.sender
    case None => None
    case Some(handle) => Some(handle.address)
  }

  function GivenName(m: Message): Option<string> {
    match m.sender
    case None => None
    case Some(handle) => handle.name
  }

  /** The object has these three fields and no other. */
  ghost predicate AttachmentSays(v: Json, a: Attachment) {
    && v.Obj? && |v.fields| == 3 && ("guid", Str(a.guid)) in v.fields
    && ("mime", OrNull(a.mime)) in v.fields && ("name", OrNull(a.name)) in v.fields
  }

  ghost predicate AttachmentsSaid(v: Json, attachments: seq<Attachment>) {
    && v.Arr? && |v.items| == |attachments|
    && forall i :: 0 <= i < |attachments| ==> AttachmentSays(v.items[i], attachments[i])
  }

  /** The document says what the message says, its sender's name aside. */
  ghost predicate SaysMessage(doc: Doc, m: Message, id: int, chatId: int) {
    && IdOf(Get(doc, Id)) == id && IdOf(Get(doc, ChatId)) == chatId && Get(doc, Guid) == Str(m.guid)
    && Get(doc, Key.Text) == Str(m.text) && Get(doc, CreatedAt) == Str(m.createdAt)
    && Get(doc, IsFromMe) == Bool(m.isFromMe) && Get(doc, Sender) == OrNull(GivenSender(m))
    && AttachmentsSaid(Get(doc, Attachments), m.attachments)
  }

  lemma {:induction false} AttachmentIsSaid(a: Attachment)
    ensures AttachmentSays(AttachmentJson(a), a)
  {
    var fields := AttachmentJson(a).fields;
    assert fields[0] in fields && fields[1] in fields && fields[2] in fields;
  }

  lemma {:induction false} AttachmentsAreSaid(m: Message, id: int, chatId: int)
    ensures AttachmentsSaid(Get(MessageDoc(m, id, chatId), Attachments), m.attachments)
  {
    hide AttachmentSays, AttachmentJson, IdJson;
    forall i | 0 <= i < |m.attachments|
      ensures AttachmentSays(Get(MessageDoc(m, id, chatId), Attachments).items[i], m.attachments[i])
    {
      AttachmentIsSaid(m.attachments[i]);
    }
  }

  lemma {:induction false} MessageIsSaid(m: Message, id: int, chatId: int)
    requires I64_MIN <= id <= I64_MAX && I64_MIN <= chatId <= I64_MAX
    ensures SaysMessage(MessageDoc(m, id, chatId), m, id, chatId)
    ensures Get(MessageDoc(m, id, chatId), SenderName) == OrNull(GivenName(m))
  {
    hide AttachmentsSaid, IdOf;
    IdRoundTrip(id);
    IdRoundTrip(chatId);
    AttachmentsAreSaid(m, id, chatId);
  }

  lemma {:induction false} FilledIsShown(chats: map<int, ChatRow>, m: Message, id: int, chatId: int)
    requires I64_MIN <= id <= I64_MAX && I64_MIN <= chatId <= I64_MAX && chatId in chats
    ensures var doc := FillSender(chats, chatId, MessageDoc(m, id, chatId));
            && SaysMessage(doc, m, id, chatId) && IdOf(Get(doc, Id)) == id
            && Shown(chats[chatId].raw, OrNull(GivenName(m)), Get(doc, SenderName))
  {
    var doc, chat := MessageDoc(m, id, chatId), chats[chatId].raw;
    hide PersonOf, MessageDoc, SaysMessage, TitledFor, Untitled, SaysGroup;
    MessageIsSaid(m, id, chatId);
    PersonOfMeaning(chat);
    if PersonOf(chat).Some? {
      TitledForOne(chat, PersonOf(chat).value, PersonOf(chat).value);
      RenamedSays(doc, m, id, chatId, Str(PersonOf(chat).value));
    }
    SaysId(FillSender(chats, chatId, doc), m, id, chatId);
  }

  lemma {:induction false} RenamedSays(doc: Doc, m: Message, id: int, chatId: int, name: Json)
    requires SaysMessage(doc, m, id, chatId)
    ensures SaysMessage(doc[SenderName := name], m, id, chatId)
  {
    hide AttachmentsSaid, ParseId;
  }

  lemma {:induction false} SaysId(doc: Doc, m: Message, id: int, chatId: int)
    requires SaysMessage(doc, m, id, chatId)
    ensures IdOf(Get(doc, Id)) == id
  {
  }

  /** The document stored for an id so far. */
  function Stored(db: Db, id: int): Doc {
    if id in db.messages then db.messages[id].raw else map[]
  }

  /** A live message leaves the titles of its chat as they are. */
  lemma {:induction false} LiveKeepsTitles(db: Db, doc: Doc, c: int)
    requires Agrees(db) && c in db.chats
    ensures c in ApplyLive(db, doc).chats
    ensures var before, later := db.chats[c].raw, ApplyLive(db, doc).chats[c].raw;
            forall k :: k != LastMessageAt && k != UnreadCount ==> Get(later, k) == Get(before, k)
  {
    hide Merged, Merge, Project, StoreMessage, Agrees, ParseId, NameColumn;
    AdvancedKeepsTitles(db.chats[c], AsStr(Get(Merged(db, doc), CreatedAt)), true);
    AdvancedKeepsTitles(db.chats[c], AsStr(Get(Merged(db, doc), CreatedAt)), false);
    hide Advanced;
  }

  lemma {:induction false} AdvancedKeepsTitles(row: ChatRow, time: Option<string>, counts: bool)
    ensures forall k :: k != LastMessageAt && k != UnreadCount ==>
              Get(Advanced(row, time, counts).raw, k) == Get(row.raw, k)
  {
  }

  lemma {:induction false} StoredByLive(db: Db, doc: Doc)
    requires Agrees(db)
    ensures var id := IdOf(Get(doc, Id));
            id in ApplyLive(db, doc).messages && ApplyLive(db, doc).messages[id].raw == Merge(Stored(db, id), doc)
  {
    StoreMessageAgrees(db, doc);
  }

  lemma {:induction false} OneHasChat(db: Db, m: Message)
    requires Agrees(db) && IdsOk(db.ids) && WithChat(db, m).Some?
    ensures var (one, chatId) := WithChat(db, m).value;
            && Agrees(one) && IdsOk(one.ids) && chatId in one.chats && one.messages == db.messages
            && m.chat in one.ids && one.ids[m.chat] == chatId
  {
    var (known, id) := WithId(db, m.chat).value;
    WithIdKeeps(db, m.chat);
    assert Agrees(known);
    if id !in known.chats {
      StubRow(known, m, id);
    }
  }

  /**
   * What a delivery merges into the row of its message: a document that says what the server said, with
   * the name of the sender as the titles of the chat, which the delivery leaves as they are, demand.
   */
  lemma {:induction false} DeliveredDocument(db: Db, m: Message) returns (doc: Doc)
    requires Agrees(db) && IdsOk(db.ids) && ApplyDomainMessage(db, m).Some?
    ensures var later := ApplyDomainMessage(db, m).value;
            && m.guid in later.ids && m.chat in later.ids
            && later.ids[m.guid] in later.messages && later.ids[m.chat] in later.chats
            && later.messages[later.ids[m.guid]].raw == Merge(Stored(db, later.ids[m.guid]), doc)
            && SaysMessage(doc, m, later.ids[m.guid], later.ids[m.chat])
            && Shown(later.chats[later.ids[m.chat]].raw, OrNull(GivenName(m)), Get(doc, SenderName))
  {
    hide MessageDoc, FillSender, ApplyLive, WithChat, Merge, WithId, Shown, SaysMessage, Untitled, TitledFor;
    var (one, chatId) := WithChat(db, m).value;
    OneHasChat(db, m);
    var (two, id) := WithId(one, m.guid).value;
    WithIdKeeps(one, m.guid);
    assert Agrees(two);
    hide Agrees;
    doc := FillSender(two.chats, chatId, MessageDoc(m, id, chatId));
    FilledIsShown(two.chats, m, id, chatId);
    StoredByLive(two, doc);
    LiveKeepsTitles(two, doc, chatId);
    var later := ApplyLive(two, doc);
    SameShown(two.chats[chatId].raw, later.chats[chatId].raw, OrNull(GivenName(m)), Get(doc, SenderName));
    LiveKeepsIds(two, doc);
  }

  lemma {:induction false} LiveKeepsIds(db: Db, doc: Doc)
    ensures ApplyLive(db, doc).ids == db.ids
  {
  }

  /** The columns of the row are what the server said, and the sender's name is as the titles of the chat demand. */
  ghost predicate RowSays(row: MessageRow, m: Message, chatId: int, chat: Doc) {
    && row.chatId == chatId && row.guid == Some(m.guid) && row.text == Some(m.text)
    && row.sender == GivenSender(m) && row.isFromMe == m.isFromMe
    && (if m.createdAt == "" then row.createdAt == None else row.createdAt == Some(m.createdAt))
    && (row.senderName.Some? ==> Shown(chat, OrNull(GivenName(m)), Str(row.senderName.value)))
    && (row.senderName.None? ==> exists given :: Shown(chat, OrNull(GivenName(m)), given) && NameText(given) == "")
  }

  lemma {:induction false} FirstRow(row: MessageRow, doc: Doc, m: Message, id: int, chatId: int, chat: Doc)
    requires MessageAgrees(id, row) && row.raw == Merge(map[], doc) && chatId >= 1
    requires SaysMessage(doc, m, id, chatId) && Shown(chat, OrNull(GivenName(m)), Get(doc, SenderName))
    ensures RowSays(row, m, chatId, chat)
  {
    FirstMerge(doc, Key.Text);
    FirstMerge(doc, Guid);
    FirstMerge(doc, Sender);
    FirstMerge(doc, SenderName);
    FirstMerge(doc, IsFromMe);
    FirstMerge(doc, CreatedAt);
    FirstMerge(doc, ChatId);
    hide Merge, Get, Untitled, TitledFor, SaysGroup, AttachmentsSaid, ParseId;
  }

  /** The row of a message delivered for the first time holds what the server said, column by column. */
  lemma {:induction false} FirstDelivery(db: Db, m: Message)
    requires Agrees(db) && IdsOk(db.ids) && ApplyDomainMessage(db, m).Some?
    requires var later := ApplyDomainMessage(db, m).value; m.guid in later.ids ==> later.ids[m.guid] !in db.messages
    ensures var later := ApplyDomainMessage(db, m).value;
            && m.guid in later.ids && m.chat in later.ids
            && later.ids[m.guid] in later.messages && later.ids[m.chat] in later.chats
            && RowSays(later.messages[later.ids[m.guid]], m, later.ids[m.chat], later.chats[later.ids[m.chat]].raw)
  {
    hide ApplyDomainMessage, Shown, SaysMessage, RowSays, Merge, MessageAgrees, IdsOk;
    var doc := DeliveredDocument(db, m);
    var later := ApplyDomainMessage(db, m).value;
    var id := later.ids[m.guid];
    assert Stored(db, id) == map[];
    assert MessageAgrees(id, later.messages[id]) by { DeliveryAgrees(db, m); }
    assert later.ids[m.chat] >= 1 by { OwnIdIsPositive(db, m); }
    FirstRow(later.messages[id], doc, m, id, later.ids[m.chat], later.chats[later.ids[m.chat]].raw);
  }

  lemma {:induction false} FirstMerge(doc: Doc, k: Key)
    ensures Get(Merge(map[], doc), k) ==
            if (k == ChatId && !NamesChat(Get(doc, k))) || (k == CreatedAt && !HasText(Get(doc, k)))
               || (k == SenderName && !HasText(Get(doc, k))) then Null
            else Get(doc, k)
  {
    assert !IsPersonName("");
  }

  lemma {:induction false} DeliveryAgrees(db: Db, m: Message)
    requires Agrees(db) && IdsOk(db.ids) && ApplyDomainMessage(db, m).Some?
    ensures Agrees(ApplyDomainMessage(db, m).value)
  {
    var (one, chatId) := WithChat(db, m).value;
    OneHasChat(db, m);
    var (two, id) := WithId(one, m.guid).value;
    assert Agrees(two);
    ApplyLiveAgrees(two, FillSender(two.chats, chatId, MessageDoc(m, id, chatId)));
  }

  lemma {:induction false} OwnIdIsPositive(db: Db, m: Message)
    requires Agrees(db) && IdsOk(db.ids) && ApplyDomainMessage(db, m).Some?
    ensures m.chat in ApplyDomainMessage(db, m).value.ids && ApplyDomainMessage(db, m).value.ids[m.chat] >= 1
  {
    hide MessageDoc, FillSender, ApplyLive, WithChat, WithId;
    var (one, chatId) := WithChat(db, m).value;
    OneHasChat(db, m);
    var (two, id) := WithId(one, m.guid).value;
    WithIdKeeps(one, m.guid);
    LiveKeepsIds(two, FillSender(two.chats, chatId, MessageDoc(m, id, chatId)));
  }

  // ------------------------------------------------------ chats of the server

  function NameOf(h: Handle): string {
    h.name.GetOr("")
  }

  /** The title is the name of the first participant who has the name of a person. */
  ghost predicate FirstNamed(handles: seq<Handle>, title: string) {
    exists i :: 0 <= i < |handles| && NameOf(handles[i]) == title && IsPersonName(title)
                && forall j :: 0 <= j < i ==> !IsPersonName(NameOf(handles[j]))
  }

  /** The title of a chat: its own name, else that of a participant, if they name persons, else its identifier. */
  ghost predicate GoesBy(chat: Chat, title: string) {
    if chat.displayName.Some? && IsPersonName(chat.displayName.value) then title == chat.displayName.value
    else if exists i :: 0 <= i < |chat.participants| && IsPersonName(NameOf(chat.participants[i]))
    then FirstNamed(chat.participants, title)
    else title == chat.identifier
  }

  lemma {:induction false} FirstPersonMeaning(handles: seq<Handle>)
    ensures FirstPerson(handles).Some? <==> exists i :: 0 <= i < |handles| && IsPersonName(NameOf(handles[i]))
    ensures FirstPerson(handles).Some? ==> FirstNamed(handles, FirstPerson(handles).value)
  {
    assert !IsPersonName("");
    if handles != [] && !IsPersonName(NameOf(handles[0])) {
      var rest := handles[1..];
      FirstPersonMeaning(rest);
      assert forall i :: 0 <= i < |rest| ==> rest[i] == handles[i + 1];
      if FirstPerson(rest).Some? {
        var i :| 0 <= i < |rest| && NameOf(rest[i]) == FirstPerson(rest).value
                 && forall j :: 0 <= j < i ==> !IsPersonName(NameOf(rest[j]));
        assert NameOf(handles[i + 1]) == FirstPerson(rest).value;
        assert forall j :: 0 <= j < i + 1 ==> !IsPersonName(NameOf(handles[j]));
      }
    }
  }

  lemma {:induction false} ChatNameMeaning(chat: Chat)
    ensures GoesBy(chat, ChatName(chat))
  {
    FirstPersonMeaning(chat.participants);
  }

  /** The document says what the chat says, titles and count aside. */
  ghost predicate SaysChat(doc: Doc, chat: Chat) {
    && Get(doc, Guid) == Str(chat.guid) && Get(doc, Identifier) == Str(chat.identifier)
    && Get(doc, IsGroup) == Bool(chat.isGroup) && Get(doc, LastMessageAt) == OrNull(chat.lastMessageAt)
    && Get(doc, Participants).Arr? && |Get(doc, Participants).items| == |chat.participants|
    && forall i :: 0 <= i < |chat.participants| ==>
         Get(doc, Participants).items[i] == Str(chat.participants[i].address)
  }

  lemma {:induction false} ChatIsSaid(chat: Chat, id: int)
    requires I64_MIN <= id <= I64_MAX
    ensures var doc := ChatDoc(chat, id);
            && SaysChat(doc, chat) && IdOf(Get(doc, Id)) == id && GoesBy(chat, Title(doc))
            && Get(doc, Name) == Get(doc, ContactName) == Str(Title(doc))
            && Get(doc, DisplayName) == OrNull(chat.displayName) && Get(doc, UnreadCount) == Num(chat.unreadCount)
  {
    IdRoundTrip(id);
    ChatNameMeaning(chat);
  }

  /** A stored title that names a person stays if the new one does not. */
  ghost predicate KeptTitle(was: string, given: string, title: string) {
    title == if IsPersonName(was) && !IsPersonName(given) then was else given
  }

  lemma {:induction false} KeepTitleMeaning(stored: Doc, doc: Doc)
    requires Get(doc, Name) == Get(doc, ContactName) == Str(Title(doc))
    ensures var out := KeepTitle(stored, doc);
            && KeptTitle(Title(stored), Title(doc), Title(out))
            && (forall k :: k != Name && k != ContactName && k != DisplayName ==> Get(out, k) == Get(doc, k))
            && (Get(out, DisplayName) == if IsPersonName(Title(stored)) && !IsPersonName(Title(doc))
                                            && NamesPerson(Get(stored, DisplayName))
                                         then Get(stored, DisplayName) else Get(doc, DisplayName))
  {
    assert !IsPersonName("");
  }

  /** The new row of a chat that had none holds what the server said, column by column. */
  ghost predicate NewRowSays(row: ChatRow, chat: Chat) {
    && row.guid == Some(chat.guid) && row.identifier == Some(chat.identifier) && row.service == None
    && row.lastMessageAt == chat.lastMessageAt && row.participants == Get(row.raw, Participants)
    && SaysChat(row.raw, chat) && GoesBy(chat, Title(row.raw)) && row.name == Some(Title(row.raw))
    && Get(row.raw, DisplayName) == OrNull(chat.displayName)
    && (chat.unreadCount <= I64_MAX ==> row.unread == chat.unreadCount)
  }

  /** A row that was there takes the server's time and title, and keeps its count and its other columns. */
  ghost predicate OldRowSays(was: ChatRow, row: ChatRow, chat: Chat) {
    && row.guid == was.guid && row.identifier == was.identifier && row.service == was.service
    && row.participants == was.participants && row.unread == was.unread
    && row.lastMessageAt == chat.lastMessageAt && SaysChat(row.raw, chat)
    && exists title :: GoesBy(chat, title) && KeptTitle(Title(was.raw), title, Title(row.raw))
  }

  lemma {:induction false} NewChatSays(chat: Chat, id: int)
    requires I64_MIN <= id <= I64_MAX
    ensures NewRowSays(NewChat(ChatDoc(chat, id)), chat)
  {
    ChatIsSaid(chat, id);
    hide ChatDoc, GoesBy;
  }

  lemma {:induction false} OverwrittenKeeps(was: ChatRow, doc: Doc)
    ensures var row := Overwritten(was, doc);
            && (forall k :: k != UnreadCount ==> Get(row.raw, k) == Get(doc, k))
            && row == was.(name := row.name, lastMessageAt := AsStr(Get(doc, LastMessageAt)), raw := row.raw)
  {
  }

  lemma {:induction false} SameSaid(a: Doc, b: Doc, chat: Chat)
    requires SaysChat(a, chat)
    requires forall k :: k != Name && k != ContactName && k != DisplayName && k != UnreadCount ==>
               Get(b, k) == Get(a, k)
    ensures SaysChat(b, chat)
  {
  }

  lemma {:induction false} SameTitle(a: Doc, b: Doc)
    requires Get(b, Name) == Get(a, Name) && Get(b, ContactName) == Get(a, ContactName)
    ensures Title(b) == Title(a)
  {
  }

  lemma {:induction false} OverwrittenSays(was: ChatRow, chat: Chat, id: int)
    requires I64_MIN <= id <= I64_MAX
    ensures OldRowSays(was, Overwritten(was, KeepTitle(was.raw, ChatDoc(chat, id))), chat)
  {
    var doc := ChatDoc(chat, id);
    var out := KeepTitle(was.raw, doc);
    var row := Overwritten(was, out);
    ChatIsSaid(chat, id);
    KeepTitleMeaning(was.raw, doc);
    OverwrittenKeeps(was, out);
    hide ChatDoc, GoesBy, KeepTitle, KeptTitle, Overwritten, Title, Get;
    SameSaid(doc, row.raw, chat);
    SameTitle(out, row.raw);
    TimeSaid(row, chat);
    hide SaysChat;
    assert GoesBy(chat, Title(doc)) && KeptTitle(Title(was.raw), Title(doc), Title(row.raw));
  }

  lemma {:induction false} TimeSaid(row: ChatRow, chat: Chat)
    requires SaysChat(row.raw, chat)
    ensures AsStr(Get(row.raw, LastMessageAt)) == chat.lastMessageAt
  {
  }

  /** What storing a chat of the server does: one row, new or written over, and no other. */
  lemma {:induction false} ServerChat(db: Db, chat: Chat)
    requires Agrees(db) && IdsOk(db.ids) && UpsertDomainChat(db, chat).Some?
    ensures var later := UpsertDomainChat(db, chat).value;
            && chat.guid in later.ids && later.messages == db.messages
            && later.chats.Keys == db.chats.Keys + {later.ids[chat.guid]}
            && forall c :: c in db.chats && c != later.ids[chat.guid] ==> later.chats[c] == db.chats[c]
    ensures var later := UpsertDomainChat(db, chat).value;
            var id := later.ids[chat.guid];
            if id in db.chats then OldRowSays(db.chats[id], later.chats[id], chat)
            else NewRowSays(later.chats[id], chat)
  {
    hide ChatDoc, WithId, NewRowSays, OldRowSays, Overwritten, KeepTitle, NewChat, Agrees;
    var (known, id) := WithId(db, chat.guid).value;
    WithIdKeeps(db, chat.guid);
    ChatDocIds(chat, id);
    NewChatSays(chat, id);
    if id in db.chats {
      OverwrittenSays(db.chats[id], chat, id);
    }
    KeptGuid(known, chat, id);
  }

  lemma {:induction false} KeptGuid(db: Db, chat: Chat, id: int)
    requires I64_MIN <= id <= I64_MAX
    ensures id in db.chats ==> AsStr(Get(KeepTitle(db.chats[id].raw, ChatDoc(chat, id)), Guid)) == Some(chat.guid)
  {
    hide ChatDoc, ChatName, IsPersonName;
    ChatDocIds(chat, id);
  }

  // -------------------------------------------------------------- stubs

  /** ";+;" is somewhere in the guid. */
  ghost predicate GroupMark(guid: string) {
    exists a, b :: guid == a + ";+;" + b
  }

  lemma {:induction false} GroupGuids(guid: string)
    ensures IsGroupGuid(guid) <==> GroupMark(guid)
  {
    if IsGroupGuid(guid) {
      var i :| 0 <= i < |guid| - 2 && guid[i] == ';' && guid[i + 1] == '+' && guid[i + 2] == ';';
      assert guid == guid[..i] + ";+;" + guid[i + 3..];
    }
    if GroupMark(guid) {
      var a, b :| guid == a + ";+;" + b;
      assert guid[|a|] == ';' && guid[|a| + 1] == '+' && guid[|a| + 2] == ';';
    }
  }

  /** The chat that a message stands in for: known by its sender, a group if its guid says so, with nothing unread. */
  lemma {:induction false} StubMeaning(m: Message)
    ensures var stub := Stub(m);
            && stub.guid == m.chat && stub.unreadCount == 0 && (stub.isGroup <==> GroupMark(m.chat))
            && stub.identifier == GivenSender(m).GetOr(m.chat) && stub.lastMessageAt == Time(m)
            && |stub.participants| == (if m.sender.Some? then 1 else 0)
            && (m.sender.Some? ==> stub.participants[0].address == m.sender.value.address)
            && stub.displayName == GivenName(m)
            && forall title :: GoesBy(stub, title) <==>
                 title == if GivenName(m).Some? && IsPersonName(GivenName(m).value) then GivenName(m).value
                          else GivenSender(m).GetOr(m.chat)
  {
    GroupGuids(m.chat);
    assert !IsPersonName("");
    var stub := Stub(m);
    if m.sender.Some? {
      assert NameOf(stub.participants[0]) == GivenName(m).GetOr("");
    }
  }

  /** The row of a chat that a delivery makes, as the delivery leaves it. */
  lemma {:induction false} StubDelivered(db: Db, m: Message)
    requires Agrees(db) && IdsOk(db.ids) && ApplyDomainMessage(db, m).Some?
    requires var later := ApplyDomainMessage(db, m).value; m.chat in later.ids ==> later.ids[m.chat] !in db.chats
    ensures var later := ApplyDomainMessage(db, m).value;
            && m.chat in later.ids && later.ids[m.chat] in later.chats && I64_MIN <= later.ids[m.chat] <= I64_MAX
    ensures var later := ApplyDomainMessage(db, m).value;
            var row, stub := later.chats[later.ids[m.chat]], NewChat(ChatDoc(Stub(m), later.ids[m.chat]));
            && row.guid == stub.guid && row.identifier == stub.identifier
            && forall k :: k != LastMessageAt && k != UnreadCount ==> Get(row.raw, k) == Get(stub.raw, k)
  {
    hide MessageDoc, FillSender, ApplyLive, ChatDoc, WithId, NewChat, Stub;
    var (known, chatId) := WithId(db, m.chat).value;
    var (one, _) := WithChat(db, m).value;
    OneHasChat(db, m);
    WithIdKeeps(db, m.chat);
    var (two, id) := WithId(one, m.guid).value;
    WithIdKeeps(one, m.guid);
    assert Agrees(two);
    hide Agrees;
    var doc := FillSender(two.chats, chatId, MessageDoc(m, id, chatId));
    LiveKeepsIds(two, doc);
    LiveKeepsTitles(two, doc, chatId);
    ChatDocIds(Stub(m), chatId);
    LiveKeepsColumns(two, doc, chatId);
  }

  /** A row made from a message is known by its sender, and is a group if the guid says so. */
  ghost predicate StandsIn(row: ChatRow, m: Message) {
    && row.guid == Some(m.chat) && row.identifier == Some(GivenSender(m).GetOr(m.chat))
    && (SaysGroup(row.raw) <==> GroupMark(m.chat)) && Get(row.raw, DisplayName) == OrNull(GivenName(m))
    && Title(row.raw) == if GivenName(m).Some? && IsPersonName(GivenName(m).value) then GivenName(m).value
                         else GivenSender(m).GetOr(m.chat)
  }

  lemma {:induction false} StubStandsIn(m: Message, id: int)
    requires I64_MIN <= id <= I64_MAX
    ensures StandsIn(NewChat(ChatDoc(Stub(m), id)), m)
  {
    NewChatSays(Stub(m), id);
    StubMeaning(m);
    hide ChatDoc, NewChat, Stub, GoesBy, GroupMark, Title;
    assert GoesBy(Stub(m), Title(NewChat(ChatDoc(Stub(m), id)).raw));
  }

  lemma {:induction false} SameStandsIn(a: ChatRow, b: ChatRow, m: Message)
    requires StandsIn(a, m) && b.guid == a.guid && b.identifier == a.identifier
    requires forall k :: k != LastMessageAt && k != UnreadCount ==> Get(b.raw, k) == Get(a.raw, k)
    ensures StandsIn(b, m)
  {
    hide GroupMark;
    SameTitle(a.raw, b.raw);
  }

  /** A delivery to a chat without a row makes its row from the message. */
  lemma {:induction false} StubbedChat(db: Db, m: Message)
    requires Agrees(db) && IdsOk(db.ids) && ApplyDomainMessage(db, m).Some?
    requires var later := ApplyDomainMessage(db, m).value; m.chat in later.ids ==> later.ids[m.chat] !in db.chats
    ensures var later := ApplyDomainMessage(db, m).value;
            m.chat in later.ids && later.ids[m.chat] in later.chats && StandsIn(later.chats[later.ids[m.chat]], m)
  {
    StubDelivered(db, m);
    hide ApplyDomainMessage, ChatDoc, NewChat, Stub, Agrees, StandsIn;
    var later := ApplyDomainMessage(db, m).value;
    var id := later.ids[m.chat];
    StubStandsIn(m, id);
    SameStandsIn(NewChat(ChatDoc(Stub(m), id)), later.chats[id], m);
  }

  lemma {:induction false} LiveKeepsColumns(db: Db, doc: Doc, c: int)
    requires Agrees(db) && c in db.chats
    ensures c in ApplyLive(db, doc).chats
    ensures var before, later := db.chats[c], ApplyLive(db, doc).chats[c];
            later.guid == before.guid && later.identifier == before.identifier
  {
    hide Merged, Merge, Project, StoreMessage, Agrees, ParseId, NameColumn;
  }

  // ------------------------------------------------------ operations that return

  /** An id for the guid is there, or its digest is free, or there is a number above all in use. */
  ghost predicate Room(ids: map<string, int>, guid: string) {
    guid in ids || StableId(guid) !in ids.Values || forall v :: v in ids.Values ==> v < I64_MAX
  }

  lemma {:induction false} RoomMeaning(db: Db, guid: string)
    requires InRange(db.ids)
    ensures WithId(db, guid).Some? <==> Room(db.ids, guid)
  {
    assert IsMax(db.ids, MaxId(db.ids));
    if guid !in db.ids && StableId(guid) in db.ids.Values && MaxId(db.ids) == I64_MAX {
      assert I64_MAX in db.ids.Values;
    }
  }

  lemma {:induction false} OneIds(db: Db, m: Message)
    requires IdsOk(db.ids) && WithId(db, m.chat).Some?
    ensures WithChat(db, m).Some? && WithChat(db, m).value.0.ids == WithId(db, m.chat).value.0.ids
  {
    hide ChatDoc, Stub, WithId;
    WithIdKeeps(db, m.chat);
    ChatDocIds(Stub(m), WithId(db, m.chat).value.1);
    assert Stub(m).guid == m.chat by { StubMeaning(m); }
  }

  /** Storing a chat of the server returns exactly if there is room for its guid. */
  lemma {:induction false} ChatReturns(db: Db, chat: Chat)
    requires IdsOk(db.ids)
    ensures UpsertDomainChat(db, chat).Some? <==> Room(db.ids, chat.guid)
  {
    RoomMeaning(db, chat.guid);
    hide Room, ChatDoc, StoreChat;
  }

  /** Storing a message, or delivering one, returns exactly if there is room for its chat and then for itself. */
  lemma {:induction false} MessageReturns(db: Db, m: Message)
    requires IdsOk(db.ids)
    ensures UpsertDomainMessage(db, m).Some? <==>
            Room(db.ids, m.chat) && Room(WithId(db, m.chat).value.0.ids, m.guid)
    ensures ApplyDomainMessage(db, m).Some? <==>
            Room(db.ids, m.chat) && Room(WithId(db, m.chat).value.0.ids, m.guid)
  {
    hide Room, WithId, WithChat, MessageDoc, FillSender, ApplyLive, StoreMessage;
    RoomMeaning(db, m.chat);
    if WithId(db, m.chat).Some? {
      WithIdKeeps(db, m.chat);
      OneIds(db, m);
      hide IdsOk;
      RoomMeaning(WithId(db, m.chat).value.0, m.guid);
      RoomMeaning(WithChat(db, m).value.0, m.guid);
    } else {
      NoChatNoDelivery(db, m);
    }
  }

  lemma {:induction false} NoChatNoDelivery(db: Db, m: Message)
    requires WithId(db, m.chat).None?
    ensures ApplyDomainMessage(db, m).None?
  {
  }

  /** Every domain operation returns exactly if there is room for the guids it names, in turn. */
  lemma {:induction false} OperationReturns(db: Db, op: DomainOp)
    requires IdsOk(db.ids)
    ensures Performed(db, op).Some? <==>
            match op
            case PutChat(chat) => Room(db.ids, chat.guid)
            case PutMessage(m) => Room(db.ids, m.chat) && Room(WithId(db, m.chat).value.0.ids, m.guid)
            case Deliver(m) => Room(db.ids, m.chat) && Room(WithId(db, m.chat).value.0.ids, m.guid)
            case SetRead(_) => true
  {
    hide Room, UpsertDomainChat, UpsertDomainMessage, ApplyDomainMessage, WithId;
    match op
    case PutChat(chat) => ChatReturns(db, chat);
    case PutMessage(m) => MessageReturns(db, m); RoomMeaning(db, m.chat);
    case Deliver(m) => MessageReturns(db, m); RoomMeaning(db, m.chat);
    case SetRead(_) =>
  }
}
