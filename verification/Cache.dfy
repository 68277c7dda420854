/**
 * The message cache of sync/src/cache.rs as an object whose fields are its tables. Each method
 * issues the statements that the source issues; what they do is stated by the functions of
 * Tables, Identities and Delivery, and what holds of every run is proved there.
 */
module Cache {
  import opened Prelude
  import opened Domain
  import opened Documents
  import opened Tables
  import I = Identities
  import D = Delivery
  import C = Contacts
  import Query
  import Text

  datatype AppliedChat = Updated(doc: Doc) | Unknown(chatId: int)

  datatype Applied = Applied(message: Doc, chat: AppliedChat, isNew: bool)

  // ------------------------------------------------------------------ queries

  function LastTimes(chats: map<int, ChatRow>): map<int, Option<string>> {
    map id | id in chats :: chats[id].lastMessageAt
  }

  function TimesBefore(messages: map<int, MessageRow>, chatId: int, before: Option<string>): map<int, Option<string>> {
    map id | id in messages && Selected(messages[id], chatId, before) :: messages[id].createdAt
  }

  /** The messages of the chat that are earlier than the cursor, if there is one. */
  ghost function Before(messages: map<int, MessageRow>, chatId: int, before: Option<string>): set<int> {
    set id | id in messages && messages[id].chatId == chatId
             && (before.None? || (messages[id].createdAt.Some?
                                  && Text.Less(messages[id].createdAt.value, before.value)))
  }

  /** LIMIT; a negative one is no limit. */
  function Capped(limit: int, rows: nat): nat {
    if limit < 0 then rows else limit
  }

  function ChatDocs(chats: map<int, ChatRow>, keys: seq<int>): (docs: seq<Doc>)
    requires forall i :: 0 <= i < |keys| ==> keys[i] in chats
    ensures |docs| == |keys| && forall i :: 0 <= i < |docs| ==> docs[i] == StringifyRowIds(chats[keys[i]].raw)
  {
    seq(|keys|, i requires 0 <= i < |keys| => StringifyRowIds(chats[keys[i]].raw))
  }

  function MessageDocs(messages: map<int, MessageRow>, keys: seq<int>): (docs: seq<Doc>)
    requires forall i :: 0 <= i < |keys| ==> keys[i] in messages
    ensures |docs| == |keys| && forall i :: 0 <= i < |docs| ==> docs[i] == StringifyRowIds(messages[keys[i]].raw)
  {
    seq(|keys|, i requires 0 <= i < |keys| => StringifyRowIds(messages[keys[i]].raw))
  }

  // --------------------------------------------------------- titles and names

  method PersonOf(chat: Doc) returns (name: Option<string>)
    ensures name == D.PersonOf(chat)
    ensures name.Some? ==> IsPersonName(name.value)
  {
    if AsBool(Get(chat, IsGroup)) {
      return None;
    }
    var keys := [ContactName, DisplayName, Name];
    for i := 0 to |keys|
      invariant i > 0 ==> !NamesPerson(Get(chat, ContactName))
      invariant i > 1 ==> !NamesPerson(Get(chat, DisplayName))
      invariant i > 2 ==> !NamesPerson(Get(chat, Name))
    {
      var title := AsStr(Get(chat, keys[i]));
      if title.Some? && IsPersonName(title.value) {
        return title;
      }
      assert !IsPersonName("");
    }
    return None;
  }

  function TitlesOf(docs: seq<Doc>): map<int, string> {
    if docs == [] then map[]
    else
      var before, last := TitlesOf(docs[..|docs| - 1]), docs[|docs| - 1];
      match D.PersonOf(last)
      case None => before
      case Some(name) => before[IdOf(Get(last, Id)) := name]
  }

  /** A message from someone else takes the title of its chat for the name of its sender. */
  function WithTitle(titles: map<int, string>, row: MessageRow): MessageRow {
    if row.isFromMe || row.chatId !in titles || row.senderName == Some(titles[row.chatId]) then row
    else RenamedSender(row, titles[row.chatId])
  }

  function WithTitles(titles: map<int, string>, messages: map<int, MessageRow>): map<int, MessageRow> {
    map id | id in messages :: WithTitle(titles, messages[id])
  }

  lemma {:induction false} TitlesArePersons(docs: seq<Doc>)
    ensures forall c :: c in TitlesOf(docs) ==> IsPersonName(TitlesOf(docs)[c])
  {
    if docs != [] {
      TitlesArePersons(docs[..|docs| - 1]);
    }
  }

  // ------------------------------------------------------------ contact names

  /** seed_from_cache_chat for each chat in turn. */
  function SeededBook(book: C.Book, docs: seq<Doc>): C.Book {
    if docs == [] then book
    else
      var before, last := SeededBook(book, docs[..|docs| - 1]), docs[|docs| - 1];
      match D.PersonOf(last)
      case None => before
      case Some(name) => C.Recorded(before, NameText(Get(last, Identifier)), name)
  }

  /** A chat with the name that the book has for it, unless its title is that name or a person's already. */
  function Named(book: C.Book, chat: Doc): Option<Doc> {
    match C.Lookup(book, NameText(Get(chat, Identifier)))
    case None => None
    case Some(name) =>
      if Title(chat) == name || IsPersonName(Title(chat)) then None
      else Some(chat[Name := Str(name)][ContactName := Str(name)])
  }

  function NamedRow(book: C.Book, row: ChatRow): ChatRow {
    match Named(book, StringifyRowIds(row.raw))
    case None => row
    case Some(doc) => Overwritten(row, doc)
  }

  /** What a pass of UPDATEs and INSERTs did: a run of statements that keeps names and guids. */
  ghost predicate Passed(before: Db, trace: seq<Op>, later: Db) {
    && later == Run(before, trace) && D.DomesticRun(before, trace)
    && forall i :: 0 <= i < |trace| ==> NamesAPerson(trace[i])
  }

  lemma {:induction false} PassesChain(a: Db, ab: seq<Op>, b: Db, bc: seq<Op>, c: Db)
    requires Passed(a, ab, b) && Passed(b, bc, c)
    ensures Passed(a, ab + bc, c)
  {
    RunConcat(a, ab, bc);
    D.DomesticConcat(a, ab, bc);
  }

  lemma {:induction false} PassOfNone(db: Db)
    ensures Passed(db, [], db)
  {
  }

  lemma {:induction false} PassOfOne(db: Db, op: Op)
    requires NamesAPerson(op) && D.Domestic(db, op)
    ensures Passed(db, [op], Step(db, op))
  {
    assert [op][..0] == [];
  }

  /** Whatever held in every run holds across a pass. */
  lemma {:induction false} PassKeeps(before: Db, trace: seq<Op>, later: Db)
    requires Agrees(before) && Passed(before, trace, later)
    ensures Agrees(later) && NamesKept(before, later)
    ensures D.GuidsOk(before) ==> D.GuidsOk(later)
  {
    NamesNeverRegress(before, trace);
    if D.GuidsOk(before) {
      D.RunKeepsGuids(before, trace);
    }
  }

  /** What the contact pass looks at is the same in the row and in what is listed of it. */
  lemma {:induction false} ListedFields(doc: Doc)
    ensures var out := StringifyRowIds(doc);
            && (forall k :: k != Id && k != ChatId ==> Get(out, k) == Get(doc, k)) && Title(out) == Title(doc)
  {
    StringifyKeeps(doc);
    assert Get(StringifyRowIds(doc), Name) == Get(doc, Name);
    assert Get(StringifyRowIds(doc), ContactName) == Get(doc, ContactName);
  }

  /** The name that the book has for a chat. */
  function NameFor(book: C.Book, row: ChatRow): Option<string> {
    C.Lookup(book, NameText(Get(row.raw, Identifier)))
  }

  /** The chat takes the name that the book has for it. */
  predicate Renames(book: C.Book, row: ChatRow) {
    NameFor(book, row).Some? && Title(row.raw) != NameFor(book, row).value && !IsPersonName(Title(row.raw))
  }

  lemma {:induction false} NamedIs(book: C.Book, row: ChatRow)
    ensures NamedRow(book, row) ==
            if Renames(book, row) then
              var name := Str(NameFor(book, row).value);
              Overwritten(row, StringifyRowIds(row.raw)[Name := name][ContactName := name])
            else row
  {
    hide StringifyRowIds, C.Lookup, Overwritten, Title;
    ListedFields(row.raw);
    assert Get(StringifyRowIds(row.raw), Identifier) == Get(row.raw, Identifier);
  }

  /**
   * A chat without the name of a person for its title gets the name that the book has for it, and
   * nothing else of it changes; any other chat stays as it is.
   */
  lemma {:induction false} NamedMeaning(id: int, book: C.Book, row: ChatRow)
    requires ChatAgrees(id, row)
    ensures var name, later := NameFor(book, row), NamedRow(book, row);
            && (if name.Some? && !IsPersonName(Title(row.raw)) then Title(later.raw) == name.value else later == row)
            && later.unread == row.unread && later.lastMessageAt == row.lastMessageAt && later.guid == row.guid
            && forall k :: k != Name && k != ContactName && k != Id && k != ChatId && k != UnreadCount ==>
                 Get(later.raw, k) == Get(row.raw, k)
  {
    NamedIs(book, row);
    hide NamedRow, NameFor, StringifyRowIds, C.Lookup;
    ListedFields(row.raw);
    if Renames(book, row) {
      assert Get(StringifyRowIds(row.raw), LastMessageAt) == Get(row.raw, LastMessageAt);
    }
  }

  /** Naming a chat again changes nothing. */
  lemma {:induction false} NamedTwice(id: int, book: C.Book, row: ChatRow)
    requires ChatAgrees(id, row)
    ensures NamedRow(book, NamedRow(book, row)) == NamedRow(book, row)
  {
    hide StringifyRowIds, C.Lookup, Overwritten;
    NamedMeaning(id, book, row);
    var later := NamedRow(book, row);
    ListedFields(row.raw);
    ListedFields(later.raw);
    assert NameFor(book, later) == NameFor(book, row) by {
      assert Get(later.raw, Identifier) == Get(row.raw, Identifier);
    }
    assert Get(StringifyRowIds(later.raw), Identifier) == Get(later.raw, Identifier);
    assert Get(StringifyRowIds(row.raw), Identifier) == Get(row.raw, Identifier);
  }

  /** What the contact pass makes of the chats listed. */
  function NamedChats(book: C.Book, chats: map<int, ChatRow>, keys: seq<int>): map<int, ChatRow> {
    map id | id in chats :: if id in keys then NamedRow(book, chats[id]) else chats[id]
  }

  /** The chats with another title than before. */
  ghost function Retitled(before: map<int, ChatRow>, later: map<int, ChatRow>): set<int> {
    set id | id in before && id in later && Title(later[id].raw) != Title(before[id].raw)
  }

  /** A chat is renamed exactly if its title changes. */
  lemma {:induction false} RenamedChangesTitle(id: int, book: C.Book, row: ChatRow)
    requires ChatAgrees(id, row)
    ensures Named(book, StringifyRowIds(row.raw)).Some? <==> Title(NamedRow(book, row).raw) != Title(row.raw)
  {
    hide StringifyRowIds, C.Lookup, Overwritten, Title, ChatAgrees;
    NamedMeaning(id, book, row);
    ListedFields(row.raw);
    assert Get(StringifyRowIds(row.raw), Identifier) == Get(row.raw, Identifier);
  }

  lemma {:induction false} RetitledSnoc(book: C.Book, chats: map<int, ChatRow>, keys: seq<int>, i: nat)
    requires i < |keys| && Distinct(keys) && keys[i] in chats && ChatAgrees(keys[i], chats[keys[i]])
    ensures |Retitled(chats, NamedChats(book, chats, keys[..i + 1]))| ==
            |Retitled(chats, NamedChats(book, chats, keys[..i]))|
            + if Named(book, StringifyRowIds(chats[keys[i]].raw)).Some? then 1 else 0
  {
    hide StringifyRowIds, Named, NamedRow, NamedChats, Title, ChatAgrees;
    var id, front := keys[i], NamedChats(book, chats, keys[..i]);
    var row := NamedRow(book, chats[id]);
    RenamedChangesTitle(id, book, chats[id]);
    NamedSnoc(book, chats, keys, i);
    assert id !in Retitled(chats, front);
    assert Retitled(chats, front[id := row]) ==
           Retitled(chats, front) + if Title(row.raw) != Title(chats[id].raw) then {id} else {};
  }

  lemma {:induction false} NamedSnoc(book: C.Book, chats: map<int, ChatRow>, keys: seq<int>, i: nat)
    requires i < |keys| && Distinct(keys) && keys[i] in chats
    ensures var before := NamedChats(book, chats, keys[..i]);
            && before.Keys == chats.Keys && before[keys[i]] == chats[keys[i]]
            && before[keys[i] := NamedRow(book, chats[keys[i]])] == NamedChats(book, chats, keys[..i + 1])
  {
    assert keys[..i + 1] == keys[..i] + [keys[i]];
    assert keys[i] !in keys[..i];
  }

  /** The ids listed are the ids in the documents. */
  lemma {:induction false} ListedIds(db: Db, keys: seq<int>, i: nat)
    requires Agrees(db) && i < |keys| && forall j :: 0 <= j < |keys| ==> keys[j] in db.chats
    ensures IdOf(Get(ChatDocs(db.chats, keys)[i], Id)) == keys[i]
  {
    StringifyKeeps(db.chats[keys[i]].raw);
  }

  // -------------------------------------------------------------- orphan chats

  predicate HasSemicolon(guid: string) {
    ';' in guid
  }

  /** A chat that messages name and an identity with ";" in it stands for, and that has no row. */
  ghost predicate Orphan(db: Db, c: int) {
    && c != 0 && c !in db.chats
    && (exists id :: id in db.messages && db.messages[id].chatId == c)
    && exists g :: g in db.ids && db.ids[g] == c && HasSemicolon(g)
  }

  /** The messages of a chat that pass a test, by time. */
  function TimesIn(messages: map<int, MessageRow>, c: int, test: MessageRow -> bool): map<int, Option<string>> {
    map id | id in messages && messages[id].chatId == c && test(messages[id]) :: messages[id].createdAt
  }

  function HasSender(row: MessageRow): bool {
    row.sender.Some?
  }

  function HasSenderName(row: MessageRow): bool {
    row.senderName.GetOr("") != ""
  }

  function AnyMessage(row: MessageRow): bool {
    true
  }

  /** ORDER BY created_at DESC LIMIT 1 */
  ghost predicate IsFirst(times: map<int, Option<string>>, key: Option<int>) {
    match key
    case None => times == map[]
    case Some(k) => k in times && forall j :: j in times ==> !Query.Earlier(times[k], times[j])
  }

  /** Chat::stub of what the messages of the chat say: the last sender, the last name and the last time. */
  function OrphanStub(messages: map<int, MessageRow>, guid: string,
                      sender: Option<int>, name: Option<int>, last: Option<int>): Chat
    requires forall k :: k in [sender, name, last] && k.Some? ==> k.value in messages
  {
    var address := if sender.Some? then messages[sender.value].sender else None;
    var shown := if name.Some? then messages[name.value].senderName else None;
    var at := if last.Some? then messages[last.value].createdAt else None;
    match address
    case None => Chat(guid, guid, None, [], at, 0, D.IsGroupGuid(guid))
    case Some(a) => Chat(guid, a, shown, [Handle(a, None, shown)], at, 0, D.IsGroupGuid(guid))
  }

  /** The row is the one made of such a stub. */
  ghost predicate OrphanRow(db: Db, c: int, row: ChatRow) {
    exists guid, sender, name, last ::
      && guid in db.ids && db.ids[guid] == c
      && IsFirst(TimesIn(db.messages, c, HasSender), sender) && IsFirst(TimesIn(db.messages, c, HasSenderName), name)
      && IsFirst(TimesIn(db.messages, c, AnyMessage), last)
      && row == NewChat(D.ChatDoc(OrphanStub(db.messages, guid, sender, name, last), c))
  }

  /** Every row there was is as it was, and every other one was made of the messages of its chat. */
  ghost predicate OrphansRepaired(start: Db, chats: map<int, ChatRow>) {
    && start.chats.Keys <= chats.Keys
    && forall c :: c in chats ==> if c in start.chats then chats[c] == start.chats[c] else OrphanRow(start, c, chats[c])
  }

  lemma {:induction false} OneMoreRepaired(start: Db, chats: map<int, ChatRow>, c: int, row: ChatRow)
    requires OrphansRepaired(start, chats) && c !in chats && OrphanRow(start, c, row)
    ensures OrphansRepaired(start, chats[c := row])
  {
  }

  lemma {:induction false} StubStored(db: Db, stub: Chat, c: int)
    requires stub.guid in db.ids && db.ids[stub.guid] == c && c !in db.chats && I64_MIN <= c <= I64_MAX
    ensures D.UpsertDomainChat(db, stub) == Some(db.(chats := db.chats[c := NewChat(D.ChatDoc(stub, c))]))
  {
    IdRoundTrip(c);
    assert IdOf(Get(D.ChatDoc(stub, c), Id)) == c;
  }

  /** Every identity was there before, or was made of one of these rows. */
  ghost predicate MadeOf(guids: map<int, Option<string>>, ids: map<string, int>, later: map<string, int>) {
    I.Grows(ids, later) && forall g :: g in later ==> g in ids || (later[g] in guids && guids[later[g]] == Some(g))
  }

  /** Identities made of trimmed rows are trimmed. */
  lemma {:induction false} StaysTrimmed(guids: map<int, Option<string>>, ids: map<string, int>, later: map<string, int>)
    requires D.Trimmed(ids) && MadeOf(guids, ids, later) && forall id :: id in guids ==> D.TrimmedGuid(guids[id])
    ensures D.Trimmed(later)
  {
    forall g | g in later ensures Text.Trim(g) == g {
      if g !in ids {
        var id := later[g];
        assert id in guids && guids[id] == Some(g);
        assert D.TrimmedGuid(guids[id]);
      }
    }
  }

  /** Rows of the tables are numbered by 64-bit integers. */
  ghost predicate RowIds(guids: map<int, Option<string>>) {
    forall id :: id in guids ==> I64_MIN <= id <= I64_MAX
  }

  lemma {:induction false} StaysInRange(guids: map<int, Option<string>>, ids: map<string, int>, later: map<string, int>)
    requires I.InRange(ids) && RowIds(guids) && MadeOf(guids, ids, later)
    ensures I.InRange(later)
  {
  }

  /** Nothing is left for the repair of orphans. */
  ghost predicate NoOrphans(db: Db) {
    forall c :: !Orphan(db, c)
  }

  lemma {:induction false} RenamesMakeNoOrphans(db: Db, later: Db, titles: map<int, string>)
    requires NoOrphans(db) && later == db.(messages := WithTitles(titles, db.messages))
    ensures NoOrphans(later)
  {
    forall c ensures !Orphan(later, c) {
      assert !Orphan(db, c);
      assert forall id :: id in later.messages ==> later.messages[id].chatId == db.messages[id].chatId;
    }
  }

  /** Every row with a guid has an identity, or another guid has its id. */
  ghost predicate Identified(guids: map<int, Option<string>>, ids: map<string, int>) {
    forall id :: id in guids && guids[id].GetOr("") != "" ==> guids[id].value in ids || id in ids.Values
  }

  lemma {:induction false} StaysIdentified(guids: map<int, Option<string>>, ids: map<string, int>, later: map<string,
                                           int>)
    requires Identified(guids, ids) && I.Grows(ids, later)
    ensures Identified(guids, later)
  {
    forall v | v in ids.Values ensures v in later.Values {
      var g :| g in ids && ids[g] == v;
      assert later[g] == v;
    }
  }

  function ChatGuids(chats: map<int, ChatRow>): map<int, Option<string>> {
    map id | id in chats :: chats[id].guid
  }

  function MessageGuids(messages: map<int, MessageRow>): map<int, Option<string>> {
    map id | id in messages :: messages[id].guid
  }

  lemma {:induction false} RepairKeepsGuids(db: Db)
    ensures MessageGuids(RepairAll(db.messages)) == MessageGuids(db.messages)
    ensures D.TrimmedRows(db) ==> D.TrimmedRows(db.(messages := RepairAll(db.messages)))
  {
    var later := RepairAll(db.messages);
    forall id | id in db.messages ensures MessageGuids(later)[id] == MessageGuids(db.messages)[id] {
      assert later[id].guid == db.messages[id].guid;
    }
  }

  class MessageCache {
    var chats: map<int, ChatRow>
    var messages: map<int, MessageRow>
    var ids: map<string, int>

    ghost function View(): Db
      reads this
    {
      Db(chats, messages, ids)
    }

    constructor ()
      ensures View() == EMPTY
    {
      chats, messages, ids := map[], map[], map[];
    }

    // ---------------------------------------------------------------- identities

    /** INSERT OR IGNORE, and whether a row was added. */
    method InsertIdentity(guid: string, id: int) returns (inserted: bool)
      modifies this`ids
      ensures ids == InsertOrIgnore(old(ids), guid, id)
      ensures inserted <==> guid !in old(ids) && id !in old(ids).Values
    {
      inserted := guid !in ids && id !in ids.Values;
      if inserted {
        ids := ids[guid := id];
      }
    }

    method MaxIdentity() returns (max: int)
      ensures max == I.MaxId(ids)
    {
      max := 0;
      if ids != map[] {
        I.MaxExists(ids);
        var guid :| guid in ids && forall h :: h in ids ==> ids[h] <= ids[guid];
        max := ids[guid];
        assert max in ids.Values;
      }
    }

    method SelectIdentity(guid: string) returns (id: Option<int>)
      ensures id == if guid in ids then Some(ids[guid]) else None
    {
      id := if guid in ids then Some(ids[guid]) else None;
    }

    /** Returns whenever it can return at all: AloneLoops says what happens where the precondition fails. */
    method IdForGuid(guid: string) returns (id: int)
      requires I.Allocated(ids, guid).Some?
      modifies this`ids
      ensures D.WithId(old(View()), guid) == Some((View(), id))
      ensures guid in ids && ids[guid] == id
    {
      var row := SelectIdentity(guid);
      if row.Some? {
        return row.value;
      }
      id := StableId(guid);
      var done := false;
      while !done
        invariant done ==>
          id == I.Allocated(old(ids), guid).value && ids == old(ids)[guid := id] == InsertOrIgnore(old(ids), guid, id)
        invariant !done ==> ids == old(ids)
        invariant !done ==> id == StableId(guid)
                            || (StableId(guid) in ids.Values && id !in ids.Values && id == I.After(I.MaxId(ids)))
        decreases !done, id in ids.Values
      {
        done := InsertIdentity(guid, id);
        if !done {
          row := SelectIdentity(guid);
          var max := MaxIdentity();
          done := row.Some?;
          id := row.GetOr(I.After(max));
        }
      }
    }

    method GuidForChatId(id: int) returns (guid: Option<string>)
      requires I.Injective(ids)
      ensures guid == D.GuidForChatId(View(), id)
    {
      if id in chats {
        var g := chats[id].guid;
        if g.Some? && g.value != "" {
          return g;
        }
      }
      guid := None;
      if exists g :: g in ids && ids[g] == id {
        var g :| g in ids && ids[g] == id;
        guid := Some(g);
      }
    }

    // -------------------------------------------------------------------- writes

    method PersistMessage(doc: Doc)
      modifies this`messages
      ensures messages == old(messages)[IdOf(Get(doc, Id)) := Project(doc)]
    {
      var row := MessageRow(IdOf(Get(doc, ChatId)), AsStr(Get(doc, Guid)), AsStr(Get(doc, Sender)),
                            AsStr(Get(doc, SenderName)), AsStr(Get(doc, Key.Text)), AsStr(Get(doc, CreatedAt)),
                            AsBool(Get(doc, IsFromMe)), doc);
      messages := messages[IdOf(Get(doc, Id)) := row];
    }

    method LoadRawJson(id: int) returns (raw: Option<Doc>)
      ensures raw == if id in messages then Some(messages[id].raw) else None
    {
      raw := if id in messages then Some(messages[id].raw) else None;
    }

    method UpsertMessage(doc: Doc)
      modifies this`messages
      ensures View() == StoreMessage(old(View()), doc)
    {
      var existing := LoadRawJson(IdOf(Get(doc, Id)));
      var merged := MergeMessage(existing, doc);
      PersistMessage(merged);
    }

    /** The row of the chat of a live message: the later time, and one more unread if it counts. */
    method Advance(chatId: int, createdAt: Option<string>, counts: bool)
      requires chatId in chats
      modifies this`chats
      ensures chats == AdvanceChat(old(chats), chatId, createdAt, counts)
    {
      var chat := chats[chatId].raw;
      var last := LaterTimestamp(AsStr(Get(chat, LastMessageAt)), createdAt);
      if last.Some? {
        chat := chat[LastMessageAt := Str(last.value)];
      }
      var unread := AsCount(Get(chat, UnreadCount));
      if counts {
        unread := Min(unread + 1, I64_MAX);
      }
      chat := chat[UnreadCount := Num(unread)];
      chats := chats[chatId := chats[chatId].(lastMessageAt := AsStr(Get(chat, LastMessageAt)), unread := unread,
                                              name := AsStr(Get(chat, Name)).Or(AsStr(Get(chat, ContactName))),
                                              raw := chat)];
    }

    method ApplyLiveMessage(doc: Doc) returns (applied: Applied)
      modifies this
      ensures View() == ApplyLive(old(View()), doc)
      ensures applied.isNew <==> IdOf(Get(doc, Id)) !in old(messages)
      ensures applied.message == StringifyRowIds(Merged(old(View()), doc))
      ensures var chatId := IdOf(Get(Merged(old(View()), doc), ChatId));
              applied.chat ==
              if chatId in old(chats) then Updated(StringifyRowIds(chats[chatId].raw)) else Unknown(chatId)
    {
      hide Merge, StringifyRowIds, Advanced;
      var existing := LoadRawJson(IdOf(Get(doc, Id)));
      var isNew := existing.None?;
      var merged := MergeMessage(existing, doc);
      PersistMessage(merged);

      var chatId := IdOf(Get(merged, ChatId));
      var createdAt := AsStr(Get(merged, CreatedAt));
      var isFromMe := AsBool(Get(merged, IsFromMe));
      if chatId !in chats {
        return Applied(StringifyRowIds(merged), Unknown(chatId), isNew);
      }
      Advance(chatId, createdAt, isNew && !isFromMe);
      return Applied(StringifyRowIds(merged), Updated(StringifyRowIds(chats[chatId].raw)), isNew);
    }

    method UpsertChat(doc: Doc)
      modifies this`chats, this`ids
      ensures View() == StoreChat(old(View()), doc)
    {
      var id := IdOf(Get(doc, Id));
      var chat := doc;
      if id in chats {
        var existing := chats[id].raw;
        var keep := AsStr(Get(existing, ContactName)).Or(AsStr(Get(existing, Name))).GetOr("");
        var incoming := AsStr(Get(doc, ContactName)).Or(AsStr(Get(doc, Name))).GetOr("");
        if IsPersonName(keep) && !IsPersonName(incoming) {
          chat := chat[Name := Get(existing, Name)];
          chat := chat[ContactName := Get(existing, ContactName)];
          var display := AsStr(Get(existing, DisplayName));
          assert !IsPersonName("");
          if display.Some? && IsPersonName(display.value) {
            chat := chat[DisplayName := Get(existing, DisplayName)];
          }
        }
        assert chat == KeepTitle(existing, doc);
        chats := chats[id := Overwritten(chats[id], chat)];
      } else {
        chats := chats[id := NewChat(chat)];
      }
      var guid := AsStr(Get(chat, Guid));
      if guid.Some? && guid.value != "" {
        var _ := InsertIdentity(guid.value, id);
      }
    }

    method SetRead(chatId: int) returns (chat: Option<Doc>)
      modifies this`chats
      ensures View() == Step(old(View()), MarkRead(chatId))
      ensures chat == if chatId in old(chats) then Some(StringifyRowIds(chats[chatId].raw)) else None
    {
      if chatId !in chats {
        return None;
      }
      var doc := chats[chatId].raw[UnreadCount := Num(0)];
      chats := chats[chatId := chats[chatId].(unread := 0, raw := doc)];
      return Some(StringifyRowIds(doc));
    }

    // --------------------------------------------------------- domain operations

    method UpsertDomainChat(chat: Chat) returns (id: int)
      requires I.Allocated(ids, chat.guid).Some?
      modifies this`chats, this`ids
      ensures Some(View()) == D.UpsertDomainChat(old(View()), chat)
      ensures D.WithId(old(View()), chat.guid).value.1 == id
    {
      id := IdForGuid(chat.guid);
      UpsertChat(D.ChatDoc(chat, id));
    }

    method UpsertDomainMessage(m: Message) returns (id: int)
      requires D.UpsertDomainMessage(View(), m).Some?
      modifies this`messages, this`ids
      ensures Some(View()) == D.UpsertDomainMessage(old(View()), m)
    {
      var chatId := IdForGuid(m.chat);
      id := IdForGuid(m.guid);
      UpsertMessage(D.MessageDoc(m, id, chatId));
    }

    /** The chat of a live message gets an id, and a stub if it has no row. */
    method KnownChat(m: Message) returns (chatId: int)
      requires D.WithChat(View(), m).Some?
      modifies this`chats, this`ids
      ensures D.WithChat(old(View()), m) == Some((View(), chatId))
    {
      chatId := IdForGuid(m.chat);
      if chatId !in chats {
        var _ := UpsertDomainChat(D.Stub(m));
      }
    }

    method LiveDoc(m: Message, id: int, chatId: int) returns (doc: Doc)
      ensures doc == D.FillSender(chats, chatId, D.MessageDoc(m, id, chatId))
      ensures Get(doc, Id) == IdJson(id)
    {
      doc := D.MessageDoc(m, id, chatId);
      if !NamesPerson(Get(doc, SenderName)) && chatId in chats {
        var name := PersonOf(chats[chatId].raw);
        if name.Some? {
          doc := doc[SenderName := Str(name.value)];
        }
      }
    }

    method ApplyDomainMessage(m: Message) returns (applied: Applied)
      requires D.ApplyDomainMessage(View(), m).Some?
      modifies this
      ensures Some(View()) == D.ApplyDomainMessage(old(View()), m)
      ensures m.guid in ids
      ensures I64_MIN <= ids[m.guid] <= I64_MAX ==> (applied.isNew <==> ids[m.guid] !in old(messages))
    {
      var chatId := KnownChat(m);
      var id := IdForGuid(m.guid);
      var doc := LiveDoc(m, id, chatId);
      assert I64_MIN <= id <= I64_MAX ==> IdOf(Get(doc, Id)) == id by {
        if I64_MIN <= id <= I64_MAX {
          IdRoundTrip(id);
        }
      }
      applied := ApplyLiveMessage(doc);
    }

    // --------------------------------------------------------------------- reads

    method ListChats(limit: int) returns (docs: seq<Doc>, ghost keys: seq<int>)
      ensures Query.IsNewest(LastTimes(chats), Capped(limit, |chats|), keys)
      ensures |keys| == if 0 <= limit < |chats| then limit else |chats|
      ensures docs == ChatDocs(chats, keys)
    {
      assert LastTimes(chats).Keys == chats.Keys;
      var found := Query.Newest(LastTimes(chats), Capped(limit, |chats|));
      keys := found;
      docs := ChatDocs(chats, found);
    }

    method ListMessages(chatId: int, limit: int, before: Option<string>) returns (docs: seq<Doc>, ghost keys: seq<int>)
      ensures Query.IsNewest(TimesBefore(messages, chatId, before), Capped(limit, |messages|), keys)
      ensures var ids := Before(messages, chatId, before);
              (forall k :: k in keys ==> k in ids) && |keys| == if 0 <= limit < |ids| then limit else |ids|
      ensures docs == Backwards(MessageDocs(messages, keys))
    {
      var times := TimesBefore(messages, chatId, before);
      forall id ensures id in times <==> id in Before(messages, chatId, before) {
      }
      assert times.Keys == Before(messages, chatId, before);
      SubsetSize(times.Keys, messages.Keys);
      var found := Query.Newest(times, Capped(limit, |messages|));
      keys := found;
      docs := Backwards(MessageDocs(messages, found));
    }

    // ------------------------------------------------------------ passes over all rows

    /** repair_message_projections: one UPDATE, which finds nothing to do among rows that the cache wrote. */
    method RepairMessageProjections()
      modifies this`messages
      ensures View() == Step(old(View()), RepairProjections)
      ensures Agrees(old(View())) ==> View() == old(View())
      ensures RepairAll(messages) == messages
    {
      messages := RepairAll(messages);
      RepairTwice(old(messages));
      if Agrees(old(View())) {
        RepairChangesNothing(old(View()));
      }
    }

    /** INSERT OR IGNORE INTO identities SELECT guid, id: rows in any order. */
    method InsertIdentities(guids: map<int, Option<string>>) returns (ghost trace: seq<Op>)
      modifies this`ids
      ensures Passed(old(View()), trace, View()) && MadeOf(guids, old(ids), ids)
      ensures Identified(guids, ids)
    {
      hide Passed;
      PassOfNone(View());
      trace := [];
      var left := guids.Keys;
      while left != {}
        invariant left <= guids.Keys && Passed(old(View()), trace, View()) && MadeOf(guids, old(ids), ids)
        invariant Identified(guids - left, ids)
        decreases left
      {
        var id := Pick(left);
        left := left - {id};
        var guid := guids[id].GetOr("");
        if guid != "" {
          ghost var before := View();
          I.InsertGrows(ids, guid, id);
          StaysIdentified(guids - left - {id}, ids, InsertOrIgnore(ids, guid, id));
          var inserted := InsertIdentity(guid, id);
          assert inserted ==> ids[guid] == id;
          PassOfOne(before, Op.InsertIdentity(guid, id));
          PassesChain(old(View()), trace, before, [Op.InsertIdentity(guid, id)], View());
          trace := trace + [Op.InsertIdentity(guid, id)];
        }
      }
    }

    /** The row of one message takes the title of its chat; ops is the UPDATE, if there is one. */
    method TakeTitle(titles: map<int, string>, id: int) returns (ghost ops: seq<Op>)
      requires id in messages && forall c :: c in titles ==> IsPersonName(titles[c])
      modifies this`messages
      ensures messages == old(messages)[id := WithTitle(titles, old(messages)[id])]
      ensures Passed(old(View()), ops, View())
    {
      ops := [];
      var row := messages[id];
      if row.isFromMe || row.chatId !in titles {
        return;
      }
      var name := titles[row.chatId];
      if row.senderName == Some(name) {
        return;
      }
      PassOfOne(View(), RenameSender(id, name));
      ops := [RenameSender(id, name)];
      messages := messages[id := row.(senderName := Some(name), raw := row.raw[SenderName := Str(name)])];
    }

    method TakeTitles(titles: map<int, string>) returns (ghost trace: seq<Op>)
      requires forall c :: c in titles ==> IsPersonName(titles[c])
      modifies this`messages
      ensures messages == WithTitles(titles, old(messages))
      ensures Passed(old(View()), trace, View())
    {
      hide Passed;
      PassOfNone(View());
      trace := [];
      var left := messages.Keys;
      while left != {}
        invariant left <= messages.Keys && messages.Keys == old(messages).Keys
        invariant forall id :: id in messages ==>
          messages[id] == if id in left then old(messages)[id] else WithTitle(titles, old(messages)[id])
        invariant Passed(old(View()), trace, View())
        decreases left
      {
        var id := Pick(left);
        left := left - {id};
        ghost var before := View();
        ghost var ops := TakeTitle(titles, id);
        PassesChain(old(View()), trace, before, ops, View());
        trace := trace + ops;
      }
      forall id | id in messages ensures messages[id] == WithTitles(titles, old(messages))[id] {
      }
    }

    /** Every chat title that is the name of a person becomes the name of the others in the chat. */
    method RepairPhoneSenderNames() returns (ghost keys: seq<int>, ghost trace: seq<Op>)
      modifies this`messages
      ensures Query.IsNewest(LastTimes(chats), 500, keys)
      ensures messages == WithTitles(TitlesOf(ChatDocs(chats, keys)), old(messages))
      ensures Passed(old(View()), trace, View())
    {
      var docs;
      docs, keys := ListChats(500);
      var titles := TitlesByChat(docs);
      TitlesArePersons(docs);
      trace := TakeTitles(titles);
    }

    /** One chat takes the name that the book has for it. */
    method TakeName(book: C.ContactBook, id: int, doc: Doc) returns (renamed: bool, ghost ops: seq<Op>)
      requires id in chats && doc == StringifyRowIds(chats[id].raw) && IdOf(Get(doc, Id)) == id
      modifies this`chats, this`ids
      ensures chats == old(chats)[id := NamedRow(book.names, old(chats)[id])]
      ensures renamed <==> Named(book.names, doc).Some?
      ensures Passed(old(View()), ops, View())
    {
      hide StringifyRowIds, C.Lookup;
      ListedFields(chats[id].raw);
      renamed, ops := false, [];
      var name := book.LookUp(NameText(Get(doc, Identifier)));
      if name.None? {
        return;
      }
      var current := AsStr(Get(doc, ContactName)).Or(AsStr(Get(doc, Name))).GetOr("");
      if current == name.value {
        return;
      }
      if IsPersonName(current) {
        return;
      }
      var chat := doc[Name := Str(name.value)];
      chat := chat[ContactName := Str(name.value)];
      PassOfOne(View(), Op.UpsertChat(chat));
      ops := [Op.UpsertChat(chat)];
      renamed := true;
      UpsertChat(chat);
    }

    /** Returns how many chats were renamed; the newest chats after that give their titles to the senders in them. */
    method ApplyContactBook(book: C.ContactBook)
      returns (n: nat, ghost keys: seq<int>, ghost listed: seq<int>, ghost trace: seq<Op>)
      requires Agrees(View())
      modifies this
      ensures Query.IsNewest(LastTimes(old(chats)), 500, keys)
      ensures chats == NamedChats(SeededBook(book.names, ChatDocs(old(chats), keys)), old(chats), keys)
      ensures n == |Retitled(old(chats), chats)|
      ensures Query.IsNewest(LastTimes(chats), 500, listed)
      ensures messages == WithTitles(TitlesOf(ChatDocs(chats, listed)), old(messages))
      ensures Passed(old(View()), trace, View())
      ensures Agrees(View()) && NamesKept(old(View()), View())
    {
      hide Passed;
      var docs;
      docs, keys := ListChats(500);
      var seeded := Seeded(book, docs);
      n, trace := TakeNames(seeded, docs, keys);
      ghost var named := View();
      ghost var renames;
      listed, renames := RepairPhoneSenderNames();
      PassesChain(old(View()), trace, named, renames, View());
      trace := trace + renames;
      PassKeeps(old(View()), trace, View());
    }

    method TakeNames(book: C.ContactBook, docs: seq<Doc>, ghost keys: seq<int>) returns (n: nat, ghost trace: seq<Op>)
      requires Agrees(View()) && Distinct(keys) && (forall i :: 0 <= i < |keys| ==> keys[i] in chats)
      requires docs == ChatDocs(chats, keys)
      modifies this`chats, this`ids
      ensures chats == NamedChats(book.names, old(chats), keys) && n == |Retitled(old(chats), chats)|
      ensures Passed(old(View()), trace, View())
    {
      n, trace := 0, [];
      for i := 0 to |docs|
        invariant chats == NamedChats(book.names, old(chats), keys[..i]) && n == |Retitled(old(chats), chats)|
        invariant Passed(old(View()), trace, View())
      {
        ghost var before := View();
        ListedIds(old(View()), keys, i);
        NamedSnoc(book.names, old(chats), keys, i);
        assert ChatAgrees(keys[i], old(chats)[keys[i]]);
        RetitledSnoc(book.names, old(chats), keys, i);
        var renamed;
        ghost var ops;
        renamed, ops := TakeName(book, IdOf(Get(docs[i], Id)), docs[i]);
        PassesChain(old(View()), trace, before, ops, View());
        trace := trace + ops;
        if renamed {
          n := n + 1;
        }
      }
      assert keys[..|docs|] == keys;
    }

    /** One orphan gets its row; start is the state in which it was found. */
    method RepairOrphan(ghost start: Db, c: int) returns (ghost trace: seq<Op>)
      requires Orphan(start, c) && ids == start.ids && messages == start.messages && c !in chats
      requires D.Trimmed(ids) && I.InRange(ids)
      modifies this`chats, this`ids
      ensures c in chats && chats == old(chats)[c := chats[c]] && ids == old(ids)
      ensures OrphanRow(start, c, chats[c])
      ensures Passed(old(View()), trace, View())
    {
      var guid :| guid in ids && ids[guid] == c && HasSemicolon(guid);
      var sender := First(TimesIn(messages, c, HasSender));
      var name := First(TimesIn(messages, c, HasSenderName));
      var last := First(TimesIn(messages, c, AnyMessage));
      var stub := OrphanStub(messages, Text.Trim(guid), sender, name, last);
      StubStored(View(), stub, c);
      D.ChatsAreDomestic(View(), stub, c);
      PassOfOne(View(), Op.UpsertChat(D.ChatDoc(stub, c)));
      trace := [Op.UpsertChat(D.ChatDoc(stub, c))];
      var _ := UpsertDomainChat(stub);
    }

    method Orphans() returns (orphans: set<int>)
      ensures forall c :: c in orphans <==> Orphan(View(), c)
    {
      var named := set id | id in messages :: messages[id].chatId;
      orphans := set c | c in named && c != 0 && c !in chats && exists g :: g in ids && ids[g] == c && HasSemicolon(g);
    }

    method RepairOrphans(orphans: set<int>) returns (ghost trace: seq<Op>)
      requires D.Trimmed(ids) && I.InRange(ids) && forall c :: c in orphans ==> Orphan(View(), c)
      modifies this`chats, this`ids
      ensures ids == old(ids) && chats.Keys == old(chats).Keys + orphans
      ensures OrphansRepaired(old(View()), chats)
      ensures Passed(old(View()), trace, View())
    {
      hide Passed;
      PassOfNone(View());
      trace := [];
      var left := orphans;
      while left != {}
        invariant ids == old(ids) && left <= orphans && chats.Keys == old(chats).Keys + (orphans - left)
        invariant OrphansRepaired(old(View()), chats)
        invariant Passed(old(View()), trace, View())
        decreases left
      {
        var c := Pick(left);
        left := left - {c};
        ghost var before := View();
        ghost var ops := RepairOrphan(old(View()), c);
        OneMoreRepaired(old(View()), before.chats, c, chats[c]);
        PassesChain(old(View()), trace, before, ops, View());
        trace := trace + ops;
      }
    }

    /** Afterwards no chat that messages name is without a row. */
    method RepairOrphanChats() returns (ghost trace: seq<Op>)
      requires D.Trimmed(ids) && I.InRange(ids)
      modifies this`chats, this`ids
      ensures ids == old(ids) && NoOrphans(View())
      ensures forall c :: c in chats <==> c in old(chats) || Orphan(old(View()), c)
      ensures OrphansRepaired(old(View()), chats)
      ensures Passed(old(View()), trace, View())
    {
      hide Passed;
      var orphans := Orphans();
      trace := RepairOrphans(orphans);
      forall c ensures !Orphan(View(), c) {
        assert Orphan(View(), c) ==> Orphan(old(View()), c);
      }
    }

    method RebuildIdentities() returns (ghost trace: seq<Op>)
      modifies this`ids
      ensures Passed(old(View()), trace, View()) && I.Grows(old(ids), ids)
      ensures Identified(ChatGuids(chats), ids) && Identified(MessageGuids(messages), ids)
      ensures D.TrimmedRows(old(View())) ==> D.TrimmedRows(View()) && D.Trimmed(ids)
      ensures I.InRange(old(ids)) && RowIds(ChatGuids(chats)) && RowIds(MessageGuids(messages)) ==> I.InRange(ids)
    {
      hide Passed, Identified;
      trace := InsertIdentities(ChatGuids(chats));
      ghost var half := View();
      ghost var rest := InsertIdentities(MessageGuids(messages));
      if D.TrimmedRows(old(View())) {
        StaysTrimmed(ChatGuids(chats), old(ids), half.ids);
        StaysTrimmed(MessageGuids(messages), half.ids, ids);
      }
      if I.InRange(old(ids)) && RowIds(ChatGuids(chats)) && RowIds(MessageGuids(messages)) {
        StaysInRange(ChatGuids(chats), old(ids), half.ids);
        StaysInRange(MessageGuids(messages), half.ids, ids);
      }
      StaysIdentified(ChatGuids(chats), half.ids, ids);
      PassesChain(old(View()), trace, half, rest, View());
      trace := trace + rest;
    }

    /** What open does with the tables it finds, whether or not their columns agree with the documents. */
    method Reopen() returns (ghost trace: seq<Op>)
      requires D.TrimmedRows(View()) && I.InRange(ids) && RowIds(ChatGuids(chats)) && RowIds(MessageGuids(messages))
      modifies this
      ensures Passed(old(View()), trace, View())
      ensures Agrees(old(View())) ==> Agrees(View()) && NamesKept(old(View()), View())
      ensures NoOrphans(View()) && Identified(MessageGuids(old(messages)), ids)
    {
      hide Passed, Identified, Agrees, NoOrphans, NamesKept, MessageGuids, ChatGuids, RowIds, RepairAll;
      hide D.TrimmedRows;
      PassOfOne(View(), RepairProjections);
      RepairKeepsGuids(View());
      RepairMessageProjections();
      ghost var projected := View();
      ghost var inserts := RebuildIdentities();
      PassesChain(old(View()), [RepairProjections], projected, inserts, View());
      trace := [RepairProjections] + inserts;
      ghost var rebuilt := View();
      ghost var repairs := RepairOrphanChats();
      PassesChain(old(View()), trace, rebuilt, repairs, View());
      trace := trace + repairs;
      ghost var repaired := View();
      ghost var keys, renames := RepairPhoneSenderNames();
      RenamesMakeNoOrphans(repaired, View(), TitlesOf(ChatDocs(chats, keys)));
      PassesChain(old(View()), trace, repaired, renames, View());
      trace := trace + renames;
      if Agrees(old(View())) {
        PassKeeps(old(View()), trace, View());
      }
    }
  }

  method First(times: map<int, Option<string>>) returns (key: Option<int>)
    ensures IsFirst(times, key)
  {
    key := None;
    if times != map[] {
      var k := Query.Latest(times);
      key := Some(k);
    }
  }

  method TitlesByChat(docs: seq<Doc>) returns (titles: map<int, string>)
    ensures titles == TitlesOf(docs)
  {
    titles := map[];
    for i := 0 to |docs|
      invariant titles == TitlesOf(docs[..i])
    {
      assert docs[..i + 1][..i] == docs[..i];
      var name := PersonOf(docs[i]);
      if name.Some? {
        titles := titles[IdOf(Get(docs[i], Id)) := name.value];
      }
    }
    assert docs[..|docs|] == docs;
  }

  /** A copy of the book, with the titles that chats have already. */
  method Seeded(book: C.ContactBook, docs: seq<Doc>) returns (seeded: C.ContactBook)
    ensures fresh(seeded) && seeded.names == SeededBook(book.names, docs)
  {
    seeded := new C.ContactBook();
    seeded.names := book.names;
    for i := 0 to |docs|
      invariant fresh(seeded) && seeded.names == SeededBook(book.names, docs[..i])
    {
      assert docs[..i + 1][..i] == docs[..i];
      var name := PersonOf(docs[i]);
      if name.Some? {
        seeded.Record(NameText(Get(docs[i], Identifier)), name.value);
      }
    }
    assert docs[..|docs|] == docs;
  }
}
