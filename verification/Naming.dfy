/**
 * What the passes of sync/src/cache.rs do to names: sender names after repair_phone_sender_names, the
 * book that apply_contact_book seeds, and the rows that repair_orphan_chats makes.
 */
module Naming {
  import opened Prelude
  import opened Domain
  import opened Documents
  import opened Tables
  import opened Rows
  import opened Cache
  import C = Contacts
  import D = Delivery
  import Query

  // --------------------------------------------------------- titles of senders

  lemma {:induction false} ListedTitles(doc: Doc)
    ensures SaysGroup(StringifyRowIds(doc)) <==> SaysGroup(doc)
    ensures Untitled(StringifyRowIds(doc)) <==> Untitled(doc)
    ensures forall name :: TitledFor(StringifyRowIds(doc), name) <==> TitledFor(doc, name)
  {
    ListedFields(doc);
    hide StringifyRowIds;
    SameTitles(StringifyRowIds(doc), doc);
  }

  /** The chat is listed, no group, and titled for this person. */
  ghost predicate Names(db: Db, keys: seq<int>, c: int, name: string) {
    c in keys && c in db.chats && !SaysGroup(db.chats[c].raw) && TitledFor(db.chats[c].raw, name)
  }

  lemma {:induction false} TitlesMeaning(db: Db, keys: seq<int>, n: nat, c: int)
    requires Agrees(db) && Distinct(keys) && n <= |keys| && forall i :: 0 <= i < |keys| ==> keys[i] in db.chats
    ensures var titles := TitlesOf(ChatDocs(db.chats, keys)[..n]);
            && (c in titles <==> exists name :: Names(db, keys[..n], c, name))
            && (c in titles ==> Names(db, keys[..n], c, titles[c]))
  {
    if n > 0 {
      var docs, front := ChatDocs(db.chats, keys), keys[..n - 1];
      TitlesMeaning(db, keys, n - 1, c);
      assert docs[..n][..n - 1] == docs[..n - 1];
      ListedIds(db, keys, n - 1);
      var k, raw := keys[n - 1], db.chats[keys[n - 1]].raw;
      assert keys[..n] == front + [k] && k !in front;
      PersonOfMeaning(docs[n - 1]);
      ListedTitles(raw);
      hide TitledFor, Untitled, SaysGroup, StringifyRowIds, D.PersonOf;
      if D.PersonOf(docs[n - 1]).Some? {
        assert Names(db, keys[..n], k, D.PersonOf(docs[n - 1]).value);
      } else if !SaysGroup(raw) {
        forall name ensures !TitledFor(raw, name) {
          if TitledFor(raw, name) {
            TitledForOne(raw, name, name);
          }
        }
      }
      forall name ensures c != k ==> (Names(db, keys[..n], c, name) <==> Names(db, front, c, name)) {
      }
    }
  }

  /**
   * After the repair of sender names, a message from someone else in a listed chat that is no group and
   * has a title naming a person carries the first such title, in column and document; nothing else of it
   * changes, and no other message does.
   */
  lemma {:induction false} SendersTakeTitles(db: Db, keys: seq<int>, id: int)
    requires Agrees(db) && Distinct(keys) && id in db.messages && forall i :: 0 <= i < |keys| ==> keys[i] in db.chats
    ensures var row, later := db.messages[id], WithTitles(TitlesOf(ChatDocs(db.chats, keys)), db.messages)[id];
            if !row.isFromMe && exists name :: Names(db, keys, row.chatId, name)
            then exists name :: Names(db, keys, row.chatId, name)
                                && later == row.(senderName := Some(name), raw := row.raw[SenderName := Str(name)])
            else later == row
  {
    var row, docs := db.messages[id], ChatDocs(db.chats, keys);
    TitlesMeaning(db, keys, |keys|, row.chatId);
    assert docs[..|keys|] == docs && keys[..|keys|] == keys;
    hide Names, TitlesOf;
    var titles := TitlesOf(docs);
    if row.chatId in titles && row.senderName == Some(titles[row.chatId]) {
      assert MessageAgrees(id, row);
      assert row.raw[SenderName := Str(titles[row.chatId])] == row.raw;
    }
  }

  // ------------------------------------------------------------ the seeded book

  /** The entry that a cached chat adds to the book: its identifier with its title, unless it is a group. */
  ghost predicate Seeds(chat: Doc, e: C.Entry) {
    !SaysGroup(chat) && TitledFor(chat, e.name) && e.address == NameText(Get(chat, Identifier))
  }

  /** Entries that the chats at these places add, in order, with none left out. */
  ghost predicate SeededFrom(docs: seq<Doc>, added: seq<C.Entry>, from: seq<nat>) {
    && |added| == |from| && (forall i, j :: 0 <= i < j < |from| ==> from[i] < from[j])
    && (forall i :: 0 <= i < |from| ==> from[i] < |docs| && Seeds(docs[from[i]], added[i]))
    && (forall k, e :: 0 <= k < |docs| && Seeds(docs[k], e) ==> k in from)
  }

  lemma {:induction false} SeededSnoc(docs: seq<Doc>, added: seq<C.Entry>, from: seq<nat>, e: C.Entry)
    requires docs != [] && SeededFrom(docs[..|docs| - 1], added, from) && Seeds(docs[|docs| - 1], e)
    ensures SeededFrom(docs, added + [e], from + [|docs| - 1])
  {
    hide Seeds;
    var n, later := |docs| - 1, from + [|docs| - 1];
    assert later[|from|] == n && forall k :: k in from ==> k in later;
    forall k, f | 0 <= k < |docs| && Seeds(docs[k], f) ensures k in later {
      assert k < n ==> docs[..n][k] == docs[k];
    }
  }

  lemma {:induction false} SeededSkip(docs: seq<Doc>, added: seq<C.Entry>, from: seq<nat>, last: Doc)
    requires docs != [] && docs[|docs| - 1] == last && SeededFrom(docs[..|docs| - 1], added, from)
    requires forall e :: !Seeds(last, e)
    ensures SeededFrom(docs, added, from)
  {
    hide Seeds;
    var n := |docs| - 1;
    forall k, f | 0 <= k < |docs| && Seeds(docs[k], f) ensures k in from {
      assert k < n ==> docs[..n][k] == docs[k];
    }
  }

  lemma {:induction false} SeedsMeaning(doc: Doc)
    ensures match D.PersonOf(doc)
            case Some(name) => Seeds(doc, C.Entry(NameText(Get(doc, Identifier)), name))
            case None => forall e :: !Seeds(doc, e)
  {
    PersonOfMeaning(doc);
    hide TitledFor, Untitled, SaysGroup, D.PersonOf;
    forall e: C.Entry | TitledFor(doc, e.name) ensures !Untitled(doc) {
      TitledForOne(doc, e.name, e.name);
    }
  }

  /** Seeding the book with cached chats is recording these entries after all others, so what was known stays. */
  lemma {:induction false} SeedingIsRecording(entries: seq<C.Entry>, docs: seq<Doc>)
    returns (added: seq<C.Entry>, from: seq<nat>)
    ensures SeededBook(C.BookOf(entries), docs) == C.BookOf(entries + added) && SeededFrom(docs, added, from)
  {
    hide Seeds, SeededFrom, D.PersonOf, C.Recorded;
    if docs == [] {
      added, from := [], [];
      assert entries + added == entries;
      NothingSeeded();
    } else {
      var n := |docs| - 1;
      added, from := SeedingIsRecording(entries, docs[..n]);
      SeedsMeaning(docs[n]);
      match D.PersonOf(docs[n])
      case Some(name) =>
        var e := C.Entry(NameText(Get(docs[n], Identifier)), name);
        var all := entries + added;
        assert (all + [e])[..|all|] == all && entries + (added + [e]) == all + [e];
        SeededSnoc(docs, added, from, e);
        added, from := added + [e], from + [n];
      case None =>
        SeededSkip(docs, added, from, docs[n]);
    }
  }

  lemma {:induction false} NothingSeeded()
    ensures SeededFrom([], [], [])
  {
  }

  // -------------------------------------------------------------- orphan chats

  /** The message is a latest one of these; there is none only if there are none of these. */
  ghost predicate LatestOf(messages: map<int, MessageRow>, ids: set<int>, k: Option<int>) {
    match k
    case None => ids == {}
    case Some(id) =>
      && id in ids && id in messages
      && forall i :: i in ids && i in messages ==> !Query.Earlier(messages[id].createdAt, messages[i].createdAt)
  }

  ghost function InChat(messages: map<int, MessageRow>, c: int): set<int> {
    set i | i in messages && messages[i].chatId == c
  }

  ghost function WithSender(messages: map<int, MessageRow>, c: int): set<int> {
    set i | i in InChat(messages, c) && messages[i].sender.Some?
  }

  ghost function WithSenderName(messages: map<int, MessageRow>, c: int): set<int> {
    set i | i in InChat(messages, c) && messages[i].senderName.Some? && messages[i].senderName.value != ""
  }

  /**
   * The row of a chat that only messages knew: known by the last sender among them, titled by the last
   * name given if that is a person's and there is a sender, dated by the last message, with nothing unread.
   */
  ghost predicate MadeOfMessages(db: Db, c: int, row: ChatRow) {
    exists guid, sender, name, last :: MadeOfThese(db, c, row, guid, sender, name, last)
  }

  ghost predicate MadeOfThese(db: Db, c: int, row: ChatRow, guid: string,
                              sender: Option<int>, name: Option<int>, last: Option<int>)
  {
    && guid in db.ids && db.ids[guid] == c && row.guid == Some(guid) && row.unread == 0
    && LatestOf(db.messages, WithSender(db.messages, c), sender)
    && LatestOf(db.messages, WithSenderName(db.messages, c), name)
    && LatestOf(db.messages, InChat(db.messages, c), last)
    && row.identifier == (if sender.Some? then db.messages[sender.value].sender else Some(guid))
    && row.lastMessageAt == (if last.Some? then db.messages[last.value].createdAt else None)
    && (SaysGroup(row.raw) <==> GroupMark(guid))
    && Some(Title(row.raw)) == if sender.Some? && name.Some?
                                  && IsPersonName(db.messages[name.value].senderName.GetOr(""))
                               then db.messages[name.value].senderName else row.identifier
  }

  lemma {:induction false} OrphanRowMeaning(db: Db, c: int, row: ChatRow)
    requires OrphanRow(db, c, row) && I64_MIN <= c <= I64_MAX
    ensures MadeOfMessages(db, c, row)
  {
    hide NewChat, D.ChatDoc, OrphanStub, MadeOfThese;
    var guid, sender, name, last :|
      && guid in db.ids && db.ids[guid] == c
      && IsFirst(TimesIn(db.messages, c, HasSender), sender) && IsFirst(TimesIn(db.messages, c, HasSenderName), name)
      && IsFirst(TimesIn(db.messages, c, AnyMessage), last)
      && row == NewChat(D.ChatDoc(OrphanStub(db.messages, guid, sender, name, last), c));
    FirstIsLatest(db.messages, c, HasSender, sender, WithSender(db.messages, c));
    FirstIsLatest(db.messages, c, HasSenderName, name, WithSenderName(db.messages, c));
    FirstIsLatest(db.messages, c, AnyMessage, last, InChat(db.messages, c));
    StubRowSays(db, c, guid, sender, name, last);
  }

  lemma {:induction false} StubRowSays(db: Db, c: int, guid: string,
                                       sender: Option<int>, name: Option<int>, last: Option<int>)
    requires guid in db.ids && db.ids[guid] == c && I64_MIN <= c <= I64_MAX
    requires LatestOf(db.messages, WithSender(db.messages, c), sender)
    requires LatestOf(db.messages, WithSenderName(db.messages, c), name)
    requires LatestOf(db.messages, InChat(db.messages, c), last)
    ensures MadeOfThese(db, c, NewChat(D.ChatDoc(OrphanStub(db.messages, guid, sender, name, last), c)),
                        guid, sender, name, last)
  {
    var stub := OrphanStub(db.messages, guid, sender, name, last);
    OrphanStubMeaning(db.messages, guid, sender, name, last);
    NewChatSays(stub, c);
    var row := NewChat(D.ChatDoc(stub, c));
    hide NewChat, D.ChatDoc, OrphanStub, GoesBy, GroupMark, IsPersonName, Title;
    assert GoesBy(stub, Title(row.raw));
  }

  lemma {:induction false} FirstIsLatest(messages: map<int, MessageRow>, c: int, test: MessageRow -> bool,
                                         key: Option<int>, ids: set<int>)
    requires IsFirst(TimesIn(messages, c, test), key)
    requires forall i :: i in ids <==> i in messages && messages[i].chatId == c && test(messages[i])
    ensures LatestOf(messages, ids, key)
  {
    var times := TimesIn(messages, c, test);
    forall i ensures i in times <==> i in ids {
    }
    assert times.Keys == ids;
    if key.Some? {
      forall i | i in ids ensures !Query.Earlier(messages[key.value].createdAt, messages[i].createdAt) {
        assert i in times;
      }
    }
  }

  lemma {:induction false} OrphanStubMeaning(messages: map<int, MessageRow>, guid: string,
                                             sender: Option<int>, name: Option<int>, last: Option<int>)
    requires forall k :: k in [sender, name, last] && k.Some? ==> k.value in messages
    requires sender.Some? ==> messages[sender.value].sender.Some?
    requires name.Some? ==> messages[name.value].senderName.Some?
    ensures var stub := OrphanStub(messages, guid, sender, name, last);
            && stub.guid == guid && stub.unreadCount == 0 && (stub.isGroup <==> GroupMark(guid))
            && stub.lastMessageAt == (if last.Some? then messages[last.value].createdAt else None)
            && Some(stub.identifier) == (if sender.Some? then messages[sender.value].sender else Some(guid))
            && forall title :: GoesBy(stub, title) ==>
                 Some(title) == if sender.Some? && name.Some?
                                   && IsPersonName(messages[name.value].senderName.value)
                                then messages[name.value].senderName else Some(stub.identifier)
  {
    GroupGuids(guid);
    assert !IsPersonName("");
  }
}
