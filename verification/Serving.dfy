/**
 * Between the cache and the client: the rows that list_messages answers with are a page as
 * Paging understands it, so what is proved there about paging holds over the cache's tables.
 */
module Serving {
  import opened Prelude
  import opened Documents
  import opened Tables
  import Timeline
  import Cache
  import H = History
  import P = Paging
  import Query

  /** The fields that the lists of the client do not look at. */
  const BodyOf: Doc -> string

  /** A reply as the client reads it. */
  function Received(doc: Doc): Timeline.Msg {
    Timeline.Msg(NameText(Get(doc, Id)), NameText(Get(doc, ChatId)), NameText(Get(doc, CreatedAt)), BodyOf(doc))
  }

  function MsgOf(row: MessageRow): Timeline.Msg {
    Received(StringifyRowIds(row.raw))
  }

  /** before is sent with a request unless it is empty. */
  function Cursor(before: string): Option<string> {
    if before == "" then None else Some(before)
  }

  function Thread(messages: map<int, MessageRow>, chatId: int): set<Timeline.Msg> {
    set id | id in messages && messages[id].chatId == chatId :: MsgOf(messages[id])
  }

  function Page(docs: seq<Doc>): (page: seq<Timeline.Msg>)
    ensures |page| == |docs| && forall i :: 0 <= i < |page| ==> page[i] == Received(docs[i])
  {
    seq(|docs|, i requires 0 <= i < |docs| => Received(docs[i]))
  }

  /** The messages of the chat have ids; a time may be missing. */
  ghost predicate Listable(db: Db, chatId: int) {
    && Agrees(db)
    && forall id :: id in db.messages && db.messages[id].chatId == chatId ==> id != 0
  }

  /** The id of a message in a reply determines its row, and its time is the one in the column. */
  lemma {:induction false} IdOfReply(id: int, row: MessageRow)
    requires MessageAgrees(id, row) && id != 0
    ensures IdOf(Str(MsgOf(row).id)) == id
    ensures row.createdAt == P.TimeOf(MsgOf(row))
  {
    StringifyKeeps(row.raw);
    assert ParseId(Get(row.raw, Id)).Some?;
    assert Get(StringifyRowIds(row.raw), CreatedAt) == Get(row.raw, CreatedAt);
  }

  /** The rows selected before a cursor, as the client sees them. */
  function Sent(messages: map<int, MessageRow>, chatId: int, before: string): map<int, Timeline.Msg> {
    map id | id in messages && Selected(messages[id], chatId, Cursor(before)) :: MsgOf(messages[id])
  }

  lemma {:induction false} SentIsInjective(db: Db, chatId: int, before: string)
    requires Listable(db, chatId)
    ensures Query.Injective(Sent(db.messages, chatId, before))
  {
    var f := Sent(db.messages, chatId, before);
    forall j, k | j in f && k in f && j != k ensures f[j] != f[k] {
      assert MessageAgrees(j, db.messages[j]) && MessageAgrees(k, db.messages[k]);
      IdOfReply(j, db.messages[j]);
      IdOfReply(k, db.messages[k]);
    }
  }

  /** Selecting rows by column and selecting messages by time is the same. */
  lemma {:induction false} SentIsBefore(db: Db, chatId: int, before: string)
    requires Listable(db, chatId)
    ensures var f, copy := Sent(db.messages, chatId, before), P.Before(Thread(db.messages, chatId), before);
            && f.Values == copy.Keys
            && forall k :: k in f ==> f[k] in copy && copy[f[k]] == db.messages[k].createdAt
  {
    var f, copy := Sent(db.messages, chatId, before), P.Before(Thread(db.messages, chatId), before);
    forall k | k in db.messages && db.messages[k].chatId == chatId
      ensures db.messages[k].createdAt == P.TimeOf(MsgOf(db.messages[k]))
    {
      assert MessageAgrees(k, db.messages[k]);
      IdOfReply(k, db.messages[k]);
    }
    forall m ensures m in copy <==> m in f.Values {
      if m in copy {
        var k :| k in db.messages && db.messages[k].chatId == chatId && MsgOf(db.messages[k]) == m;
        assert k in f && f[k] == m;
      }
      if m in f.Values {
        var k := Query.KeyOf(f, m);
        assert m in Thread(db.messages, chatId);
      }
    }
  }

  lemma {:induction false} PageReversed(docs: seq<Doc>, i: nat)
    requires i < |docs|
    ensures Backwards(Page(Backwards(docs)))[i] == Received(docs[i])
  {
    assert Backwards(docs)[|docs| - 1 - i] == docs[i];
  }

  /** The reply lists what was sent for the rows selected. */
  lemma {:induction false} ListedReply(messages: map<int, MessageRow>, chatId: int, before: string, keys: seq<int>,
                                       i: nat)
    requires i < |keys| && forall j :: 0 <= j < |keys| ==> keys[j] in messages
    requires Selected(messages[keys[i]], chatId, Cursor(before))
    ensures keys[i] in Sent(messages, chatId, before)
    ensures Backwards(Page(Backwards(Cache.MessageDocs(messages, keys))))[i] == Sent(messages, chatId, before)[keys[i]]
  {
    var docs := Cache.MessageDocs(messages, keys);
    PageReversed(docs, i);
    assert docs[i] == StringifyRowIds(messages[keys[i]].raw);
    assert Sent(messages, chatId, before)[keys[i]] == MsgOf(messages[keys[i]]);
  }

  lemma {:induction false} ListedReplies(messages: map<int, MessageRow>, chatId: int, before: string, keys: seq<int>)
    requires forall i :: 0 <= i < |keys| ==> keys[i] in Cache.TimesBefore(messages, chatId, Cursor(before))
    ensures forall i :: 0 <= i < |keys| ==> keys[i] in messages
    ensures Query.Images(Sent(messages, chatId, before), keys,
                         Backwards(Page(Backwards(Cache.MessageDocs(messages, keys)))))
  {
    forall i | 0 <= i < |keys| ensures keys[i] in messages && Selected(messages[keys[i]], chatId, Cursor(before)) {
      assert keys[i] in Cache.TimesBefore(messages, chatId, Cursor(before));
    }
    forall i | 0 <= i < |keys|
      ensures keys[i] in Sent(messages, chatId, before)
      ensures Backwards(Page(Backwards(Cache.MessageDocs(messages, keys))))[i] ==
              Sent(messages, chatId, before)[keys[i]]
    {
      ListedReply(messages, chatId, before, keys, i);
    }
  }

  /** list_messages answers with a page of the thread. */
  lemma {:induction false} ListServes(db: Db, chatId: int, before: string, keys: seq<int>)
    requires Listable(db, chatId)
    requires Query.IsNewest(Cache.TimesBefore(db.messages, chatId, Cursor(before)), P.PAGE, keys)
    ensures P.Serves(Thread(db.messages, chatId), before, Page(Backwards(Cache.MessageDocs(db.messages, keys))))
  {
    hide Query.Injective, Query.Images, Listable;
    var times, f := Cache.TimesBefore(db.messages, chatId, Cursor(before)), Sent(db.messages, chatId, before);
    var copy := P.Before(Thread(db.messages, chatId), before);
    ListedReplies(db.messages, chatId, before, keys);
    SentIsInjective(db, chatId, before);
    SentIsBefore(db, chatId, before);
    assert f.Keys == times.Keys;
    assert forall k :: k in f ==> f[k] in copy && copy[f[k]] == times[k];
    Query.NewestImage(times, copy, f, P.PAGE, keys, Backwards(Page(Backwards(Cache.MessageDocs(db.messages, keys)))));
  }

  /** One request of the client, answered by the cache. */
  method Fetch(cache: Cache.MessageCache, chatId: int, before: string) returns (page: seq<Timeline.Msg>)
    requires Listable(cache.View(), chatId)
    ensures P.Serves(Thread(cache.messages, chatId), before, page)
  {
    var docs;
    ghost var keys;
    docs, keys := cache.ListMessages(chatId, P.PAGE, Cursor(before));
    ListServes(cache.View(), chatId, before, keys);
    page := Page(docs);
  }

  lemma {:induction false} SessionSnoc(chat: set<Timeline.Msg>, start: H.State, states: seq<H.State>, next: H.State)
    requires P.Session(chat, start, states) && P.LoadsOlder(chat, states[|states| - 1], next)
    ensures P.Session(chat, start, states + [next])
  {
    hide P.LoadsOlder;
    var all := states + [next];
    forall k | 0 < k < |all| ensures P.LoadsOlder(chat, all[k - 1], all[k]) {
      assert all[k - 1] == states[k - 1];
    }
  }

  lemma {:induction false} SessionStarts(chat: set<Timeline.Msg>, start: H.State, page: seq<Timeline.Msg>)
    requires P.Open(start) && P.Serves(chat, "", page)
    ensures P.Session(chat, start, [P.Fetched(start, "", page)])
  {
  }

  /** One use of the button, over the cache. */
  method LoadOlder(cache: Cache.MessageCache, chatId: int, messages: seq<Timeline.Msg>, ghost s: H.State)
    returns (shown: seq<Timeline.Msg>, ghost later: H.State)
    requires Listable(cache.View(), chatId) && P.Open(s) && s.messages == messages
    ensures P.LoadsOlder(Thread(cache.messages, chatId), s, later)
    ensures P.Open(later) && later.messages == shown
  {
    shown, later := messages, s;
    if messages != [] && messages[0].createdAt != "" {
      var page := Fetch(cache, chatId, messages[0].createdAt);
      later := P.Fetched(s, messages[0].createdAt, page);
      P.FetchedMeaning(s, messages[0].createdAt, page);
      shown := Timeline.MergeMessages(page, messages);
    }
  }

  /**
   * Opening a chat and using the button so many times, over the tables of the cache. The client ends
   * with the whole history exactly if the history pages cleanly, once it was asked for often enough.
   */
  method Scroll(cache: Cache.MessageCache, chatId: int, uses: nat, ghost start: H.State, ghost hist: seq<Timeline.Msg>)
    returns (messages: seq<Timeline.Msg>)
    requires Listable(cache.View(), chatId) && P.Open(start) && P.HistoryOf(hist, Thread(cache.messages, chatId))
    requires P.PAGE * (uses + 1) >= |hist|
    ensures messages == hist <==> P.PagesCleanly(hist)
  {
    hide P.Session, P.LoadsOlder, P.Serves, P.HistoryOf, P.PagesCleanly, Listable;
    ghost var chat := Thread(cache.messages, chatId);
    var page := Fetch(cache, chatId, "");
    messages := Timeline.MergeMessages(page, []);
    P.FetchedMeaning(start, "", page);
    SessionStarts(chat, start, page);
    assert page + [] == page;
    ghost var states := [P.Fetched(start, "", page)];
    for i := 0 to uses
      invariant |states| == i + 1 && P.Session(chat, start, states)
      invariant P.Open(states[i]) && states[i].messages == messages
    {
      ghost var later;
      messages, later := LoadOlder(cache, chatId, messages, states[i]);
      SessionSnoc(chat, start, states, later);
      states := states + [later];
    }
    P.PagingIsComplete(hist, chat, start, states, uses);
  }
}
