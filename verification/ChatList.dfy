/**
 * The chat list of the client and its badge (applySnapshot, applyEvent, applyMessage, upsertChat and
 * totalUnread in plugin/js/Store.js; applyPatch and markRead in plugin/Service.qml).
 */
module ChatList {
  import opened Prelude
  import Text

  /** A missing last_message_at reads as "", a missing unread_count as 0; body stands for the other fields. */
  datatype Chat = Chat(id: string, lastMessageAt: string, unread: int, body: string)

  function Total(chats: seq<Chat>): int {
    if chats == [] then 0 else Total(chats[..|chats| - 1]) + chats[|chats| - 1].unread
  }

  // ---------------------------------------------------------------- the order

  /** Newest first. */
  ghost predicate Sorted(chats: seq<Chat>) {
    forall i, j :: 0 <= i < j < |chats| ==> !Text.Less(chats[i].lastMessageAt, chats[j].lastMessageAt)
  }

  function AtTime(chats: seq<Chat>, time: string): seq<Chat> {
    if chats == [] then []
    else (if chats[0].lastMessageAt == time then [chats[0]] else []) + AtTime(chats[1..], time)
  }

  /** What a stable sort makes of a list: newest first, and chats of the same time in the order they had. */
  ghost predicate Listing(chats: seq<Chat>, out: seq<Chat>) {
    Sorted(out) && forall time :: AtTime(out, time) == AtTime(chats, time)
  }

  function Place(sorted: seq<Chat>, c: Chat): seq<Chat> {
    if sorted == [] || Text.Less(sorted[0].lastMessageAt, c.lastMessageAt) then [c] + sorted
    else [sorted[0]] + Place(sorted[1..], c)
  }

  function SortedBy(chats: seq<Chat>): seq<Chat> {
    if chats == [] then [] else Place(SortedBy(chats[..|chats| - 1]), chats[|chats| - 1])
  }

  lemma {:induction false} PlaceMembers(s: seq<Chat>, c: Chat, x: Chat)
    ensures x in Place(s, c) <==> x == c || x in s
  {
    if s != [] && !Text.Less(s[0].lastMessageAt, c.lastMessageAt) {
      PlaceMembers(s[1..], c, x);
      assert s == [s[0]] + s[1..];
    }
  }

  lemma {:induction false} SortedCons(c: Chat, s: seq<Chat>)
    requires Sorted(s) && forall x :: x in s ==> !Text.Less(c.lastMessageAt, x.lastMessageAt)
    ensures Sorted([c] + s)
  {
    var all := [c] + s;
    forall i, j | 0 <= i < j < |all| ensures !Text.Less(all[i].lastMessageAt, all[j].lastMessageAt) {
      assert all[j] == s[j - 1] && s[j - 1] in s;
    }
  }

  lemma {:induction false} SortedHead(s: seq<Chat>, x: Chat)
    requires Sorted(s) && x in s
    ensures s != [] && !Text.Less(s[0].lastMessageAt, x.lastMessageAt)
  {
    var i :| 0 <= i < |s| && s[i] == x;
    Text.Irreflexive(x.lastMessageAt);
  }

  lemma {:induction false} PlaceSorted(s: seq<Chat>, c: Chat)
    requires Sorted(s)
    ensures Sorted(Place(s, c))
  {
    if s == [] {
    } else if Text.Less(s[0].lastMessageAt, c.lastMessageAt) {
      forall x | x in s ensures !Text.Less(c.lastMessageAt, x.lastMessageAt) {
        SortedHead(s, x);
        if Text.Less(c.lastMessageAt, x.lastMessageAt) {
          Text.Transitive(s[0].lastMessageAt, c.lastMessageAt, x.lastMessageAt);
        }
      }
      SortedCons(c, s);
    } else {
      PlaceSorted(s[1..], c);
      forall x | x in Place(s[1..], c) ensures !Text.Less(s[0].lastMessageAt, x.lastMessageAt) {
        PlaceMembers(s[1..], c, x);
        assert x != c ==> x in s;
        if x in s {
          SortedHead(s, x);
        }
      }
      SortedCons(s[0], Place(s[1..], c));
    }
  }

  lemma {:induction false} AtTimeCons(c: Chat, s: seq<Chat>, time: string)
    ensures AtTime([c] + s, time) == (if c.lastMessageAt == time then [c] else []) + AtTime(s, time)
  {
    assert ([c] + s)[1..] == s;
  }

  /** A chat is placed after those of its own time. */
  lemma {:induction false} PlaceAtTime(s: seq<Chat>, c: Chat, time: string)
    requires Sorted(s)
    ensures AtTime(Place(s, c), time) == AtTime(s, time) + if c.lastMessageAt == time then [c] else []
  {
    if s == [] || Text.Less(s[0].lastMessageAt, c.lastMessageAt) {
      AtTimeCons(c, s, time);
      if s != [] && c.lastMessageAt == time {
        NoneAtTime(s, time);
      }
    } else {
      PlaceAtTime(s[1..], c, time);
      hide AtTime;
      AtTimeCons(s[0], Place(s[1..], c), time);
      AtTimeCons(s[0], s[1..], time);
      assert s == [s[0]] + s[1..];
    }
  }

  lemma {:induction false} NoneAtTime(s: seq<Chat>, time: string)
    requires Sorted(s) && s != [] && Text.Less(s[0].lastMessageAt, time)
    ensures AtTime(s, time) == []
  {
    Text.Irreflexive(time);
    if |s| > 1 {
      assert !Text.Less(s[0].lastMessageAt, s[1].lastMessageAt);
      Text.Total(s[0].lastMessageAt, s[1].lastMessageAt);
      if Text.Less(s[1].lastMessageAt, s[0].lastMessageAt) {
        Text.Transitive(s[1].lastMessageAt, s[0].lastMessageAt, time);
      }
      NoneAtTime(s[1..], time);
    }
  }

  lemma {:induction false} AtTimeSnoc(front: seq<Chat>, c: Chat, time: string)
    ensures AtTime(front + [c], time) == AtTime(front, time) + if c.lastMessageAt == time then [c] else []
  {
    if front == [] {
      assert front + [c] == [c] && [c][1..] == [];
    } else {
      AtTimeSnoc(front[1..], c, time);
      assert (front + [c])[1..] == front[1..] + [c];
    }
  }

  lemma {:induction false} SortIsListing(chats: seq<Chat>)
    ensures Listing(chats, SortedBy(chats))
  {
    if chats != [] {
      var front, last := chats[..|chats| - 1], chats[|chats| - 1];
      SortIsListing(front);
      PlaceSorted(SortedBy(front), last);
      assert chats == front + [last];
      forall time ensures AtTime(SortedBy(chats), time) == AtTime(chats, time) {
        PlaceAtTime(SortedBy(front), last, time);
        AtTimeSnoc(front, last, time);
      }
    }
  }

  lemma {:induction false} AtTimeMembers(s: seq<Chat>, x: Chat)
    ensures x in AtTime(s, x.lastMessageAt) <==> x in s
  {
    if s != [] {
      AtTimeMembers(s[1..], x);
      assert s == [s[0]] + s[1..];
    }
  }

  lemma {:induction false} TailsAtTime(a: seq<Chat>, b: seq<Chat>, time: string)
    requires a != [] && b != [] && a[0] == b[0] && AtTime(a, time) == AtTime(b, time)
    ensures AtTime(a[1..], time) == AtTime(b[1..], time)
  {
    var head := if a[0].lastMessageAt == time then [a[0]] else [];
    assert AtTime(a, time) == head + AtTime(a[1..], time) && AtTime(b, time) == head + AtTime(b[1..], time);
    assert AtTime(a[1..], time) == AtTime(a, time)[|head|..] && AtTime(b[1..], time) == AtTime(b, time)[|head|..];
  }

  lemma {:induction false} HeadAtTime(s: seq<Chat>)
    requires s != []
    ensures AtTime(s, s[0].lastMessageAt) != [] && AtTime(s, s[0].lastMessageAt)[0] == s[0]
  {
  }

  lemma {:induction false} SameHead(a: seq<Chat>, b: seq<Chat>)
    requires Sorted(a) && Sorted(b) && a != [] && b != []
    requires a[0] in b && b[0] in a && AtTime(a, a[0].lastMessageAt) == AtTime(b, a[0].lastMessageAt)
    ensures a[0] == b[0]
  {
    SortedHead(a, b[0]);
    SortedHead(b, a[0]);
    Text.Total(a[0].lastMessageAt, b[0].lastMessageAt);
    HeadAtTime(a);
    HeadAtTime(b);
  }

  lemma {:induction false} SameList(a: seq<Chat>, b: seq<Chat>)
    requires Sorted(a) && Sorted(b) && forall time :: AtTime(a, time) == AtTime(b, time)
    ensures a == b
    decreases |a|
  {
    assert b != [] ==> b[0] in b;
    forall x ensures x in a <==> x in b {
      AtTimeMembers(a, x);
      AtTimeMembers(b, x);
    }
    hide AtTime;
    if a != [] {
      assert a[0] in a && a[0] in b;
      assert b[0] in b;
      SameHead(a, b);
      forall time ensures AtTime(a[1..], time) == AtTime(b[1..], time) {
        TailsAtTime(a, b, time);
      }
      SameList(a[1..], b[1..]);
      assert a == [a[0]] + a[1..] && b == [b[0]] + b[1..];
    }
  }

  /** The order is determined: no two different lists are listings of the same chats. */
  lemma {:induction false} ListingUnique(chats: seq<Chat>, a: seq<Chat>, b: seq<Chat>)
    requires Listing(chats, a) && Listing(chats, b)
    ensures a == b
  {
    SameList(a, b);
  }

  // -------------------------------------------------------------- upsertChat

  ghost predicate DistinctIds(chats: seq<Chat>) {
    forall i, j :: 0 <= i < j < |chats| ==> chats[i].id != chats[j].id
  }

  predicate HasId(chats: seq<Chat>, id: string) {
    exists i :: 0 <= i < |chats| && chats[i].id == id
  }

  /** Every row of this id replaced. */
  function Swapped(chats: seq<Chat>, chat: Chat): (out: seq<Chat>)
    ensures |out| == |chats|
    ensures forall i :: 0 <= i < |out| ==> out[i] == if chats[i].id == chat.id then chat else chats[i]
  {
    seq(|chats|, i requires 0 <= i < |chats| => if chats[i].id == chat.id then chat else chats[i])
  }

  function Replaced(chats: seq<Chat>, chat: Chat): seq<Chat> {
    if HasId(chats, chat.id) then Swapped(chats, chat) else chats + [chat]
  }

  function Upserted(chats: seq<Chat>, chat: Chat): seq<Chat> {
    SortedBy(Replaced(chats, chat))
  }

  method UpsertChat(chats: seq<Chat>, chat: Chat) returns (out: seq<Chat>)
    ensures out == Upserted(chats, chat) && Listing(Replaced(chats, chat), out)
  {
    out := [];
    var found := false;
    for i := 0 to |chats|
      invariant out == Swapped(chats[..i], chat)
      invariant found <==> HasId(chats[..i], chat.id)
    {
      if chats[i].id == chat.id {
        out := out + [chat];
        found := true;
        assert chats[..i + 1][i].id == chat.id;
      } else {
        out := out + [chats[i]];
        assert forall j :: 0 <= j < i ==> chats[..i + 1][j] == chats[..i][j];
      }
    }
    assert chats[..|chats|] == chats;
    if !found {
      out := out + [chat];
      assert Swapped(chats, chat) == chats;
    }
    SortIsListing(out);
    out := Sort(out);
  }

  method Sort(chats: seq<Chat>) returns (out: seq<Chat>)
    ensures out == SortedBy(chats)
  {
    out := [];
    for i := 0 to |chats|
      invariant out == SortedBy(chats[..i])
    {
      assert chats[..i + 1][..i] == chats[..i];
      out := Place(out, chats[i]);
    }
    assert chats[..|chats|] == chats;
  }

  lemma {:induction false} SortedMembers(chats: seq<Chat>, x: Chat)
    ensures x in SortedBy(chats) <==> x in chats
  {
    SortIsListing(chats);
    AtTimeMembers(chats, x);
    AtTimeMembers(SortedBy(chats), x);
  }

  /** Afterwards the chat has the row given, and every other chat the row it had. */
  lemma {:induction false} UpsertMembers(chats: seq<Chat>, chat: Chat, x: Chat)
    ensures x in Upserted(chats, chat) <==> x == chat || (x in chats && x.id != chat.id)
  {
    SortedMembers(Replaced(chats, chat), x);
    var out := Replaced(chats, chat);
    if HasId(chats, chat.id) {
      var i :| 0 <= i < |chats| && chats[i].id == chat.id;
      assert out[i] == chat;
      if x in chats && x.id != chat.id {
        var j :| 0 <= j < |chats| && chats[j] == x;
        assert out[j] == x;
      }
    }
  }

  /** The same event again changes nothing. */
  lemma {:induction false} UpsertIdempotent(chats: seq<Chat>, chat: Chat)
    ensures Upserted(Upserted(chats, chat), chat) == Upserted(chats, chat)
  {
    var once := Upserted(chats, chat);
    SortIsListing(Replaced(chats, chat));
    UpsertMembers(chats, chat, chat);
    var k :| 0 <= k < |once| && once[k] == chat;
    assert HasId(once, chat.id);
    forall i | 0 <= i < |once| ensures once[i].id == chat.id ==> once[i] == chat {
      assert once[i] in once;
      UpsertMembers(chats, chat, once[i]);
    }
    assert Swapped(once, chat) == once;
    SortIsListing(once);
    ListingUnique(once, once, SortedBy(once));
  }

  lemma {:induction false} PlaceLength(s: seq<Chat>, c: Chat)
    ensures |Place(s, c)| == |s| + 1 && Total(Place(s, c)) == Total(s) + c.unread
    ensures multiset(Place(s, c)) == multiset(s) + multiset{c}
  {
    if s == [] {
      assert [c][..0] == [];
    } else if Text.Less(s[0].lastMessageAt, c.lastMessageAt) {
      TotalCons(c, s);
    } else {
      PlaceLength(s[1..], c);
      TotalCons(s[0], Place(s[1..], c));
      TotalCons(s[0], s[1..]);
      assert s == [s[0]] + s[1..];
    }
  }

  lemma {:induction false} TotalCons(c: Chat, s: seq<Chat>)
    ensures Total([c] + s) == c.unread + Total(s)
  {
    var all := [c] + s;
    if s == [] {
      assert all[..0] == [];
    } else {
      TotalCons(c, s[..|s| - 1]);
      assert all[..|all| - 1] == [c] + s[..|s| - 1];
    }
  }

  /** Sorting neither loses nor repeats a row. */
  lemma {:induction false} SortKeeps(chats: seq<Chat>)
    ensures multiset(SortedBy(chats)) == multiset(chats) && Total(SortedBy(chats)) == Total(chats)
  {
    if chats != [] {
      var front, last := chats[..|chats| - 1], chats[|chats| - 1];
      SortKeeps(front);
      PlaceLength(SortedBy(front), last);
      assert chats == front + [last];
    }
  }

  // ----------------------------------------------------------------- the badge

  datatype State = State(chats: seq<Chat>, unreadCount: int)

  const START := State([], 0)

  datatype Event =
    | Chats(chats: seq<Chat>)
    | Message(chat: Option<Chat>)
    | MarkRead(id: string)
    | ReadReply(chat: Option<Chat>)

  /** markRead clears this row. */
  predicate Clears(chat: Chat, id: string) {
    chat.id == id && chat.unread > 0
  }

  function ReadOff(chat: Chat, id: string): Chat {
    if Clears(chat, id) then chat.(unread := 0) else chat
  }

  function AllRead(chats: seq<Chat>, id: string): (out: seq<Chat>)
    ensures |out| == |chats|
  {
    seq(|chats|, i requires 0 <= i < |chats| => ReadOff(chats[i], id))
  }

  /** The sum that markRead takes: the counts of the rows that it does not clear. */
  function OtherUnread(chats: seq<Chat>, id: string): int {
    if chats == [] then 0
    else
      var last := chats[|chats| - 1];
      OtherUnread(chats[..|chats| - 1], id) + if Clears(last, id) then 0 else last.unread
  }

  /** The sum that the reply handler of markReadProc takes, with the count of the reply for its chat. */
  function RepliedUnread(chats: seq<Chat>, chat: Chat): int {
    if chats == [] then 0
    else
      var last := chats[|chats| - 1];
      RepliedUnread(chats[..|chats| - 1], chat) + if last.id == chat.id then chat.unread else last.unread
  }

  /**
   * A snapshot, a reply of chats.list or sync.chats replaces the list, sync.message updates one chat,
   * markRead clears one count, and the reply to it replaces the row of the chat where it stands.
   */
  function Step(s: State, e: Event): State {
    match e
    case Chats(chats) => State(chats, Total(chats))
    case Message(None) => s
    case Message(Some(chat)) => State(Upserted(s.chats, chat), Total(Upserted(s.chats, chat)))
    case MarkRead(id) =>
      if exists i :: 0 <= i < |s.chats| && Clears(s.chats[i], id)
      then State(AllRead(s.chats, id), OtherUnread(s.chats, id))
      else s
    case ReadReply(None) => s
    case ReadReply(Some(chat)) => State(Swapped(s.chats, chat), RepliedUnread(s.chats, chat))
  }

  function Run(events: seq<Event>): State {
    if events == [] then START else Step(Run(events[..|events| - 1]), events[|events| - 1])
  }

  lemma {:induction false} OtherUnreadIsTotal(chats: seq<Chat>, id: string)
    ensures OtherUnread(chats, id) == Total(AllRead(chats, id))
  {
    if chats != [] {
      var front := chats[..|chats| - 1];
      OtherUnreadIsTotal(front, id);
      assert AllRead(chats, id)[..|front|] == AllRead(front, id);
    }
  }

  lemma {:induction false} RepliedUnreadIsTotal(chats: seq<Chat>, chat: Chat)
    ensures RepliedUnread(chats, chat) == Total(Swapped(chats, chat))
  {
    if chats != [] {
      var front := chats[..|chats| - 1];
      RepliedUnreadIsTotal(front, chat);
      assert Swapped(chats, chat)[..|front|] == Swapped(front, chat);
    }
  }

  /** In every run the badge is the sum of the counts shown, however each handler arrives at it. */
  lemma {:induction false} BadgeAgrees(events: seq<Event>)
    ensures Run(events).unreadCount == Total(Run(events).chats)
  {
    if events != [] {
      var s, e := Run(events[..|events| - 1]), events[|events| - 1];
      BadgeAgrees(events[..|events| - 1]);
      match e
      case MarkRead(id) => OtherUnreadIsTotal(s.chats, id);
      case ReadReply(Some(chat)) => RepliedUnreadIsTotal(s.chats, chat);
      case _ =>
    }
  }

  // ------------------------------------------------------------- one row per chat

  lemma {:induction false} PlaceDistinct(s: seq<Chat>, c: Chat)
    requires DistinctIds(s) && !HasId(s, c.id)
    ensures DistinctIds(Place(s, c))
  {
    var out := Place(s, c);
    if s != [] && !Text.Less(s[0].lastMessageAt, c.lastMessageAt) {
      var rest := s[1..];
      assert forall i :: 0 <= i < |rest| ==> rest[i] == s[i + 1];
      PlaceDistinct(rest, c);
      forall j | 1 <= j < |out| ensures out[0].id != out[j].id {
        PlaceMembers(rest, c, out[j]);
        assert Place(rest, c)[j - 1] == out[j];
      }
    }
  }

  lemma {:induction false} SortDistinct(chats: seq<Chat>)
    requires DistinctIds(chats)
    ensures DistinctIds(SortedBy(chats))
  {
    if chats != [] {
      var front, last := chats[..|chats| - 1], chats[|chats| - 1];
      SortDistinct(front);
      forall i | 0 <= i < |SortedBy(front)| ensures SortedBy(front)[i].id != last.id {
        SortedMembers(front, SortedBy(front)[i]);
      }
      PlaceDistinct(SortedBy(front), last);
    }
  }

  /** In every run whose lists have one row per chat the list shown has one row per chat. */
  lemma {:induction false} OneRowPerChat(events: seq<Event>)
    requires forall i :: 0 <= i < |events| && events[i].Chats? ==> DistinctIds(events[i].chats)
    ensures DistinctIds(Run(events).chats)
  {
    if events != [] {
      var s, e := Run(events[..|events| - 1]), events[|events| - 1];
      OneRowPerChat(events[..|events| - 1]);
      if e.Message? && e.chat.Some? {
        SortDistinct(Replaced(s.chats, e.chat.value));
      }
    }
  }

  // ------------------------------------------------------------- every row shown

  function RowIn(chats: seq<Chat>, id: string): (row: Option<Chat>)
    ensures row.Some? ==> row.value in chats && row.value.id == id
    ensures row.None? ==> !HasId(chats, id)
  {
    if chats == [] then None
    else if chats[0].id == id then Some(chats[0])
    else
      assert forall i :: 1 <= i < |chats| ==> chats[1..][i - 1] == chats[i];
      RowIn(chats[1..], id)
  }

  /** The row that the last event about this chat gave it, with its count cleared by every mark since. */
  ghost function RowOf(events: seq<Event>, id: string): Option<Chat> {
    if events == [] then None
    else
      var before := RowOf(events[..|events| - 1], id);
      match events[|events| - 1]
      case Chats(chats) => RowIn(chats, id)
      case Message(Some(chat)) => if chat.id == id then Some(chat) else before
      case MarkRead(marked) =>
        if marked == id && before.Some? && before.value.unread > 0 then Some(before.value.(unread := 0)) else before
      case ReadReply(Some(chat)) => if chat.id == id && before.Some? then Some(chat) else before
      case _ => before
  }

  lemma {:induction false} RowIsIn(chats: seq<Chat>, c: Chat)
    requires DistinctIds(chats)
    ensures RowIn(chats, c.id) == Some(c) <==> c in chats
  {
    if c in chats {
      var i :| 0 <= i < |chats| && chats[i] == c;
      var r := RowIn(chats, c.id).value;
      var j :| 0 <= j < |chats| && chats[j] == r;
      assert i == j;
    }
  }

  lemma {:induction false} UpsertedRow(chats: seq<Chat>, chat: Chat, id: string)
    requires DistinctIds(chats)
    ensures RowIn(Upserted(chats, chat), id) == if chat.id == id then Some(chat) else RowIn(chats, id)
  {
    hide Upserted;
    var out, row := Upserted(chats, chat), if chat.id == id then Some(chat) else RowIn(chats, id);
    assert DistinctIds(out) by { UpsertDistinct(chats, chat); }
    if row.Some? {
      UpsertMembers(chats, chat, row.value);
      RowIsIn(out, row.value);
    } else if RowIn(out, id).Some? {
      UpsertMembers(chats, chat, RowIn(out, id).value);
      RowIsIn(chats, RowIn(out, id).value);
    }
  }

  lemma {:induction false} UpsertDistinct(chats: seq<Chat>, chat: Chat)
    requires DistinctIds(chats)
    ensures DistinctIds(Upserted(chats, chat))
  {
    SortDistinct(Replaced(chats, chat));
  }

  lemma {:induction false} MarkedRow(chats: seq<Chat>, marked: string, id: string)
    ensures var before := RowIn(chats, id);
            RowIn(AllRead(chats, marked), id) ==
            if marked == id && before.Some? && before.value.unread > 0 then Some(before.value.(unread := 0)) else before
  {
    if chats != [] {
      MarkedRow(chats[1..], marked, id);
      assert AllRead(chats, marked)[1..] == AllRead(chats[1..], marked);
    }
  }

  lemma {:induction false} UnmarkedRow(s: State, marked: string, id: string)
    ensures RowIn(Step(s, MarkRead(marked)).chats, id) == RowIn(AllRead(s.chats, marked), id)
  {
    if forall i :: 0 <= i < |s.chats| ==> !Clears(s.chats[i], marked) {
      assert AllRead(s.chats, marked) == s.chats;
    }
  }

  lemma {:induction false} RepliedRow(chats: seq<Chat>, chat: Chat, id: string)
    ensures var before := RowIn(chats, id);
            RowIn(Swapped(chats, chat), id) == if chat.id == id && before.Some? then Some(chat) else before
  {
    if chats != [] {
      RepliedRow(chats[1..], chat, id);
      assert Swapped(chats, chat)[1..] == Swapped(chats[1..], chat);
    }
  }

  lemma {:induction false} RowFollows(events: seq<Event>, id: string)
    requires forall i :: 0 <= i < |events| && events[i].Chats? ==> DistinctIds(events[i].chats)
    ensures RowIn(Run(events).chats, id) == RowOf(events, id)
  {
    if events != [] {
      var front, e := events[..|events| - 1], events[|events| - 1];
      var s := Run(front);
      OneRowPerChat(front);
      RowFollows(front, id);
      hide AllRead, Swapped, Upserted;
      match e
      case Message(Some(chat)) => UpsertedRow(s.chats, chat, id);
      case MarkRead(marked) =>
        UnmarkedRow(s, marked, id);
        MarkedRow(s.chats, marked, id);
      case ReadReply(Some(chat)) => RepliedRow(s.chats, chat, id);
      case _ =>
    }
  }

  /**
   * In every run whose lists have one row per chat, each chat shows the row that the last event about it
   * gave it, and a mark clears the count of that chat and of no other.
   */
  lemma {:induction false} RowsShown(events: seq<Event>, c: Chat)
    requires forall i :: 0 <= i < |events| && events[i].Chats? ==> DistinctIds(events[i].chats)
    ensures c in Run(events).chats <==> RowOf(events, c.id) == Some(c)
  {
    OneRowPerChat(events);
    RowFollows(events, c.id);
    RowIsIn(Run(events).chats, c);
  }

  /** Marks and replies leave every chat at its place; a message puts the list in order. */
  lemma {:induction false} PlacesKept(s: State, e: Event)
    ensures e.MarkRead? || e.ReadReply? ==>
              var later := Step(s, e).chats;
              |later| == |s.chats| && forall i :: 0 <= i < |later| ==> later[i].id == s.chats[i].id
    ensures e.Message? && e.chat.Some? ==> Sorted(Step(s, e).chats)
    ensures e.Chats? ==> Step(s, e).chats == e.chats
  {
    if e.Message? && e.chat.Some? {
      SortIsListing(Replaced(s.chats, e.chat.value));
    }
  }

  /** A message event moves the badge by the difference of the chat's counts. */
  lemma {:induction false} MessageMovesBadge(s: State, chat: Chat, k: nat)
    requires DistinctIds(s.chats) && s.unreadCount == Total(s.chats)
    requires k <= |s.chats| && (k < |s.chats| ==> s.chats[k].id == chat.id)
    requires k == |s.chats| ==> !HasId(s.chats, chat.id)
    ensures Step(s, Message(Some(chat))).unreadCount ==
            s.unreadCount + chat.unread - if k < |s.chats| then s.chats[k].unread else 0
  {
    SortKeeps(Replaced(s.chats, chat));
    if k < |s.chats| {
      assert Swapped(s.chats, chat) == s.chats[k := chat];
      TotalOfUpdate(s.chats, k, chat);
    } else {
      assert (s.chats + [chat])[..|s.chats|] == s.chats;
    }
  }

  lemma {:induction false} TotalOfUpdate(chats: seq<Chat>, k: nat, chat: Chat)
    requires k < |chats|
    ensures Total(chats[k := chat]) == Total(chats) - chats[k].unread + chat.unread
  {
    var later := chats[k := chat];
    var n := |chats| - 1;
    if k < n {
      TotalOfUpdate(chats[..n], k, chat);
      assert later[..n] == chats[..n][k := chat];
    } else {
      assert later[..n] == chats[..n];
    }
  }

  class Service {
    var chats: seq<Chat>
    var unreadCount: int

    ghost function View(): State
      reads this
    {
      State(chats, unreadCount)
    }

    constructor ()
      ensures View() == START
    {
      chats, unreadCount := [], 0;
    }

    /** applySnapshot, or applyEvent for sync.chats. */
    method ReplaceChats(list: seq<Chat>)
      modifies this
      ensures View() == Step(old(View()), Chats(list))
    {
      chats := list;
      unreadCount := TotalUnread(list);
    }

    /** applyMessage, as far as chats go. */
    method ApplyMessage(chat: Option<Chat>)
      modifies this
      ensures View() == Step(old(View()), Message(chat))
    {
      if chat.Some? {
        chats := UpsertChat(chats, chat.value);
        unreadCount := TotalUnread(chats);
      }
    }

    method SetRead(id: string)
      modifies this
      ensures View() == Step(old(View()), MarkRead(id))
    {
      var next, total, dirty := Reading(chats, id);
      if dirty {
        chats := next;
        unreadCount := total;
      }
    }

    /** onStreamFinished of markReadProc. */
    method OnReadReply(chat: Option<Chat>)
      modifies this
      ensures View() == Step(old(View()), ReadReply(chat))
    {
      if chat.Some? {
        chats, unreadCount := Replying(chats, chat.value);
      }
    }
  }

  /** The loop of markRead. */
  method Reading(chats: seq<Chat>, id: string) returns (next: seq<Chat>, total: int, dirty: bool)
    ensures next == AllRead(chats, id) && total == OtherUnread(chats, id)
    ensures dirty <==> exists i :: 0 <= i < |chats| && Clears(chats[i], id)
  {
    next, total, dirty := [], 0, false;
    for i := 0 to |chats|
      invariant next == AllRead(chats[..i], id) && total == OtherUnread(chats[..i], id)
      invariant dirty <==> exists j :: 0 <= j < i && Clears(chats[j], id)
    {
      assert chats[..i + 1][..i] == chats[..i];
      if chats[i].id == id && chats[i].unread > 0 {
        next := next + [chats[i].(unread := 0)];
        dirty := true;
        assert Clears(chats[i], id);
      } else {
        next := next + [chats[i]];
        total := total + chats[i].unread;
      }
    }
    assert chats[..|chats|] == chats;
  }

  /** The loop of the reply handler. */
  method Replying(chats: seq<Chat>, chat: Chat) returns (next: seq<Chat>, total: int)
    ensures next == Swapped(chats, chat) && total == RepliedUnread(chats, chat)
  {
    next, total := [], 0;
    for i := 0 to |chats|
      invariant next == Swapped(chats[..i], chat) && total == RepliedUnread(chats[..i], chat)
    {
      assert chats[..i + 1][..i] == chats[..i];
      next := next + [if chats[i].id == chat.id then chat else chats[i]];
      total := total + if chats[i].id == chat.id then chat.unread else chats[i].unread;
    }
    assert chats[..|chats|] == chats;
  }

  method TotalUnread(chats: seq<Chat>) returns (n: int)
    ensures n == Total(chats)
  {
    n := 0;
    for i := 0 to |chats|
      invariant n == Total(chats[..i])
    {
      assert chats[..i + 1][..i] == chats[..i];
      n := n + chats[i].unread;
    }
    assert chats[..|chats|] == chats;
  }
}
