/**
 * "Load older": pages of 200 messages asked for with the time of the oldest one shown
 * (plugin/Panel.qml, plugin/Service.qml) and served newest first up to that time
 * (list_messages in sync/src/cache.rs), over a cache that does not change meanwhile.
 */
module Paging {
  import opened Prelude
  import opened Timeline
  import H = History
  import Query
  import Text

  const PAGE: nat := 200

  // -------------------------------------------------------------- the server

  /** A message without a time has the empty string for one, and NULL in its column. */
  function TimeOf(m: Msg): Option<string> {
    if m.createdAt == "" then None else Some(m.createdAt)
  }

  /** created_at < before, which no NULL satisfies. */
  predicate Older(m: Msg, before: string) {
    m.createdAt != "" && Text.Less(m.createdAt, before)
  }

  /** The messages of a chat that a request selects from; no point in time is the empty string. */
  ghost function Before(chat: set<Msg>, before: string): map<Msg, Option<string>> {
    map m | m in chat && (before == "" || Older(m, before)) :: TimeOf(m)
  }

  /** A page that messages.history may answer: the newest messages of the chat before a time, oldest first. */
  ghost predicate Serves(chat: set<Msg>, before: string, page: seq<Msg>) {
    Query.IsNewest(Before(chat, before), PAGE, Backwards(page))
  }

  // -------------------------------------------------------------- the client

  /** A request, its reply and its exit, with nothing else going on. */
  function Fetched(s: H.State, before: string, page: seq<Msg>): H.State {
    H.Step(H.Step(H.Step(s, H.Load(H.Request(s.openChat, before))), H.Reply(Some(page))), H.Exit)
  }

  /** The thread of a chat is open and no request is in flight. */
  ghost predicate Open(s: H.State) {
    s.openChat != "" && !s.running && s.pending == None
  }

  /** The button does nothing without an oldest message that has a time. */
  predicate CanLoadOlder(s: H.State) {
    s.messages != [] && s.messages[0].createdAt != ""
  }

  /** One use of the button. */
  ghost predicate LoadsOlder(chat: set<Msg>, s: H.State, later: H.State) {
    if CanLoadOlder(s)
    then
      var before := s.messages[0].createdAt;
      exists page :: Serves(chat, before, page) && later == Fetched(s, before, page)
    else later == s
  }

  /** The states of a thread: after the initial load, and after each use of the button. */
  ghost predicate Session(chat: set<Msg>, start: H.State, states: seq<H.State>) {
    && Open(start) && states != []
    && (exists page :: Serves(chat, "", page) && states[0] == Fetched(start, "", page))
    && forall k :: 0 < k < |states| ==> LoadsOlder(chat, states[k - 1], states[k])
  }

  // ----------------------------------------------------- what a reply leads to

  lemma {:induction false} FetchedMeaning(s: H.State, before: string, page: seq<Msg>)
    requires Open(s)
    ensures var later := Fetched(s, before, page);
            && Open(later) && later.openChat == s.openChat
            && later.messages == if before == "" then Merged(page) else Merged(page + s.messages)
  {
    assert page + [] == page;
    assert Merge(page, []) == Merged(page);
    if before != "" {
      var all := page + s.messages;
      assert Merged(all) + [] == Merged(all);
      MergedMeaning(all);
      MergeOrdered(Merged(all));
    }
  }

  // -------------------------------------------------------------- the history

  /** The whole history of a chat in the client's order, one message per id. Times may be equal or missing. */
  ghost predicate HistoryOf(hist: seq<Msg>, chat: set<Msg>) {
    Ordered(hist) && forall m :: m in hist <==> m in chat
  }

  lemma {:induction false} EarlierIsLess(a: Msg, b: Msg)
    ensures Query.Earlier(TimeOf(a), TimeOf(b)) <==> Text.Less(a.createdAt, b.createdAt)
  {
  }

  lemma {:induction false} LessThenNotMore(a: string, b: string, c: string)
    requires Text.Less(a, b) && !Text.Less(c, b)
    ensures Text.Less(a, c)
  {
    Text.Total(b, c);
    if Text.Less(b, c) {
      Text.Transitive(a, b, c);
    }
  }

  lemma {:induction false} NotMoreThenLess(a: string, b: string, c: string)
    requires !Text.Less(b, a) && Text.Less(b, c)
    ensures Text.Less(a, c)
  {
    Text.Total(a, b);
    if Text.Less(a, b) {
      Text.Transitive(a, b, c);
    }
  }

  lemma {:induction false} NotLater(hist: seq<Msg>, i: nat, j: nat)
    requires Ordered(hist) && i <= j < |hist|
    ensures !Text.Less(hist[j].createdAt, hist[i].createdAt)
  {
    Text.Irreflexive(hist[i].createdAt);
    if i < j && Text.Less(hist[i].createdAt, hist[j].createdAt) {
      Text.Asymmetric(hist[i].createdAt, hist[j].createdAt);
    }
  }

  /** No two messages on different sides of index c have the same time. */
  predicate CleanCut(hist: seq<Msg>, c: nat) {
    0 < c < |hist| ==> hist[c - 1].createdAt != hist[c].createdAt
  }

  lemma {:induction false} AcrossCleanCut(hist: seq<Msg>, c: nat, i: nat, j: nat)
    requires Ordered(hist) && CleanCut(hist, c) && i < c <= j < |hist|
    ensures Text.Less(hist[i].createdAt, hist[j].createdAt)
  {
    NotLater(hist, i, c - 1);
    NotLater(hist, c, j);
    assert Timeline.Before(hist[c - 1], hist[c]);
    NotMoreThenLess(hist[i].createdAt, hist[c - 1].createdAt, hist[c].createdAt);
    LessThenNotMore(hist[i].createdAt, hist[c].createdAt, hist[j].createdAt);
  }

  ghost function Slice(hist: seq<Msg>, a: nat, b: nat): set<Msg>
    requires a <= b <= |hist|
  {
    set i | a <= i < b :: hist[i]
  }

  lemma {:induction false} SliceSize(hist: seq<Msg>, a: nat, b: nat)
    requires Ordered(hist) && a <= b <= |hist|
    ensures |Slice(hist, a, b)| == b - a
    ensures forall m :: m in hist[a..b] <==> m in Slice(hist, a, b)
  {
    var part := hist[a..b];
    forall m ensures m in part <==> m in Slice(hist, a, b) {
      if m in Slice(hist, a, b) {
        var i :| a <= i < b && hist[i] == m;
        assert part[i - a] == m;
      }
    }
    forall i, j | 0 <= i < j < |part| ensures part[i] != part[j] {
      assert part[i].id != part[j].id;
    }
    DistinctSize(part);
    assert Slice(hist, a, b) == set m | m in part;
  }

  lemma {:induction false} SliceOrdered(hist: seq<Msg>, a: nat, b: nat)
    requires Ordered(hist) && a <= b <= |hist|
    ensures Ordered(hist[a..b])
  {
    var part := hist[a..b];
    forall i, j | 0 <= i < j < |part| ensures Timeline.Before(part[i], part[j]) && part[i].id != part[j].id {
      assert part[i] == hist[a + i] && part[j] == hist[a + j];
    }
  }

  lemma {:induction false} SliceIndex(hist: seq<Msg>, a: nat, b: nat, i: nat)
    requires Ordered(hist) && a <= b <= |hist| && i < |hist|
    ensures hist[i] in Slice(hist, a, b) <==> a <= i < b
  {
    assert forall j :: a <= j < b && hist[j] == hist[i] ==> j == i;
  }

  lemma {:induction false} NotAmongLater(hist: seq<Msg>, c: nat, m: Msg)
    requires Ordered(hist) && c <= |hist| && m in Slice(hist, 0, c)
    ensures m in hist && m !in hist[c..]
  {
    var i :| 0 <= i < c && hist[i] == m;
    assert forall j :: 0 <= j < |hist| - c ==> hist[c..][j] == hist[c + j] && hist[c + j].id != hist[i].id;
  }

  // -------------------------------------------------------- what a page lists

  /** The request selects from the messages below index c of the history. */
  ghost predicate Pool(hist: seq<Msg>, chat: set<Msg>, before: string, c: nat) {
    c <= |hist| && Before(chat, before).Keys == Slice(hist, 0, c)
  }

  lemma {:induction false} PoolOfAll(hist: seq<Msg>, chat: set<Msg>)
    requires HistoryOf(hist, chat)
    ensures Pool(hist, chat, "", |hist|)
  {
    SliceSize(hist, 0, |hist|);
    assert hist[0..|hist|] == hist;
  }

  /** Where all messages have a time, a clean cut selects what is below it. */
  lemma {:induction false} PoolBelow(hist: seq<Msg>, chat: set<Msg>, c: nat)
    requires HistoryOf(hist, chat) && c < |hist| && CleanCut(hist, c)
    requires hist[0].createdAt != "" && hist[c].createdAt != ""
    ensures Pool(hist, chat, hist[c].createdAt, c)
  {
    forall m ensures m in Before(chat, hist[c].createdAt) <==> m in Slice(hist, 0, c) {
      if m in chat {
        assert m in hist;
        var i :| 0 <= i < |hist| && hist[i] == m;
        SliceIndex(hist, 0, c, i);
        if i < c {
          AcrossCleanCut(hist, c, i, c);
          NotLater(hist, 0, i);
        } else {
          NotLater(hist, c, i);
        }
      }
      if m in Slice(hist, 0, c) {
        assert m in hist;
      }
    }
  }

  lemma {:induction false} BackwardsMembers(page: seq<Msg>)
    ensures forall m :: m in page <==> m in Backwards(page)
  {
    forall m ensures m in page <==> m in Backwards(page) {
      if m in page {
        var i :| 0 <= i < |page| && page[i] == m;
        assert Backwards(page)[|page| - 1 - i] == m;
      }
    }
  }

  ghost function Listed(page: seq<Msg>): set<Msg> {
    set m | m in page
  }

  /** A page as a set: so many different messages of the pool. */
  lemma {:induction false} PageSize(hist: seq<Msg>, chat: set<Msg>, before: string, c: nat, page: seq<Msg>)
    requires Ordered(hist) && Pool(hist, chat, before, c) && Serves(chat, before, page)
    ensures |Listed(page)| == |page| == Min(PAGE, c) && Listed(page) <= Slice(hist, 0, c)
  {
    var times, keys := Before(chat, before), Backwards(page);
    SliceSize(hist, 0, c);
    assert |times| == |times.Keys| == c;
    DistinctSize(keys);
    BackwardsMembers(page);
    assert Listed(page) == set m | m in keys;
    assert forall m :: m in page ==> m in times;
  }

  /** And none left out is later than one listed. */
  lemma {:induction false} PageIsNewest(hist: seq<Msg>, chat: set<Msg>, before: string, c: nat, page: seq<Msg>,
                                        x: Msg, y: Msg)
    requires Pool(hist, chat, before, c) && Serves(chat, before, page)
    requires x in page && y in Slice(hist, 0, c) && y !in page
    ensures !Text.Less(x.createdAt, y.createdAt)
  {
    var times, keys := Before(chat, before), Backwards(page);
    BackwardsMembers(page);
    var i :| 0 <= i < |keys| && keys[i] == x;
    assert y in times && y !in keys;
    EarlierIsLess(x, y);
  }

  lemma {:induction false} TwoSets<T>(a: set<T>, b: set<T>) returns (x: T, y: T)
    requires |a| == |b| && a != b
    ensures x in a && x !in b && y in b && y !in a
  {
    if a <= b {
      SubsetSize(a, b);
      assert false;
    }
    if b <= a {
      SubsetSize(b, a);
      assert false;
    }
    x :| x in a && x !in b;
    y :| y in b && y !in a;
  }

  function Start(c: nat): nat {
    if c > PAGE then c - PAGE else 0
  }

  /** If the cut below them is clean, the page is the last messages of the pool. */
  lemma {:induction false} PageIs(hist: seq<Msg>, chat: set<Msg>, before: string, c: nat, page: seq<Msg>)
    requires HistoryOf(hist, chat) && Pool(hist, chat, before, c) && Serves(chat, before, page)
    requires CleanCut(hist, Start(c))
    ensures forall m :: m in page <==> m in Slice(hist, Start(c), c)
  {
    var wanted := Slice(hist, Start(c), c);
    PageSize(hist, chat, before, c, page);
    SliceSize(hist, Start(c), c);
    if Listed(page) != wanted {
      var x, y := TwoSets(Listed(page), wanted);
      var i :| 0 <= i < c && hist[i] == x;
      var j :| Start(c) <= j < c && hist[j] == y;
      SliceIndex(hist, Start(c), c, i);
      AcrossCleanCut(hist, Start(c), i, j);
      PageIsNewest(hist, chat, before, c, page, x, y);
      assert false;
    }
    assert forall m :: m in page <==> m in Listed(page);
  }

  lemma {:induction false} NotInSmaller<T>(a: set<T>, b: set<T>) returns (x: T)
    requires |a| > |b|
    ensures x in a && x !in b
  {
    if a <= b {
      SubsetSize(a, b);
      assert false;
    }
    x :| x in a && x !in b;
  }

  lemma {:induction false} SameTime(x: string, t: string, y: string)
    requires !Text.Less(y, t) && !Text.Less(t, x) && !Text.Less(x, y)
    ensures x == y
  {
    Text.Total(x, t);
    Text.Total(x, y);
    if Text.Less(x, t) {
      LessThenNotMore(x, t, y);
    }
  }

  /** If it is not, some message with the time of the cut is listed and another one is left out. */
  lemma {:induction false} PageSplits(hist: seq<Msg>, chat: set<Msg>, before: string, c: nat, page: seq<Msg>)
    returns (x: Msg, y: Msg)
    requires HistoryOf(hist, chat) && Pool(hist, chat, before, c) && Serves(chat, before, page)
    requires c > PAGE && !CleanCut(hist, c - PAGE)
    ensures x in page && y in Slice(hist, 0, c) && y !in page && x.createdAt == y.createdAt
  {
    var a := c - PAGE;
    PageSize(hist, chat, before, c, page);
    SliceSize(hist, a - 1, c);
    SliceSize(hist, a + 1, c);
    y := NotInSmaller(Slice(hist, a - 1, c), Listed(page));
    x := NotInSmaller(Listed(page), Slice(hist, a + 1, c));
    var i :| a - 1 <= i < c && hist[i] == y;
    var j :| 0 <= j < c && hist[j] == x;
    SliceIndex(hist, a + 1, c, j);
    NotLater(hist, a - 1, i);
    NotLater(hist, j, a);
    PageIsNewest(hist, chat, before, c, page, x, y);
    SameTime(x.createdAt, hist[a].createdAt, y.createdAt);
  }

  // ------------------------------------------------------------ clean paging

  /** How much of a history of this length is shown after k uses of the button. */
  function Shown(length: nat, k: nat): (n: nat)
    ensures n <= length
  {
    Min(PAGE * (k + 1), length)
  }

  /** The thread is open and shows the newest part of the history, from index c on. */
  ghost predicate ShowsFrom(s: H.State, hist: seq<Msg>, c: nat) {
    c <= |hist| && Open(s) && s.messages == hist[c..]
  }

  /** The first n page boundaries, counted from the newest message, are clean. */
  predicate CleanTo(hist: seq<Msg>, n: nat) {
    forall j: nat :: 1 <= j <= n && PAGE * j < |hist| ==> CleanCut(hist, |hist| - PAGE * j)
  }

  /** Among messages of the chat, what is merged is what is there. */
  lemma {:induction false} MergedWithin(all: seq<Msg>, hist: seq<Msg>, x: Msg)
    requires Ordered(hist) && forall y :: y in all ==> y in hist
    ensures x in Merged(all) <==> x in all
  {
    MergedMeaning(all);
    if x in all {
      LatestExists(all, x.id);
      var y :| Latest(all, y) && y.id == x.id;
      assert y in all && y in hist && x in hist;
    }
  }

  /** A page of the messages from a to c, merged with those from c on. */
  lemma {:induction false} MergedPage(hist: seq<Msg>, page: seq<Msg>, a: nat, c: nat)
    requires Ordered(hist) && a <= c <= |hist|
    requires forall m :: m in page <==> m in Slice(hist, a, c)
    ensures Merged(page + hist[c..]) == hist[a..]
  {
    var all := page + hist[c..];
    SliceSize(hist, a, c);
    assert hist[a..] == hist[a..c] + hist[c..] && hist[a..] == hist[a..|hist|];
    forall m ensures m in all <==> m in hist[a..] {
    }
    SliceOrdered(hist, a, |hist|);
    MergedMeaning(all);
    forall m ensures m in Merged(all) <==> m in hist[a..] {
      MergedWithin(all, hist, m);
    }
    SortedUnique(Merged(all), hist[a..]);
  }

  lemma {:induction false} FirstPage(hist: seq<Msg>, chat: set<Msg>, start: H.State, first: H.State, page: seq<Msg>)
    requires HistoryOf(hist, chat) && Open(start) && Serves(chat, "", page) && first == Fetched(start, "", page)
    requires CleanCut(hist, Start(|hist|))
    ensures ShowsFrom(first, hist, Start(|hist|))
  {
    PoolOfAll(hist, chat);
    PageIs(hist, chat, "", |hist|, page);
    FetchedMeaning(start, "", page);
    MergedPage(hist, page, Start(|hist|), |hist|);
    assert page + hist[|hist|..] == page;
  }

  lemma {:induction false} OneMorePage(hist: seq<Msg>, chat: set<Msg>, s: H.State, later: H.State, c: nat)
    requires HistoryOf(hist, chat) && ShowsFrom(s, hist, c) && CanLoadOlder(s) && LoadsOlder(chat, s, later)
    requires hist[0].createdAt != "" && CleanCut(hist, c) && CleanCut(hist, Start(c))
    ensures ShowsFrom(later, hist, Start(c))
  {
    var before := hist[c].createdAt;
    var page :| Serves(chat, before, page) && later == Fetched(s, before, page);
    PoolBelow(hist, chat, c);
    PageIs(hist, chat, before, c, page);
    FetchedMeaning(s, before, page);
    MergedPage(hist, page, Start(c), c);
  }

  /** The cuts at which the thread begins before and after the use of the button number k. */
  lemma {:induction false} CutsOf(hist: seq<Msg>, k: nat)
    requires k > 0 && CleanTo(hist, k + 1)
    ensures var c := |hist| - Shown(|hist|, k - 1);
            && Start(c) == |hist| - Shown(|hist|, k) && CleanCut(hist, c) && CleanCut(hist, Start(c))
            && (c == |hist| ==> hist == [])
  {
    assert PAGE * k < |hist| ==> CleanCut(hist, |hist| - PAGE * k);
    assert PAGE * (k + 1) < |hist| ==> CleanCut(hist, |hist| - PAGE * (k + 1));
  }

  lemma {:induction false} NextState(hist: seq<Msg>, chat: set<Msg>, s: H.State, later: H.State, c: nat)
    requires HistoryOf(hist, chat) && ShowsFrom(s, hist, c) && LoadsOlder(chat, s, later)
    requires CleanCut(hist, c) && CleanCut(hist, Start(c)) && (c == |hist| ==> hist == [])
    requires hist != [] ==> hist[0].createdAt != "" || c == 0
    ensures ShowsFrom(later, hist, Start(c))
  {
    if 0 < c < |hist| {
      LaterHasTime(hist, c);
    }
    if CanLoadOlder(s) {
      OneMorePage(hist, chat, s, later, c);
    }
  }

  lemma {:induction false} LaterHasTime(hist: seq<Msg>, c: nat)
    requires Ordered(hist) && c < |hist| && hist[0].createdAt != ""
    ensures hist[c].createdAt != ""
  {
    NotLater(hist, 0, c);
  }

  /** Messages without a time are found by the first request only. */
  predicate TimedBeyondOnePage(hist: seq<Msg>) {
    |hist| > PAGE ==> hist[0].createdAt != ""
  }

  lemma {:induction false} PagesShown(hist: seq<Msg>, chat: set<Msg>, start: H.State, states: seq<H.State>, k: nat)
    requires HistoryOf(hist, chat) && Session(chat, start, states) && k < |states|
    requires CleanTo(hist, k + 1) && TimedBeyondOnePage(hist)
    ensures ShowsFrom(states[k], hist, |hist| - Shown(|hist|, k))
  {
    hide LoadsOlder, HistoryOf, CleanCut, ShowsFrom;
    if k == 0 {
      var page :| Serves(chat, "", page) && states[0] == Fetched(start, "", page);
      assert PAGE * 1 < |hist| ==> CleanCut(hist, |hist| - PAGE * 1);
      FirstPage(hist, chat, start, states[0], page);
    } else {
      PagesShown(hist, chat, start, states, k - 1);
      CutsOf(hist, k);
      NextState(hist, chat, states[k - 1], states[k], |hist| - Shown(|hist|, k - 1));
    }
  }

  /**
   * No page boundary separates messages of the same time, and every message has a time unless one
   * page shows them all.
   */
  predicate PagesCleanly(hist: seq<Msg>) {
    TimedBeyondOnePage(hist) && CleanTo(hist, |hist|)
  }

  /**
   * Paging without gap or repeat: where pages are clean, the initial load and k uses of the button
   * leave exactly the newest 200(k + 1) messages in ascending order, or all of them when there are fewer.
   */
  lemma {:induction false} PagingIsGapless(hist: seq<Msg>, chat: set<Msg>, start: H.State, states: seq<H.State>, k: nat)
    requires HistoryOf(hist, chat) && Session(chat, start, states) && k < |states| && PagesCleanly(hist)
    ensures states[k].messages == hist[|hist| - Shown(|hist|, k)..]
  {
    assert CleanTo(hist, k + 1);
    PagesShown(hist, chat, start, states, k);
  }

  /** Messages with pairwise different times are paged cleanly. */
  lemma {:induction false} DifferentTimesPageCleanly(hist: seq<Msg>)
    requires forall i :: 0 <= i < |hist| ==> hist[i].createdAt != ""
    requires forall i, j :: 0 <= i < j < |hist| ==> hist[i].createdAt != hist[j].createdAt
    ensures PagesCleanly(hist)
  {
    assert forall c :: 0 < c < |hist| ==> hist[c - 1].createdAt != hist[c].createdAt;
  }

  // ---------------------------------------------------------- unclean paging

  /** An open thread of messages of the chat. */
  ghost predicate Within(s: H.State, hist: seq<Msg>) {
    Open(s) && Ordered(s.messages) && forall x :: x in s.messages ==> x in hist
  }

  /** The message is not shown, and the button would not ask for it. */
  ghost predicate PassedOver(s: H.State, m: Msg) {
    m !in s.messages && (CanLoadOlder(s) ==> !Older(m, s.messages[0].createdAt))
  }

  lemma {:induction false} OldestFirst(s: seq<Msg>, m: Msg)
    requires Ordered(s) && m in s
    ensures !Text.Less(m.createdAt, s[0].createdAt)
  {
    var i :| 0 <= i < |s| && s[i] == m;
    NotLater(s, 0, i);
  }

  lemma {:induction false} PageWithin(chat: set<Msg>, before: string, page: seq<Msg>, x: Msg)
    requires Serves(chat, before, page) && x in page
    ensures x in Before(chat, before)
  {
    var i :| 0 <= i < |page| && page[i] == x;
    assert Backwards(page)[|page| - 1 - i] == x;
  }

  /** The button never goes back: what was passed over stays out of sight. */
  lemma {:induction false} StaysPassedOver(hist: seq<Msg>, chat: set<Msg>, s: H.State, later: H.State, m: Msg)
    requires HistoryOf(hist, chat) && Within(s, hist) && LoadsOlder(chat, s, later) && PassedOver(s, m)
    ensures Within(later, hist) && PassedOver(later, m)
  {
    if CanLoadOlder(s) {
      var oldest := s.messages[0];
      var page :| Serves(chat, oldest.createdAt, page) && later == Fetched(s, oldest.createdAt, page);
      var all := page + s.messages;
      FetchedMeaning(s, oldest.createdAt, page);
      MergedMeaning(all);
      forall x | x in page ensures x in hist && Older(x, oldest.createdAt) {
        PageWithin(chat, oldest.createdAt, page, x);
      }
      forall x ensures x in later.messages <==> x in all {
        MergedWithin(all, hist, x);
      }
      assert oldest in all && oldest in later.messages;
      OldestFirst(later.messages, oldest);
      if Text.Less(m.createdAt, later.messages[0].createdAt) {
        LessThenNotMore(m.createdAt, later.messages[0].createdAt, oldest.createdAt);
      }
    }
  }

  lemma {:induction false} PassedOverForGood(hist: seq<Msg>, chat: set<Msg>, start: H.State, states: seq<H.State>,
                                             j: nat, k: nat, m: Msg)
    requires HistoryOf(hist, chat) && Session(chat, start, states) && j <= k < |states|
    requires Within(states[j], hist) && PassedOver(states[j], m)
    ensures Within(states[k], hist) && PassedOver(states[k], m)
  {
    hide LoadsOlder, Within, PassedOver;
    if j < k {
      PassedOverForGood(hist, chat, start, states, j, k - 1, m);
      assert LoadsOlder(chat, states[k - 1], states[k]);
      StaysPassedOver(hist, chat, states[k - 1], states[k], m);
    }
  }

  /** More than one page, and some message without a time: the first page leaves such a message out. */
  lemma {:induction false} UntimedLeftOut(hist: seq<Msg>, chat: set<Msg>, page: seq<Msg>) returns (m: Msg)
    requires HistoryOf(hist, chat) && Serves(chat, "", page)
    requires |hist| > PAGE && hist[0].createdAt == ""
    ensures m in hist && m !in page && m.createdAt == "" && forall x :: x in page ==> x in hist
  {
    PoolOfAll(hist, chat);
    PageSize(hist, chat, "", |hist|, page);
    SliceSize(hist, 0, |hist|);
    assert hist[0..|hist|] == hist;
    forall x | x in page ensures x in hist {
      assert x in Listed(page);
    }
    m := hist[0];
    if hist[0] in page {
      m := NotInSmaller(Slice(hist, 0, |hist|), Listed(page));
      PageIsNewest(hist, chat, "", |hist|, page, hist[0], m);
    }
  }

  lemma {:induction false} UntimedPassedOver(hist: seq<Msg>, chat: set<Msg>, start: H.State, first: H.State,
                                             page: seq<Msg>)
    returns (m: Msg)
    requires HistoryOf(hist, chat) && Open(start) && Serves(chat, "", page) && first == Fetched(start, "", page)
    requires |hist| > PAGE && hist[0].createdAt == ""
    ensures m in hist && Within(first, hist) && PassedOver(first, m)
  {
    m := UntimedLeftOut(hist, chat, page);
    FetchedMeaning(start, "", page);
    MergedMeaning(page);
    forall x ensures x in first.messages <==> x in page {
      MergedWithin(page, hist, x);
    }
  }

  /** A thread made of the messages from c on and a page that splits a time. */
  lemma {:induction false} SplitPassedOver(hist: seq<Msg>, chat: set<Msg>, before: string, c: nat, page: seq<Msg>,
                                           later: H.State)
    returns (y: Msg)
    requires HistoryOf(hist, chat) && Pool(hist, chat, before, c) && Serves(chat, before, page)
    requires c > PAGE && !CleanCut(hist, c - PAGE)
    requires Open(later) && later.messages == Merged(page + hist[c..])
    ensures y in hist && Within(later, hist) && PassedOver(later, y)
  {
    var all := page + hist[c..];
    var x;
    x, y := PageSplits(hist, chat, before, c, page);
    NotAmongLater(hist, c, y);
    PageSize(hist, chat, before, c, page);
    MergedMeaning(all);
    forall m | m in page ensures m in hist {
      assert m in Listed(page);
      NotAmongLater(hist, c, m);
    }
    forall m ensures m in later.messages <==> m in all {
      MergedWithin(all, hist, m);
    }
    assert x in all;
    OldestFirst(later.messages, x);
  }

  lemma {:induction false} SplitAtFirst(hist: seq<Msg>, chat: set<Msg>, start: H.State, first: H.State, page: seq<Msg>)
    returns (y: Msg)
    requires HistoryOf(hist, chat) && Open(start) && Serves(chat, "", page) && first == Fetched(start, "", page)
    requires |hist| > PAGE && !CleanCut(hist, |hist| - PAGE)
    ensures y in hist && Within(first, hist) && PassedOver(first, y)
  {
    hide HistoryOf, Serves, CleanCut, Fetched, Within, PassedOver;
    PoolOfAll(hist, chat);
    FetchedMeaning(start, "", page);
    assert page + hist[|hist|..] == page;
    y := SplitPassedOver(hist, chat, "", |hist|, page, first);
  }

  lemma {:induction false} SplitAtLater(hist: seq<Msg>, chat: set<Msg>, s: H.State, later: H.State,
                                        c: nat) returns (y: Msg)
    requires HistoryOf(hist, chat) && ShowsFrom(s, hist, c) && LoadsOlder(chat, s, later)
    requires PAGE < c < |hist| && hist[0].createdAt != "" && CleanCut(hist, c) && !CleanCut(hist, c - PAGE)
    ensures y in hist && Within(later, hist) && PassedOver(later, y)
  {
    LaterHasTime(hist, c);
    var page :| Serves(chat, hist[c].createdAt, page) && later == Fetched(s, hist[c].createdAt, page);
    PoolBelow(hist, chat, c);
    FetchedMeaning(s, hist[c].createdAt, page);
    y := SplitPassedOver(hist, chat, hist[c].createdAt, c, page, later);
  }

  /** The state after the first page boundary that is not clean. */
  lemma {:induction false} SplitAt(hist: seq<Msg>, chat: set<Msg>, start: H.State, states: seq<H.State>, j: nat)
    returns (y: Msg)
    requires HistoryOf(hist, chat) && Session(chat, start, states) && 1 <= j <= |states|
    requires TimedBeyondOnePage(hist) && CleanTo(hist, j - 1)
    requires PAGE * j < |hist| && !CleanCut(hist, |hist| - PAGE * j)
    ensures y in hist && Within(states[j - 1], hist) && PassedOver(states[j - 1], y)
  {
    hide LoadsOlder, HistoryOf, CleanCut, ShowsFrom, Within, PassedOver;
    if j == 1 {
      var page :| Serves(chat, "", page) && states[0] == Fetched(start, "", page);
      y := SplitAtFirst(hist, chat, start, states[0], page);
    } else {
      PagesShown(hist, chat, start, states, j - 2);
      assert CleanCut(hist, |hist| - PAGE * (j - 1));
      assert LoadsOlder(chat, states[j - 2], states[j - 1]);
      y := SplitAtLater(hist, chat, states[j - 2], states[j - 1], |hist| - PAGE * (j - 1));
    }
  }

  lemma {:induction false} FirstUnclean(hist: seq<Msg>, n: nat) returns (j: nat)
    requires !CleanTo(hist, n)
    ensures 1 <= j <= n && PAGE * j < |hist| && !CleanCut(hist, |hist| - PAGE * j) && CleanTo(hist, j - 1)
  {
    if CleanTo(hist, n - 1) {
      j := n;
    } else {
      j := FirstUnclean(hist, n - 1);
    }
  }

  /** Where pages are not clean some message is never shown, however often the button is used. */
  lemma {:induction false} SomeoneIsNeverShown(hist: seq<Msg>, chat: set<Msg>, start: H.State, states: seq<H.State>,
                                               k: nat)
    returns (m: Msg)
    requires HistoryOf(hist, chat) && Session(chat, start, states) && k < |states|
    requires !PagesCleanly(hist) && PAGE * (k + 1) >= |hist|
    ensures m in hist && m !in states[k].messages
  {
    if TimedBeyondOnePage(hist) {
      var j := FirstUnclean(hist, |hist|);
      assert j <= k;
      m := SplitAt(hist, chat, start, states, j);
      PassedOverForGood(hist, chat, start, states, j - 1, k, m);
    } else {
      var page :| Serves(chat, "", page) && states[0] == Fetched(start, "", page);
      m := UntimedPassedOver(hist, chat, start, states[0], page);
      PassedOverForGood(hist, chat, start, states, 0, k, m);
    }
  }

  /**
   * When paging is complete: as often as it takes to show so many messages, the initial load and the
   * uses of the button show the whole history exactly if no page boundary separates messages of the
   * same time and, beyond one page, every message has a time. Otherwise some message is never shown.
   */
  lemma {:induction false} PagingIsComplete(hist: seq<Msg>, chat: set<Msg>, start: H.State, states: seq<H.State>,
                                            k: nat)
    requires HistoryOf(hist, chat) && Session(chat, start, states) && k < |states| && PAGE * (k + 1) >= |hist|
    ensures states[k].messages == hist <==> PagesCleanly(hist)
  {
    if PagesCleanly(hist) {
      PagingIsGapless(hist, chat, start, states, k);
    } else {
      var m := SomeoneIsNeverShown(hist, chat, start, states, k);
    }
  }

  // ----------------------------------------------------------------- an example

  function Letters(n: nat): string {
    if n == 0 then "" else "a" + Letters(n - 1)
  }

  lemma {:induction false} LettersGrow(m: nat, n: nat)
    requires m < n
    ensures Text.Less(Letters(m), Letters(n)) && Letters(m) != Letters(n)
  {
    if m > 0 {
      LettersGrow(m - 1, n - 1);
      assert Letters(m)[1..] == Letters(m - 1) && Letters(n)[1..] == Letters(n - 1);
    }
    Text.Irreflexive(Letters(m));
  }

  /** One message more than a page, all of the same time. */
  function SameTimes(time: string): (hist: seq<Msg>)
    ensures |hist| == PAGE + 1 && forall i :: 0 <= i < |hist| ==> hist[i] == Msg(Letters(i), "chat", time, "")
  {
    seq(PAGE + 1, i requires 0 <= i < PAGE + 1 => Msg(Letters(i), "chat", time, ""))
  }

  /** A chat that no number of uses shows whole: 201 messages of the same time. */
  lemma {:induction false} SameTimesAreNeverShown(time: string, start: H.State, states: seq<H.State>, k: nat)
    requires time != "" && 1 <= k < |states|
    requires Session(Listed(SameTimes(time)), start, states)
    ensures HistoryOf(SameTimes(time), Listed(SameTimes(time)))
    ensures !PagesCleanly(SameTimes(time)) && states[k].messages != SameTimes(time)
  {
    hide Session;
    var hist := SameTimes(time);
    forall i, j | 0 <= i < j < |hist| ensures Timeline.Before(hist[i], hist[j]) && hist[i].id != hist[j].id {
      LettersGrow(i, j);
    }
    assert !CleanCut(hist, |hist| - PAGE * 1);
    PagingIsComplete(hist, Listed(hist), start, states, k);
  }
}
