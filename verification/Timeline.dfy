/**
 * The message lists of the client (plugin/js/Store.js): a last-wins merge sorted
 * by (created_at, id), and the in-place append used for live messages.
 */
module Timeline {
  import Text

  /**
   * A message as the client sees it. A missing created_at reads as "", as in the
   * source; body stands for every field that the lists do not look at.
   */
  datatype Msg = Msg(id: string, chatId: string, createdAt: string, body: string)

  /** The comparator given to sort, for messages with different ids. */
  predicate Before(a: Msg, b: Msg) {
    Text.Less(a.createdAt, b.createdAt) || (a.createdAt == b.createdAt && Text.Less(a.id, b.id))
  }

  ghost predicate Sorted(s: seq<Msg>) {
    forall i, j :: 0 <= i < j < |s| ==> Before(s[i], s[j])
  }

  ghost predicate DistinctIds(s: seq<Msg>) {
    forall i, j :: 0 <= i < j < |s| ==> s[i].id != s[j].id
  }

  /** What every list the client keeps looks like: sorted, one entry per id. */
  ghost predicate Ordered(s: seq<Msg>) {
    Sorted(s) && DistinctIds(s)
  }

  /** m is the last message of s that carries its id. */
  ghost predicate Latest(s: seq<Msg>, m: Msg) {
    exists i :: 0 <= i < |s| && LatestAt(s, m, i)
  }

  ghost predicate LatestAt(s: seq<Msg>, m: Msg, i: nat)
    requires i < |s|
  {
    s[i] == m && forall j :: i < j < |s| ==> s[j].id != m.id
  }

  // ---------------------------------------------------------------- the order

  lemma {:induction false} BeforeTransitive(a: Msg, b: Msg, c: Msg)
    requires Before(a, b) && Before(b, c)
    ensures Before(a, c)
  {
    if Text.Less(a.createdAt, b.createdAt) && Text.Less(b.createdAt, c.createdAt) {
      Text.Transitive(a.createdAt, b.createdAt, c.createdAt);
    }
    if Text.Less(a.id, b.id) && Text.Less(b.id, c.id) {
      Text.Transitive(a.id, b.id, c.id);
    }
  }

  lemma {:induction false} BeforeAsymmetric(a: Msg, b: Msg)
    requires Before(a, b)
    ensures !Before(b, a) && a != b
  {
    Text.Irreflexive(a.createdAt);
    Text.Irreflexive(a.id);
    if Before(b, a) {
      BeforeTransitive(a, b, a);
    }
  }

  lemma {:induction false} BeforeTotal(a: Msg, b: Msg)
    requires a.id != b.id
    ensures Before(a, b) || Before(b, a)
  {
    Text.Total(a.createdAt, b.createdAt);
    Text.Total(a.id, b.id);
  }

  /** A sorted list is determined by its members. */
  lemma {:induction false} SortedUnique(s: seq<Msg>, t: seq<Msg>)
    requires Sorted(s) && Sorted(t)
    requires forall m :: m in s <==> m in t
    ensures s == t
  {
    assert s != [] ==> s[0] in s;
    assert t != [] ==> t[0] in t;
    if s != [] && t != [] {
      if s[0] != t[0] {
        BeforeAsymmetric(s[0], t[0]);
        assert false;
      }
      forall m ensures m in s[1..] <==> m in t[1..] {
        SortedTail(s, m);
        SortedTail(t, m);
      }
      SortedUnique(s[1..], t[1..]);
      assert s == [s[0]] + s[1..] && t == [t[0]] + t[1..];
    }
  }

  lemma {:induction false} SortedTail(s: seq<Msg>, m: Msg)
    requires s != [] && Sorted(s)
    ensures m in s[1..] <==> m in s && m != s[0]
  {
    assert s == [s[0]] + s[1..];
    if m in s[1..] {
      BeforeAsymmetric(s[0], m);
    }
  }

  // ------------------------------------------------- the merge as a function

  function Without(s: seq<Msg>, id: string): seq<Msg> {
    if s == [] then []
    else (if s[0].id == id then [] else [s[0]]) + Without(s[1..], id)
  }

  function Insert(s: seq<Msg>, m: Msg): seq<Msg> {
    if s == [] || Before(m, s[0]) then [m] + s else [s[0]] + Insert(s[1..], m)
  }

  /** The last-wins map of s, listed in order. */
  function Merged(s: seq<Msg>): seq<Msg> {
    if s == [] then []
    else
      var m := s[|s| - 1];
      Insert(Without(Merged(s[..|s| - 1]), m.id), m)
  }

  /** What mergeMessages(messages, updates) returns. */
  function Merge(messages: seq<Msg>, updates: seq<Msg>): seq<Msg> {
    Merged(messages + updates)
  }

  lemma {:induction false} WithoutMeaning(s: seq<Msg>, id: string)
    requires Ordered(s)
    ensures Ordered(Without(s, id))
    ensures forall m :: m in Without(s, id) <==> m in s && m.id != id
  {
    if s != [] {
      var rest := Without(s[1..], id);
      WithoutMeaning(s[1..], id);
      assert s == [s[0]] + s[1..];
      forall m | m in rest ensures Before(s[0], m) && m.id != s[0].id {
        assert m in s[1..];
      }
      var all := (if s[0].id == id then [] else [s[0]]) + rest;
      assert forall i :: 0 <= i < |rest| ==> rest[i] in rest;
      assert Ordered(all);
    }
  }

  lemma {:induction false} InsertMeaning(s: seq<Msg>, m: Msg)
    requires Ordered(s) && forall x :: x in s ==> x.id != m.id
    ensures Ordered(Insert(s, m))
    ensures forall x :: x in Insert(s, m) <==> x == m || x in s
  {
    if s == [] {
    } else if Before(m, s[0]) {
      forall i | 1 <= i < |s| ensures Before(m, s[i]) {
        BeforeTransitive(m, s[0], s[i]);
      }
    } else {
      BeforeTotal(m, s[0]);
      var rest := Insert(s[1..], m);
      InsertMeaning(s[1..], m);
      assert s == [s[0]] + s[1..];
      forall i | 0 <= i < |rest| ensures Before(s[0], rest[i]) && rest[i].id != s[0].id {
        assert rest[i] in rest;
      }
    }
  }

  /** The merge is ordered and holds exactly the last message of every id. */
  lemma {:induction false} MergedMeaning(s: seq<Msg>)
    ensures Ordered(Merged(s))
    ensures forall m :: m in Merged(s) <==> Latest(s, m)
  {
    if s != [] {
      var front, last := s[..|s| - 1], s[|s| - 1];
      MergedMeaning(front);
      WithoutMeaning(Merged(front), last.id);
      InsertMeaning(Without(Merged(front), last.id), last);
      forall m ensures m in Merged(s) <==> Latest(s, m) {
        LatestSnoc(front, last, m);
        assert s == front + [last];
      }
    }
  }

  lemma {:induction false} LatestSnoc(front: seq<Msg>, last: Msg, m: Msg)
    ensures Latest(front + [last], m) <==> m == last || (Latest(front, m) && m.id != last.id)
  {
    var s := front + [last];
    if m == last {
      assert LatestAt(s, m, |front|);
    }
    if Latest(front, m) && m.id != last.id {
      var i :| 0 <= i < |front| && LatestAt(front, m, i);
      assert LatestAt(s, m, i);
    }
    if Latest(s, m) {
      var i :| 0 <= i < |s| && LatestAt(s, m, i);
      if i < |front| {
        assert s[|front|] == last;
        forall j | i < j < |front| ensures front[j].id != m.id {
          assert front[j] == s[j];
        }
        assert LatestAt(front, m, i);
      }
    }
  }

  /** Last-wins over a concatenation: the right part first, then the left one. */
  lemma {:induction false} LatestConcat(a: seq<Msg>, b: seq<Msg>, m: Msg)
    ensures Latest(a + b, m) <==> Latest(b, m) || (Latest(a, m) && forall x :: x in b ==> x.id != m.id)
  {
    var s := a + b;
    if Latest(s, m) {
      var i :| 0 <= i < |s| && LatestAt(s, m, i);
      if i < |a| {
        forall x | x in b ensures x.id != m.id {
          var j :| 0 <= j < |b| && b[j] == x;
          assert s[|a| + j] == x;
        }
        forall j | i < j < |a| ensures a[j].id != m.id { assert a[j] == s[j]; }
        assert LatestAt(a, m, i);
      } else {
        forall j | i - |a| < j < |b| ensures b[j].id != m.id { assert b[j] == s[|a| + j]; }
        assert LatestAt(b, m, i - |a|);
      }
    }
    if Latest(b, m) {
      var i :| 0 <= i < |b| && LatestAt(b, m, i);
      assert LatestAt(s, m, |a| + i);
    }
    if Latest(a, m) && forall x :: x in b ==> x.id != m.id {
      var i :| 0 <= i < |a| && LatestAt(a, m, i);
      assert LatestAt(s, m, i);
    }
  }

  /** Every message is outlived by a last message with its id. */
  lemma {:induction false} LatestExists(s: seq<Msg>, id: string)
    ensures (exists x :: x in s && x.id == id) <==> (exists m :: Latest(s, m) && m.id == id)
  {
    if exists x :: x in s && x.id == id {
      var front, last := s[..|s| - 1], s[|s| - 1];
      assert s == front + [last];
      if last.id == id {
        LatestSnoc(front, last, last);
      } else {
        LatestExists(front, id);
        var m :| Latest(front, m) && m.id == id;
        LatestSnoc(front, last, m);
      }
    }
    if exists m :: Latest(s, m) && m.id == id {
      var m :| Latest(s, m) && m.id == id;
      var i :| 0 <= i < |s| && LatestAt(s, m, i);
      assert s[i] in s;
    }
  }

  /** In a list with distinct ids every member is the last one with its id. */
  lemma {:induction false} LatestOfDistinct(s: seq<Msg>, m: Msg)
    requires DistinctIds(s)
    ensures Latest(s, m) <==> m in s
  {
    if m in s {
      var i :| 0 <= i < |s| && s[i] == m;
      assert LatestAt(s, m, i);
    }
  }

  // -------------------------------------------------------- the merge algebra

  /** mergeMessages returns the one sorted list of the last-wins map of a then b. */
  lemma {:induction false} MergeIsUnique(a: seq<Msg>, b: seq<Msg>, out: seq<Msg>)
    ensures out == Merge(a, b) <==> Sorted(out) && forall m :: m in out <==> Latest(a + b, m)
  {
    MergedMeaning(a + b);
    if Sorted(out) && forall m :: m in out <==> Latest(a + b, m) {
      SortedUnique(out, Merge(a, b));
    }
  }

  /** A list the client keeps is unchanged by merging it again. */
  lemma {:induction false} MergeOrdered(s: seq<Msg>)
    requires Ordered(s)
    ensures Merged(s) == s
  {
    MergedMeaning(s);
    forall m ensures m in s <==> m in Merged(s) {
      LatestOfDistinct(s, m);
    }
    SortedUnique(s, Merged(s));
  }

  lemma {:induction false} MergeAbsorbsLeft(s: seq<Msg>, t: seq<Msg>)
    ensures Merged(Merged(s) + t) == Merged(s + t)
  {
    MergedMeaning(s);
    MergedMeaning(s + t);
    MergedMeaning(Merged(s) + t);
    forall m ensures m in Merged(Merged(s) + t) <==> m in Merged(s + t) {
      LatestConcat(Merged(s), t, m);
      LatestConcat(s, t, m);
      LatestOfDistinct(Merged(s), m);
    }
    SortedUnique(Merged(Merged(s) + t), Merged(s + t));
  }

  lemma {:induction false} MergeAbsorbsRight(s: seq<Msg>, t: seq<Msg>)
    ensures Merged(s + Merged(t)) == Merged(s + t)
  {
    MergedMeaning(t);
    MergedMeaning(s + t);
    MergedMeaning(s + Merged(t));
    forall m ensures m in Merged(s + Merged(t)) <==> m in Merged(s + t) {
      LatestConcat(s, Merged(t), m);
      LatestConcat(s, t, m);
      LatestOfDistinct(Merged(t), m);
      LatestExists(t, m.id);
    }
    SortedUnique(Merged(s + Merged(t)), Merged(s + t));
  }

  /** Merging the same update again changes nothing. */
  lemma {:induction false} MergeIdempotent(a: seq<Msg>, b: seq<Msg>)
    ensures Merge(Merge(a, b), b) == Merge(a, b)
  {
    var ab := Merge(a, b);
    MergedMeaning(a + b);
    MergedMeaning(ab + b);
    forall m ensures m in Merge(ab, b) <==> m in ab {
      LatestConcat(ab, b, m);
      LatestOfDistinct(ab, m);
      LatestConcat(a, b, m);
    }
    SortedUnique(Merge(ab, b), ab);
  }

  /** The grouping of merges does not matter. */
  lemma {:induction false} MergeAssociative(a: seq<Msg>, b: seq<Msg>, c: seq<Msg>)
    ensures Merge(Merge(a, b), c) == Merge(a, Merge(b, c))
  {
    var abc := a + b + c;
    assert a + (b + c) == abc;
    assert Merge(Merge(a, b), c) == Merged(abc) by { MergeAbsorbsLeft(a + b, c); }
    assert Merge(a, Merge(b, c)) == Merged(abc) by { MergeAbsorbsRight(a, b + c); }
  }

  // ------------------------------------------------------------ live messages

  function IndexOf(s: seq<Msg>, id: string): (k: nat)
    ensures k <= |s|
    ensures forall j :: 0 <= j < k ==> s[j].id != id
    ensures k < |s| ==> s[k].id == id
  {
    if s == [] then 0
    else if s[0].id == id then 0
    else 1 + IndexOf(s[1..], id)
  }

  /** What appendMessage(messages, msg) returns. */
  function Append(messages: seq<Msg>, msg: Msg): seq<Msg> {
    var k := IndexOf(messages, msg.id);
    if k < |messages| then messages[k := msg] else Merge(messages, [msg])
  }

  /** The new payload still belongs where the old one stands. */
  predicate FitsAt(s: seq<Msg>, k: nat, m: Msg)
    requires k < |s|
  {
    (k > 0 ==> Before(s[k - 1], m)) && (k + 1 < |s| ==> Before(m, s[k + 1]))
  }

  lemma {:induction false} ReplacedSorted(s: seq<Msg>, k: nat, m: Msg)
    requires Sorted(s) && k < |s|
    ensures Sorted(s[k := m]) <==> FitsAt(s, k, m)
  {
    var t := s[k := m];
    if FitsAt(s, k, m) {
      forall i, j | 0 <= i < j < |t| ensures Before(t[i], t[j]) {
        if i == k && j > k + 1 {
          BeforeTransitive(m, s[k + 1], s[j]);
        }
        if j == k && i < k - 1 {
          BeforeTransitive(s[i], s[k - 1], m);
        }
      }
    } else {
      assert (k > 0 && !Before(t[k - 1], t[k])) || (k + 1 < |t| && !Before(t[k], t[k + 1]));
    }
  }

  /**
   * On an ordered list, appendMessage is mergeMessages with one update exactly when
   * the id is new or the payload that replaces it sorts between its neighbours.
   */
  lemma {:induction false} AppendIsMerge(s: seq<Msg>, m: Msg)
    requires Ordered(s)
    ensures Append(s, m) == Merge(s, [m]) <==>
            (IndexOf(s, m.id) < |s| ==> FitsAt(s, IndexOf(s, m.id), m))
  {
    var k := IndexOf(s, m.id);
    if k < |s| {
      ReplacedSorted(s, k, m);
      forall x ensures x in s[k := m] <==> Latest(s + [m], x) {
        LatestSnoc(s, m, x);
        LatestOfDistinct(s, x);
        ReplacedMembers(s, k, m, x);
      }
      MergeIsUnique(s, [m], s[k := m]);
    }
  }

  /** They can differ: a present id that comes with a later time stays where it stood. */
  lemma {:induction false} AppendCanDiffer()
    ensures var a, b, m := Msg("a", "chat", "1", ""), Msg("b", "chat", "2", ""), Msg("a", "chat", "3", "");
            && Ordered([a, b]) && Append([a, b], m) == [m, b] && Merge([a, b], [m]) == [b, m]
  {
    var a, b, m := Msg("a", "chat", "1", ""), Msg("b", "chat", "2", ""), Msg("a", "chat", "3", "");
    assert IndexOf([a, b], "a") == 0 && [a, b][0 := m] == [m, b];
    assert forall x :: Latest([a, b] + [m], x) <==> x == b || x == m by {
      var all := [a, b] + [m];
      assert LatestAt(all, b, 1) && LatestAt(all, m, 2);
    }
    MergeIsUnique([a, b], [m], [b, m]);
  }

  lemma {:induction false} ReplacedMembers(s: seq<Msg>, k: nat, m: Msg, x: Msg)
    requires DistinctIds(s) && k < |s| && s[k].id == m.id
    ensures x in s[k := m] <==> x == m || (x in s && x.id != m.id)
  {
    var t := s[k := m];
    assert t[k] == m;
    if x in s && x.id != m.id {
      var i :| 0 <= i < |s| && s[i] == x;
      assert t[i] == x;
    }
    if x in t && x != m {
      var i :| 0 <= i < |t| && t[i] == x;
      assert s[i] == x;
    }
  }

  /** In particular a live message that keeps the created_at of its id is merged exactly. */
  lemma {:induction false} AppendSameTime(s: seq<Msg>, m: Msg)
    requires Ordered(s)
    requires forall x :: x in s && x.id == m.id ==> x.createdAt == m.createdAt
    ensures Append(s, m) == Merge(s, [m])
  {
    var k := IndexOf(s, m.id);
    if k < |s| {
      assert s[k] in s;
      assert k > 0 ==> Before(s[k - 1], s[k]);
      assert k + 1 < |s| ==> Before(s[k], s[k + 1]);
    }
    AppendIsMerge(s, m);
  }

  /** Whatever its order, appendMessage keeps one entry per id and the last payload of each. */
  lemma {:induction false} AppendKeepsLatest(s: seq<Msg>, m: Msg)
    requires DistinctIds(s)
    ensures DistinctIds(Append(s, m))
    ensures forall x :: x in Append(s, m) <==> x == m || (x in s && x.id != m.id)
  {
    var k := IndexOf(s, m.id);
    if k < |s| {
      forall x ensures x in s[k := m] <==> x == m || (x in s && x.id != m.id) {
        ReplacedMembers(s, k, m, x);
      }
    } else {
      MergedMeaning(s + [m]);
      forall x ensures x in Append(s, m) <==> x == m || (x in s && x.id != m.id) {
        LatestSnoc(s, m, x);
        LatestOfDistinct(s, x);
      }
    }
  }

  // ---------------------------------------------------------- the two methods

  /** Array.prototype.sort with the comparator, on messages with distinct ids. */
  method Sort(s: seq<Msg>) returns (out: seq<Msg>)
    requires DistinctIds(s)
    ensures Ordered(out) && forall m :: m in out <==> m in s
  {
    out := [];
    for i := 0 to |s|
      invariant Ordered(out)
      invariant forall m :: m in out <==> m in s[..i]
    {
      InsertMeaning(out, s[i]);
      out := Insert(out, s[i]);
      assert s[..i + 1] == s[..i] + [s[i]];
    }
    assert s[..|s|] == s;
  }

  /** mergeMessages: the last-wins map, its values in any enumeration order, then sort. */
  method MergeMessages(messages: seq<Msg>, updates: seq<Msg>) returns (out: seq<Msg>)
    ensures out == Merge(messages, updates)
  {
    var byId: map<string, Msg> := map[];
    var all := messages + updates;
    for i := 0 to |all|
      invariant forall id :: id in byId ==> byId[id].id == id
      invariant forall m: Msg :: (m.id in byId && byId[m.id] == m) <==> Latest(all[..i], m)
    {
      forall m: Msg {
        LatestSnoc(all[..i], all[i], m);
      }
      assert all[..i + 1] == all[..i] + [all[i]];
      byId := byId[all[i].id := all[i]];
    }
    assert all[..|all|] == all;
    var rows: seq<Msg> := [];
    var keys := byId.Keys;
    while keys != {}
      invariant keys <= byId.Keys
      invariant DistinctIds(rows)
      invariant forall m: Msg :: m in rows <==> m.id in byId && byId[m.id] == m && m.id !in keys
      decreases keys
    {
      var key :| key in keys;
      assert forall m :: m in rows ==> m.id != key;
      rows := rows + [byId[key]];
      keys := keys - {key};
    }
    out := Sort(rows);
    MergeIsUnique(messages, updates, out);
  }

  /** appendMessage: replace in place when the id is there, else merge. */
  method AppendMessage(messages: seq<Msg>, msg: Msg) returns (out: seq<Msg>)
    ensures out == Append(messages, msg)
  {
    for i := 0 to |messages|
      invariant forall j :: 0 <= j < i ==> messages[j].id != msg.id
    {
      if messages[i].id == msg.id {
        return messages[i := msg];
      }
    }
    out := MergeMessages(messages, [msg]);
  }
}
