/**
 * The recovery poll (poll_loop and remember_message in sync/src/bb.rs): every round reads
 * the newest 200 entries of the server's log, oldest first, and passes on those that a
 * FIFO of 2000 messages does not hold unchanged.
 */
module Polling {
  import opened Prelude
  import opened Domain

  const WINDOW: nat := 200
  const CAPACITY: nat := 2000

  // ---------------------------------------------------------------- the FIFO

  /** The index of the message with this guid, or the length. */
  function Position(seen: seq<Message>, guid: string): (k: nat)
    ensures k <= |seen|
    ensures forall j :: 0 <= j < k ==> seen[j].guid != guid
    ensures k < |seen| ==> seen[k].guid == guid
  {
    if seen == [] then 0
    else if seen[0].guid == guid then 0
    else 1 + Position(seen[1..], guid)
  }

  function Known(seen: seq<Message>, msg: Message): bool {
    var k := Position(seen, msg.guid);
    k < |seen| && seen[k] == msg
  }

  function Without(seen: seq<Message>, guid: string): seq<Message> {
    var k := Position(seen, guid);
    if k < |seen| then seen[..k] + seen[k + 1..] else seen
  }

  /** pop_front until no more than CAPACITY messages are left. */
  function Newest(seen: seq<Message>): seq<Message> {
    if |seen| > CAPACITY then seen[|seen| - CAPACITY..] else seen
  }

  function Remember(seen: seq<Message>, msg: Message): seq<Message> {
    if Known(seen, msg) then seen else Newest(Without(seen, msg.guid) + [msg])
  }

  /** The FIFO and the messages sent after the first messages of a round, in order. */
  function Round(seen: seq<Message>, msgs: seq<Message>): (seq<Message>, seq<Message>) {
    if msgs == [] then (seen, [])
    else
      var (before, sent) := Round(seen, msgs[..|msgs| - 1]);
      var msg := msgs[|msgs| - 1];
      (Remember(before, msg), if Known(before, msg) then sent else sent + [msg])
  }

  class Poller {
    var seen: seq<Message>

    constructor ()
      ensures seen == []
    {
      seen := [];
    }

    /** remember_message: whether the message is new or changed. */
    method RememberMessage(msg: Message) returns (news: bool)
      modifies this
      ensures seen == Remember(old(seen), msg) && news == !Known(old(seen), msg)
    {
      var index := 0;
      while index < |seen| && seen[index].guid != msg.guid
        invariant index <= |seen|
        invariant forall j :: 0 <= j < index ==> seen[j].guid != msg.guid
      {
        index := index + 1;
      }
      assert index == Position(seen, msg.guid);
      if index < |seen| {
        if seen[index] == msg {
          return false;
        }
        seen := seen[..index] + seen[index + 1..];
      }
      seen := seen + [msg];
      PopFront();
      return true;
    }

    method PopFront()
      modifies this
      ensures seen == Newest(old(seen))
    {
      ghost var all := seen;
      while |seen| > CAPACITY
        invariant |seen| <= |all| && seen == all[|all| - |seen|..]
        invariant |seen| >= CAPACITY || seen == all
      {
        seen := seen[1..];
      }
    }

    /** One round of poll_loop over what recent_messages returned, oldest first. */
    method PollRound(msgs: seq<Message>) returns (sent: seq<Message>)
      modifies this
      ensures (seen, sent) == Round(old(seen), msgs)
    {
      sent := [];
      for i := 0 to |msgs|
        invariant (seen, sent) == Round(old(seen), msgs[..i])
      {
        assert msgs[..i + 1][..i] == msgs[..i];
        var news := RememberMessage(msgs[i]);
        if !news {
          continue;
        }
        sent := sent + [msgs[i]];
      }
      assert msgs[..|msgs|] == msgs;
    }
  }

  // -------------------------------------------------------------- the server

  /** An entry of the server's log; recent_messages skips those it cannot read. */
  datatype Entry = Readable(msg: Message) | Unreadable(guid: string) {
    function Guid(): string {
      if Readable? then msg.guid else guid
    }
  }

  function Low(log: seq<Entry>): nat {
    if |log| > WINDOW then |log| - WINDOW else 0
  }

  /** The readable messages of the log from index a up to b. */
  function Messages(log: seq<Entry>, a: nat, b: nat): seq<Message>
    requires a <= b <= |log|
  {
    if a == b then []
    else Messages(log, a, b - 1) + if log[b - 1].Readable? then [log[b - 1].msg] else []
  }

  /**
   * logs[t] is the log at round t. Entries are only added at the end and edited in place:
   * the entry at index i always has guid guids[i], and different entries have different guids.
   */
  ghost predicate Server(guids: seq<string>, logs: seq<seq<Entry>>) {
    && Distinct(guids)
    && (forall t :: 0 <= t < |logs| ==> |logs[t]| <= |guids|)
    && (forall t, i :: 0 <= t < |logs| && 0 <= i < |logs[t]| ==> logs[t][i].Guid() == guids[i])
    && (forall t, u :: 0 <= t <= u < |logs| ==> |logs[t]| <= |logs[u]|)
  }

  /** What recent_messages(200) returns, oldest first. */
  function Window(log: seq<Entry>): seq<Message> {
    Messages(log, Low(log), |log|)
  }

  /** The FIFO before round t. */
  function Seen(logs: seq<seq<Entry>>, t: nat): seq<Message>
    requires t <= |logs|
  {
    if t == 0 then [] else Round(Seen(logs, t - 1), Window(logs[t - 1])).0
  }

  /** What round t sends. */
  function Sent(logs: seq<seq<Entry>>, t: nat): seq<Message>
    requires t < |logs|
  {
    Round(Seen(logs, t), Window(logs[t])).1
  }

  /** Round t reads the entry at index p. */
  predicate Observed(logs: seq<seq<Entry>>, t: nat, p: nat)
    requires t < |logs|
  {
    Low(logs[t]) <= p < |logs[t]| && logs[t][p].Readable?
  }

  /** The payload of the entry at p when a round before t last read it. */
  function LastRead(logs: seq<seq<Entry>>, t: nat, p: nat): Option<Message>
    requires t <= |logs|
  {
    if t == 0 then None
    else if Observed(logs, t - 1, p) then Some(logs[t - 1][p].msg)
    else LastRead(logs, t - 1, p)
  }

  /** The entries from a up to b that round t reads with another payload than before, or for the first time. */
  function Changes(logs: seq<seq<Entry>>, t: nat, a: nat, b: nat): seq<Message>
    requires t < |logs| && a <= b <= |logs[t]| && a >= Low(logs[t])
  {
    if a == b then []
    else Changes(logs, t, a, b - 1) +
         if Observed(logs, t, b - 1) && LastRead(logs, t, b - 1) != Some(logs[t][b - 1].msg)
         then [logs[t][b - 1].msg] else []
  }

  // -------------------------------------------- the FIFO is as good as a map

  /** What is known of the entry at q once round t has handled the entries before p. */
  function KnownAt(logs: seq<seq<Entry>>, t: nat, p: nat, q: nat): Option<Message>
    requires t < |logs|
  {
    if q < p && Observed(logs, t, q) then Some(logs[t][q].msg) else LastRead(logs, t, q)
  }

  /** The index in the log of the entry with this guid. */
  ghost function Index(guids: seq<string>, guid: string): (i: nat)
    requires guid in guids
    ensures i < |guids| && guids[i] == guid
  {
    var i :| 0 <= i < |guids| && guids[i] == guid;
    i
  }

  lemma {:induction false} IndexIs(guids: seq<string>, i: nat)
    requires Distinct(guids) && i < |guids|
    ensures Index(guids, guids[i]) == i
  {
  }

  /** The messages of the FIFO come from the log below hi, with the payloads read last. */
  ghost predicate Faithful(guids: seq<string>, logs: seq<seq<Entry>>, t: nat, p: nat, seen: seq<Message>)
    requires t < |logs|
  {
    && (forall j :: 0 <= j < |seen| ==> seen[j].guid in guids)
    && (forall j :: 0 <= j < |seen| ==> KnownAt(logs, t, p, Index(guids, seen[j].guid)) == Some(seen[j]))
    && (forall i, j :: 0 <= i < j < |seen| ==> seen[i].guid != seen[j].guid)
  }

  ghost predicate Holds(seen: seq<Message>, guid: string) {
    exists j :: 0 <= j < |seen| && seen[j].guid == guid
  }

  /** Nothing read before and still in the window has left the FIFO. */
  ghost predicate Complete(guids: seq<string>, logs: seq<seq<Entry>>, t: nat, p: nat, seen: seq<Message>)
    requires t < |logs| && |logs[t]| <= |guids|
  {
    forall q {:trigger KnownAt(logs, t, p, q)} ::
      Low(logs[t]) <= q < |logs[t]| && KnownAt(logs, t, p, q).Some? ==> Holds(seen, guids[q])
  }

  /** Messages behind one that is still in the window were close to it in the log. */
  ghost predicate Close(guids: seq<string>, lo: nat, seen: seq<Message>)
    requires forall j :: 0 <= j < |seen| ==> seen[j].guid in guids
  {
    forall i, j :: 0 <= i < j < |seen| && Index(guids, seen[i].guid) >= lo ==>
      Near(Index(guids, seen[i].guid), Index(guids, seen[j].guid))
  }

  predicate Near(a: int, b: int) {
    a - WINDOW < b < a + WINDOW
  }

  ghost predicate Inv(guids: seq<string>, logs: seq<seq<Entry>>, t: nat, p: nat, seen: seq<Message>)
    requires t < |logs| && |logs[t]| <= |guids|
  {
    && |seen| <= CAPACITY
    && Faithful(guids, logs, t, p, seen)
    && Complete(guids, logs, t, p, seen)
    && Close(guids, Low(logs[t]), seen)
  }

  predicate InWindow(log: seq<Entry>, p: nat) {
    Low(log) <= p < |log|
  }

  /** Fewer than 400 entries ever share a window with a given one: they lie less than 200 to either side of it. */
  lemma {:induction false} FewShareAWindow(logs: seq<seq<Entry>>, p: nat, shared: set<nat>)
    requires forall q :: q in shared ==> exists t :: 0 <= t < |logs| && InWindow(logs[t], p) && InWindow(logs[t], q)
    ensures |shared| < 2 * WINDOW
  {
    var near := Range(p - WINDOW + 1, p + WINDOW);
    var ints: set<int> := set q | q in shared;
    forall q | q in shared ensures q in near {
      var t :| 0 <= t < |logs| && InWindow(logs[t], p) && InWindow(logs[t], q);
    }
    assert ints == shared;
    SubsetSize(ints, near);
  }

  /** So fewer than 400 messages stand in the FIFO from one that is still in the window to the end. */
  lemma {:induction false} FewBehind(guids: seq<string>, lo: nat, seen: seq<Message>)
    requires seen != []
    requires forall j :: 0 <= j < |seen| ==> seen[j].guid in guids
    requires forall i, j :: 0 <= i < j < |seen| ==> seen[i].guid != seen[j].guid
    requires Close(guids, lo, seen) && Index(guids, seen[0].guid) >= lo
    ensures |seen| < 2 * WINDOW
  {
    var at := seq(|seen|, j requires 0 <= j < |seen| => Index(guids, seen[j].guid));
    assert forall j :: 0 <= j < |at| ==> guids[at[j]] == seen[j].guid;
    Pigeonhole(at, at[0] - WINDOW + 1, at[0] + WINDOW);
  }

  /** Only entries of the log so far are known. */
  lemma {:induction false} ReadInLog(guids: seq<string>, logs: seq<seq<Entry>>, t: nat, q: nat)
    requires Server(guids, logs) && t <= |logs| && LastRead(logs, t, q).Some?
    ensures q < |guids| && LastRead(logs, t, q).value.guid == guids[q]
    ensures forall u :: t - 1 <= u < |logs| ==> q < |logs[u]|
  {
    if !Observed(logs, t - 1, q) {
      ReadInLog(guids, logs, t - 1, q);
    }
  }

  lemma {:induction false} KnownInLog(guids: seq<string>, logs: seq<seq<Entry>>, t: nat, p: nat, q: nat)
    requires Server(guids, logs) && t < |logs| && KnownAt(logs, t, p, q).Some?
    ensures q < |logs[t]| && KnownAt(logs, t, p, q).value.guid == guids[q]
  {
    if !(q < p && Observed(logs, t, q)) {
      ReadInLog(guids, logs, t, q);
    }
  }

  /** The FIFO recognises the entry at p exactly when its payload is the one read last. */
  lemma {:induction false} RecognisesUnchanged(guids: seq<string>, logs: seq<seq<Entry>>, t: nat, p: nat,
                                               seen: seq<Message>)
    requires Server(guids, logs) && t < |logs| && Low(logs[t]) <= p < |logs[t]| && Inv(guids, logs, t, p, seen)
    requires logs[t][p].Readable?
    ensures Known(seen, logs[t][p].msg) <==> LastRead(logs, t, p) == Some(logs[t][p].msg)
  {
    var m := logs[t][p].msg;
    assert m.guid == logs[t][p].Guid() == guids[p];
    IndexIs(guids, p);
    assert KnownAt(logs, t, p, p) == LastRead(logs, t, p);
  }

  /** The FIFO with m moved or added to its end, before the oldest messages are dropped. */
  lemma {:induction false} Pushed(seen: seq<Message>, m: Message, j: nat)
    requires j < |Without(seen, m.guid) + [m]|
    ensures var out := Without(seen, m.guid) + [m];
            var k := Position(seen, m.guid);
            && (j < |out| - 1 ==> j < |seen| && out[j] == seen[if j < k then j else j + 1])
            && (j == |out| - 1 ==> out[j] == m)
  {
  }

  lemma {:induction false} PushFaithful(guids: seq<string>, logs: seq<seq<Entry>>, t: nat, p: nat, seen: seq<Message>)
    requires Server(guids, logs) && t < |logs| && Low(logs[t]) <= p < |logs[t]| && Faithful(guids, logs, t, p, seen)
    requires logs[t][p].Readable?
    ensures Faithful(guids, logs, t, p + 1, Without(seen, logs[t][p].msg.guid) + [logs[t][p].msg])
  {
    var m := logs[t][p].msg;
    var out := Without(seen, m.guid) + [m];
    var k := Position(seen, m.guid);
    assert m.guid == logs[t][p].Guid() == guids[p];
    IndexIs(guids, p);
    forall j | 0 <= j < |out|
      ensures out[j].guid in guids && KnownAt(logs, t, p + 1, Index(guids, out[j].guid)) == Some(out[j])
      ensures j < |out| - 1 ==> out[j].guid != m.guid
    {
      Pushed(seen, m, j);
    }
    forall i, j | 0 <= i < j < |out| ensures out[i].guid != out[j].guid {
      Pushed(seen, m, i);
      Pushed(seen, m, j);
    }
  }

  lemma {:induction false} PushClose(guids: seq<string>, logs: seq<seq<Entry>>, t: nat, p: nat, seen: seq<Message>)
    requires Server(guids, logs) && t < |logs| && Low(logs[t]) <= p < |logs[t]| && Faithful(guids, logs, t, p, seen)
    requires logs[t][p].Readable? && Close(guids, Low(logs[t]), seen)
    requires Faithful(guids, logs, t, p + 1, Without(seen, logs[t][p].msg.guid) + [logs[t][p].msg])
    ensures Close(guids, Low(logs[t]), Without(seen, logs[t][p].msg.guid) + [logs[t][p].msg])
  {
    var m := logs[t][p].msg;
    var out := Without(seen, m.guid) + [m];
    assert m.guid == logs[t][p].Guid() == guids[p];
    IndexIs(guids, p);
    forall i, j | 0 <= i < j < |out| && Index(guids, out[i].guid) >= Low(logs[t])
      ensures Near(Index(guids, out[i].guid), Index(guids, out[j].guid))
    {
      Pushed(seen, m, i);
      Pushed(seen, m, j);
      KnownInLog(guids, logs, t, p + 1, Index(guids, out[i].guid));
    }
  }

  lemma {:induction false} PushComplete(guids: seq<string>, logs: seq<seq<Entry>>, t: nat, p: nat, seen: seq<Message>)
    requires Server(guids, logs) && t < |logs| && Low(logs[t]) <= p < |logs[t]| && Complete(guids, logs, t, p, seen)
    requires logs[t][p].Readable?
    ensures Complete(guids, logs, t, p + 1, Without(seen, logs[t][p].msg.guid) + [logs[t][p].msg])
  {
    var m := logs[t][p].msg;
    var out := Without(seen, m.guid) + [m];
    var k := Position(seen, m.guid);
    assert m.guid == logs[t][p].Guid() == guids[p];
    forall q | Low(logs[t]) <= q < |logs[t]| && KnownAt(logs, t, p + 1, q).Some?
      ensures Holds(out, guids[q])
    {
      if q == p {
        assert out[|out| - 1].guid == guids[q];
      } else {
        assert KnownAt(logs, t, p, q).Some?;
        var i :| 0 <= i < |seen| && seen[i].guid == guids[q];
        var j := if i < k then i else i - 1;
        assert i != k;
        Pushed(seen, m, j);
        assert out[j].guid == guids[q];
      }
    }
  }

  /** Dropping the oldest message never drops one that is still in the window. */
  lemma {:induction false} EvictsOnlyOld(guids: seq<string>, logs: seq<seq<Entry>>, t: nat, p: nat, out: seq<Message>)
    requires Server(guids, logs) && t < |logs| && |out| <= CAPACITY + 1
    requires Faithful(guids, logs, t, p, out) && Complete(guids, logs, t, p, out) && Close(guids, Low(logs[t]), out)
    ensures Inv(guids, logs, t, p, Newest(out))
    ensures |out| > CAPACITY ==> Index(guids, out[0].guid) < Low(logs[t])
  {
    if |out| > CAPACITY {
      var rest := Newest(out);
      assert rest == out[1..];
      if Index(guids, out[0].guid) >= Low(logs[t]) {
        FewBehind(guids, Low(logs[t]), out);
        assert false;
      }
      forall i, j | 0 <= i < j < |rest| && Index(guids, rest[i].guid) >= Low(logs[t])
        ensures Near(Index(guids, rest[i].guid), Index(guids, rest[j].guid))
      {
        assert rest[i] == out[i + 1] && rest[j] == out[j + 1];
      }
      forall q | Low(logs[t]) <= q < |logs[t]| && KnownAt(logs, t, p, q).Some?
        ensures Holds(rest, guids[q])
      {
        var i :| 0 <= i < |out| && out[i].guid == guids[q];
        IndexIs(guids, q);
        assert rest[i - 1].guid == guids[q];
      }
    }
  }

  lemma {:induction false} NothingLearned(guids: seq<string>, logs: seq<seq<Entry>>, t: nat, p: nat, seen: seq<Message>)
    requires Server(guids, logs) && t < |logs| && Inv(guids, logs, t, p, seen)
    requires p < |logs[t]| && (logs[t][p].Readable? ==> LastRead(logs, t, p) == Some(logs[t][p].msg))
    ensures Inv(guids, logs, t, p + 1, seen)
  {
    forall q: nat ensures KnownAt(logs, t, p + 1, q) == KnownAt(logs, t, p, q) {
    }
    forall q | Low(logs[t]) <= q < |logs[t]| && KnownAt(logs, t, p + 1, q).Some? ensures Holds(seen, guids[q]) {
      assert KnownAt(logs, t, p, q).Some?;
    }
  }

  lemma {:induction false} RememberKeeps(guids: seq<string>, logs: seq<seq<Entry>>, t: nat, p: nat, seen: seq<Message>)
    requires Server(guids, logs) && t < |logs| && Low(logs[t]) <= p < |logs[t]| && Inv(guids, logs, t, p, seen)
    ensures Inv(guids, logs, t, p + 1, if logs[t][p].Readable? then Remember(seen, logs[t][p].msg) else seen)
  {
    if logs[t][p].Unreadable? {
      NothingLearned(guids, logs, t, p, seen);
    } else if Known(seen, logs[t][p].msg) {
      RecognisesUnchanged(guids, logs, t, p, seen);
      NothingLearned(guids, logs, t, p, seen);
    } else {
      var out := Without(seen, logs[t][p].msg.guid) + [logs[t][p].msg];
      PushFaithful(guids, logs, t, p, seen);
      PushClose(guids, logs, t, p, seen);
      PushComplete(guids, logs, t, p, seen);
      EvictsOnlyOld(guids, logs, t, p + 1, out);
    }
  }

  /** What one entry does to the FIFO, and what it sends. */
  function Handled(seen: seq<Message>, e: Entry): seq<Message> {
    if e.Readable? then Remember(seen, e.msg) else seen
  }

  function Passed(seen: seq<Message>, e: Entry): seq<Message> {
    if e.Readable? && !Known(seen, e.msg) then [e.msg] else []
  }

  lemma {:induction false} RoundStep(seen: seq<Message>, log: seq<Entry>, lo: nat, p: nat)
    requires lo <= p < |log|
    ensures var before := Round(seen, Messages(log, lo, p));
            Round(seen, Messages(log, lo, p + 1)) == (Handled(before.0, log[p]), before.1 + Passed(before.0, log[p]))
  {
    var msgs := Messages(log, lo, p);
    var before := Round(seen, msgs);
    if log[p].Readable? {
      RoundSnoc(seen, msgs, log[p].msg);
      assert before.1 + [] == before.1;
    } else {
      assert Messages(log, lo, p + 1) == msgs && before.1 + [] == before.1;
    }
  }

  lemma {:induction false} RoundSnoc(seen: seq<Message>, msgs: seq<Message>, m: Message)
    ensures var (before, sent) := Round(seen, msgs);
            Round(seen, msgs + [m]) == (Remember(before, m), if Known(before, m) then sent else sent + [m])
  {
    assert (msgs + [m])[..|msgs|] == msgs;
  }

  /** One entry of a round: the invariant is kept, and the entry is passed on exactly if it changed. */
  lemma {:induction false} EntryKeeps(guids: seq<string>, logs: seq<seq<Entry>>, t: nat, p: nat, seen: seq<Message>)
    requires Server(guids, logs) && t < |logs| && Low(logs[t]) <= p < |logs[t]| && Inv(guids, logs, t, p, seen)
    ensures Inv(guids, logs, t, p + 1, Handled(seen, logs[t][p]))
    ensures Changes(logs, t, Low(logs[t]), p + 1) == Changes(logs, t, Low(logs[t]), p) + Passed(seen, logs[t][p])
  {
    RememberKeeps(guids, logs, t, p, seen);
    if logs[t][p].Readable? {
      RecognisesUnchanged(guids, logs, t, p, seen);
    }
  }

  /** A round that has handled the entries before p sent exactly the changes among them. */
  lemma {:induction false} RoundSendsChanges(guids: seq<string>, logs: seq<seq<Entry>>, t: nat, p: nat,
                                             seen: seq<Message>)
    requires Server(guids, logs) && t < |logs| && Low(logs[t]) <= p <= |logs[t]|
    requires Inv(guids, logs, t, Low(logs[t]), seen)
    ensures Inv(guids, logs, t, p, Round(seen, Messages(logs[t], Low(logs[t]), p)).0)
    ensures Round(seen, Messages(logs[t], Low(logs[t]), p)).1 == Changes(logs, t, Low(logs[t]), p)
  {
    if p > Low(logs[t]) {
      RoundSendsChanges(guids, logs, t, p - 1, seen);
      RoundStep(seen, logs[t], Low(logs[t]), p - 1);
      EntryKeeps(guids, logs, t, p - 1, Round(seen, Messages(logs[t], Low(logs[t]), p - 1)).0);
    }
  }

  /** Between two rounds the window only moves on. */
  lemma {:induction false} NextRound(guids: seq<string>, logs: seq<seq<Entry>>, t: nat, seen: seq<Message>)
    requires Server(guids, logs) && t + 1 < |logs| && Inv(guids, logs, t, |logs[t]|, seen)
    ensures Inv(guids, logs, t + 1, Low(logs[t + 1]), seen)
  {
    var lo := Low(logs[t + 1]);
    forall q ensures KnownAt(logs, t + 1, lo, q) == LastRead(logs, t + 1, q) == KnownAt(logs, t, |logs[t]|, q) {
    }
    forall q | lo <= q < |logs[t + 1]| && KnownAt(logs, t + 1, lo, q).Some?
      ensures Holds(seen, guids[q])
    {
      KnownInLog(guids, logs, t, |logs[t]|, q);
    }
  }

  lemma {:induction false} WholeRound(guids: seq<string>, logs: seq<seq<Entry>>, t: nat, seen: seq<Message>)
    requires Server(guids, logs) && t + 1 < |logs| && Inv(guids, logs, t, Low(logs[t]), seen)
    ensures Inv(guids, logs, t + 1, Low(logs[t + 1]), Round(seen, Window(logs[t])).0)
  {
    RoundSendsChanges(guids, logs, t, |logs[t]|, seen);
    NextRound(guids, logs, t, Round(seen, Window(logs[t])).0);
  }

  lemma {:induction false} NothingSeen(guids: seq<string>, logs: seq<seq<Entry>>)
    requires Server(guids, logs) && logs != []
    ensures Inv(guids, logs, 0, Low(logs[0]), [])
  {
    forall q: nat ensures KnownAt(logs, 0, Low(logs[0]), q) == None {
    }
  }

  lemma {:induction false} SeenStep(guids: seq<string>, logs: seq<seq<Entry>>, t: nat)
    requires Server(guids, logs) && 0 < t < |logs| && Inv(guids, logs, t - 1, Low(logs[t - 1]), Seen(logs, t - 1))
    ensures Inv(guids, logs, t, Low(logs[t]), Seen(logs, t))
  {
    hide Inv, Server, Round, Low;
    var u := t - 1;
    assert Seen(logs, t) == Round(Seen(logs, u), Window(logs[u])).0;
    WholeRound(guids, logs, u, Seen(logs, u));
  }

  /** Before every round the FIFO is faithful to the log and complete for the window. */
  lemma {:induction false} SeenKeeps(guids: seq<string>, logs: seq<seq<Entry>>, t: nat)
    requires Server(guids, logs) && t < |logs|
    ensures Inv(guids, logs, t, Low(logs[t]), Seen(logs, t))
  {
    if t == 0 {
      NothingSeen(guids, logs);
    } else {
      SeenKeeps(guids, logs, t - 1);
      SeenStep(guids, logs, t);
    }
  }

  // ------------------------------------------------------------ what is sent

  /**
   * The bounded FIFO does the work of an unbounded map: over every run, each round sends
   * exactly the entries of its window whose payload differs from the one read last, oldest
   * first. So an unchanged entry is never sent twice, and a change that is read is sent once.
   */
  lemma {:induction false} SendsExactlyTheChanges(guids: seq<string>, logs: seq<seq<Entry>>, t: nat)
    requires Server(guids, logs) && t < |logs|
    ensures Sent(logs, t) == Changes(logs, t, Low(logs[t]), |logs[t]|)
  {
    SeenKeeps(guids, logs, t);
    RoundSendsChanges(guids, logs, t, |logs[t]|, Seen(logs, t));
  }

  /** The entry at p is sent by round t. */
  ghost predicate SentAt(logs: seq<seq<Entry>>, t: nat, p: nat)
    requires t < |logs|
  {
    Observed(logs, t, p) && LastRead(logs, t, p) != Some(logs[t][p].msg)
  }

  /** A message is among those sent exactly when it is the payload of an entry sent. */
  lemma {:induction false} ChangesMeaning(logs: seq<seq<Entry>>, t: nat, b: nat, m: Message)
    requires t < |logs| && Low(logs[t]) <= b <= |logs[t]|
    ensures m in Changes(logs, t, Low(logs[t]), b) <==>
            exists p :: Low(logs[t]) <= p < b && SentAt(logs, t, p) && logs[t][p].msg == m
  {
    if b > Low(logs[t]) {
      ChangesMeaning(logs, t, b - 1, m);
    }
  }

  /** Few entries arrive between two rounds. */
  ghost predicate Steady(logs: seq<seq<Entry>>) {
    forall t :: 0 < t < |logs| ==> |logs[t]| <= |logs[t - 1]| + WINDOW
  }

  /** The first round whose log has an entry at p. */
  function FirstRound(logs: seq<seq<Entry>>, t: nat, p: nat): (u: nat)
    requires t < |logs| && p < |logs[t]|
    ensures u <= t && p < |logs[u]| && (u > 0 ==> p >= |logs[u - 1]|)
  {
    if t > 0 && p < |logs[t - 1]| then FirstRound(logs, t - 1, p) else t
  }

  /** Round t sends the entry at p, with the payload it has then. */
  ghost predicate Sends(logs: seq<seq<Entry>>, t: nat, p: nat)
    requires t < |logs|
  {
    p < |logs[t]| && logs[t][p].Readable? && logs[t][p].msg in Sent(logs, t)
  }

  /** The poll sends an entry exactly when it reads it with another payload than before, or for the first time. */
  lemma {:induction false} SendsIff(guids: seq<string>, logs: seq<seq<Entry>>, t: nat, p: nat)
    requires Server(guids, logs) && t < |logs|
    ensures Sends(logs, t, p) <==> SentAt(logs, t, p)
  {
    SendsExactlyTheChanges(guids, logs, t);
    if p < |logs[t]| && logs[t][p].Readable? {
      var m := logs[t][p].msg;
      ChangesMeaning(logs, t, |logs[t]|, m);
      if Sends(logs, t, p) {
        var q :| Low(logs[t]) <= q < |logs[t]| && SentAt(logs, t, q) && logs[t][q].msg == m;
        assert logs[t][p].Guid() == logs[t][q].Guid();
        assert guids[p] == guids[q];
      }
    }
  }

  ghost predicate FirstSend(logs: seq<seq<Entry>>, u: nat, p: nat)
    requires u < |logs|
  {
    Sends(logs, u, p) && forall v :: 0 <= v < u ==> !Sends(logs, v, p)
  }

  ghost predicate FirstRead(logs: seq<seq<Entry>>, u: nat, p: nat)
    requires u < |logs|
  {
    Observed(logs, u, p) && forall v :: 0 <= v < u ==> !Observed(logs, v, p)
  }

  lemma {:induction false} NeverRead(logs: seq<seq<Entry>>, u: nat, p: nat)
    requires u <= |logs| && forall v :: 0 <= v < u ==> !Observed(logs, v, p)
    ensures LastRead(logs, u, p) == None
  {
    if u > 0 {
      NeverRead(logs, u - 1, p);
    }
  }

  /** The earliest round up to t that reads the entry. */
  lemma {:induction false} EarliestRead(logs: seq<seq<Entry>>, t: nat, p: nat) returns (u: nat)
    requires t < |logs| && Observed(logs, t, p)
    ensures u <= t && FirstRead(logs, u, p)
  {
    u := t;
    if v :| 0 <= v < t && Observed(logs, v, p) {
      u := EarliestRead(logs, v, p);
    }
  }

  /** An entry is sent for the first time by the round that reads it for the first time. */
  lemma {:induction false} FirstSendIsFirstRead(guids: seq<string>, logs: seq<seq<Entry>>, u: nat, p: nat)
    requires Server(guids, logs) && u < |logs|
    ensures FirstSend(logs, u, p) <==> FirstRead(logs, u, p)
  {
    SendsIff(guids, logs, u, p);
    forall v | 0 <= v < u ensures Sends(logs, v, p) ==> Observed(logs, v, p) {
      SendsIff(guids, logs, v, p);
    }
    if FirstRead(logs, u, p) {
      NeverRead(logs, u, p);
    } else if FirstSend(logs, u, p) {
      var w := EarliestRead(logs, u, p);
      NeverRead(logs, w, p);
      SendsIff(guids, logs, w, p);
    }
  }

  /**
   * No entry is missed: every entry from the first window on lies in the window of the first
   * round after it arrived, which sends it if it can read it. One that cannot be read then is
   * sent up to a round t exactly if some round up to t finds it readable in its window.
   */
  lemma {:induction false} EveryEntryIsSent(guids: seq<string>, logs: seq<seq<Entry>>, t: nat, p: nat)
    requires Server(guids, logs) && Steady(logs) && t < |logs|
    requires Low(logs[0]) <= p < |logs[t]|
    ensures var u := FirstRound(logs, t, p);
            InWindow(logs[u], p) && (logs[u][p].Readable? ==> FirstSend(logs, u, p))
    ensures (exists u :: 0 <= u <= t && FirstSend(logs, u, p)) <==>
            (exists v :: 0 <= v <= t && InWindow(logs[v], p) && logs[v][p].Readable?)
  {
    var u := FirstRound(logs, t, p);
    NotReadBefore(guids, logs, u, p);
    FirstSendIsFirstRead(guids, logs, u, p);
    if v :| 0 <= v <= t && InWindow(logs[v], p) && logs[v][p].Readable? {
      assert Observed(logs, v, p);
      var w := EarliestRead(logs, v, p);
      FirstSendIsFirstRead(guids, logs, w, p);
    }
    if w :| 0 <= w <= t && FirstSend(logs, w, p) {
      FirstSendIsFirstRead(guids, logs, w, p);
      assert InWindow(logs[w], p) && logs[w][p].Readable?;
    }
  }

  /** Before its first round the log has no entry at p to read. */
  lemma {:induction false} NotReadBefore(guids: seq<string>, logs: seq<seq<Entry>>, u: nat, p: nat)
    requires Server(guids, logs) && u < |logs| && (u > 0 ==> p >= |logs[u - 1]|)
    ensures forall v :: 0 <= v < u ==> !Observed(logs, v, p)
  {
    forall v | 0 <= v < u ensures !Observed(logs, v, p) {
      assert |logs[v]| <= |logs[u - 1]|;
    }
  }

  // -------------------------------------------------------------- the order

  /** What a round sends up to b, and where in the log it comes from. */
  lemma {:induction false} ChangesInOrder(guids: seq<string>, logs: seq<seq<Entry>>, t: nat, b: nat, i: nat, j: nat)
    requires Server(guids, logs) && t < |logs| && Low(logs[t]) <= b <= |logs[t]|
    requires i <= j < |Changes(logs, t, Low(logs[t]), b)|
    ensures var sent := Changes(logs, t, Low(logs[t]), b);
            && sent[i].guid in guids && sent[j].guid in guids && Index(guids, sent[j].guid) < b
            && (i < j ==> Index(guids, sent[i].guid) < Index(guids, sent[j].guid))
  {
    var sent, front := Changes(logs, t, Low(logs[t]), b), Changes(logs, t, Low(logs[t]), b - 1);
    if j < |front| {
      ChangesInOrder(guids, logs, t, b - 1, i, j);
    } else {
      assert sent[j] == logs[t][b - 1].msg && sent[j].guid == logs[t][b - 1].Guid() == guids[b - 1];
      IndexIs(guids, b - 1);
      if i < j {
        ChangesInOrder(guids, logs, t, b - 1, i, i);
      }
    }
  }

  /** Within a round messages are sent in the order of the log, so no guid twice. */
  lemma {:induction false} RoundInOrder(guids: seq<string>, logs: seq<seq<Entry>>, t: nat, i: nat, j: nat)
    requires Server(guids, logs) && t < |logs| && i < j < |Sent(logs, t)|
    ensures Sent(logs, t)[i].guid in guids && Sent(logs, t)[j].guid in guids
    ensures Index(guids, Sent(logs, t)[i].guid) < Index(guids, Sent(logs, t)[j].guid)
  {
    SendsExactlyTheChanges(guids, logs, t);
    ChangesInOrder(guids, logs, t, |logs[t]|, i, j);
  }

  ghost predicate Precedes(sent: seq<Message>, m: Message, n: Message) {
    exists i, j :: 0 <= i < j < |sent| && sent[i] == m && sent[j] == n
  }

  /** The entry at p, sent by round u, goes out before the one at q, sent by round w. */
  ghost predicate SentBefore(logs: seq<seq<Entry>>, u: nat, p: nat, w: nat, q: nat)
    requires u < |logs| && w < |logs| && Sends(logs, u, p) && Sends(logs, w, q)
  {
    u < w || (u == w && Precedes(Sent(logs, u), logs[u][p].msg, logs[u][q].msg))
  }

  lemma {:induction false} OlderGoesFirst(guids: seq<string>, logs: seq<seq<Entry>>, t: nat, p: nat, q: nat)
    requires Server(guids, logs) && t < |logs| && p < q && Sends(logs, t, p) && Sends(logs, t, q)
    ensures Precedes(Sent(logs, t), logs[t][p].msg, logs[t][q].msg)
  {
    var sent := Sent(logs, t);
    var i :| 0 <= i < |sent| && sent[i] == logs[t][p].msg;
    var j :| 0 <= j < |sent| && sent[j] == logs[t][q].msg;
    assert sent[i].guid == logs[t][p].Guid() == guids[p] && sent[j].guid == logs[t][q].Guid() == guids[q];
    IndexIs(guids, p);
    IndexIs(guids, q);
    if j < i {
      RoundInOrder(guids, logs, t, j, i);
    }
  }

  /**
   * First sends follow the order of the log, unless the older entry could not be read: it goes
   * out first exactly if some round up to the first send of the newer one read it.
   */
  lemma {:induction false} FirstSendsInOrder(guids: seq<string>, logs: seq<seq<Entry>>, u: nat, p: nat, w: nat, q: nat)
    requires Server(guids, logs) && u < |logs| && w < |logs| && p < q
    requires FirstSend(logs, u, p) && FirstSend(logs, w, q)
    ensures SentBefore(logs, u, p, w, q) <==>
            exists v :: 0 <= v <= w && InWindow(logs[v], p) && logs[v][p].Readable?
  {
    FirstSendIsFirstRead(guids, logs, u, p);
    if u == w {
      OlderGoesFirst(guids, logs, u, p, q);
    }
    if u <= w {
      assert InWindow(logs[u], p) && logs[u][p].Readable?;
    }
    if v :| 0 <= v <= w && InWindow(logs[v], p) && logs[v][p].Readable? {
      assert Observed(logs, v, p);
    }
  }

  /**
   * In particular an entry that can be read when it arrives is sent before every entry after it:
   * its first send precedes each send of theirs.
   */
  lemma {:induction false} ReadableGoesFirst(guids: seq<string>, logs: seq<seq<Entry>>, t: nat, p: nat, w: nat, q: nat)
    requires Server(guids, logs) && Steady(logs) && t < |logs| && w < |logs|
    requires Low(logs[0]) <= p < |logs[t]| && p < q && Sends(logs, w, q)
    requires logs[FirstRound(logs, t, p)][p].Readable?
    ensures var u := FirstRound(logs, t, p); FirstSend(logs, u, p) && SentBefore(logs, u, p, w, q)
  {
    var u := FirstRound(logs, t, p);
    EveryEntryIsSent(guids, logs, t, p);
    if w == u {
      OlderGoesFirst(guids, logs, u, p, q);
    }
  }

  lemma {:induction false} FirstTwo(a: Message, b: Message)
    requires a.guid != b.guid
    ensures Round([], [b]) == ([b], [b]) && Round([b], [a, b]) == ([b, a], [a])
  {
    RoundSnoc([], [], b);
    assert [] + [b] == [b] && Without([], b.guid) == [];
    assert Round([], [b]) == ([b], [b]);
    RoundSnoc([b], [], a);
    assert [] + [a] == [a] && Position([b], a.guid) == 1 && Without([b], a.guid) == [b] && [b] + [a] == [b, a];
    assert Round([b], [a]) == ([b, a], [a]);
    RoundSnoc([b], [a], b);
    assert [a] + [b] == [a, b] && Position([b, a], b.guid) == 0;
  }

  function Overtaking(a: Message, b: Message): (logs: seq<seq<Entry>>)
    ensures |logs| == 2
  {
    [[Unreadable(a.guid), Readable(b)], [Readable(a), Readable(b)]]
  }

  lemma {:induction false} OvertakingSends(a: Message, b: Message)
    requires a.guid != b.guid
    ensures Sent(Overtaking(a, b), 0) == [b] && Sent(Overtaking(a, b), 1) == [a]
  {
    var logs := Overtaking(a, b);
    assert Messages(logs[0], 0, 0) == [] && Messages(logs[0], 0, 1) == [] && Messages(logs[0], 0, 2) == [b];
    assert Messages(logs[1], 0, 0) == [] && Messages(logs[1], 0, 1) == [a] && Messages(logs[1], 0, 2) == [a, b];
    FirstTwo(a, b);
    assert Window(logs[0]) == [b] && Window(logs[1]) == [a, b];
    assert Seen(logs, 0) == [] && Seen(logs, 1) == [b];
  }

  lemma {:induction false} OvertakingServer(a: Message, b: Message)
    requires a.guid != b.guid
    ensures Server([a.guid, b.guid], Overtaking(a, b)) && Steady(Overtaking(a, b))
  {
  }

  lemma {:induction false} SentInTurn(logs: seq<seq<Entry>>, a: Message, b: Message)
    requires |logs| == 2 && |logs[0]| == |logs[1]| == 2 && a != b
    requires logs[0][1] == logs[1][1] == Readable(b) && logs[1][0] == Readable(a) && logs[0][0].Unreadable?
    requires Sent(logs, 0) == [b] && Sent(logs, 1) == [a]
    ensures FirstSend(logs, 1, 0) && FirstSend(logs, 0, 1) && !SentBefore(logs, 1, 0, 0, 1)
  {
    hide Sent;
  }

  /** An entry that cannot be read when it arrives can be overtaken: the newer of these two goes out first. */
  lemma {:induction false} UnreadableIsOvertaken(a: Message, b: Message)
    requires a.guid != b.guid
    ensures var guids, logs := [a.guid, b.guid], Overtaking(a, b);
            && Server(guids, logs) && Steady(logs) && Sent(logs, 0) == [b] && Sent(logs, 1) == [a]
            && FirstSend(logs, 1, 0) && FirstSend(logs, 0, 1) && !SentBefore(logs, 1, 0, 0, 1)
  {
    hide Sent, Server, Steady, FirstSend, SentBefore;
    OvertakingSends(a, b);
    OvertakingServer(a, b);
    SentInTurn(Overtaking(a, b), a, b);
  }

  // ----------------------------------------------------------- unedited entries

  /** Whatever a round sends under the guid of an entry is that entry. */
  lemma {:induction false} SentUnderGuid(guids: seq<string>, logs: seq<seq<Entry>>, t: nat, p: nat, m: Message)
    requires Server(guids, logs) && t < |logs| && p < |guids| && m in Sent(logs, t) && m.guid == guids[p]
    ensures SentAt(logs, t, p) && logs[t][p].msg == m
  {
    SendsExactlyTheChanges(guids, logs, t);
    ChangesMeaning(logs, t, |logs[t]|, m);
    var q :| Low(logs[t]) <= q < |logs[t]| && SentAt(logs, t, q) && logs[t][q].msg == m;
    assert m.guid == logs[t][q].Guid() == guids[q];
  }

  /** An entry that has the same payload in every reading from round u to round t is not sent again by t. */
  lemma {:induction false} UneditedSentOnce(guids: seq<string>, logs: seq<seq<Entry>>, u: nat, t: nat, p: nat)
    requires Server(guids, logs) && u < t < |logs| && Sends(logs, u, p)
    requires forall v :: u <= v <= t && Observed(logs, v, p) ==> logs[v][p].msg == logs[u][p].msg
    ensures forall m :: m in Sent(logs, t) ==> m.guid != guids[p]
  {
    SendsIff(guids, logs, u, p);
    ReadSince(logs, u, t, p);
    forall m | m in Sent(logs, t) ensures m.guid != guids[p] {
      if m.guid == guids[p] {
        SentUnderGuid(guids, logs, t, p, m);
        assert false;
      }
    }
  }

  /** And one that a round reads edited since it was last read is sent by that round. */
  lemma {:induction false} EditedIsSent(guids: seq<string>, logs: seq<seq<Entry>>, u: nat, t: nat, p: nat)
    requires Server(guids, logs) && u < t < |logs| && Observed(logs, u, p) && Observed(logs, t, p)
    requires forall v :: u < v < t ==> !Observed(logs, v, p)
    ensures Sends(logs, t, p) <==> logs[t][p].msg != logs[u][p].msg
  {
    ReadSince(logs, u, t, p);
    SendsIff(guids, logs, t, p);
  }

  /** Once read, the last payload is one that some later round read. */
  lemma {:induction false} ReadSince(logs: seq<seq<Entry>>, u: nat, t: nat, p: nat)
    requires u < t <= |logs| && Observed(logs, u, p)
    ensures exists v :: u <= v < t && Observed(logs, v, p) && LastRead(logs, t, p) == Some(logs[v][p].msg)
  {
    if !Observed(logs, t - 1, p) {
      ReadSince(logs, u, t - 1, p);
    }
  }
}
