/**
 * Subscribing without a gap (handle_client and snapshot in sync/src/socket_server.rs, apply_live
 * in sync/src/client.rs). Writers apply a message to the cache and then send it; a client
 * subscribes to the channel and then reads a snapshot. The channel keeps the last 256 events:
 * a client that falls further behind loses the older ones and reads the cache again. Every
 * interleaving of these steps is a run.
 */
module Broadcast {
  import opened Prelude
  import opened Documents
  import T = Tables
  import U = Unread

  const CAPACITY: nat := 256

  /**
   * next is the position of the receiver in the log of all events. snapshot and resync count the
   * messages that had been applied when the cache was read, received lists the positions delivered;
   * owed says that events were lost and the cache is to be read again.
   */
  datatype Subscriber =
    | Oneshot
    | Subscribed(start: nat)
    | Streaming(start: nat, next: nat, snapshot: nat, received: seq<nat>, owed: bool, resync: nat)

  /** docs are the messages applied, log the indices of those sent, unsent those still to be sent. */
  datatype State = State(docs: seq<Doc>, unsent: set<nat>, log: seq<nat>, sub: Subscriber)

  const START := State([], {}, [], Oneshot)

  datatype Event = Apply(doc: Doc) | Send(message: nat) | Subscribe | Snapshot | Receive | Resync

  function Received(sub: Subscriber, sent: nat): Subscriber
    requires sub.Streaming?
  {
    if sub.next >= sent then sub
    else if sub.next + CAPACITY < sent then sub.(next := sent - CAPACITY, owed := true)
    else sub.(next := sub.next + 1, received := sub.received + [sub.next])
  }

  function Step(s: State, e: Event): State {
    match e
    case Apply(doc) => s.(docs := s.docs + [doc], unsent := s.unsent + {|s.docs|})
    case Send(k) => if k in s.unsent then s.(unsent := s.unsent - {k}, log := s.log + [k]) else s
    case Subscribe => if s.sub.Oneshot? then s.(sub := Subscribed(|s.log|)) else s
    case Snapshot =>
      if s.sub.Subscribed? then s.(sub := Streaming(s.sub.start, s.sub.start, |s.docs|, [], false, 0)) else s
    case Receive => if s.sub.Streaming? && !s.sub.owed then s.(sub := Received(s.sub, |s.log|)) else s
    case Resync => if s.sub.Streaming? && s.sub.owed then s.(sub := s.sub.(owed := false, resync := |s.docs|)) else s
  }

  function Run(events: seq<Event>): State {
    if events == [] then START else Step(Run(events[..|events| - 1]), events[|events| - 1])
  }

  // -------------------------------------------------------------- the channel

  /** Every message applied is unsent or was sent, and was sent once. */
  ghost predicate LogOk(s: State) {
    && Distinct(s.log) && (forall k :: k in s.log ==> k < |s.docs| && k !in s.unsent)
    && (forall k :: k in s.unsent ==> k < |s.docs|)
    && forall k: nat :: k < |s.docs| ==> k in s.unsent || k in s.log
  }

  /** What was sent before the client subscribed had been applied by then, so the snapshot has it. */
  ghost predicate SentBefore(s: State, start: nat, applied: nat) {
    start <= |s.log| && applied <= |s.docs| && forall p :: 0 <= p < start ==> s.log[p] < applied
  }

  ghost predicate Increasing(positions: seq<nat>) {
    forall i, j :: 0 <= i < j < |positions| ==> positions[i] < positions[j]
  }

  /** Every event since subscribing that is behind the receiver was delivered, or is made good by a read. */
  ghost predicate MadeGood(s: State, p: nat)
    requires s.sub.Streaming? && p < |s.log|
  {
    p in s.sub.received || s.sub.owed || s.log[p] < s.sub.resync
  }

  ghost predicate SubOk(s: State) {
    match s.sub
    case Oneshot => true
    case Subscribed(start) => SentBefore(s, start, |s.docs|)
    case Streaming(start, next, snapshot, received, _, resync) =>
      && SentBefore(s, start, snapshot) && start <= next <= |s.log| && resync <= |s.docs|
      && Increasing(received) && (forall p :: p in received ==> start <= p < next)
      && forall p :: start <= p < next ==> MadeGood(s, p)
  }

  ghost predicate Inv(s: State) {
    LogOk(s) && SubOk(s)
  }

  lemma {:induction false} ApplyKeeps(s: State, doc: Doc)
    requires Inv(s)
    ensures Inv(Step(s, Apply(doc)))
  {
    var later := Step(s, Apply(doc));
    if s.sub.Streaming? {
      assert forall p: nat :: p < |s.log| && MadeGood(s, p) ==> MadeGood(later, p);
    }
  }

  lemma {:induction false} SendKeeps(s: State, k: nat)
    requires Inv(s)
    ensures Inv(Step(s, Send(k)))
  {
    var later := Step(s, Send(k));
    if k in s.unsent {
      assert forall j: nat :: j in s.log ==> j in later.log;
      assert k == later.log[|s.log|];
      if s.sub.Streaming? {
        assert forall p: nat :: p < |s.log| && MadeGood(s, p) ==> MadeGood(later, p);
      }
    }
  }

  lemma {:induction false} IncreasingSnoc(positions: seq<nat>, n: nat)
    requires Increasing(positions) && forall p :: p in positions ==> p < n
    ensures Increasing(positions + [n])
  {
    var all := positions + [n];
    forall i, j | 0 <= i < j < |all| ensures all[i] < all[j] {
      assert all[i] == positions[i];
      assert positions[i] in positions;
    }
  }

  lemma {:induction false} ReceiveKeeps(s: State)
    requires Inv(s) && s.sub.Streaming? && !s.sub.owed
    ensures Inv(Step(s, Receive))
  {
    var later := Step(s, Receive);
    IncreasingSnoc(s.sub.received, s.sub.next);
    forall p | s.sub.start <= p < later.sub.next ensures MadeGood(later, p) {
      if p < s.sub.next {
        assert MadeGood(s, p);
      }
    }
  }

  lemma {:induction false} ResyncKeeps(s: State)
    requires Inv(s) && s.sub.Streaming? && s.sub.owed
    ensures Inv(Step(s, Resync))
  {
    var later := Step(s, Resync);
    forall p | s.sub.start <= p < s.sub.next ensures MadeGood(later, p) {
      assert s.log[p] in s.log;
    }
  }

  lemma {:induction false} SubscribeKeeps(s: State)
    requires Inv(s)
    ensures Inv(Step(s, Subscribe))
  {
    assert forall p :: 0 <= p < |s.log| ==> s.log[p] in s.log;
  }

  lemma {:induction false} StepKeeps(s: State, e: Event)
    requires Inv(s)
    ensures Inv(Step(s, e))
  {
    match e
    case Apply(doc) => ApplyKeeps(s, doc);
    case Send(k) => SendKeeps(s, k);
    case Subscribe => SubscribeKeeps(s);
    case Snapshot =>
    case Receive =>
      if s.sub.Streaming? && !s.sub.owed {
        ReceiveKeeps(s);
      }
    case Resync =>
      if s.sub.Streaming? && s.sub.owed {
        ResyncKeeps(s);
      }
  }

  lemma {:induction false} RunKeeps(events: seq<Event>)
    ensures Inv(Run(events))
  {
    if events != [] {
      RunKeeps(events[..|events| - 1]);
      StepKeeps(Run(events[..|events| - 1]), events[|events| - 1]);
    }
  }

  // ---------------------------------------------------------------- no gap

  /** The statements that the first n applications of messages are to the cache. */
  function LiveOps(docs: seq<Doc>, n: nat): seq<T.Op>
    requires n <= |docs|
  {
    seq(n, i requires 0 <= i < n => T.Live(docs[i]))
  }

  /** Message k has its row in the cache as it was after n applications. */
  ghost predicate InCache(docs: seq<Doc>, n: nat, k: nat)
    requires n <= |docs| && k < |docs|
  {
    IdOf(Get(docs[k], Id)) in T.Run(T.EMPTY, LiveOps(docs, n)).messages
  }

  lemma {:induction false} AppliedIsStored(docs: seq<Doc>, n: nat, k: nat)
    requires k < n <= |docs|
    ensures InCache(docs, n, k)
  {
    U.KeysOfRun(LiveOps(docs, n));
    assert T.Stores(LiveOps(docs, n)[k], IdOf(Get(docs[k], Id)));
  }

  ghost predicate Delivered(s: State, k: nat) {
    s.sub.Streaming? && exists p :: p in s.sub.received && p < |s.log| && s.log[p] == k
  }

  /** The event is in the channel, ahead of the receiver. */
  ghost predicate ToCome(s: State, k: nat) {
    s.sub.Streaming? && exists p :: s.sub.next <= p < |s.log| && s.log[p] == k
  }

  /** The event was lost behind the receiver. */
  ghost predicate Lost(s: State, k: nat) {
    && s.sub.Streaming?
    && exists p :: s.sub.start <= p < s.sub.next && p < |s.log| && s.log[p] == k && p !in s.sub.received
  }

  /**
   * Subscribing leaves no gap. In every reachable state each message applied is in the cache that
   * the snapshot read, or is delivered, or is in the channel still to be delivered, or is still to
   * be sent by its writer, or was lost and is in the cache that a later read, made or owed, finds.
   */
  lemma {:induction false} NothingMissed(events: seq<Event>, k: nat)
    requires Run(events).sub.Streaming? && k < |Run(events).docs|
    ensures var s := Run(events);
            && s.sub.snapshot <= |s.docs| && s.sub.resync <= |s.docs|
            && (|| InCache(s.docs, s.sub.snapshot, k) || Delivered(s, k) || ToCome(s, k) || k in s.unsent
                || (Lost(s, k) && (s.sub.owed || InCache(s.docs, s.sub.resync, k))))
  {
    var s := Run(events);
    RunKeeps(events);
    if k !in s.unsent {
      assert k in s.log;
      var p :| 0 <= p < |s.log| && s.log[p] == k;
      if p < s.sub.start {
        AppliedIsStored(s.docs, s.sub.snapshot, k);
      } else if p < s.sub.next {
        assert MadeGood(s, p);
        if p !in s.sub.received && !s.sub.owed {
          AppliedIsStored(s.docs, s.sub.resync, k);
        }
      }
    }
  }

  /** Once every writer has sent and the client has caught up, it has been told of every message. */
  lemma {:induction false} CaughtUp(events: seq<Event>, k: nat)
    requires var s := Run(events);
             s.sub.Streaming? && s.unsent == {} && s.sub.next == |s.log| && !s.sub.owed && k < |s.docs|
    ensures var s := Run(events);
            && s.sub.snapshot <= |s.docs| && s.sub.resync <= |s.docs|
            && (InCache(s.docs, s.sub.snapshot, k) || Delivered(s, k) || InCache(s.docs, s.sub.resync, k))
  {
    NothingMissed(events, k);
  }

  /** No event is delivered twice, and events are delivered in the order they were sent. */
  lemma {:induction false} DeliveredOnce(events: seq<Event>, i: nat, j: nat)
    requires Run(events).sub.Streaming? && i < j < |Run(events).sub.received|
    ensures var s := Run(events);
            && s.sub.received[i] < s.sub.received[j] < |s.log|
            && s.log[s.sub.received[i]] != s.log[s.sub.received[j]]
  {
    var s := Run(events);
    RunKeeps(events);
    assert s.sub.received[j] in s.sub.received;
  }

  // ------------------------------------------------------------ keeping up

  /** No receive finds the client more than the capacity behind. */
  ghost predicate KeepsUp(events: seq<Event>) {
    forall i :: 0 <= i < |events| && events[i].Receive? && Run(events[..i]).sub.Streaming? ==>
      |Run(events[..i]).log| <= Run(events[..i]).sub.next + CAPACITY
  }

  lemma {:induction false} KeepsUpFront(events: seq<Event>)
    requires events != [] && KeepsUp(events)
    ensures KeepsUp(events[..|events| - 1])
    ensures var s, e := Run(events[..|events| - 1]), events[|events| - 1];
            e.Receive? && s.sub.Streaming? ==> |s.log| <= s.sub.next + CAPACITY
  {
    var front := events[..|events| - 1];
    forall i | 0 <= i < |front| ensures front[..i] == events[..i] && front[i] == events[i] {
    }
  }

  /** A client that keeps up receives every event sent since it subscribed, in order, and never reads again. */
  lemma {:induction false} NothingLost(events: seq<Event>)
    requires KeepsUp(events) && Run(events).sub.Streaming?
    ensures var sub := Run(events).sub;
            && sub.start <= sub.next && !sub.owed && sub.resync == 0 && |sub.received| == sub.next - sub.start
            && forall i :: 0 <= i < |sub.received| ==> sub.received[i] == sub.start + i
  {
    if events != [] {
      var front, e := events[..|events| - 1], events[|events| - 1];
      KeepsUpFront(events);
      if Run(front).sub.Streaming? {
        NothingLost(front);
      } else {
        assert e.Snapshot?;
      }
    }
  }

  /** And the limit is sharp: one event more, and the oldest ones up to the last 256 are lost. */
  lemma {:induction false} LagLoses(s: State)
    requires Inv(s) && s.sub.Streaming? && !s.sub.owed && |s.log| > s.sub.next + CAPACITY
    ensures var later := Step(s, Receive);
            && later.sub.owed && later.sub.received == s.sub.received
            && forall p :: s.sub.next <= p < |s.log| - CAPACITY ==> Lost(later, s.log[p])
  {
    var later := Step(s, Receive);
    forall p | s.sub.next <= p < |s.log| - CAPACITY ensures Lost(later, s.log[p]) {
      assert p !in s.sub.received;
      assert later.log[p] == s.log[p];
    }
  }

  // ---------------------------------------------------------------- progress

  /** A writer that applies a message and sends it appends it to the cache and to the log, and touches nothing else. */
  lemma {:induction false} WriterGetsThrough(s: State, doc: Doc)
    requires Inv(s)
    ensures var k := |s.docs|;
            Step(Step(s, Apply(doc)), Send(k)) == s.(docs := s.docs + [doc], log := s.log + [k])
  {
    var applied := Step(s, Apply(doc));
    assert |s.docs| !in s.unsent;
    assert applied.unsent - {|s.docs|} == s.unsent;
  }

  /** A writer that has applied its message can always send it. */
  lemma {:induction false} SenderGetsThrough(s: State, k: nat)
    requires k in s.unsent
    ensures k !in Step(s, Send(k)).unsent && Step(s, Send(k)).log == s.log + [k]
  {
  }

  /**
   * A client streams from where the log ended when it subscribed, with a snapshot of what was applied when
   * it read, and what it read again is what was applied at its last reread.
   */
  lemma {:induction false} StreamsSince(events: seq<Event>) returns (i: nat, j: nat)
    requires Run(events).sub.Streaming?
    ensures i < j < |events| && events[i].Subscribe? && events[j].Snapshot?
    ensures Run(events).sub.start == |Run(events[..i]).log| && Run(events).sub.snapshot == |Run(events[..j]).docs|
    ensures Run(events).sub.resync == 0 || exists k: nat :: RereadAt(events, k)
  {
    var n := |events| - 1;
    if Run(events[..n]).sub.Streaming? {
      i, j := StreamsSince(events[..n]);
      assert events[..n][..i] == events[..i] && events[..n][..j] == events[..j];
      if Run(events).sub.resync == Run(events[..n]).sub.resync {
        if k: nat :| RereadAt(events[..n], k) {
          assert events[..n][..k] == events[..k];
          assert RereadAt(events, k);
        }
      } else {
        assert RereadAt(events, n);
      }
    } else {
      j := n;
      i := SubscribedAt(events[..n]);
      assert events[..n][..i] == events[..i];
    }
  }

  /** The client read the cache again at k, as it was then. */
  ghost predicate RereadAt(events: seq<Event>, k: nat) {
    && k < |events| && events[k].Resync? && Run(events[..k]).sub.Streaming? && Run(events[..k]).sub.owed
    && Run(events).sub.Streaming? && Run(events).sub.resync == |Run(events[..k]).docs|
  }

  lemma {:induction false} SubscribedAt(events: seq<Event>) returns (i: nat)
    requires Run(events).sub.Subscribed?
    ensures i < |events| && events[i].Subscribe? && Run(events).sub.start == |Run(events[..i]).log|
  {
    var n := |events| - 1;
    if Run(events[..n]).sub.Subscribed? {
      i := SubscribedAt(events[..n]);
      assert events[..n][..i] == events[..i];
    } else {
      i := n;
    }
  }

  /** In every run a client that asks is subscribed, and then streams. */
  lemma {:induction false} SubscriberStreams(events: seq<Event>)
    requires Run(events).sub.Oneshot?
    ensures Run(events + [Subscribe]).sub.Subscribed? && Run(events + [Subscribe, Snapshot]).sub.Streaming?
  {
    assert (events + [Subscribe])[..|events|] == events;
    assert (events + [Subscribe, Snapshot])[..|events| + 1] == events + [Subscribe];
  }

  /** The n positions from this one on. */
  function Positions(from: nat, n: nat): (p: seq<nat>)
    ensures |p| == n && forall i :: 0 <= i < n ==> p[i] == from + i
  {
    seq(n, i => from + i)
  }

  function Receives(s: State, n: nat): State {
    if n == 0 then s else Step(Receives(s, n - 1), Receive)
  }

  /** As long as it is not further behind than the channel holds, each turn delivers the next event. */
  lemma {:induction false} ReceivesInTurn(s: State, n: nat)
    requires s.sub.Streaming? && !s.sub.owed && |s.log| <= s.sub.next + CAPACITY && s.sub.next + n <= |s.log|
    ensures Receives(s, n) ==
            s.(sub := s.sub.(next := s.sub.next + n, received := s.sub.received + Positions(s.sub.next, n)))
  {
    if n > 0 {
      ReceivesInTurn(s, n - 1);
      assert s.sub.received + Positions(s.sub.next, n) ==
             (s.sub.received + Positions(s.sub.next, n - 1)) + [s.sub.next + n - 1];
    } else {
      assert s.sub.received + Positions(s.sub.next, 0) == s.sub.received;
    }
  }

  /**
   * A client always catches up. Left alone, one that is not too far behind is delivered every event of the
   * log; one that is reads the cache again, as it is then, and is delivered the last 256.
   */
  lemma {:induction false} CatchesUp(s: State)
    requires Inv(s) && s.sub.Streaming? && !s.sub.owed
    ensures |s.log| <= s.sub.next + CAPACITY ==>
              var later, n := Receives(s, |s.log| - s.sub.next), |s.log| - s.sub.next;
              && later.sub.Streaming? && later.sub.next == |s.log| && !later.sub.owed
              && later.sub.received == s.sub.received + Positions(s.sub.next, n)
    ensures |s.log| > s.sub.next + CAPACITY ==>
              var reread := Step(Step(s, Receive), Resync);
              && reread.sub.Streaming? && reread.sub.resync == |s.docs|
              && var later := Receives(reread, CAPACITY);
                 && later.sub.Streaming? && later.sub.next == |s.log| && !later.sub.owed
                 && later.sub.received == s.sub.received + Positions(|s.log| - CAPACITY, CAPACITY)
  {
    if |s.log| <= s.sub.next + CAPACITY {
      ReceivesInTurn(s, |s.log| - s.sub.next);
    } else {
      var reread := Step(Step(s, Receive), Resync);
      ReceivesInTurn(reread, CAPACITY);
    }
  }

  // --------------------------------------------------------------- the object

  datatype RecvResult = Pending | Ok(message: nat) | Lagged(missed: nat)

  /** The receiving end of the channel in handle_client; log is what was sent so far. */
  class Client {
    var next: nat
    var written: seq<nat>
    var rereads: nat

    ghost predicate Shows(s: State)
      reads this
    {
      s.sub.Streaming? && next == s.sub.next && |written| == |s.sub.received|
      && forall i :: 0 <= i < |written| ==> s.sub.received[i] < |s.log| && written[i] == s.log[s.sub.received[i]]
    }

    constructor (sent: nat)
      ensures next == sent && written == [] && rereads == 0
    {
      next, written, rereads := sent, [], 0;
    }

    method Recv(log: seq<nat>) returns (r: RecvResult)
      requires next <= |log|
      modifies this`next
      ensures next <= |log|
      ensures r == Pending <==> old(next) == |log|
      ensures r.Ok? ==> old(next) < |log| && r.message == log[old(next)] && next == old(next) + 1
      ensures r.Lagged? ==> |log| > old(next) + CAPACITY && next == |log| - CAPACITY == old(next) + r.missed
      ensures r.Pending? ==> next == old(next)
      ensures |log| > old(next) + CAPACITY ==> r.Lagged?
    {
      if next == |log| {
        return Pending;
      }
      if next + CAPACITY < |log| {
        r := Lagged(|log| - CAPACITY - next);
        next := |log| - CAPACITY;
      } else {
        r := Ok(log[next]);
        next := next + 1;
      }
    }

    /** One turn of the streaming branch: an event is passed on, or the cache is read again. */
    method Turn(log: seq<nat>, ghost s: State)
      requires Shows(s) && log == s.log && next <= |log| && !s.sub.owed
      modifies this
      ensures Shows(Step(Step(s, Receive), Resync)) && next <= |log|
      ensures rereads == old(rereads) + if Step(s, Receive).sub.owed then 1 else 0
    {
      var r := Recv(log);
      match r
      case Pending =>
      case Ok(message) => written := written + [message];
      case Lagged(_) => rereads := rereads + 1;
    }
  }
}
