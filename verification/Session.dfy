/**
 * The hand-over of generations (reconnect_from_store and session_loop in sync/src/link/mod.rs,
 * run_generation and wait_new_gen in sync/src/client.rs). Any number of reconnects run at once,
 * each in three atomic steps, beside the one session loop; every interleaving is a run.
 */
module Session {
  import opened Prelude

  datatype Provision = Empty | Ready(creds: string)

  /** A reconnect has loaded its settings, written them, drawn its number, and sent it. */
  datatype Phase = Loaded | Written(stamp: nat) | Numbered(stamp: nat, gen: nat) | Sent

  datatype Reconnect = Reconnect(loaded: Provision, phase: Phase)

  /** What the session read, and which write it was. */
  datatype Held = Held(provision: Provision, stamp: nat)

  /** wait_new_gen: about to look at the number, or inside changed(); seen is the version its receiver has seen. */
  datatype Waiter = Looking(seen: nat) | Waiting(seen: nat)

  datatype Place =
    | Top
    | Borrowed(gen: nat)
    | Detaching(held: Held)
    | Parked(held: Held)
    | Entering(gen: nat, held: Held)
    | Connecting(gen: nat, held: Held, waiter: Waiter)
    | Connected(gen: nat, held: Held, waiter: Waiter)
    | Closing(gen: nat, held: Held)
    | Closed(gen: nat, held: Held)
    | Sleeping(gen: nat, held: Held, waiter: Waiter)
    | Returned(gen: nat, held: Held)
    | WaitingAgain(gen: nat, held: Held)

  /**
   * stamp counts the writes of provision and sends lists the numbers sent; the program keeps neither.
   * number and version are the state of the watch channel, seen is the version the session has seen.
   */
  datatype State = State(provision: Provision, stamp: nat, counter: nat, sends: seq<nat>, number: nat, version: nat,
                         reconnects: seq<Reconnect>, place: Place, seen: nat, uplink: Option<nat>)

  function Boot(p: Provision): State {
    State(p, 0, 0, [], 0, 0, [], Top, 0, None)
  }

  datatype Event =
    | Load(provision: Provision)
    | Advance(reconnect: nat)
    | Move
    | ConnectEnds(attached: bool)
    | LiveEnds
    | DelayEnds

  // ------------------------------------------------------------- reconnects

  /** The next step of a reconnect; once the settings are written nothing cancels it before it has sent. */
  function Advanced(s: State, k: nat): State
    requires k < |s.reconnects|
  {
    var r := s.reconnects[k];
    match r.phase
    case Loaded =>
      s.(provision := r.loaded, stamp := s.stamp + 1,
         reconnects := s.reconnects[k := r.(phase := Written(s.stamp + 1))])
    case Written(stamp) =>
      s.(counter := s.counter + 1, reconnects := s.reconnects[k := r.(phase := Numbered(stamp, s.counter + 1))])
    case Numbered(_, gen) =>
      s.(number := gen, version := s.version + 1, sends := s.sends + [gen],
         reconnects := s.reconnects[k := r.(phase := Sent)])
    case Sent => s
  }

  // ---------------------------------------------------------------- session

  /** One poll of wait_new_gen; None when it returns because the number is not gen. */
  function Polled(s: State, gen: nat, w: Waiter): Option<Waiter> {
    match w
    case Looking(seen) => if s.number != gen then None else Some(Waiting(seen))
    case Waiting(seen) => if s.version != seen then Some(Looking(s.version)) else Some(w)
  }

  function Moved(s: State): State {
    match s.place
    case Top => s.(place := Borrowed(s.number))
    case Borrowed(gen) =>
      var held := Held(s.provision, s.stamp);
      s.(place := if s.provision.Ready? then Entering(gen, held) else Detaching(held))
    case Detaching(held) => s.(place := Parked(held), uplink := None)
    case Parked(_) => if s.version != s.seen then s.(place := Top, seen := s.version) else s
    case Entering(gen, held) =>
      s.(place := if s.number != gen then Returned(gen, held) else Connecting(gen, held, Looking(s.seen)))
    case Connecting(gen, held, w) =>
      (match Polled(s, gen, w)
       case None => s.(place := Closing(gen, held))
       case Some(next) => s.(place := Connecting(gen, held, next)))
    case Connected(gen, held, w) =>
      (match Polled(s, gen, w)
       case None => s.(place := Closing(gen, held))
       case Some(next) => s.(place := Connected(gen, held, next)))
    case Closing(gen, held) => s.(place := Closed(gen, held), uplink := None)
    case Closed(gen, held) =>
      s.(place := if s.number != gen then Returned(gen, held) else Sleeping(gen, held, Looking(s.seen)))
    case Sleeping(gen, held, w) =>
      (match Polled(s, gen, w)
       case None => s.(place := Returned(gen, held))
       case Some(next) => s.(place := Sleeping(gen, held, next)))
    case Returned(gen, held) => s.(place := if s.number == gen then WaitingAgain(gen, held) else Top)
    case WaitingAgain(_, _) => if s.version != s.seen then s.(place := Top, seen := s.version) else s
  }

  function Step(s: State, e: Event): State {
    match e
    case Load(p) => s.(reconnects := s.reconnects + [Reconnect(p, Loaded)])
    case Advance(k) => if k < |s.reconnects| then Advanced(s, k) else s
    case Move => Moved(s)
    case ConnectEnds(attached) =>
      if !s.place.Connecting? then s
      else if attached
      then s.(place := Connected(s.place.gen, s.place.held, s.place.waiter), uplink := Some(s.place.gen))
      else s.(place := Closing(s.place.gen, s.place.held))
    case LiveEnds => if s.place.Connected? then s.(place := Closing(s.place.gen, s.place.held)) else s
    case DelayEnds => if s.place.Sleeping? then s.(place := Entering(s.place.gen, s.place.held)) else s
  }

  predicate OfSession(e: Event) {
    !e.Load? && !e.Advance?
  }

  function Run(s: State, events: seq<Event>): State {
    if events == [] then s else Step(Run(s, events[..|events| - 1]), events[|events| - 1])
  }

  // -------------------------------------------------------------- the invariant

  /** The number is drawn and not sent yet. */
  predicate Draws(r: Reconnect, gen: nat) {
    r.phase.Numbered? && r.phase.gen == gen
  }

  /** Every number is drawn once and sent once; the watch channel holds the one sent last. */
  ghost predicate NumbersOk(s: State) {
    && Distinct(s.sends) && (forall g :: g in s.sends ==> 1 <= g <= s.counter)
    && s.number == (if s.sends == [] then 0 else s.sends[|s.sends| - 1])
    && (forall k :: 0 <= k < |s.reconnects| && s.reconnects[k].phase.Numbered? ==>
          1 <= s.reconnects[k].phase.gen <= s.counter && s.reconnects[k].phase.gen !in s.sends)
    && (forall j, k :: 0 <= j < k < |s.reconnects| ==>
          s.reconnects[j].phase.Numbered? ==> s.reconnects[k].phase.Numbered? ==>
          s.reconnects[j].phase.gen != s.reconnects[k].phase.gen)
  }

  /** A reconnect between its write and its send. */
  predicate Between(r: Reconnect) {
    r.phase.Written? || r.phase.Numbered?
  }

  /** The last write is not announced yet. */
  ghost predicate Unannounced(s: State) {
    exists k :: 0 <= k < |s.reconnects| && Between(s.reconnects[k]) && s.reconnects[k].phase.stamp == s.stamp
  }

  ghost predicate StampsOk(s: State) {
    forall k :: 0 <= k < |s.reconnects| && Between(s.reconnects[k]) ==> 1 <= s.reconnects[k].phase.stamp <= s.stamp
  }

  predicate Holds(p: Place) {
    !p.Top? && !p.Borrowed?
  }

  predicate HasGen(p: Place) {
    !p.Top? && !p.Detaching? && !p.Parked?
  }

  predicate HasWaiter(p: Place) {
    p.Connecting? || p.Connected? || p.Sleeping?
  }

  /** Something will wake the session: the number has changed, or the version has while it holds no settings. */
  predicate Due(s: State) {
    if s.place.Detaching? || s.place.Parked? then s.version != s.seen
    else HasGen(s.place) && s.number != s.place.gen
  }

  predicate UpToDate(s: State) {
    Holds(s.place) && s.place.held.stamp == s.stamp
  }

  ghost predicate SessionOk(s: State) {
    && s.seen <= s.version
    && (HasGen(s.place) ==> s.place.gen == 0 || s.place.gen in s.sends)
    && (Holds(s.place) ==>
          && s.place.held.stamp <= s.stamp && (s.place.held.stamp == s.stamp ==> s.place.held.provision == s.provision)
          && (s.place.held.provision.Empty? <==> s.place.Detaching? || s.place.Parked?))
    && (HasWaiter(s.place) ==> s.place.waiter.seen <= s.version)
    && (HasWaiter(s.place) && s.place.waiter == Waiting(s.version) ==> s.number == s.place.gen)
    && (s.place.Returned? ==> s.number != s.place.gen) && !s.place.WaitingAgain?
  }

  /** What the session holds is the last write, or that write is still to be announced, or the session is woken. */
  ghost predicate Fresh(s: State) {
    Holds(s.place) ==> UpToDate(s) || Unannounced(s) || Due(s)
  }

  /** The uplink is attached only by the generation that is connected. */
  ghost predicate UplinkOk(s: State) {
    && (s.uplink.Some? ==> (s.place.Connected? || s.place.Closing?) && s.uplink.value == s.place.gen)
    && (s.place.Connected? ==> s.uplink.Some?)
  }

  ghost predicate Inv(s: State) {
    NumbersOk(s) && StampsOk(s) && SessionOk(s) && Fresh(s) && UplinkOk(s)
  }

  // ---------------------------------------------------------- preservation

  lemma {:induction false} LoadKeeps(s: State, p: Provision)
    requires Inv(s)
    ensures Inv(Step(s, Load(p)))
  {
    var later := Step(s, Load(p));
    if Unannounced(s) {
      var k :| 0 <= k < |s.reconnects| && Between(s.reconnects[k]) && s.reconnects[k].phase.stamp == s.stamp;
      assert later.reconnects[k] == s.reconnects[k];
    }
  }

  lemma {:induction false} WriteKeeps(s: State, k: nat)
    requires Inv(s) && k < |s.reconnects| && s.reconnects[k].phase.Loaded?
    ensures Inv(Advanced(s, k))
  {
    var later := Advanced(s, k);
    assert Between(later.reconnects[k]) && later.reconnects[k].phase.stamp == later.stamp;
  }

  lemma {:induction false} DrawKeeps(s: State, k: nat)
    requires Inv(s) && k < |s.reconnects| && s.reconnects[k].phase.Written?
    ensures Inv(Advanced(s, k))
  {
    var later := Advanced(s, k);
    if Unannounced(s) {
      var j :| 0 <= j < |s.reconnects| && Between(s.reconnects[j]) && s.reconnects[j].phase.stamp == s.stamp;
      assert Between(later.reconnects[j]) && later.reconnects[j].phase.stamp == later.stamp;
    }
  }

  /** A number that is sent was never there before, so whoever looks at it is woken. */
  lemma {:induction false} SendKeeps(s: State, k: nat)
    requires Inv(s) && k < |s.reconnects| && s.reconnects[k].phase.Numbered?
    ensures Inv(Advanced(s, k))
  {
    var later := Advanced(s, k);
    var gen := s.reconnects[k].phase.gen;
    assert gen !in s.sends && gen >= 1;
    assert HasGen(s.place) ==> later.number != s.place.gen;
    assert Holds(s.place) ==> Due(later);
  }

  lemma {:induction false} AnnouncedStays(s: State, later: State)
    requires later.reconnects == s.reconnects && later.stamp == s.stamp
    ensures Unannounced(s) <==> Unannounced(later)
  {
  }

  /** A step of the session touches neither reconnects nor numbers. */
  lemma {:induction false} SessionFrame(s: State, e: Event)
    requires OfSession(e)
    ensures var later := Step(s, e);
            later == s.(place := later.place, seen := later.seen, uplink := later.uplink)
  {
  }

  lemma {:induction false} WaitKeepsSession(s: State)
    requires SessionOk(s) && HasWaiter(s.place)
    ensures SessionOk(Moved(s))
  {
  }

  lemma {:induction false} MoveKeepsSession(s: State)
    requires SessionOk(s) && NumbersOk(s)
    ensures SessionOk(Moved(s))
  {
    if HasWaiter(s.place) {
      WaitKeepsSession(s);
    }
  }

  lemma {:induction false} MoveKeepsUplink(s: State)
    requires UplinkOk(s)
    ensures UplinkOk(Moved(s))
  {
  }

  lemma {:induction false} MoveKeepsFresh(s: State)
    requires Inv(s)
    ensures Holds(Moved(s).place) ==> UpToDate(Moved(s)) || Unannounced(s) || Due(Moved(s))
  {
  }

  lemma {:induction false} EndKeeps(s: State, e: Event)
    requires Inv(s) && OfSession(e) && !e.Move?
    ensures SessionOk(Step(s, e)) && UplinkOk(Step(s, e))
    ensures Holds(Step(s, e).place) ==> UpToDate(Step(s, e)) || Unannounced(s) || Due(Step(s, e))
  {
  }

  lemma {:induction false} SessionKeeps(s: State, e: Event)
    requires Inv(s) && OfSession(e)
    ensures Inv(Step(s, e))
  {
    hide Moved, SessionOk, UplinkOk, Due, Unannounced;
    var later := Step(s, e);
    if e.Move? {
      MoveKeepsSession(s);
      MoveKeepsFresh(s);
      MoveKeepsUplink(s);
    } else {
      EndKeeps(s, e);
    }
    SessionFrame(s, e);
    AnnouncedStays(s, later);
    assert Fresh(later);
    assert NumbersOk(later) && StampsOk(later);
  }

  lemma {:induction false} StepKeeps(s: State, e: Event)
    requires Inv(s)
    ensures Inv(Step(s, e))
  {
    match e
    case Load(p) => LoadKeeps(s, p);
    case Advance(k) =>
      if k < |s.reconnects| {
        match s.reconnects[k].phase
        case Loaded => WriteKeeps(s, k);
        case Written(_) => DrawKeeps(s, k);
        case Numbered(_, _) => SendKeeps(s, k);
        case Sent =>
      }
    case _ => SessionKeeps(s, e);
  }

  lemma {:induction false} RunKeeps(p: Provision, events: seq<Event>)
    ensures Inv(Run(Boot(p), events))
  {
    if events != [] {
      RunKeeps(p, events[..|events| - 1]);
      StepKeeps(Run(Boot(p), events[..|events| - 1]), events[|events| - 1]);
    }
  }

  // ------------------------------------------------------------- the hand-over

  /** The session waits for a change of the watch channel, and there is none. */
  predicate Idle(s: State) {
    || (s.place.Parked? && s.seen == s.version)
    || (HasWaiter(s.place) && s.place.waiter == Waiting(s.version))
  }

  /** No reconnect is between its write and its send. */
  predicate Settled(s: State) {
    forall k :: 0 <= k < |s.reconnects| ==> !Between(s.reconnects[k])
  }

  /** No wake-up is lost: a session that waits, with no reconnect on its way, holds the last write. */
  lemma {:induction false} NoLostWakeUp(p: Provision, events: seq<Event>)
    ensures var s := Run(Boot(p), events);
            Idle(s) && Settled(s) ==> UpToDate(s) && s.place.held.provision == s.provision
  {
    RunKeeps(p, events);
  }

  /** Each number is sent once, so the watch channel never comes back to a number it has left. */
  lemma {:induction false} NumbersNeverReturn(p: Provision, events: seq<Event>, i: nat, j: nat)
    requires i <= j <= |events|
    ensures var early, late := Run(Boot(p), events[..i]), Run(Boot(p), events[..j]);
            && Distinct(late.sends) && early.sends <= late.sends
            && (early.number == late.number <==> early.sends == late.sends)
  {
    var early, late := Run(Boot(p), events[..i]), Run(Boot(p), events[..j]);
    RunKeeps(p, events[..i]);
    RunKeeps(p, events[..j]);
    SendsGrow(p, events, i, j);
    if early.sends != late.sends {
      assert late.number in late.sends;
      assert early.sends != [] ==> late.sends[|early.sends| - 1] == early.number;
    }
  }

  lemma {:induction false} SendsGrow(p: Provision, events: seq<Event>, i: nat, j: nat)
    requires i <= j <= |events|
    ensures Run(Boot(p), events[..i]).sends <= Run(Boot(p), events[..j]).sends
  {
    if i < j {
      SendsGrow(p, events, i, j - 1);
      assert events[..j][..j - 1] == events[..j - 1];
    }
  }

  /**
   * At most one generation is attached, only while that generation is connected or being closed,
   * and only on settings that are complete.
   */
  lemma {:induction false} OneGenerationAttached(p: Provision, events: seq<Event>)
    ensures var s := Run(Boot(p), events);
            && (s.uplink.Some? ==> (s.place.Connected? || s.place.Closing?) && s.uplink == Some(s.place.gen)
                                   && s.place.held.provision.Ready?)
            && (s.place.Connected? ==> s.uplink == Some(s.place.gen))
            && (s.place.Parked? ==> s.uplink == None)
  {
    RunKeeps(p, events);
  }

  // ------------------------------------------------------------------ progress

  /** How many steps the session may take before it reads the settings again. */
  function Rank(s: State): nat {
    var looking := if HasWaiter(s.place) && s.place.waiter.Waiting? then 1 else 0;
    match s.place
    case Top => 2
    case Borrowed(_) => 1
    case Detaching(_) => 4
    case Parked(_) => 3
    case Returned(_, _) => 3
    case WaitingAgain(_, _) => 3
    case Entering(_, _) => 4
    case Closed(_, _) => 4
    case Closing(_, _) => 5
    case Sleeping(_, _, _) => 5 + looking
    case Connected(_, _, _) => 6 + looking
    case Connecting(_, _, _) => 8 + looking
  }

  /** While it does not hold the last write, the session can move, and every move brings it closer to reading again. */
  lemma {:induction false} Progress(s: State, e: Event)
    requires Inv(s) && Settled(s) && !UpToDate(s) && OfSession(e)
    ensures Moved(s) != s
    ensures Step(s, e) != s ==> Rank(Step(s, e)) < Rank(s) || UpToDate(Step(s, e))
  {
    assert !Unannounced(s);
  }

  /** The event at i is one of the session and changes the state. */
  predicate MovesAt(s: State, events: seq<Event>, i: nat)
    requires i < |events|
  {
    OfSession(events[i]) && Run(s, events[..i + 1]) != Run(s, events[..i])
  }

  /** The states from s on change with every event. */
  ghost predicate AllMove(s: State, events: seq<Event>) {
    forall i :: 0 <= i < |events| ==> MovesAt(s, events, i)
  }

  lemma {:induction false} AllOfSession(s: State, events: seq<Event>)
    requires AllMove(s, events)
    ensures forall i :: 0 <= i < |events| ==> OfSession(events[i])
  {
    forall i | 0 <= i < |events| ensures OfSession(events[i]) {
      assert MovesAt(s, events, i);
    }
  }

  lemma {:induction false} RunOfSession(s: State, events: seq<Event>, i: nat)
    requires Inv(s) && Settled(s) && i <= |events| && forall j :: 0 <= j < |events| ==> OfSession(events[j])
    ensures Inv(Run(s, events[..i])) && Settled(Run(s, events[..i]))
  {
    hide Inv, Step;
    if i > 0 {
      RunOfSession(s, events, i - 1);
      SessionFrame(Run(s, events[..i - 1]), events[i - 1]);
      assert events[..i][..i - 1] == events[..i - 1];
      StepKeeps(Run(s, events[..i - 1]), events[i - 1]);
    }
  }

  lemma {:induction false} RankFalls(s: State, events: seq<Event>, i: nat)
    requires Inv(s) && Settled(s) && AllMove(s, events) && i <= |events|
    requires forall j :: 0 <= j <= i ==> !UpToDate(Run(s, events[..j]))
    ensures Rank(Run(s, events[..i])) + i <= Rank(s)
  {
    assert events[..0] == [];
    AllOfSession(s, events);
    if i > 0 {
      assert MovesAt(s, events, i - 1);
      RankFalls(s, events, i - 1);
      RunOfSession(s, events, i - 1);
      assert events[..i][..i - 1] == events[..i - 1];
      assert events[..(i - 1) + 1] == events[..i];
      Progress(Run(s, events[..i - 1]), events[i - 1]);
    }
  }

  /** After these events one more move would change nothing. */
  ghost predicate EndsAtRest(s: State, events: seq<Event>) {
    !AllMove(s, events + [Move])
  }

  lemma {:induction false} MovesInFront(s: State, events: seq<Event>, e: Event, i: nat)
    requires i < |events|
    ensures MovesAt(s, events + [e], i) <==> MovesAt(s, events, i)
  {
    assert (events + [e])[..i + 1] == events[..i + 1] && (events + [e])[..i] == events[..i];
  }

  lemma {:induction false} RestMeaning(s: State, events: seq<Event>)
    requires AllMove(s, events)
    ensures EndsAtRest(s, events) <==> Moved(Run(s, events)) == Run(s, events)
  {
    var all := events + [Move];
    forall i | 0 <= i < |events| ensures MovesAt(s, all, i) {
      MovesInFront(s, events, Move, i);
    }
    hide Moved;
    assert all[..|events|] == events && all[..|events| + 1] == all;
    assert Run(s, all) == Step(Run(s, events), Move);
    assert MovesAt(s, all, |events|) <==> Moved(Run(s, events)) != Run(s, events);
  }

  /**
   * The hand-over completes: once no reconnect is between its write and its send, the session
   * holds the last write after at most nine of its own steps, wherever it is, and whichever way
   * connections and delays end meanwhile. A run of fewer steps that cannot go on has it as well.
   */
  lemma {:induction false} HandOverCompletes(p: Provision, past: seq<Event>, events: seq<Event>) returns (i: nat)
    requires Settled(Run(Boot(p), past)) && AllMove(Run(Boot(p), past), events)
    requires |events| >= 9 || EndsAtRest(Run(Boot(p), past), events)
    ensures i <= 9 && i <= |events| && UpToDate(Run(Run(Boot(p), past), events[..i]))
  {
    var s := Run(Boot(p), past);
    var n := Min(9, |events|);
    RunKeeps(p, past);
    RestMeaning(s, events);
    AllOfSession(s, events);
    hide AllMove, Moved, Inv, Settled;
    if exists k :: 0 <= k <= n && UpToDate(Run(s, events[..k])) {
      i :| 0 <= i <= n && UpToDate(Run(s, events[..i]));
    } else {
      RankFalls(s, events, n);
      RunOfSession(s, events, n);
      assert n < 9 ==> events[..n] == events;
      Progress(Run(s, events[..n]), Move);
      assert false;
    }
  }

  // ------------------------------------------------------------ one generation

  /** The session serves this generation on these settings, in whatever state its connection is. */
  ghost predicate Serves(p: Place, gen: nat, held: Held) {
    && (p.Entering? || p.Connecting? || p.Connected? || p.Closing? || p.Closed? || p.Sleeping?)
    && p.gen == gen && p.held == held
  }

  /** A connection that succeeds is attached; the generation, its settings and all else stay. */
  lemma {:induction false} SuccessAttaches(s: State)
    requires s.place.Connecting?
    ensures var later := Step(s, ConnectEnds(true));
            && later.place.Connected? && Serves(later.place, s.place.gen, s.place.held)
            && later.uplink == Some(s.place.gen) && later == s.(place := later.place, uplink := later.uplink)
  {
  }

  lemma {:induction false} SameNumber(p: Provision, events: seq<Event>, i: nat, j: nat)
    requires i <= j <= |events| && Run(Boot(p), events[..i]).number == Run(Boot(p), events).number
    ensures Run(Boot(p), events[..j]).number == Run(Boot(p), events).number
  {
    assert events[..|events|] == events;
    SendsGrow(p, events, i, j);
    SendsGrow(p, events, j, |events|);
    NumbersNeverReturn(p, events, i, |events|);
    RunKeeps(p, events[..i]);
    RunKeeps(p, events[..j]);
  }

  /** The last event of a run that goes on from a past one. */
  lemma {:induction false} RunGoesOn(s: State, past: seq<Event>, events: seq<Event>)
    requires events != []
    ensures var front := events[..|events| - 1];
            Run(s, past + events) == Step(Run(s, past + front), events[|events| - 1])
            && (past + events)[..|past| + |front|] == past + front && (past + events)[..|past|] == past
  {
    hide Step;
    assert (past + events)[..|past + events| - 1] == past + events[..|events| - 1];
  }

  lemma {:induction false} StaysConnected(s: State, e: Event)
    requires Inv(s) && s.place.Connected? && s.number == s.place.gen && e != LiveEnds
    ensures var later := Step(s, e);
            && later.place.Connected? && Serves(later.place, s.place.gen, s.place.held)
            && later.uplink == Some(s.place.gen)
  {
  }

  /**
   * Once connected, a generation stays connected and attached over every run of other events, until its
   * connection ends or another number is sent.
   */
  lemma {:induction false} ConnectedStays(p: Provision, past: seq<Event>, events: seq<Event>)
    requires var s := Run(Boot(p), past);
             s.place.Connected? && s.number == s.place.gen && s.number == Run(Boot(p), past + events).number
    requires forall i :: 0 <= i < |events| ==> events[i] != LiveEnds
    ensures var s, later := Run(Boot(p), past), Run(Boot(p), past + events);
            && later.place.Connected? && Serves(later.place, s.place.gen, s.place.held)
            && later.uplink == Some(s.place.gen)
  {
    hide Inv, Step, Run;
    assert Run(Boot(p), past).uplink == Some(Run(Boot(p), past).place.gen) by { OneGenerationAttached(p, past); }
    if events == [] {
      assert past + events == past;
    } else {
      var front, all := events[..|events| - 1], past + events;
      RunGoesOn(Boot(p), past, events);
      SameNumber(p, all, |past|, |past| + |front|);
      ConnectedStays(p, past, front);
      RunKeeps(p, past + front);
      StaysConnected(Run(Boot(p), past + front), events[|events| - 1]);
    }
  }

  lemma {:induction false} KeepsServing(s: State, e: Event)
    requires Inv(s) && HasGen(s.place) && s.number == s.place.gen && Holds(s.place)
    requires Serves(s.place, s.place.gen, s.place.held)
    ensures Serves(Step(s, e).place, s.place.gen, s.place.held)
    ensures !e.Move? && !e.DelayEnds? && !e.ConnectEnds? && !e.LiveEnds? ==> Step(s, e).place == s.place
  {
  }

  /** And as long as no other number is sent it is served on the same settings, however connections and delays end. */
  lemma {:induction false} GenerationStays(p: Provision, past: seq<Event>, events: seq<Event>)
    requires var s := Run(Boot(p), past);
             && Holds(s.place) && HasGen(s.place) && Serves(s.place, s.place.gen, s.place.held)
             && s.number == s.place.gen && s.number == Run(Boot(p), past + events).number
    ensures var s := Run(Boot(p), past);
            Serves(Run(Boot(p), past + events).place, s.place.gen, s.place.held)
  {
    hide Inv, Step, Run;
    if events == [] {
      assert past + events == past;
    } else {
      var front, all := events[..|events| - 1], past + events;
      RunGoesOn(Boot(p), past, events);
      SameNumber(p, all, |past|, |past| + |front|);
      GenerationStays(p, past, front);
      RunKeeps(p, past + front);
      KeepsServing(Run(Boot(p), past + front), events[|events| - 1]);
    }
  }

  /** What brings a generation from a state of its connection to being connected. */
  ghost function Route(p: Place): seq<Event> {
    match p
    case Connected(_, _, _) => []
    case Connecting(_, _, _) => [ConnectEnds(true)]
    case Entering(_, _) => [Move, ConnectEnds(true)]
    case Sleeping(_, _, _) => [DelayEnds, Move, ConnectEnds(true)]
    case Closed(_, _) => [Move, DelayEnds, Move, ConnectEnds(true)]
    case Closing(_, _) => [Move, Move, DelayEnds, Move, ConnectEnds(true)]
    case Borrowed(_) => [Move, Move, ConnectEnds(true)]
    case Top => [Move, Move, Move, ConnectEnds(true)]
    case _ => [Move, Move, Move, Move, ConnectEnds(true)]
  }

  lemma {:induction false} RunCons(s: State, e: Event, events: seq<Event>)
    ensures Run(s, [e] + events) == Run(Step(s, e), events)
  {
    hide Step;
    var all := [e] + events;
    if events == [] {
      assert all[..0] == [] && all == [e];
    } else {
      RunCons(s, e, events[..|events| - 1]);
      assert all[..|all| - 1] == [e] + events[..|events| - 1];
    }
  }

  /**
   * From every state of its connection a generation whose number is current gets connected again: a delay
   * that ends leads back to connecting, and a connection that succeeds is attached, on the same settings.
   */
  lemma {:induction false} GenerationConnects(s: State)
    requires Holds(s.place) && HasGen(s.place) && Serves(s.place, s.place.gen, s.place.held)
    requires s.number == s.place.gen && (s.place.Connected? ==> s.uplink == Some(s.place.gen))
    ensures var later := Run(s, Route(s.place));
            && later.place.Connected? && Serves(later.place, s.place.gen, s.place.held)
            && later.uplink == Some(s.place.gen)
    decreases |Route(s.place)|
  {
    if !s.place.Connected? {
      var e := Route(s.place)[0];
      var next := Step(s, e);
      RunCons(s, e, Route(next.place));
      assert [e] + Route(next.place) == Route(s.place);
      GenerationConnects(next);
    }
  }

  /** A session about to read goes on to serve the current number on complete settings, and parks without any. */
  lemma {:induction false} ReadsAndServes(s: State)
    requires s.place.Top?
    ensures s.provision.Ready? ==>
              var later := Run(s, Route(Top));
              && later.place.Connected? && Serves(later.place, s.number, Held(s.provision, s.stamp))
              && later.uplink == Some(s.number)
    ensures s.provision.Empty? ==>
              var later := Run(s, [Move, Move, Move]);
              later.place == Parked(Held(s.provision, s.stamp)) && later.uplink == None
  {
    var borrowed := Step(s, Move);
    var held := Step(borrowed, Move);
    if s.provision.Ready? {
      GenerationConnects(held);
      RunCons(borrowed, Move, Route(held.place));
      RunCons(s, Move, Route(borrowed.place));
      assert [Move] + Route(held.place) == Route(borrowed.place);
      assert [Move] + Route(borrowed.place) == Route(Top);
    } else {
      RunCons(held, Move, []);
      RunCons(borrowed, Move, [Move]);
      RunCons(s, Move, [Move, Move]);
      assert [Move] + [] == [Move] && [Move] + [Move] == [Move, Move];
      assert [Move] + [Move, Move] == [Move, Move, Move];
    }
  }

  /** A session that waits for nothing new does nothing; any other one moves. */
  lemma {:induction false} IdleSleeps(s: State)
    requires Inv(s)
    ensures Idle(s) <==> Moved(s) == s
  {
  }

  /** A parked session that is woken reads once: finding no settings again, it sleeps until another number is sent. */
  lemma {:induction false} ParkedReadsOnce(s: State)
    requires s.place.Parked? && s.version != s.seen && s.provision.Empty?
    ensures var later := Run(s, [Move, Move, Move, Move]);
            later.place == Parked(Held(s.provision, s.stamp)) && Idle(later) && later.uplink == None
  {
    var woken := Step(s, Move);
    ReadsAndServes(woken);
    RunCons(s, Move, [Move, Move, Move]);
    assert [Move] + [Move, Move, Move] == [Move, Move, Move, Move];
    ReadingSeesNothing(woken);
  }

  lemma {:induction false} ReadingSeesNothing(s: State)
    requires s.place.Top? && s.provision.Empty?
    ensures Run(s, [Move, Move, Move]).seen == s.seen && Run(s, [Move, Move, Move]).version == s.version
  {
    var one := Step(s, Move);
    var two := Step(one, Move);
    RunCons(two, Move, []);
    RunCons(one, Move, [Move]);
    RunCons(s, Move, [Move, Move]);
    assert [Move] + [] == [Move] && [Move] + [Move] == [Move, Move];
    assert [Move] + [Move, Move] == [Move, Move, Move];
  }

  /** When a connection ends or fails, the uplink is detached before anything else is tried. */
  lemma {:induction false} EndDetaches(s: State, e: Event)
    requires (s.place.Connected? && e == LiveEnds) || (s.place.Connecting? && e == ConnectEnds(false))
    ensures var later := Run(s, [e, Move]);
            later.place.Closed? && later.uplink == None && Serves(later.place, s.place.gen, s.place.held)
  {
    RunCons(s, e, [Move]);
    RunCons(Step(s, e), Move, []);
    assert [e] + [Move] == [e, Move] && [Move] + [] == [Move];
  }

  // --------------------------------------------------------------- the object

  /** What others see of the link. Each of the first three methods is one atomic step. */
  class Link {
    var provision: Provision
    var connecting: bool
    var generation: nat
    var number: nat
    var version: nat

    ghost predicate Shows(s: State)
      reads this
    {
      provision == s.provision && generation == s.counter && number == s.number && version == s.version
    }

    constructor (loaded: Option<Provision>)
      ensures Shows(Boot(loaded.GetOr(Empty)))
    {
      provision := loaded.GetOr(Empty);
      connecting, generation, number, version := false, 0, 0, 0;
    }

    method Write(p: Provision, ghost s: State, ghost k: nat)
      requires Shows(s) && k < |s.reconnects| && s.reconnects[k] == Reconnect(p, Loaded)
      modifies this`provision
      ensures Shows(Advanced(s, k))
    {
      provision := p;
    }

    /** fetch_add, plus one */
    method Draw(ghost s: State, ghost k: nat) returns (gen: nat)
      requires Shows(s) && k < |s.reconnects| && s.reconnects[k].phase.Written?
      modifies this`generation
      ensures Shows(Advanced(s, k)) && Draws(Advanced(s, k).reconnects[k], gen)
    {
      generation := generation + 1;
      gen := generation;
    }

    method Send(gen: nat, ghost s: State, ghost k: nat)
      requires Shows(s) && k < |s.reconnects| && Draws(s.reconnects[k], gen)
      modifies this`number, this`version
      ensures Shows(Advanced(s, k))
    {
      number, version := gen, version + 1;
    }

    /** reconnect_from_store where no other step comes between; it changes nothing if the settings do not load. */
    method ReconnectFromStore(stored: Option<Provision>, ghost s: State) returns (ok: bool)
      requires Shows(s)
      modifies this
      ensures ok <==> stored.Some?
      ensures !ok ==> Shows(s) && connecting == old(connecting)
      ensures ok ==> Shows(Run(s, Alone(s, stored.value))) && connecting == stored.value.Ready?
    {
      if stored.None? {
        return false;
      }
      connecting := stored.value.Ready?;
      ghost var k := |s.reconnects|;
      ghost var loaded := Step(s, Load(stored.value));
      Write(stored.value, loaded, k);
      ghost var written := Advanced(loaded, k);
      var gen := Draw(written, k);
      ghost var drawn := Advanced(written, k);
      Send(gen, drawn, k);
      RunAlone(s, stored.value);
      return true;
    }
  }

  ghost function Alone(s: State, p: Provision): seq<Event> {
    [Load(p), Advance(|s.reconnects|), Advance(|s.reconnects|), Advance(|s.reconnects|)]
  }

  /** A reconnect that nothing interrupts: its settings are in place and its number is announced. */
  lemma {:induction false} RunAlone(s: State, p: Provision)
    ensures var k := |s.reconnects|;
            Run(s, Alone(s, p)) == Advanced(Advanced(Advanced(Step(s, Load(p)), k), k), k)
    ensures var later := Run(s, Alone(s, p));
            later.provision == p && later.number == later.counter == s.counter + 1 && later.version == s.version + 1
  {
    var events, k := Alone(s, p), |s.reconnects|;
    var loaded := Step(s, Load(p));
    assert events[..1][..0] == [] && Run(s, events[..1]) == loaded;
    assert events[..2][..1] == events[..1] && Run(s, events[..2]) == Advanced(loaded, k);
    assert events[..3][..2] == events[..2] && Run(s, events[..3]) == Advanced(Advanced(loaded, k), k);
  }
}
