/**
 * The rate limit of the webhook doorbell (rate_ok in sync/src/webhook.rs). Instants are
 * counted in nanoseconds; the lock makes the instants of successive hits non-decreasing.
 */
module RateLimit {

  const WINDOW: nat := 10_000_000_000
  const MAX: nat := 40

  /** The pair under the lock: when the window began and how many hits it accepted. */
  datatype Hits = Hits(start: nat, count: nat)

  /** duration_since answers zero when the earlier instant is not earlier. */
  function Since(now: nat, earlier: nat): nat {
    if now >= earlier then now - earlier else 0
  }

  function Accepts(h: Hits, now: nat): bool {
    Since(now, h.start) > WINDOW || h.count < MAX
  }

  function Next(h: Hits, now: nat): Hits {
    if Since(now, h.start) > WINDOW then Hits(now, 1)
    else if h.count < MAX then h.(count := h.count + 1)
    else h
  }

  /** The state after a trace of hits, for a server that began to listen at the instant boot. */
  function After(boot: nat, trace: seq<nat>): Hits {
    if trace == [] then Hits(boot, 0)
    else Next(After(boot, trace[..|trace| - 1]), trace[|trace| - 1])
  }

  /** The hit at index i of the trace is let through. */
  predicate Accepted(boot: nat, trace: seq<nat>, i: nat)
    requires i < |trace|
  {
    Accepts(After(boot, trace[..i]), trace[i])
  }

  ghost predicate Trace(boot: nat, trace: seq<nat>) {
    && (forall i :: 0 <= i < |trace| ==> boot <= trace[i])
    && (forall i, j :: 0 <= i < j < |trace| ==> trace[i] <= trace[j])
  }

  /** The number of accepted hits with an instant from lo to hi, both included. */
  function Count(boot: nat, trace: seq<nat>, lo: nat, hi: nat): nat {
    if trace == [] then 0
    else
      var front, last := trace[..|trace| - 1], trace[|trace| - 1];
      Count(boot, front, lo, hi) +
      if lo <= last <= hi && Accepts(After(boot, front), last) then 1 else 0
  }

  /**
   * What the state remembers: the window began no later than the last hit, and its count is
   * the number of hits accepted since then. Older windows began more than WINDOW earlier.
   */
  ghost predicate Remembers(boot: nat, trace: seq<nat>) {
    var h := After(boot, trace);
    && boot <= h.start && h.count <= MAX
    && (trace != [] ==> h.start <= trace[|trace| - 1])
  }

  lemma {:induction false} RemembersAlways(boot: nat, trace: seq<nat>)
    requires Trace(boot, trace)
    ensures Remembers(boot, trace)
  {
    if trace != [] {
      var front := trace[..|trace| - 1];
      RemembersAlways(boot, front);
      if front != [] {
        assert front[|front| - 1] == trace[|trace| - 2];
      }
    }
  }

  /** No hit before lo counts, and the running window bounds what counts from its start on. */
  lemma {:induction false} CountBounds(boot: nat, trace: seq<nat>, lo: nat, hi: nat)
    requires Trace(boot, trace) && hi <= lo + WINDOW
    ensures trace != [] && trace[|trace| - 1] < lo ==> Count(boot, trace, lo, hi) == 0
    ensures var h := After(boot, trace);
            && (h.start < lo ==> Count(boot, trace, lo, hi) <= h.count)
            && (lo <= h.start <= hi ==> Count(boot, trace, lo, hi) <= MAX + h.count)
    ensures Count(boot, trace, lo, hi) <= 2 * MAX
  {
    if trace != [] {
      var front, last := trace[..|trace| - 1], trace[|trace| - 1];
      CountBounds(boot, front, lo, hi);
      RemembersAlways(boot, front);
      assert forall i :: 0 <= i < |front| ==> front[i] == trace[i];
      if front != [] {
        assert front[|front| - 1] <= last;
      }
    }
  }

  /** At most 40 hits are let through in one window, so at most 80 in any closed interval of ten seconds. */
  lemma {:induction false} AtMostTwoWindows(boot: nat, trace: seq<nat>, from: nat)
    requires Trace(boot, trace)
    ensures Count(boot, trace, from, from + WINDOW) <= 80
  {
    CountBounds(boot, trace, from, from + WINDOW);
  }

  /** A hit is refused only when 40 were let through within the ten seconds up to it. */
  lemma {:induction false} RefusedOnlyWhenFull(boot: nat, trace: seq<nat>, i: nat)
    requires Trace(boot, trace) && i < |trace| && !Accepted(boot, trace, i)
    ensures var start := After(boot, trace[..i]).start;
            start <= trace[i] <= start + WINDOW && Count(boot, trace[..i], start, trace[i]) >= MAX
  {
    var front := trace[..i];
    assert Trace(boot, front);
    RemembersAlways(boot, front);
    var h := After(boot, front);
    CountOfWindow(boot, front, trace[i]);
    if i > 0 {
      assert front[|front| - 1] <= trace[i];
    }
  }

  lemma {:induction false} CountOfWindow(boot: nat, trace: seq<nat>, hi: nat)
    requires Trace(boot, trace) && (trace != [] ==> trace[|trace| - 1] <= hi)
    ensures Count(boot, trace, After(boot, trace).start, hi) >= After(boot, trace).count
  {
    if trace != [] {
      var front, last := trace[..|trace| - 1], trace[|trace| - 1];
      assert forall i :: 0 <= i < |front| ==> front[i] == trace[i];
      RemembersAlways(boot, front);
      CountOfWindow(boot, front, hi);
      if front != [] {
        assert front[|front| - 1] <= last;
      }
    }
  }

  /** n hits at one instant. */
  function Burst(now: nat, n: nat): (s: seq<nat>)
    ensures |s| == n && forall i :: 0 <= i < n ==> s[i] == now
  {
    seq(n, _ => now)
  }

  lemma {:induction false} BurstAccepted(boot: nat, before: seq<nat>, now: nat, n: nat, lo: nat, hi: nat)
    requires 0 < n <= MAX && lo <= now <= hi
    requires var h := After(boot, before); Since(now, h.start) > WINDOW || h.count == 0
    ensures Count(boot, before + Burst(now, n), lo, hi) == Count(boot, before, lo, hi) + n
    ensures var h := After(boot, before);
            After(boot, before + Burst(now, n)) == Hits(if Since(now, h.start) > WINDOW then now else h.start, n)
  {
    var all := before + Burst(now, n);
    assert all[..|all| - 1] == before + Burst(now, n - 1);
    assert all[|all| - 1] == now;
    if n == 1 {
      assert before + Burst(now, 0) == before;
    } else {
      BurstAccepted(boot, before, now, n - 1, lo, hi);
    }
  }

  /** The bound of 80 is reached: 40 hits as one window closes and 40 as the next one opens, a nanosecond apart. */
  lemma {:induction false} EightyIsReached(boot: nat)
    ensures exists trace :: Trace(boot, trace) && Count(boot, trace, boot + WINDOW, boot + WINDOW + 1) == 80
  {
    var end := boot + WINDOW;
    var first := [] + Burst(end, MAX);
    BurstAccepted(boot, [], end, MAX, end, end + 1);
    BurstAccepted(boot, first, end + 1, MAX, end, end + 1);
    assert Trace(boot, first + Burst(end + 1, MAX));
  }

  // ------------------------------------------------------------- the handler

  datatype Status = MethodNotAllowed | Unauthorized | TooManyRequests | PayloadTooLarge
                  | UnsupportedMediaType | BadRequest | NoContent | ServiceUnavailable

  /** What the handler reads off a request; queueHasRoom is the answer of try_send. */
  datatype Request = Request(isPost: bool, tokenMatches: bool, bodyLength: nat, isJson: bool,
                             parses: bool, kindIsEmpty: bool, queueHasRoom: bool)

  const MAX_BODY: nat := 64 * 1024

  class Hook {
    var hits: Hits

    constructor (boot: nat)
      ensures hits == Hits(boot, 0)
    {
      hits := Hits(boot, 0);
    }

    method RateOk(now: nat) returns (ok: bool)
      modifies this
      ensures hits == Next(old(hits), now) && ok == Accepts(old(hits), now)
    {
      if Since(now, hits.start) > WINDOW {
        hits := Hits(now, 1);
        return true;
      }
      if hits.count >= MAX {
        return false;
      }
      hits := hits.(count := hits.count + 1);
      return true;
    }

    /** handle_hook: only an authorised post spends a hit, and only an accepted one can ring. */
    method HandleHook(r: Request, now: nat) returns (status: Status, rang: bool)
      modifies this
      ensures hits == if r.isPost && r.tokenMatches then Next(old(hits), now) else old(hits)
      ensures status == TooManyRequests <==> r.isPost && r.tokenMatches && !Accepts(old(hits), now)
      ensures status == Unauthorized <==> r.isPost && !r.tokenMatches
      ensures rang <==> && r.isPost && r.tokenMatches && Accepts(old(hits), now)
                        && r.bodyLength <= MAX_BODY && (r.isJson || r.bodyLength == 0)
                        && r.parses && !r.kindIsEmpty && r.queueHasRoom
      ensures rang ==> status == NoContent
    {
      rang := false;
      if !r.isPost {
        return MethodNotAllowed, false;
      }
      if !r.tokenMatches {
        return Unauthorized, false;
      }
      var ok := RateOk(now);
      if !ok {
        return TooManyRequests, false;
      }
      if r.bodyLength > MAX_BODY {
        return PayloadTooLarge, false;
      }
      if !r.isJson && r.bodyLength != 0 {
        return UnsupportedMediaType, false;
      }
      if !r.parses {
        return BadRequest, false;
      }
      if r.kindIsEmpty {
        return NoContent, false;
      }
      if !r.queueHasRoom {
        return ServiceUnavailable, false;
      }
      return NoContent, true;
    }
  }
}
