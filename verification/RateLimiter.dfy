/** The event rate limiter: a counter that restarts when its one-second window is over. */
module RateLimiter {
  import opened Text

  datatype Limiter = Limiter(max: nat, windowStarted: nat, accepted: nat)

  /** The window a call at `now` falls into. */
  function Roll(l: Limiter, now: nat): Limiter {
    if now >= l.windowStarted + SECOND then l.(windowStarted := now, accepted := 0) else l
  }

  predicate Allows(l: Limiter, now: nat) { Roll(l, now).accepted < l.max }

  function After(l: Limiter, now: nat): Limiter {
    var r := Roll(l, now);
    if r.accepted < r.max then r.(accepted := r.accepted + 1) else r
  }

  class EventRateLimiter {
    const max: nat
    var windowStarted: nat
    var accepted: nat

    function View(): Limiter
      reads this
    {
      Limiter(max, windowStarted, accepted)
    }

    constructor (max: nat, now: nat)
      requires max > 0
      ensures View() == Limiter(max, now, 0)
    {
      this.max, windowStarted, accepted := max, now, 0;
    }

    method AllowAt(now: nat) returns (ok: bool)
      modifies this
      ensures ok == Allows(old(View()), now) && View() == After(old(View()), now)
    {
      if now >= windowStarted + SECOND {
        windowStarted := now;
        accepted := 0;
      }
      if accepted >= max {
        return false;
      }
      accepted := accepted + 1;
      return true;
    }
  }

  ghost predicate Ordered(times: seq<nat>, from: nat) {
    (forall i :: 0 <= i < |times| ==> from <= times[i]) && (forall i, j :: 0 <= i < j < |times| ==> times[i] <= times[j])
  }

  /** How many of the calls at `times` are accepted within the second that starts at `t`. */
  function AcceptedWithin(l: Limiter, times: seq<nat>, t: nat): nat
    decreases |times|
  {
    if times == [] then 0
    else
      (if Allows(l, times[0]) && t <= times[0] < t + SECOND then 1 else 0) + AcceptedWithin(After(l, times[0]), times[1..], t)
  }

  /** What the calls from `last` on can still add to the count, given the limiter's current window. */
  function Allowance(l: Limiter, last: nat, t: nat): int {
    if l.windowStarted >= t + SECOND then 0
    else if l.windowStarted >= t then l.max - l.accepted
    else if last >= t then l.max - l.accepted + l.max
    else 2 * l.max
  }

  lemma {:induction false} WithinAllowance(l: Limiter, times: seq<nat>, last: nat, t: nat)
    requires Ordered(times, last) && l.windowStarted <= last && l.accepted <= l.max
    ensures AcceptedWithin(l, times, t) <= Allowance(l, last, t)
    decreases |times|
  {
    if times != [] {
      var now, rest := times[0], times[1..];
      assert Ordered(rest, now);
      WithinAllowance(After(l, now), rest, now, t);
    }
  }

  /**
   In any run of calls in time order, at most twice the configured number are accepted within any second,
   wherever that second starts.
   */
  lemma {:induction false} AnySecondBounded(max: nat, created: nat, times: seq<nat>, t: nat)
    requires max > 0 && Ordered(times, created)
    ensures AcceptedWithin(Limiter(max, created, 0), times, t) <= 2 * max
  {
    WithinAllowance(Limiter(max, created, 0), times, created, t);
  }

  /** Within the limiter's own window the configured number itself is the bound. */
  lemma {:induction false} OwnWindowBounded(l: Limiter, times: seq<nat>)
    requires Ordered(times, l.windowStarted) && l.accepted == 0
    ensures AcceptedWithin(l, times, l.windowStarted) <= l.max
  {
    WithinAllowance(l, times, l.windowStarted, l.windowStarted);
  }

  function Calls(n: nat, at: nat): (r: seq<nat>)
    ensures |r| == n && forall i :: 0 <= i < n ==> r[i] == at
  {
    if n == 0 then [] else [at] + Calls(n - 1, at)
  }

  /** Calls at one time within the window and the counted second are all accepted while there is room. */
  lemma {:induction false} CallsAccepted(l: Limiter, n: nat, at: nat, rest: seq<nat>, t: nat)
    requires l.windowStarted <= at < l.windowStarted + SECOND && l.accepted + n <= l.max && t <= at < t + SECOND
    ensures AcceptedWithin(l, Calls(n, at) + rest, t) == n + AcceptedWithin(l.(accepted := l.accepted + n), rest, t)
    decreases n
  {
    var all := Calls(n, at) + rest;
    if n == 0 {
      assert all == rest;
    } else {
      assert all[0] == at && all[1..] == Calls(n - 1, at) + rest;
      CallsAccepted(l.(accepted := l.accepted + 1), n - 1, at, rest, t);
    }
  }

  /** Twice the configured number is reached, whatever it is: that many calls late in a window, and as many early in the next. */
  lemma {:induction false} TwiceIsReached(max: nat)
    requires max > 0
    ensures Ordered(Calls(max, SECOND - 1) + Calls(max, SECOND), 0)
    ensures AcceptedWithin(Limiter(max, 0, 0), Calls(max, SECOND - 1) + Calls(max, SECOND), SECOND - 1) == 2 * max
  {
    var late, early := Calls(max, SECOND - 1), Calls(max, SECOND);
    CallsAccepted(Limiter(max, 0, 0), max, SECOND - 1, early, SECOND - 1);
    var full := Limiter(max, 0, max);
    assert early[0] == SECOND && early[1..] == Calls(max - 1, SECOND);
    assert After(full, SECOND) == Limiter(max, SECOND, 1);
    assert Calls(max - 1, SECOND) + [] == Calls(max - 1, SECOND);
    CallsAccepted(Limiter(max, SECOND, 1), max - 1, SECOND, [], SECOND - 1);
  }
}
