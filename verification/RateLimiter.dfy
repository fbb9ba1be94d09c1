/** The per-connection WebSocket limiter: a fixed one-second window with a counter. */
module RateLimiter {
  const MAX_MESSAGES_PER_SECOND: nat := 100

  /** One second, in the nanoseconds the monotonic clock counts. */
  const SECOND: nat := 1_000_000_000

  datatype Window = Window(count: nat, start: int) {
    /** What one message at time `now` does to the window, and whether it is let through. */
    function Next(now: int): (Window, bool) {
      if now - start >= SECOND then (Window(1, now), true)
      else if count >= MAX_MESSAGES_PER_SECOND then (this, false)
      else (Window(count + 1, start), true)
    }
  }

  class Limiter {
    var messageCount: nat
    var windowStart: int

    function Current(): Window
      reads this
    {
      Window(messageCount, windowStart)
    }

    constructor (now: int)
      ensures Current() == Window(0, now)
    {
      messageCount := 0;
      windowStart := now;
    }

    method CheckAndUpdate(now: int) returns (accepted: bool)
      modifies this
      ensures (Current(), accepted) == old(Current()).Next(now)
      ensures old(messageCount) <= MAX_MESSAGES_PER_SECOND ==> messageCount <= MAX_MESSAGES_PER_SECOND
    {
      if now - windowStart >= SECOND {
        windowStart := now;
        messageCount := 1;
        return true;
      }
      if messageCount >= MAX_MESSAGES_PER_SECOND {
        return false;
      }
      messageCount := messageCount + 1;
      return true;
    }
  }

  /** Arrival times read off a monotonic clock, none before `from`. */
  ghost predicate Arrivals(times: seq<int>, from: int) {
    && (forall i :: 0 <= i < |times| ==> from <= times[i])
    && (forall i, j :: 0 <= i < j < |times| ==> times[i] <= times[j])
  }

  /** How many of `times` are accepted and fall in `[lo, hi)`. */
  ghost function AcceptedIn(w: Window, times: seq<int>, lo: int, hi: int): nat
    decreases |times|
  {
    if times == [] then 0
    else
      var (next, ok) := w.Next(times[0]);
      (if ok && lo <= times[0] < hi then 1 else 0) + AcceptedIn(next, times[1..], lo, hi)
  }

  /** How many of `times` fall in `[lo, hi)`. */
  ghost function CountIn(times: seq<int>, lo: int, hi: int): nat {
    if times == [] then 0
    else (if lo <= times[0] < hi then 1 else 0) + CountIn(times[1..], lo, hi)
  }

  function Min(a: int, b: int): int {
    if a < b then a else b
  }

  /** The exact number let through once the interval has begun: what is left of the
      current window, plus at most one further window's worth after its boundary.  More
      than 100 pass in a second exactly when this sum says so. */
  lemma {:induction false} ExactAcceptance(w: Window, times: seq<int>, lo: int)
    requires w.count <= MAX_MESSAGES_PER_SECOND
    requires Arrivals(times, w.start) && Arrivals(times, lo)
    ensures
      var boundary, hi := w.start + SECOND, lo + SECOND;
      AcceptedIn(w, times, lo, hi)
      == Min(MAX_MESSAGES_PER_SECOND - w.count, CountIn(times, lo, Min(boundary, hi)))
         + Min(MAX_MESSAGES_PER_SECOND, CountIn(times, boundary, hi))
    decreases |times|
  {
    var boundary, hi := w.start + SECOND, lo + SECOND;
    if times != [] {
      var t, rest := times[0], times[1..];
      assert Arrivals(rest, t);
      if t >= hi {
        NothingAfter(w, times, lo, hi);
        CountOutside(times, lo, Min(boundary, hi));
        CountOutside(times, boundary, hi);
      } else {
        ExactAcceptance(w.Next(t).0, rest, lo);
        if t >= boundary {
          CountOutside(rest, t + SECOND, hi);
          CountOutside(times, lo, Min(boundary, hi));
          CountFrom(rest, lo, boundary, hi);
        }
      }
    }
  }

  lemma {:induction false} CountOutside(times: seq<int>, lo: int, hi: int)
    requires Arrivals(times, hi) || hi <= lo
    ensures CountIn(times, lo, hi) == 0
  {
    if times != [] {
      CountOutside(times[1..], lo, hi);
    }
  }

  lemma {:induction false} CountFrom(times: seq<int>, a: int, b: int, hi: int)
    requires Arrivals(times, a) && Arrivals(times, b)
    ensures CountIn(times, a, hi) == CountIn(times, b, hi)
  {
    if times != [] {
      CountFrom(times[1..], a, b, hi);
    }
  }

  lemma {:induction false} NothingAfter(w: Window, times: seq<int>, lo: int, hi: int)
    requires Arrivals(times, hi)
    ensures AcceptedIn(w, times, lo, hi) == 0
    decreases |times|
  {
    if times != [] {
      NothingAfter(w.Next(times[0]).0, times[1..], lo, hi);
    }
  }

  /** A message that opens a window is followed by at most 99 more within that window. */
  lemma {:induction false} AtMostHundredPerWindow(w: Window, times: seq<int>)
    requires w.count <= MAX_MESSAGES_PER_SECOND
    requires times != [] && Arrivals(times, w.start) && times[0] - w.start >= SECOND
    ensures AcceptedIn(w, times, times[0], times[0] + 1_000_000_000) <= 100
  {
    var w1, rest := w.Next(times[0]).0, times[1..];
    ExactAcceptance(w1, rest, times[0]);
    CountOutside(rest, w1.start + SECOND, times[0] + SECOND);
  }

  /** The window in force, however it was opened and whatever it has already let through,
      accepts in all at most 100: this covers the first window of a connection. */
  lemma {:induction false} AtMostHundredInCurrentWindow(w: Window, times: seq<int>)
    requires w.count <= MAX_MESSAGES_PER_SECOND && Arrivals(times, w.start)
    ensures w.count + AcceptedIn(w, times, w.start, w.start + 1_000_000_000) <= 100
  {
    ExactAcceptance(w, times, w.start);
    CountOutside(times, w.start + SECOND, w.start + SECOND);
  }

  /** Any half-open one-second interval, however placed, sees at most 200 acceptances. */
  lemma {:induction false} AtMostTwoHundredPerSecond(w: Window, times: seq<int>, lo: int)
    requires w.count <= MAX_MESSAGES_PER_SECOND
    requires Arrivals(times, w.start)
    ensures AcceptedIn(w, times, lo, lo + 1_000_000_000) <= 200
    decreases |times|
  {
    if times != [] {
      if times[0] < lo {
        AtMostTwoHundredPerSecond(w.Next(times[0]).0, times[1..], lo);
      } else {
        ExactAcceptance(w, times, lo);
      }
    }
  }

  /** `n` messages at one instant inside the current window all pass while it has room. */
  lemma {:induction false} Burst(w: Window, t: int, n: nat, rest: seq<int>, lo: int, hi: int)
    requires w.start <= t < w.start + SECOND && w.count + n <= MAX_MESSAGES_PER_SECOND
    requires lo <= t < hi
    ensures AcceptedIn(w, seq(n, _ => t) + rest, lo, hi)
         == n + AcceptedIn(Window(w.count + n, w.start), rest, lo, hi)
    decreases n
  {
    var times := seq(n, _ => t) + rest;
    if n == 0 {
      assert times == rest;
    } else {
      assert times[1..] == seq(n - 1, _ => t) + rest;
      Burst(Window(w.count + 1, w.start), t, n - 1, rest, lo, hi);
    }
  }

  /** The bound of 200 is attained: the advertised 100 per second does not hold across
      a window boundary. */
  lemma {:induction false} TwoHundredIsAttained() returns (times: seq<int>, lo: int)
    ensures Arrivals(times, 0)
    ensures AcceptedIn(Window(0, 0), times, lo, lo + 1_000_000_000) == 200
  {
    lo := SECOND - 1;
    var late := seq(99, _ => SECOND);
    times := seq(100, _ => lo) + ([SECOND] + late);
    Burst(Window(0, 0), lo, 100, [SECOND] + late, lo, lo + SECOND);
    assert ([SECOND] + late)[1..] == late + [];
    Burst(Window(1, SECOND), SECOND, 99, [], lo, lo + SECOND);
  }
}
