/**
 * The fixed-window admission counter in front of every asynchronous attempt.
 * A window opens at `periodStart`; once more than `periodMillis` have elapsed
 * since then, the next call starts a fresh window with a zero count. Inside a
 * window at most `maxRequests` calls are admitted. The clock is a parameter.
 */
module RateLimiting {

  /** The limiter the vault builds at class-load time: 100 requests per second. */
  const MAX_REQUESTS := 100
  const PERIOD_MILLIS := 1000

  /** The mutable part of a limiter: calls admitted in the window, and when it opened. */
  datatype Window = Window(requestCount: int, periodStart: int)

  /** Outcome of one admission check: the verdict and the window afterwards. */
  datatype Admission = Admission(admitted: bool, window: Window)

  /** Largest count a window can reach; a non-positive capacity admits nothing. */
  function Capacity(maxRequests: int): nat {
    if maxRequests < 0 then 0 else maxRequests
  }

  /** The invariant the limiter keeps: the count stays within the capacity. */
  ghost predicate Bounded(maxRequests: int, w: Window) {
    0 <= w.requestCount <= Capacity(maxRequests)
  }

  /** True when a call at `now` falls after the end of window `w`. */
  predicate Expired(periodMillis: int, w: Window, now: int) {
    now - w.periodStart > periodMillis
  }

  /** The window the admission check looks at: `w` itself, or a fresh one opened at `now`. */
  function Current(periodMillis: int, w: Window, now: int): Window {
    if Expired(periodMillis, w, now) then Window(0, now) else w
  }

  /**
   * One `tryAcquire` at time `now`: reset the window if it expired, then admit
   * while the count is below `maxRequests`, counting the admitted call.
   */
  function Acquire(maxRequests: int, periodMillis: int, w: Window, now: int): (r: Admission)
    ensures Bounded(maxRequests, w) ==> Bounded(maxRequests, r.window)
    ensures r.admitted <==> Current(periodMillis, w, now).requestCount < maxRequests
    ensures r.admitted ==> r.window.requestCount == Current(periodMillis, w, now).requestCount + 1
    ensures r.admitted ==> r.window.periodStart == Current(periodMillis, w, now).periodStart
    ensures !r.admitted ==> r.window == Current(periodMillis, w, now)
    ensures Bounded(maxRequests, w) && !r.admitted ==> r.window.requestCount == Capacity(maxRequests)
  {
    var c := Current(periodMillis, w, now);
    if c.requestCount < maxRequests then
      Admission(true, c.(requestCount := c.requestCount + 1))
    else
      Admission(false, c)
  }

  /** The verdicts of successive calls at the given times, starting from window `w`. */
  function Verdicts(maxRequests: int, periodMillis: int, w: Window, times: seq<int>): (v: seq<bool>)
    ensures |v| == |times|
    decreases |times|
  {
    if times == [] then []
    else
      var a := Acquire(maxRequests, periodMillis, w, times[0]);
      [a.admitted] + Verdicts(maxRequests, periodMillis, a.window, times[1..])
  }

  /**
   * Calls that all fall inside the current window: the i-th call is admitted
   * exactly when the count so far plus i is still below `maxRequests`. So with
   * `k` requests already counted, `maxRequests - k` calls pass and every later
   * call in the same window fails.
   */
  lemma {:induction false} WithinOneWindow(maxRequests: int, periodMillis: int, w: Window, times: seq<int>)
    requires 0 <= w.requestCount
    requires forall i :: 0 <= i < |times| ==> !Expired(periodMillis, w, times[i])
    ensures |Verdicts(maxRequests, periodMillis, w, times)| == |times|
    ensures forall i :: 0 <= i < |times| ==>
              Verdicts(maxRequests, periodMillis, w, times)[i] == (w.requestCount + i < maxRequests)
    decreases |times|
  {
    if times != [] {
      var a := Acquire(maxRequests, periodMillis, w, times[0]);
      assert a.window.periodStart == w.periodStart;
      forall i | 0 <= i < |times[1..]|
        ensures !Expired(periodMillis, a.window, times[1..][i])
      {
        assert times[1..][i] == times[i + 1];
      }
      WithinOneWindow(maxRequests, periodMillis, a.window, times[1..]);
      var v := Verdicts(maxRequests, periodMillis, w, times);
      assert v == [a.admitted] + Verdicts(maxRequests, periodMillis, a.window, times[1..]);
      forall i | 0 <= i < |times|
        ensures v[i] == (w.requestCount + i < maxRequests)
      {
        if i > 0 {
          assert v[i] == Verdicts(maxRequests, periodMillis, a.window, times[1..])[i - 1];
        }
      }
    }
  }

  /**
   * Calls spaced more than a window apart: when the first is admitted and comes
   * no earlier than the window opened, each later call finds the window left by
   * the previous one expired, so every call is admitted.
   */
  lemma {:induction false} SpacedCallsAdmitted(maxRequests: int, periodMillis: int, w: Window, times: seq<int>, gap: int)
    requires 0 < maxRequests && 0 <= periodMillis < gap
    requires times != [] ==> w.periodStart <= times[0] && Acquire(maxRequests, periodMillis, w, times[0]).admitted
    requires forall i :: 0 <= i < |times| - 1 ==> times[i] + gap <= times[i + 1]
    ensures forall i :: 0 <= i < |times| ==> Verdicts(maxRequests, periodMillis, w, times)[i]
    decreases |times|
  {
    if times != [] {
      var a := Acquire(maxRequests, periodMillis, w, times[0]);
      assert a.window.periodStart <= times[0];
      forall i | 0 <= i < |times[1..]| - 1
        ensures times[1..][i] + gap <= times[1..][i + 1]
      {
        assert times[1..][i] == times[i + 1] && times[1..][i + 1] == times[i + 2];
      }
      if |times| > 1 {
        assert times[0] + gap <= times[1];
        assert Expired(periodMillis, a.window, times[1..][0]);
        assert Acquire(maxRequests, periodMillis, a.window, times[1..][0]).admitted;
      }
      SpacedCallsAdmitted(maxRequests, periodMillis, a.window, times[1..], gap);
      var v := Verdicts(maxRequests, periodMillis, w, times);
      assert v == [a.admitted] + Verdicts(maxRequests, periodMillis, a.window, times[1..]);
      forall i | 0 <= i < |times|
        ensures v[i]
      {
        if i > 0 {
          assert v[i] == Verdicts(maxRequests, periodMillis, a.window, times[1..])[i - 1];
        }
      }
    }
  }

  /**
   * A fresh window admits `maxRequests` calls and refuses the next one, as long
   * as all of them come within `periodMillis` of the window's start.
   */
  lemma FreshWindowAdmitsCapacity(maxRequests: int, periodMillis: int, start: int, times: seq<int>)
    requires 0 <= maxRequests < |times|
    requires forall i :: 0 <= i < |times| ==> times[i] - start <= periodMillis
    ensures var v := Verdicts(maxRequests, periodMillis, Window(0, start), times);
            |v| == |times| &&
            (forall i :: 0 <= i < maxRequests ==> v[i]) &&
            !v[maxRequests]
  {
    WithinOneWindow(maxRequests, periodMillis, Window(0, start), times);
  }

  /**
   * Crossing a window boundary forgets the old count entirely: even a full
   * window admits the next call once it has expired, so a fixed window lets a
   * burst of calls through across a boundary.
   */
  lemma ExpiredWindowAdmits(maxRequests: int, periodMillis: int, w: Window, now: int)
    requires maxRequests > 0
    requires Expired(periodMillis, w, now)
    ensures Acquire(maxRequests, periodMillis, w, now) == Admission(true, Window(1, now))
  {
  }

  /** The limiter object: its capacity and window length are fixed, its window is updated in place. */
  class RateLimiter {
    const maxRequests: int
    const periodMillis: int
    var requestCount: int
    var periodStart: int

    /** The abstract state of this limiter. */
    function State(): Window
      reads this
    {
      Window(requestCount, periodStart)
    }

    ghost predicate Valid()
      reads this
    {
      Bounded(maxRequests, State())
    }

    /** A limiter created at time `now`: its first window opens then, empty. */
    constructor (maxRequests: int, periodMillis: int, now: int)
      ensures this.maxRequests == maxRequests && this.periodMillis == periodMillis
      ensures Valid() && State() == Window(0, now)
    {
      this.maxRequests := maxRequests;
      this.periodMillis := periodMillis;
      requestCount := 0;
      periodStart := now;
    }

    /** `tryAcquire` at time `now`, as one atomic step. */
    method TryAcquire(now: int) returns (admitted: bool)
      requires Valid()
      modifies this
      ensures Valid()
      ensures Admission(admitted, State()) == Acquire(maxRequests, periodMillis, old(State()), now)
    {
      if now - periodStart > periodMillis {
        periodStart := now;
        requestCount := 0;
      }
      if requestCount < maxRequests {
        requestCount := requestCount + 1;
        return true;
      }
      return false;
    }
  }
}
