/**
 * The CLOSED/OPEN circuit breaker consulted before every asynchronous attempt.
 * Failures are counted; once the count reaches the threshold the breaker
 * opens. It closes again either on a recorded success or lazily, inside the
 * `isOpen` check, once more than the cooldown has passed since the last
 * failure. There is no half-open state. The clock is a parameter.
 */
module CircuitBreaking {

  /** The breaker the vault builds at class-load time: 5 failures, 10 s cooldown. */
  const FAILURE_THRESHOLD := 5
  const RETRY_TIME_MILLIS := 10000

  /** The mutable part of a breaker. */
  datatype Breaker = Breaker(failureCount: int, lastFailureTime: int, open: bool)

  /** A newly built breaker: no failures, time zero, closed. */
  const INITIAL := Breaker(0, 0, false)

  /** Result of the lazy `isOpen` check: the answer and the breaker afterwards. */
  datatype Probe = Probe(open: bool, breaker: Breaker)

  /** The invariant the breaker keeps: it is open only with at least `threshold` failures counted. */
  ghost predicate Consistent(threshold: int, b: Breaker) {
    0 <= b.failureCount && (b.open ==> b.failureCount >= threshold)
  }

  /** `recordFailure` at time `now`: count it, stamp it, and trip open at the threshold. */
  function Fail(threshold: int, b: Breaker, now: int): (r: Breaker)
    ensures Consistent(threshold, b) ==> Consistent(threshold, r)
  {
    var count := b.failureCount + 1;
    Breaker(count, now, b.open || count >= threshold)
  }

  /** `recordSuccess`: forget the failures and close, whatever the state was. */
  function Succeed(b: Breaker): (r: Breaker)
    ensures !r.open && r.failureCount == 0 && r.lastFailureTime == b.lastFailureTime
    ensures forall threshold :: Consistent(threshold, r)
  {
    b.(failureCount := 0, open := false)
  }

  /**
   * `isOpen` at time `now`: an open breaker whose last failure is more than
   * `retryTimeMillis` old closes and forgets its failures; the answer is the
   * breaker's open flag after that.
   */
  function CheckOpen(retryTimeMillis: int, b: Breaker, now: int): (r: Probe)
    ensures r.open == r.breaker.open
    ensures r.open ==> r.breaker == b
    ensures b.open && now - b.lastFailureTime > retryTimeMillis ==> r == Probe(false, b.(open := false, failureCount := 0))
    ensures r.breaker == b || (b.open && now - b.lastFailureTime > retryTimeMillis && r == Probe(false, b.(open := false, failureCount := 0)))
    ensures forall threshold :: Consistent(threshold, b) ==> Consistent(threshold, r.breaker)
  {
    if b.open && now - b.lastFailureTime > retryTimeMillis then
      Probe(false, b.(open := false, failureCount := 0))
    else
      Probe(b.open, b)
  }

  /** Failures recorded one after another at the given times, with no success between them. */
  function Failures(threshold: int, b: Breaker, times: seq<int>): Breaker
    decreases |times|
  {
    if times == [] then b else Failures(threshold, Fail(threshold, b, times[0]), times[1..])
  }

  /**
   * Consecutive failures add up: each adds one to the count, the stamp is the
   * last failure's time, and the breaker ends open exactly when it was open
   * already or the count reached the threshold.
   */
  lemma {:induction false} FailuresAccumulate(threshold: int, b: Breaker, times: seq<int>)
    ensures Failures(threshold, b, times).failureCount == b.failureCount + |times|
    ensures times != [] ==> Failures(threshold, b, times).lastFailureTime == times[|times| - 1]
    ensures times == [] ==> Failures(threshold, b, times) == b
    ensures Failures(threshold, b, times).open <==>
              b.open || (times != [] && b.failureCount + |times| >= threshold)
    decreases |times|
  {
    if times != [] {
      var b' := Fail(threshold, b, times[0]);
      FailuresAccumulate(threshold, b', times[1..]);
      if |times| > 1 {
        assert times[1..][|times[1..]| - 1] == times[|times| - 1];
      }
    }
  }

  /**
   * After `threshold` consecutive failures from any state, `isOpen` answers
   * true (and changes nothing) until the cooldown has passed since the last
   * failure; the first check after that answers false and zeroes the count.
   */
  lemma TripsAfterThreshold(threshold: int, retryTimeMillis: int, b: Breaker, times: seq<int>, now: int)
    requires 0 <= b.failureCount
    requires times != [] && |times| >= threshold
    ensures var f := Failures(threshold, b, times);
            var p := CheckOpen(retryTimeMillis, f, now);
            f.open &&
            (now - times[|times| - 1] <= retryTimeMillis ==> p == Probe(true, f)) &&
            (now - times[|times| - 1] > retryTimeMillis ==> !p.open && p.breaker.failureCount == 0)
  {
    FailuresAccumulate(threshold, b, times);
  }

  /** Only a failure can open the breaker; a success and the lazy check can only close it. */
  lemma OnlyFailureOpens(threshold: int, retryTimeMillis: int, b: Breaker, now: int)
    ensures !Succeed(b).open && Succeed(b).failureCount == 0
    ensures CheckOpen(retryTimeMillis, b, now).breaker.open ==> b.open
    ensures b.open ==> Fail(threshold, b, now).open
  {
  }

  /** The breaker object: threshold and cooldown are fixed, the rest is updated in place. */
  class CircuitBreaker {
    const failureThreshold: int
    const retryTimeMillis: int
    var failureCount: int
    var lastFailureTime: int
    var open: bool

    /** The abstract state of this breaker. */
    function State(): Breaker
      reads this
    {
      Breaker(failureCount, lastFailureTime, open)
    }

    ghost predicate Valid()
      reads this
    {
      Consistent(failureThreshold, State())
    }

    constructor (failureThreshold: int, retryTimeMillis: int)
      ensures this.failureThreshold == failureThreshold && this.retryTimeMillis == retryTimeMillis
      ensures Valid() && State() == INITIAL
    {
      this.failureThreshold := failureThreshold;
      this.retryTimeMillis := retryTimeMillis;
      failureCount := 0;
      lastFailureTime := 0;
      open := false;
    }

    method RecordFailure(now: int)
      requires Valid()
      modifies this
      ensures Valid() && State() == Fail(failureThreshold, old(State()), now)
    {
      failureCount := failureCount + 1;
      lastFailureTime := now;
      if failureCount >= failureThreshold {
        open := true;
      }
    }

    method RecordSuccess()
      requires Valid()
      modifies this
      ensures Valid() && State() == Succeed(old(State()))
    {
      failureCount := 0;
      open := false;
    }

    method IsOpen(now: int) returns (isOpen: bool)
      requires Valid()
      modifies this
      ensures Valid()
      ensures Probe(isOpen, State()) == CheckOpen(retryTimeMillis, old(State()), now)
    {
      if open && now - lastFailureTime > retryTimeMillis {
        open := false;
        failureCount := 0;
      }
      return open;
    }
  }
}
