/**
 * The asynchronous retry pipeline (`runAsyncWithRetry` / `runAsyncAttempt`)
 * as a sequential state machine. Each attempt first asks the rate limiter,
 * then the circuit breaker; a refusal from either completes the future at once
 * and uses up no retry. An admitted attempt runs the operation: a normal return
 * completes the future and records a success, a throw records a failure and
 * either schedules another attempt (2 s later, one retry fewer) or, with no
 * retries left, completes the future with that exception.
 *
 * The operation's behaviour is an input: the sequence of attempts says, for
 * each attempt the scheduler would make, when its gates are consulted, when it
 * finishes and whether it returned or threw.
 */
module Retry {
  import opened Wrappers
  import opened RateLimiting
  import opened CircuitBreaking

  /** Delay before a re-attempt, fixed whatever the attempt number. */
  const RETRY_DELAY_MILLIS := 2000
  /** Retry budget that deposits and withdrawals pass to the pipeline. */
  const TRANSACTION_MAX_RETRIES := 3

  /** What an attempt can throw. */
  datatype Throwable = IllegalStateException(message: string) | Raised(description: string)

  const RATE_LIMITED := IllegalStateException("Rate limit exceeded")
  const CIRCUIT_OPEN := IllegalStateException("Circuit breaker is open")

  /** How one execution of the operation ended. */
  datatype Outcome<T> = Returned(value: T) | Threw(error: Throwable)

  /** How a future was completed. */
  datatype Completion<T> = Normal(value: T) | Exceptional(error: Throwable)

  /** One attempt as the scheduler makes it: gate time, finish time, and what the operation did. */
  datatype Attempt<T> = Attempt(admitTime: int, finishTime: int, outcome: Outcome<T>)

  /** The fixed parameters of both gates. */
  datatype Limits = Limits(maxRequests: int, periodMillis: int, failureThreshold: int, retryTimeMillis: int)

  /** The gates the vault builds: 100 requests per second, 5 failures, 10 s cooldown. */
  const VAULT_LIMITS := Limits(MAX_REQUESTS, PERIOD_MILLIS, FAILURE_THRESHOLD, RETRY_TIME_MILLIS)

  /** The mutable state of both gates. */
  datatype Gates = Gates(window: Window, breaker: Breaker)

  /**
   * Where a submission stands after the given attempts: its completion (None
   * while the next re-attempt is still to come), the gates afterwards, how many
   * attempts actually ran the operation and how many of those threw.
   */
  datatype Run<T> = Run(completion: Option<Completion<T>>, gates: Gates, executed: nat, failures: nat)

  /** How many executions a retry budget allows: the first attempt plus one per retry. */
  function Budget(retriesLeft: int): nat {
    if retriesLeft > 0 then retriesLeft + 1 else 1
  }

  /** A run that follows `executed` earlier executions, `failures` of which threw. */
  function After<T>(r: Run<T>, executed: nat, failures: nat): Run<T> {
    r.(executed := r.executed + executed, failures := r.failures + failures)
  }

  /** `runAsyncAttempt` with `retriesLeft`, followed through its scheduled re-attempts. */
  function RunAttempts<T>(limits: Limits, g: Gates, attempts: seq<Attempt<T>>, retriesLeft: int): (r: Run<T>)
    ensures r.failures <= r.executed <= Budget(retriesLeft)
    ensures r.executed <= |attempts|
    decreases |attempts|
  {
    if attempts == [] then Run(None, g, 0, 0)
    else
      var a := attempts[0];
      var admission := Acquire(limits.maxRequests, limits.periodMillis, g.window, a.admitTime);
      if !admission.admitted then
        Run(Some(Exceptional(RATE_LIMITED)), g.(window := admission.window), 0, 0)
      else
        var probe := CheckOpen(limits.retryTimeMillis, g.breaker, a.admitTime);
        var admitted := Gates(admission.window, probe.breaker);
        if probe.open then
          Run(Some(Exceptional(CIRCUIT_OPEN)), admitted, 0, 0)
        else
          match a.outcome
          case Returned(v) =>
            Run(Some(Normal(v)), admitted.(breaker := Succeed(admitted.breaker)), 1, 0)
          case Threw(e) =>
            var failed := admitted.(breaker := Fail(limits.failureThreshold, admitted.breaker, a.finishTime));
            if retriesLeft > 0 then
              After(RunAttempts(limits, failed, attempts[1..], retriesLeft - 1), 1, 1)
            else
              Run(Some(Exceptional(e)), failed, 1, 1)
  }

  /**
   * What any submission can end in. At most the budget of executions run.
   * Every execution but possibly the last threw, and each threw once. A future
   * still pending has had all given attempts executed and thrown, with retries
   * left. A normal completion carries the value of the one execution that
   * returned, which is the last. An exceptional completion is either a gate
   * refusal, which ran nothing further, or the exception of the last execution
   * once the budget was spent.
   */
  lemma {:induction false} RunShape<T>(limits: Limits, g: Gates, attempts: seq<Attempt<T>>, retriesLeft: int)
    ensures var r := RunAttempts(limits, g, attempts, retriesLeft);
            && r.executed <= |attempts|
            && r.executed <= Budget(retriesLeft)
            && r.failures <= r.executed <= r.failures + 1
            && (forall i :: 0 <= i < r.failures ==> attempts[i].outcome.Threw?)
            && (r.completion.None? ==>
                  r.executed == |attempts| && r.failures == r.executed && r.executed < Budget(retriesLeft))
            && (r.completion.Some? && r.completion.value.Normal? ==>
                  r.executed == r.failures + 1 && attempts[r.failures].outcome == Returned(r.completion.value.value))
            && (r.completion.Some? && r.completion.value.Exceptional? ==>
                  r.failures == r.executed &&
                  ((r.executed < |attempts| &&
                    (r.completion.value.error == RATE_LIMITED || r.completion.value.error == CIRCUIT_OPEN)) ||
                   (r.executed == Budget(retriesLeft) &&
                    attempts[r.executed - 1].outcome == Threw(r.completion.value.error))))
    decreases |attempts|
  {
    if attempts != [] {
      var a := attempts[0];
      var admission := Acquire(limits.maxRequests, limits.periodMillis, g.window, a.admitTime);
      var probe := CheckOpen(limits.retryTimeMillis, g.breaker, a.admitTime);
      if admission.admitted && !probe.open && a.outcome.Threw? && retriesLeft > 0 {
        var failed := Gates(admission.window, Fail(limits.failureThreshold, probe.breaker, a.finishTime));
        var rest := RunAttempts(limits, failed, attempts[1..], retriesLeft - 1);
        RunShape(limits, failed, attempts[1..], retriesLeft - 1);
        assert RunAttempts(limits, g, attempts, retriesLeft) == After(rest, 1, 1);
        forall i | 0 <= i < rest.failures + 1
          ensures attempts[i].outcome.Threw?
        {
          if i > 0 {
            assert attempts[i] == attempts[1..][i - 1];
          }
        }
        if rest.executed > 0 {
          assert attempts[rest.executed] == attempts[1..][rest.executed - 1];
        }
      }
    }
  }

  /** The times at which the given attempts reach the gates. */
  function AdmitTimes<T>(attempts: seq<Attempt<T>>): seq<int> {
    seq(|attempts|, i requires 0 <= i < |attempts| => attempts[i].admitTime)
  }

  /**
   * Attempts as the executor schedules them: each finishes no earlier than it
   * reached the gates, and each retry reaches the gates at least
   * `RETRY_DELAY_MILLIS` after the previous attempt finished.
   */
  ghost predicate Scheduled<T>(attempts: seq<Attempt<T>>) {
    && (forall i :: 0 <= i < |attempts| ==> attempts[i].admitTime <= attempts[i].finishTime)
    && (forall i :: 0 <= i < |attempts| - 1 ==> attempts[i].finishTime + RETRY_DELAY_MILLIS <= attempts[i + 1].admitTime)
  }

  /**
   * Gates with room for `n` more executions: the limiter, left to itself,
   * admits each of the first `n` attempts, and the breaker is closed with
   * fewer than `threshold - n + 1` failures counted.
   */
  ghost predicate Room<T>(limits: Limits, g: Gates, attempts: seq<Attempt<T>>, n: nat) {
    && n <= |attempts|
    && (forall i :: 0 <= i < n ==>
          Verdicts(limits.maxRequests, limits.periodMillis, g.window, AdmitTimes(attempts[..n]))[i])
    && !g.breaker.open
    && 0 <= g.breaker.failureCount
    && g.breaker.failureCount + n <= limits.failureThreshold
  }

  /** What is left of `Room` after the first attempt was admitted and failed. */
  lemma RoomAfterFailure<T>(limits: Limits, g: Gates, attempts: seq<Attempt<T>>, n: nat)
    requires 0 < n && Room(limits, g, attempts, n)
    ensures var a := attempts[0];
            var admission := Acquire(limits.maxRequests, limits.periodMillis, g.window, a.admitTime);
            && admission.admitted
            && (1 < n ==> Room(limits, Gates(admission.window, Fail(limits.failureThreshold, g.breaker, a.finishTime)), attempts[1..], n - 1))
  {
    var a := attempts[0];
    var admission := Acquire(limits.maxRequests, limits.periodMillis, g.window, a.admitTime);
    var times := AdmitTimes(attempts[..n]);
    var rest := AdmitTimes(attempts[1..][..n - 1]);
    assert times[1..] == rest;
    var v := Verdicts(limits.maxRequests, limits.periodMillis, g.window, times);
    assert v == [admission.admitted] + Verdicts(limits.maxRequests, limits.periodMillis, admission.window, rest);
    assert v[0];
    forall i | 0 <= i < n - 1
      ensures Verdicts(limits.maxRequests, limits.periodMillis, admission.window, rest)[i]
    {
      assert v[i + 1];
    }
  }

  /**
   * The vault's limiter admits every scheduled attempt of a transaction
   * submitted to freshly built gates, since each retry comes more than a window
   * after the previous one.
   */
  lemma ScheduledAttemptsAdmitted<T>(start: int, attempts: seq<Attempt<T>>)
    requires Scheduled(attempts)
    requires attempts != [] ==> start <= attempts[0].admitTime
    ensures forall i :: 0 <= i < |attempts| ==>
              Verdicts(MAX_REQUESTS, PERIOD_MILLIS, Window(0, start), AdmitTimes(attempts))[i]
  {
    var times := AdmitTimes(attempts);
    forall i | 0 <= i < |times| - 1
      ensures times[i] + RETRY_DELAY_MILLIS <= times[i + 1]
    {
      assert attempts[i].admitTime <= attempts[i].finishTime;
    }
    SpacedCallsAdmitted(MAX_REQUESTS, PERIOD_MILLIS, Window(0, start), times, RETRY_DELAY_MILLIS);
  }

  /**
   * An operation that throws on every attempt, with gates that admit them all,
   * is executed exactly `retriesLeft + 1` times (once if no retries are left),
   * records one failure per execution, and completes with the last exception.
   */
  lemma {:induction false} ThrowingRunExhaustsBudget<T>(limits: Limits, g: Gates, attempts: seq<Attempt<T>>, retriesLeft: int)
    requires Room(limits, g, attempts, Budget(retriesLeft))
    requires forall i :: 0 <= i < Budget(retriesLeft) ==> attempts[i].outcome.Threw?
    ensures var r := RunAttempts(limits, g, attempts, retriesLeft);
            var n := Budget(retriesLeft);
            && r.completion == Some(Exceptional(attempts[n - 1].outcome.error))
            && r.executed == n
            && r.failures == n
            && r.gates.breaker.failureCount == g.breaker.failureCount + n
    decreases |attempts|
  {
    var a := attempts[0];
    var admission := Acquire(limits.maxRequests, limits.periodMillis, g.window, a.admitTime);
    RoomAfterFailure(limits, g, attempts, Budget(retriesLeft));
    var failed := Gates(admission.window, Fail(limits.failureThreshold, g.breaker, a.finishTime));
    if retriesLeft > 0 {
      assert Budget(retriesLeft - 1) == Budget(retriesLeft) - 1;
      forall i | 0 <= i < Budget(retriesLeft - 1)
        ensures attempts[1..][i].outcome.Threw?
      {
        assert attempts[1..][i] == attempts[i + 1];
      }
      ThrowingRunExhaustsBudget(limits, failed, attempts[1..], retriesLeft - 1);
      assert attempts[1..][Budget(retriesLeft - 1) - 1] == attempts[Budget(retriesLeft) - 1];
    }
  }

  /**
   * An operation that throws `j` times and then returns `v`, within the retry
   * budget and with gates that admit all of it, completes normally with `v`
   * after `j + 1` executions and `j` recorded failures, and leaves the breaker
   * closed with no failures counted.
   */
  lemma {:induction false} SucceedsAfterFailures<T>(limits: Limits, g: Gates, attempts: seq<Attempt<T>>, retriesLeft: int, j: nat)
    requires j < Budget(retriesLeft)
    requires Room(limits, g, attempts, j + 1)
    requires forall i :: 0 <= i < j ==> attempts[i].outcome.Threw?
    requires attempts[j].outcome.Returned?
    ensures var r := RunAttempts(limits, g, attempts, retriesLeft);
            && r.completion == Some(Normal(attempts[j].outcome.value))
            && r.executed == j + 1
            && r.failures == j
            && r.gates.breaker.failureCount == 0 && !r.gates.breaker.open
    decreases j
  {
    var a := attempts[0];
    var admission := Acquire(limits.maxRequests, limits.periodMillis, g.window, a.admitTime);
    RoomAfterFailure(limits, g, attempts, j + 1);
    var failed := Gates(admission.window, Fail(limits.failureThreshold, g.breaker, a.finishTime));
    if j > 0 {
      forall i | 0 <= i < j - 1
        ensures attempts[1..][i].outcome.Threw?
      {
        assert attempts[1..][i] == attempts[i + 1];
      }
      SucceedsAfterFailures(limits, failed, attempts[1..], retriesLeft - 1, j - 1);
    }
  }

  /**
   * A deposit or withdrawal whose backend call throws every time, submitted to
   * freshly built gates and retried on the executor's schedule, runs exactly
   * four times (one attempt and three retries), counts four failures, and
   * completes with the fourth exception; the breaker, needing five, stays
   * closed throughout.
   */
  lemma FailingTransactionRunsFourTimes<T>(start: int, attempts: seq<Attempt<T>>)
    requires |attempts| >= 4 && start <= attempts[0].admitTime
    requires Scheduled(attempts[..4])
    requires forall i :: 0 <= i < 4 ==> attempts[i].outcome.Threw?
    ensures var r := RunAttempts(VAULT_LIMITS, Gates(Window(0, start), INITIAL), attempts, TRANSACTION_MAX_RETRIES);
            && r.completion == Some(Exceptional(attempts[3].outcome.error))
            && r.executed == 4 && r.failures == 4
            && r.gates.breaker.failureCount == 4 && !r.gates.breaker.open
  {
    var g := Gates(Window(0, start), INITIAL);
    ScheduledAttemptsAdmitted(start, attempts[..4]);
    ThrowingRunExhaustsBudget(VAULT_LIMITS, g, attempts, TRANSACTION_MAX_RETRIES);
    RunShape(VAULT_LIMITS, g, attempts, TRANSACTION_MAX_RETRIES);
    FailuresStayClosed(VAULT_LIMITS, g, attempts, TRANSACTION_MAX_RETRIES);
  }

  /**
   * A deposit or withdrawal that fails `j <= 3` times and then succeeds,
   * submitted to freshly built gates and retried on the executor's schedule,
   * completes with the value of attempt `j` and leaves the breaker closed with
   * its count reset.
   */
  lemma TransactionSucceedsAfterFailures<T>(start: int, attempts: seq<Attempt<T>>, j: nat)
    requires j <= TRANSACTION_MAX_RETRIES && j < |attempts| && start <= attempts[0].admitTime
    requires Scheduled(attempts[..j + 1])
    requires forall i :: 0 <= i < j ==> attempts[i].outcome.Threw?
    requires attempts[j].outcome.Returned?
    ensures var r := RunAttempts(VAULT_LIMITS, Gates(Window(0, start), INITIAL), attempts, TRANSACTION_MAX_RETRIES);
            && r.completion == Some(Normal(attempts[j].outcome.value))
            && r.executed == j + 1 && r.failures == j
            && r.gates.breaker.failureCount == 0 && !r.gates.breaker.open
  {
    ScheduledAttemptsAdmitted(start, attempts[..j + 1]);
    SucceedsAfterFailures(VAULT_LIMITS, Gates(Window(0, start), INITIAL), attempts, TRANSACTION_MAX_RETRIES, j);
  }

  /** The breaker a run leaves behind is still consistent with the threshold. */
  lemma {:induction false} FailuresStayClosed<T>(limits: Limits, g: Gates, attempts: seq<Attempt<T>>, retriesLeft: int)
    requires Consistent(limits.failureThreshold, g.breaker)
    ensures Consistent(limits.failureThreshold, RunAttempts(limits, g, attempts, retriesLeft).gates.breaker)
    decreases |attempts|
  {
    if attempts != [] {
      var a := attempts[0];
      var admission := Acquire(limits.maxRequests, limits.periodMillis, g.window, a.admitTime);
      var probe := CheckOpen(limits.retryTimeMillis, g.breaker, a.admitTime);
      var failed := Gates(admission.window, Fail(limits.failureThreshold, probe.breaker, a.finishTime));
      FailuresStayClosed(limits, failed, attempts[1..], retriesLeft - 1);
    }
  }

  /** A `CompletableFuture`: completed at most once; later completions are ignored. */
  class Future<T> {
    var result: Option<Completion<T>>

    constructor ()
      ensures result == None
    {
      result := None;
    }

    /** `complete` / `completeExceptionally`: only the first call takes effect. */
    method Complete(c: Completion<T>) returns (transitioned: bool)
      modifies this
      ensures transitioned == old(result).None?
      ensures result == if transitioned then Some(c) else old(result)
    {
      transitioned := result.None?;
      if transitioned {
        result := Some(c);
      }
    }
  }

  /** The shared limiter and breaker every submission goes through. */
  class Executor {
    const limiter: RateLimiter
    const breaker: CircuitBreaker

    /** Gates as the vault builds them when its class is loaded at time `now`. */
    constructor (now: int)
      ensures Valid() && Config() == VAULT_LIMITS && GateState() == Gates(Window(0, now), INITIAL)
      ensures fresh(limiter) && fresh(breaker)
    {
      limiter := new RateLimiter(MAX_REQUESTS, PERIOD_MILLIS, now);
      breaker := new CircuitBreaker(FAILURE_THRESHOLD, RETRY_TIME_MILLIS);
    }

    function Config(): Limits {
      Limits(limiter.maxRequests, limiter.periodMillis, breaker.failureThreshold, breaker.retryTimeMillis)
    }

    function GateState(): Gates
      reads limiter, breaker
    {
      Gates(limiter.State(), breaker.State())
    }

    ghost predicate Valid()
      reads limiter, breaker
    {
      limiter.Valid() && breaker.Valid()
    }

    /**
     * `runAsyncWithRetry(callable, maxRetries)`: a new future, driven through
     * the given attempts; the loop is the chain of scheduled re-attempts.
     */
    method RunAsyncWithRetry<T>(attempts: seq<Attempt<T>>, maxRetries: int)
      returns (future: Future<T>, executed: nat, failures: nat)
      requires Valid()
      modifies limiter, breaker
      ensures Valid() && fresh(future)
      ensures var r := RunAttempts(Config(), old(GateState()), attempts, maxRetries);
              future.result == r.completion && GateState() == r.gates &&
              executed == r.executed && failures == r.failures
    {
      ghost var whole := RunAttempts(Config(), GateState(), attempts, maxRetries);
      future := new Future<T>();
      executed, failures := 0, 0;
      var i, retriesLeft := 0, maxRetries;
      while i < |attempts| && future.result.None?
        invariant Valid() && fresh(future)
        invariant 0 <= i <= |attempts|
        invariant future.result.None? ==>
                    whole == After(RunAttempts(Config(), GateState(), attempts[i..], retriesLeft), executed, failures)
        invariant future.result.Some? ==> whole == Run(future.result, GateState(), executed, failures)
        decreases |attempts| - i, if future.result.None? then 1 else 0
      {
        var a := attempts[i];
        assert attempts[i..][0] == a && attempts[i..][1..] == attempts[i + 1..];
        var admitted := limiter.TryAcquire(a.admitTime);
        if !admitted {
          var _ := future.Complete(Exceptional(RATE_LIMITED));
        } else {
          var open := breaker.IsOpen(a.admitTime);
          if open {
            var _ := future.Complete(Exceptional(CIRCUIT_OPEN));
          } else {
            executed := executed + 1;
            match a.outcome
            case Returned(v) =>
              var _ := future.Complete(Normal(v));
              breaker.RecordSuccess();
            case Threw(e) =>
              breaker.RecordFailure(a.finishTime);
              failures := failures + 1;
              if retriesLeft > 0 {
                retriesLeft := retriesLeft - 1;
                i := i + 1;
              } else {
                var _ := future.Complete(Exceptional(e));
              }
          }
        }
      }
    }
  }
}
