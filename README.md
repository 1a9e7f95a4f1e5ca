# EZVault resilience core in Dafny

EZVault is a Bukkit library that puts one economy provider behind an
asynchronous, rate-limited, circuit-broken call pipeline. This project models
the sequential logic of that library's core, all of it in
`src/main/java/dev/EZVault.java`, and proves what it promises:

- `rate_limiter.dfy` (module `RateLimiting`): the fixed-window `RateLimiter`.
  It has a pure step function `Acquire` for one `tryAcquire`. It also has a
  class whose `TryAcquire(now)` updates `requestCount` and `periodStart` in
  place, proved equal to that function.
- `circuit_breaker.dfy` (module `CircuitBreaking`): the CLOSED/OPEN
  `CircuitBreaker`. Pure steps `Fail`, `Succeed` and `CheckOpen` model
  `recordFailure`, `recordSuccess` and the lazy `isOpen`. A class updates
  `failureCount`, `lastFailureTime` and `open` in place.
- `providers.dfy` (module `Providers`): the builder's priority overrides, keyed
  by lower-cased plugin name. Also provider discovery, which replaces the
  provider table and publishes `ConnectionFailed` when it finds nothing, and
  `selectActiveProvider`. `connect` ties them together.
- `retry.dfy` (module `Retry`): `runAsyncWithRetry`/`runAsyncAttempt` as a
  state machine. `RunAttempts` is the pure specification. `Executor.RunAsyncWithRetry`
  is a loop over the shared limiter and breaker objects that completes a
  `Future`, proved equal to `RunAttempts`.
- `query.dfy` (module `Query`): `parseQuery`, together with the `String.split`
  behaviour it depends on: trailing empty strings are dropped, and a string
  without the separator comes back whole.
- `wrappers.dfy` (module `Wrappers`): `Option`, which stands for Java's `null`.

The clock (`System.currentTimeMillis()`) is always a parameter `now`. A retried
operation is given as a sequence of `Attempt`s. Each attempt holds the time
its gates are consulted, the time it finishes, and whether the operation
returned a value or threw.

Behaviour of the code that the model keeps as written:

- The code sets no tie-break between equal priorities: it sorts an unordered
  `ConcurrentHashMap` stream. The model takes the stream order as an input and
  promises only some provider of highest priority.
- `recordFailure` stamps `lastFailureTime` on every failure, not only on the
  failure that trips the breaker.
- `connect` publishes `Connected` before it selects the active provider. It
  does so even when discovery found nothing, so `ConnectionFailed` and then
  `Connected` are published.
- Deposits and withdrawals always use 3 retries and a 2-second delay. The
  builder's `maxRetries` (default 5) and `retryDelayMillis` (default 5000) are
  never read.
- Discovery reads its overrides from the builder held by the vault's holder
  class, the one `builder(plugin)` returns, whichever builder `connect` is
  called on.

## Model

| member | source | states |
|---|---|---|
| RateLimiting.Acquire | src/main/java/dev/EZVault.java:380-391 | One `tryAcquire` keeps the count within capacity. It admits exactly when the count, after any window reset, is below `maxRequests`, and then adds one. A rejection leaves the (possibly reset) window unchanged and happens only when the window is full. |
| RateLimiting.WithinOneWindow | src/main/java/dev/EZVault.java:381-390 | For calls that all fall inside the current window, the i-th call is admitted exactly when the count so far plus i is below `maxRequests`. |
| RateLimiting.FreshWindowAdmitsCapacity | src/main/java/dev/EZVault.java:380-391 | A fresh window admits `maxRequests` calls and refuses the next one, as long as all of them come within `periodMillis` of its start. |
| RateLimiting.SpacedCallsAdmitted | src/main/java/dev/EZVault.java:380-391 | Calls spaced more than a window apart are all admitted when the first is: each later call finds the previous window expired. |
| RateLimiting.ExpiredWindowAdmits | src/main/java/dev/EZVault.java:382-388 | After the window has expired, even a full limiter admits the next call and starts a new window at `now` with count 1. A fixed window therefore lets a burst of calls through across a boundary. |
| RateLimiting.RateLimiter.constructor | src/main/java/dev/EZVault.java:373-378 | A new limiter starts an empty window at the time it is created. |
| RateLimiting.RateLimiter.TryAcquire | src/main/java/dev/EZVault.java:380-391 | The in-place update of the count and window start equals `Acquire`. It keeps the invariant that the count stays within capacity. |
| CircuitBreaking.Fail | src/main/java/dev/EZVault.java:342-349 | `recordFailure` keeps the invariant "open only with at least `threshold` failures". |
| CircuitBreaking.Succeed | src/main/java/dev/EZVault.java:351-354 | `recordSuccess` closes the breaker and zeroes its count, keeping the time of the last failure. The result is consistent for every threshold. |
| CircuitBreaking.CheckOpen | src/main/java/dev/EZVault.java:356-363 | `isOpen` reports the state it leaves. An open breaker past its cooldown is always reset to closed with no failures, answering false. Otherwise nothing changes. Put the other way, it either changes nothing, or the breaker was open past its cooldown and is reset to closed with no failures, answering false. A true answer changes nothing. It keeps the consistency invariant. |
| CircuitBreaking.FailuresAccumulate | src/main/java/dev/EZVault.java:342-349 | Each consecutive failure adds one to the count, and the stamp is the time of the last one. The breaker ends open exactly when it was already open or the count reached the threshold. |
| CircuitBreaking.TripsAfterThreshold | src/main/java/dev/EZVault.java:342-363 | After `threshold` consecutive failures, `isOpen` answers true and changes nothing while the cooldown has not passed. After the cooldown it answers false and zeroes the count. |
| CircuitBreaking.OnlyFailureOpens | src/main/java/dev/EZVault.java:342-363 | A success closes the breaker and zeroes the count. `isOpen` can only close it. A failure never clears `open`. |
| CircuitBreaking.CircuitBreaker.constructor | src/main/java/dev/EZVault.java:331-340 | A new breaker is closed, with no failures and time stamp 0. |
| CircuitBreaking.CircuitBreaker.RecordFailure | src/main/java/dev/EZVault.java:342-349 | The in-place update equals `Fail` and keeps the invariant. |
| CircuitBreaking.CircuitBreaker.RecordSuccess | src/main/java/dev/EZVault.java:351-354 | The in-place update equals `Succeed` and keeps the invariant. |
| CircuitBreaking.CircuitBreaker.IsOpen | src/main/java/dev/EZVault.java:356-363 | The answer and the in-place lazy reset equal `CheckOpen`. |
| Providers.ToLowerCase | src/main/java/dev/EZVault.java:86 | Lower-casing keeps the length, leaves no upper-case ASCII letter, and changes each character at most in its case. |
| Providers.SameKey | src/main/java/dev/EZVault.java:86 | Two plugin names get the same key exactly when they have the same length and differ only in the case of ASCII letters. |
| Providers.ToLowerCaseIdempotent | src/main/java/dev/EZVault.java:118 | Lower-cased names are stable under lower-casing, so keys are normalised. |
| Providers.Builder.ProviderPriority | src/main/java/dev/EZVault.java:85-87 | The override is recorded under the lower-cased plugin name, and no other override changes. |
| Providers.Discovered | src/main/java/dev/EZVault.java:115-121 | The discovery loop as a function of the registrations in order. Its own contract: every entry has the override for its key (or 1) and no active players. `DiscoveredNames` and `DiscoveredEntry` state the keys and economies. |
| Providers.DiscoveredNames | src/main/java/dev/EZVault.java:113-127 | The discovered table's keys are exactly the lower-cased plugin names of the registrations. The table is empty exactly when nothing is registered. |
| Providers.DiscoveredEntry | src/main/java/dev/EZVault.java:115-121 | Each entry has the override for its name (or 1) and no active players. It holds the economy of the last registration whose name lower-cases to the key. |
| Providers.OverrideIgnoresCase | src/main/java/dev/EZVault.java:85-121 | An override given under any spelling applies to a registration of the same plugin in any case. |
| Providers.FirstTop | src/main/java/dev/EZVault.java:131-135 | The chosen position holds a highest priority, and every earlier entry has a strictly lower one: the first entry of highest priority in the given order. |
| Providers.SelectActiveProvider | src/main/java/dev/EZVault.java:131-136 | Absent exactly for an empty stream. Otherwise the name of an entry whose priority no other entry exceeds. |
| Providers.SelectionIsTop | src/main/java/dev/EZVault.java:131-136 | For any iteration order of the table, the selection is absent exactly when the table is empty. Otherwise it names a provider of highest priority. |
| Providers.EntryStream | src/main/java/dev/EZVault.java:132 | The table's entry stream lists every entry exactly once, in an unspecified order. |
| Providers.Vault.constructor | src/main/java/dev/EZVault.java:291-296 | Class loading gives the holder a fresh builder with no overrides, and the vault starts with no providers, no active name and no events. |
| Providers.Vault.DiscoverProviders | src/main/java/dev/EZVault.java:113-129 | The table is replaced by the one discovered with the holder's overrides, and the active name is untouched. `ConnectionFailed` is published exactly when nothing was registered. |
| Providers.Vault.Connect | src/main/java/dev/EZVault.java:96-109 | Discovery runs with the holder's overrides, whichever builder `connect` is called on. If scheduling the backup task or starting the query server fails (`serverStarts` false), the rest is abandoned. Otherwise `Connected` is published, and the active name is absent exactly when the table is empty, else a provider of highest priority. |
| Retry.RunAttempts | src/main/java/dev/EZVault.java:171-195 | `runAsyncAttempt` and its scheduled re-attempts as a function of the attempts. Its own contract: no more executions than the budget or the attempts given, and no more failures than executions. `RunShape`, `ThrowingRunExhaustsBudget` and `SucceedsAfterFailures` state the rest. |
| Retry.RunShape | src/main/java/dev/EZVault.java:171-195 | At most `retries + 1` executions run. Every execution but the last threw, and each throw records one failure. A success completes with the returning execution's value. An exceptional completion is either a gate refusal that ran nothing more, or the last exception once the budget is spent. A still-pending future means retries remain. |
| Retry.ScheduledAttemptsAdmitted | src/main/java/dev/EZVault.java:171-189 | With the vault's limiter, fresh gates admit every attempt on the executor's schedule: each retry comes at least 2000 ms after the previous attempt finished, more than the 1000 ms window. |
| Retry.ThrowingRunExhaustsBudget | src/main/java/dev/EZVault.java:171-195 | When the limiter admits the attempts and the breaker has room, an operation that always throws runs exactly `retries + 1` times. It records that many failures and completes with the last exception. |
| Retry.SucceedsAfterFailures | src/main/java/dev/EZVault.java:171-195 | When the limiter admits the attempts and the breaker has room, an operation that throws j times and then returns v completes with v. That takes j + 1 executions and j failures, and leaves the breaker closed and zeroed. |
| Retry.FailingTransactionRunsFourTimes | src/main/java/dev/EZVault.java:139-195 | A deposit or withdrawal whose backend call always throws, submitted to fresh gates and retried 2 seconds after each failure, runs 4 times and records 4 failures. It completes with the 4th exception, and the breaker stays closed. |
| Retry.TransactionSucceedsAfterFailures | src/main/java/dev/EZVault.java:139-195 | A deposit or withdrawal that fails j <= 3 times and then succeeds, on the same schedule, completes with the value of attempt j after j + 1 executions, and leaves the breaker closed and zeroed. |
| Retry.FailuresStayClosed | src/main/java/dev/EZVault.java:171-195 | A whole submission keeps the breaker invariant: it is open only with at least `threshold` failures. |
| Retry.Future.Complete | src/main/java/dev/EZVault.java:173-191 | A future is completed by its first completion only. Later ones are ignored. |
| Retry.Executor.constructor | src/main/java/dev/EZVault.java:44-48 | The vault's gates: 100 requests per 1000 ms, and a breaker with threshold 5 and a 10000 ms cooldown. |
| Retry.Executor.RunAsyncWithRetry | src/main/java/dev/EZVault.java:165-195 | The loop of attempts and scheduled re-attempts completes a new future, and leaves the shared limiter and breaker, exactly as `RunAttempts` says. |
| Query.SplitAll | src/main/java/dev/EZVault.java:264 | Splitting at every separator gives at least one piece, and no piece contains the separator. `JoinSplitAll` and `SplitAllJoin` make it the inverse of joining. |
| Query.JavaSplit | src/main/java/dev/EZVault.java:264-266 | `String.split` on one character: no piece contains the separator. `JavaSplitRecovers` shows that only trailing empty pieces are lost. |
| Query.DropTrailingEmpty | src/main/java/dev/EZVault.java:264-266 | The result is the shortest prefix that loses only empty strings: it ends in a non-empty string or is empty. |
| Query.JoinSplitAll | src/main/java/dev/EZVault.java:264-266 | Splitting loses nothing: joining the pieces gives the string back. |
| Query.SplitAllJoin | src/main/java/dev/EZVault.java:264-266 | Pieces free of the separator survive joining and splitting unchanged. |
| Query.JavaSplitRecovers | src/main/java/dev/EZVault.java:264-266 | `split`'s pieces contain no separator. Adding back the dropped empty pieces and joining gives the input. |
| Query.Param | src/main/java/dev/EZVault.java:266-267 | One `key=value` piece: a kept pair has a key and value without `=` and a non-empty value. `ParamSound` and `ParamComplete` characterise exactly which pieces are kept. |
| Query.ParamSound | src/main/java/dev/EZVault.java:266-267 | A kept piece has the form key `=` value followed only by `=` signs. The key and value contain no `=`, and the value is non-empty. |
| Query.ParamComplete | src/main/java/dev/EZVault.java:266-267 | Every piece of that form is kept, with exactly that key and value. |
| Query.PieceExamples | src/main/java/dev/EZVault.java:266-267 | `a=`, `=` and `a=b=c` are dropped. `=b` gives key "" and `a=b=` gives a→b. |
| Query.LastSupplier | src/main/java/dev/EZVault.java:265-268 | Gives the last piece that supplies a key, or -1 when none does. |
| Query.Params | src/main/java/dev/EZVault.java:265-269 | The loop over the pieces as a function, later pieces overwriting earlier ones. Every key and value it holds is free of `=`, and every value is non-empty. `ParamsSource` states where each entry comes from. |
| Query.QueryParams | src/main/java/dev/EZVault.java:261-270 | `parseQuery` as a function: empty for an absent or empty query. Every key and value is free of `=`, and every value is non-empty. |
| Query.ParamsSource | src/main/java/dev/EZVault.java:264-269 | A key is in the result exactly when some piece supplies it. Its value is the one from the last such piece. |
| Query.ParseQuery | src/main/java/dev/EZVault.java:261-270 | The map the loop fills equals the specification: empty for an absent or empty query, otherwise built from the `&`-pieces in order. |

## Left out

- Concurrency: thread pools, the scheduler and `synchronized`. Each operation is one atomic sequential step. The attempt times are inputs; the lemmas about the vault's transactions require them to follow the 2-second retry delay.
- Retry.Executor.RunAsyncWithRetry: runs one submission's whole chain of attempts with sole use of the shared limiter and breaker. Other submissions that reach the gates during the 2-second gaps are not modelled, so the retry lemmas hold for a submission running alone.
- Retry.RunAttempts: each attempt reads the clock once, at `admitTime`, for both `tryAcquire` and `isOpen`. The code reads it separately in each, a few instructions apart.
- `builder(plugin)` only returns the holder's builder and sets the plugin and logger; the plugin and logger are not modelled.
- Discovery's atomicity toward concurrent readers is not modelled. The table is cleared and then filled, as one step.
- The order of a `ConcurrentHashMap` stream is an input (`EntryStream` picks it nondeterministically), so ties between equal priorities stay unresolved, as in the code.
- `System.currentTimeMillis()` is a parameter. `TimeUnit.toMillis` is not modelled: the limiter takes its period in milliseconds.
- CircuitBreaking.Fail: does not model the 32-bit wrap-around of `failureCount`, which would need more than 2^31 failures. Time differences are unbounded integers, not 64-bit `long`s.
- Providers.ToLowerCase: maps only ASCII `A`–`Z`. The locale-dependent Unicode case mapping of `String.toLowerCase` is not modelled.
- The operation run by each attempt (the `Economy` calls in `depositAsync`/`withdrawAsync`, their `double` arithmetic and the `VaultBalanceChangedEvent` they publish) is a foreign call. It appears only as the attempt's outcome.
- `balance()` is left out because it is a foreign call returning a `double`.
- The RxJava event subject is left out. Published lifecycle events are recorded as a sequence, with no subscribers and no `onComplete`.
- The HTTP server and `/balance` handler are network I/O and are left out. Only `parseQuery` is modelled. Whether the server starts is a parameter of `Connect`.
- YAML backups, `startBackupTask` and `cleanupBackups` are file I/O and timers, and are left out.
- The Bukkit bootstrap, the static initialiser, bStats `Metrics`, `safeRun` logging and `shutdown` are plumbing and are left out.
- The builder's `maxRetries`, `retryDelayMillis` and `safeMode` are never read by the code and are left out.
- `connect` reads `backupIntervalSeconds` and `httpPort` to start the backup task and the HTTP server. Both are left out as I/O. Either can fail: a non-positive interval makes the scheduler throw, and the port may be taken. `safeRun` then abandons the rest of `connect`. `Connect`'s `serverStarts == false` covers every such failure: no `Connected` event and no active provider.
- `EconomyWrapper.activePlayers` is never updated by the code. It is kept at 0.
- `String.split` is modelled only for a single separator character that is not a regular-expression metacharacter (`&` and `=`), which is how the code uses it.
