# PostgresDatabase: transaction retry rule and query errors

This project models the `PostgresDatabase` adapter of lib/postgres.ts. The adapter wraps a
`pg` connection pool. The model covers two of its operations:

- `transaction(callback, depth = 0)` takes a connection and issues `BEGIN`, then runs the
  caller's callback. When the callback succeeds it issues `COMMIT` and returns the
  callback's value. When the callback throws it issues `ROLLBACK` and then decides:
  - a serialization failure (SQLSTATE `40001`) is retried at `depth + 1` while
    `depth <= 10`;
  - a unique violation (`23505`) is retried only at depth 0;
  - any other error is rethrown unchanged.
- `query(statement, values)` fails with a fixed message when the driver could not be
  loaded. Otherwise it returns the driver's `rows`, or `[]` when `rows` is missing. It
  rethrows a driver error as a new error that carries the same message and no code.

Everything is in `postgres.dfy`, module `Postgres`. The callback and the `pg` pool are
foreign code, so the model treats them as oracles:

- The callback is `nat -> Outcome<T>`, giving what the callback does in the attempt at each
  depth. Each depth is attempted at most once.
- The pool is `Option<Pool<R>>`. `None` is an adapter whose `require('pg')` failed. `Pool`
  says, for the attempt at each depth, whether `pool.connect()` and each
  `conn.query(BEGIN | COMMIT | ROLLBACK)` throws, and what `pool.query` answers.

`Attempt` is one invocation of `transaction`. `Transaction` follows the retries
recursively, as the source does. `Transaction` returns a `Run`, which records:

- the statements issued;
- the number of callback invocations (`attempts`);
- the final outcome.

`Healthy(pool)` means a loaded pool whose connect and BEGIN/COMMIT/ROLLBACK never throw.
Under that condition the run depends on the callback alone (`HealthyRun`).

Two facts about `transaction` follow directly from the code:

- A callback that always throws `40001` is invoked 12 times: depths 0 through 11 each get an
  attempt, and only depth 11 fails the `depth <= 10` test (`AlwaysSerializationFailure`,
  `TwelveAttempts`).
- `transaction` never releases the connection it takes: no `release()` appears in it. Every
  attempt keeps its client checked out, so a run of 12 attempts holds 12 clients.

Two further behaviours of the code:

- `transaction` does not check for a missing driver. On an adapter without `pg` it fails by
  dereferencing the null pool. It never gets the "not installed" error that `query` gives
  (`TransactionWithoutPool`).
- A `COMMIT`, `ROLLBACK`, `BEGIN` or `connect` that throws ends the run with that error.
  These calls sit outside the retry branches, so such an error is never retried.

## Model

| member | source | states |
|---|---|---|
| `Postgres.Retries` | lib/postgres.ts:52-61 | The retry rule: a `40001` is retried at depth <= 10, a `23505` only at depth 0, nothing else ever. Its contract states that only those two codes are retried and never past depth 10, which bounds the recursion. |
| `Postgres.Attempt` | lib/postgres.ts:43-65 | One invocation of `transaction` leads to a retry exactly when three things hold: connect, BEGIN and ROLLBACK succeeded; the callback threw; and its error passes the rule (`40001` at depth <= 10, or `23505` at depth 0). |
| `Postgres.Transaction` | lib/postgres.ts:42-66 | Termination bound: a run entered at `depth` invokes the callback at most `MaxAttempts(depth)` times, which is 12 from depth 0 and 1 past depth 11. |
| `Postgres.Query` | lib/postgres.ts:21-33 | A missing pool gives the fixed "without 'pg' installed" error. Every error it returns has no code. A result is returned exactly when the driver answered. A driver error's message is kept. The rows are the driver's rows, or `[]` when `rows` is missing. |
| `Postgres.AttemptsLog` | lib/postgres.ts:44-64 | The statements of `n` attempts on a healthy pool have length `2n`. Each even position is BEGIN. Each odd position is ROLLBACK, except that the last one is COMMIT when the final attempt committed. |
| `Postgres.SettledAttempt` | lib/postgres.ts:43-65 | An attempt that ends the run issues nothing, BEGIN alone, or BEGIN then COMMIT/ROLLBACK. Only the last case invokes the callback, once. COMMIT only follows a callback that succeeded, and ROLLBACK only one that threw. A run resolves only with the callback's value, after COMMIT. |
| `Postgres.HealthyStep` | lib/postgres.ts:43-65 | On a healthy pool an attempt is rolled back and retried exactly when the callback threw an error the rule retries. Otherwise it ends the run with `[BEGIN, COMMIT]` or `[BEGIN, ROLLBACK]` and the callback's own outcome. |
| `Postgres.LogIsEnveloped` | lib/postgres.ts:44-64 | For any pool, attempts are laid end to end: BEGIN at even positions, COMMIT or ROLLBACK at odd positions, and never both for one attempt. COMMIT appears only as the last statement. The log has 2 entries per callback invocation, plus at most one BEGIN whose attempt stopped. |
| `Postgres.RetriesJustified` | lib/postgres.ts:49-62 | For any pool, every attempt except the last threw an error the rule retries at that attempt's depth. |
| `Postgres.CommitOnlyAfterSuccess` | lib/postgres.ts:46-64 | For any pool, a COMMIT in the log implies that the callback of the last attempt succeeded. COMMIT never follows a failure. |
| `Postgres.CloserMatchesOutcome` | lib/postgres.ts:46-64 | For any pool, the statement closing the `k`-th attempt (position `2k+1`) is COMMIT if and only if that attempt's callback succeeded, and ROLLBACK if and only if it threw. |
| `Postgres.ResolvesWithCallbackResult` | lib/postgres.ts:46-65 | For any pool, a run that resolves returns exactly the value of the last attempt's callback, and its last statement is COMMIT. |
| `Postgres.HealthyOutcome` | lib/postgres.ts:42-66 | On a healthy pool every attempt before the last threw an error the rule retries, and the last did not, so the run ends at the first attempt whose outcome the rule does not retry. It returns that attempt's value, or rethrows its error unchanged. |
| `Postgres.HealthyLog` | lib/postgres.ts:44-64 | On a healthy pool the log is `AttemptsLog(attempts, committed)`: one BEGIN/ROLLBACK pair per retried attempt, then BEGIN and COMMIT or ROLLBACK. |
| `Postgres.HealthyRun` | lib/postgres.ts:42-66 | On a healthy pool the run is fixed by the callback: every earlier attempt threw a retried error, the last did not, the outcome is the last callback's, and the log is as above. |
| `Postgres.FirstAttemptSucceeds` | lib/postgres.ts:44-65 | A callback that succeeds on its first attempt gives one BEGIN/COMMIT pair, no ROLLBACK, one invocation, and its own value. |
| `Postgres.SerializationFailureRetriedIff` | lib/postgres.ts:52-53 | A `40001` thrown at depth d leads to a further attempt if and only if d <= 10. |
| `Postgres.UniqueViolationRetriedIff` | lib/postgres.ts:58-59 | A `23505` thrown at depth d leads to a further attempt if and only if d == 0. |
| `Postgres.OtherErrorRethrown` | lib/postgres.ts:60-61 | An error whose code is neither `40001` nor `23505` is rethrown unchanged after one BEGIN/ROLLBACK, with no retry. |
| `Postgres.AlwaysSerializationFailure` | lib/postgres.ts:52-53 | A callback that always throws `40001`, entered at depth <= 11, is attempted `12 - depth` times, all rolled back. The error from depth 11 is rethrown. |
| `Postgres.TwelveAttempts` | lib/postgres.ts:52-61 | From `transaction(callback)`, a callback that always throws the same `40001` error makes 12 attempts with 12 rollbacks. That same error object is rethrown. |
| `Postgres.AlwaysUniqueViolation` | lib/postgres.ts:58-61 | A callback that always throws `23505` makes exactly 2 attempts, both rolled back, and the second error is rethrown. |
| `Postgres.TransactionDependsOnlyFromDepth` | lib/postgres.ts:42-59 | A run entered at `depth` depends only on the callback's outcomes at depths >= `depth`. |
| `Postgres.UniqueViolationThenSerializationFailures` | lib/postgres.ts:52-59 | The two limits are independent. A `23505` at depth 0 followed by `40001`s still runs to depth 11, for 12 attempts, and rethrows the error from depth 11. |
| `Postgres.TransactionWithoutPool` | lib/postgres.ts:43 | Without a loaded driver, `transaction` issues no statement and never invokes the callback. It fails with the null-pool error, not `query`'s "not installed" error. |
| `Postgres.QueryFailsIff` | lib/postgres.ts:26-31 | A summary of `Query`'s contract: `query` fails if and only if the driver is missing or `pool.query` throws. A driver error is rethrown as `Error(message)`: same message, code dropped. |

## Left out

- The constructor (lib/postgres.ts:14-20) loads `pg` dynamically with `require`. It is
  modelled only by its result: the pool is present (`Some`) or absent (`None`).
- `getConfig` (lib/postgres.ts:34-41) reads a configuration module from disk and swallows
  its errors. That is I/O.
- `stream` (lib/postgres.ts:67-79) builds an `ObjectReadStream` from ./streams and re-runs a
  live query until it returns no rows. ./streams is not part of this model, and the
  repeated query is I/O.
- SQL execution, the `pg` pool and client, and the wire protocol are foreign code. The
  callback and the driver calls are oracles. `query`'s statement and values are passed to
  the oracle unread.
- `async`/`await` and concurrent transactions are not modelled. Conflicts between
  transactions reach the model only as the error codes the callback throws.
- Thrown values that are not error objects are not modelled. For example, a thrown string
  has no `code` and would be rethrown; a thrown `null` would make `e.code` itself throw.
  Every thrown value is modelled as an `Error` with an optional code and a message.
- `Healthy`: a `pool.connect()` that waits forever is not modelled; connect either returns
  or throws. Because `transaction` never releases its clients, a pool with a fixed client
  limit can run out and make `connect` wait. The lemmas that assume `Healthy`
  (`TwelveAttempts`, `AlwaysSerializationFailure`,
  `UniqueViolationThenSerializationFailures` and the rest) describe a pool that still has
  enough free clients, at least 12 for a full run of serialization failures.
- `depth` is a `nat`. A caller could pass a negative or fractional depth to the JavaScript
  function, and such depths are not covered.
- `query` treats a missing driver result and a result without `rows` the same way: both
  are `Answered(None)`, and both give `[]`.
- The message of the error that `transaction` throws on a null pool comes from the
  JavaScript engine. The model fixes it to V8's wording, `NullPoolError`.
