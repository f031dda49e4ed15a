/**
 A model of the `PostgresDatabase` adapter in lib/postgres.ts: the retry rule of
 `transaction` and the error handling of `query`.

 The `pg` driver and the caller's callback are foreign code, so both are oracles:
 - the callback is a function from the retry depth to what the callback does in
   the attempt made at that depth (each depth is attempted at most once, so the
   depth identifies the attempt);
 - the pool is `None` when the driver could not be loaded, and otherwise says,
   for the attempt at each depth, whether `pool.connect()` and each
   `conn.query(BEGIN | COMMIT | ROLLBACK)` throws, and what `pool.query` answers.
 */
module Postgres {

  datatype Option<T> = None | Some(value: T)

  /** A thrown error: its `code` property (absent on errors Postgres did not raise) and its message. */
  datatype Error = Error(code: Option<string>, message: string)

  /** What a call produced: a value, or the error it threw. */
  datatype Outcome<T> = Ok(value: T) | Err(error: Error)

  /** The statements `transaction` sends on its connection. */
  datatype Statement = Begin | Commit | Rollback

  /** The arguments of `query`: the SQL text and the optional parameter values. The source
      accepts values of any type; the driver oracle passes them on unread, so strings stand in
      for them here. */
  datatype Request = Request(statement: string, values: Option<seq<string>>)

  /** What `pool.query` does: resolve to a result whose `rows` may be missing, or throw. */
  datatype Reply<R> = Answered(rows: Option<seq<R>>) | Failed(error: Error)

  /**
   A loaded `pg` pool, as oracles indexed by the depth of the `transaction` attempt:
   `connect(d)` and `exec(d, s)` are `Some(e)` when that call throws `e`.
   */
  datatype Pool<R> = Pool(
    connect: nat -> Option<Error>,
    exec: (nat, Statement) -> Option<Error>,
    query: Request -> Reply<R>)

  /** One run of `transaction`: the statements issued, in order, how many times the
      callback was invoked, and what the outer call resolves to or throws. */
  datatype Run<T> = Run(log: seq<Statement>, attempts: nat, outcome: Outcome<T>)

  /** SQLSTATE serialization_failure. */
  const SerializationFailure: string := "40001"
  /** SQLSTATE unique_violation. */
  const UniqueViolation: string := "23505"
  /** The largest depth at which a serialization failure is still retried. The definitions use
      this constant; the lemmas state the concrete depths (10, 11) and counts (12) it yields. */
  const MaxSerializationRetryDepth: nat := 10

  /** `query` on an adapter whose driver failed to load. */
  const NotInstalledError: Error := Error(None, "Attempting to use postgres without 'pg' installed")
  /** `transaction` on such an adapter dereferences the null pool (the message is the one V8 gives). */
  const NullPoolError: Error := Error(None, "Cannot read properties of null (reading 'connect')")

  /** The retry decision taken after a rolled-back attempt at `depth` that threw `e`: only the
      two retried codes qualify, and never past depth 10, which is what bounds the recursion. */
  predicate Retries(e: Error, depth: nat)
    ensures Retries(e, depth) ==> e.code == Some(SerializationFailure) || e.code == Some(UniqueViolation)
    ensures Retries(e, depth) ==> depth <= MaxSerializationRetryDepth
  {
    || (e.code == Some(SerializationFailure) && depth <= MaxSerializationRetryDepth)
    || (e.code == Some(UniqueViolation) && depth == 0)
  }

  /** The most callback invocations a `transaction` entered at `depth` can make. */
  function MaxAttempts(depth: nat): nat
  {
    if depth <= MaxSerializationRetryDepth + 1 then MaxSerializationRetryDepth + 2 - depth else 1
  }

  /** How one invocation of `transaction` ends: the attempt was rolled back and the call
      recurses at the next depth, or the invocation settles the whole run. */
  datatype Step<T> = Retry | Settled(run: Run<T>)

  /** The attempt at `depth` is rolled back and retried: the connection, BEGIN and ROLLBACK
      succeeded, and the callback threw an error the rule retries. */
  ghost predicate RetriedAt<T, R>(pool: Option<Pool<R>>, callback: nat -> Outcome<T>, depth: nat)
  {
    && pool.Some?
    && pool.value.connect(depth).None?
    && pool.value.exec(depth, Begin).None?
    && callback(depth).Err?
    && pool.value.exec(depth, Rollback).None?
    && Retries(callback(depth).error, depth)
  }

  /** A pool whose connections and BEGIN/COMMIT/ROLLBACK statements never throw. */
  ghost predicate Healthy<R>(pool: Option<Pool<R>>)
  {
    && pool.Some?
    && (forall d :: pool.value.connect(d).None?)
    && (forall d, s :: pool.value.exec(d, s).None?)
  }

  /** One invocation of `transaction` at `depth`: connect, BEGIN, run the callback, then
      COMMIT on success, or ROLLBACK and the retry decision on failure. A connect, BEGIN,
      COMMIT or ROLLBACK that throws ends the run with its error. */
  function Attempt<T, R>(pool: Option<Pool<R>>, callback: nat -> Outcome<T>, depth: nat): (step: Step<T>)
    ensures step.Retry? <==> RetriedAt(pool, callback, depth)
  {
    match pool
    case None => Settled(Run([], 0, Err(NullPoolError)))
    case Some(p) =>
      if p.connect(depth).Some? then Settled(Run([], 0, Err(p.connect(depth).value)))
      else if p.exec(depth, Begin).Some? then Settled(Run([Begin], 0, Err(p.exec(depth, Begin).value)))
      else
        match callback(depth)
        case Ok(result) =>
          var committed := p.exec(depth, Commit);
          Settled(Run([Begin, Commit], 1, if committed.Some? then Err(committed.value) else Ok(result)))
        case Err(e) =>
          var rolledBack := p.exec(depth, Rollback);
          if rolledBack.Some? then Settled(Run([Begin, Rollback], 1, Err(rolledBack.value)))
          else if Retries(e, depth) then Retry
          else Settled(Run([Begin, Rollback], 1, Err(e)))
  }

  /** `transaction(callback, depth)`: no run makes more than `MaxAttempts(depth)` attempts, so
      one started by a caller (at depth 0) invokes the callback at most 12 times. */
  function Transaction<T, R>(pool: Option<Pool<R>>, callback: nat -> Outcome<T>, depth: nat): (run: Run<T>)
    ensures run.attempts <= MaxAttempts(depth)
    decreases MaxSerializationRetryDepth + 1 - depth
  {
    match Attempt(pool, callback, depth)
    case Settled(run) => run
    case Retry => AfterRollback(Transaction(pool, callback, depth + 1))
  }

  /** The run of a retried call, seen from the attempt that was rolled back before it. */
  function AfterRollback<T>(next: Run<T>): Run<T>
  {
    Run([Begin, Rollback] + next.log, 1 + next.attempts, next.outcome)
  }

  /** `query(statement, values)`. */
  function Query<R>(pool: Option<Pool<R>>, request: Request): (r: Outcome<seq<R>>)
    ensures pool.None? ==> r == Err(NotInstalledError)
    ensures r.Err? ==> r.error.code.None?
    ensures r.Ok? <==> pool.Some? && pool.value.query(request).Answered?
    ensures pool.Some? && pool.value.query(request).Failed? ==>
      r.error.message == pool.value.query(request).error.message
    ensures pool.Some? && pool.value.query(request).Answered? ==>
      r.value == (if pool.value.query(request).rows.Some? then pool.value.query(request).rows.value else [])
  {
    match pool
    case None => Err(NotInstalledError)
    case Some(p) =>
      match p.query(request)
      case Failed(e) => Err(Error(None, e.message))
      case Answered(rows) => Ok(if rows.Some? then rows.value else [])
  }

  /** The statements of `n` attempts on a healthy pool: every attempt but the last was rolled
      back, and the last was committed when `committed` holds and rolled back otherwise. */
  function AttemptsLog(n: nat, committed: bool): (log: seq<Statement>)
    requires n >= 1
    ensures |log| == 2 * n
    ensures forall i :: 0 <= i < |log| ==>
      log[i] == if i % 2 == 0 then Begin else if i == |log| - 1 && committed then Commit else Rollback
  {
    if n == 1 then [Begin, if committed then Commit else Rollback]
    else [Begin, Rollback] + AttemptsLog(n - 1, committed)
  }

  /** Attempts are laid end to end: BEGIN at every even position, COMMIT or ROLLBACK at
      every odd one, and a COMMIT only as the very last statement. */
  ghost predicate Enveloped(log: seq<Statement>)
  {
    && (forall i :: 0 <= i < |log| ==> (log[i] == Begin <==> i % 2 == 0))
    && (forall i :: 0 <= i < |log| && log[i] == Commit ==> i == |log| - 1)
  }

  /** An attempt that settles the run issues no statement (connect threw), BEGIN alone (BEGIN
      threw), or BEGIN then COMMIT or ROLLBACK after invoking the callback once; COMMIT only
      follows a callback that succeeded, ROLLBACK only one that threw, and the run resolves
      only with the callback's value after a COMMIT. */
  lemma SettledAttempt<T, R>(pool: Option<Pool<R>>, callback: nat -> Outcome<T>, depth: nat)
    requires Attempt(pool, callback, depth).Settled?
    ensures var run := Attempt(pool, callback, depth).run;
      && run.log in [[], [Begin], [Begin, Commit], [Begin, Rollback]]
      && run.attempts == (if |run.log| == 2 then 1 else 0)
      && (run.log == [Begin, Commit] ==> callback(depth).Ok?)
      && (run.log == [Begin, Rollback] ==> callback(depth).Err?)
      && (run.outcome.Ok? ==> run == Run([Begin, Commit], 1, callback(depth)))
  {
  }

  /** One attempt on a healthy pool: it is rolled back and retried exactly when the callback
      threw an error the rule retries, and otherwise it ends the run with the callback's outcome. */
  lemma HealthyStep<T, R>(pool: Option<Pool<R>>, callback: nat -> Outcome<T>, depth: nat)
    requires Healthy(pool)
    ensures Transaction(pool, callback, depth) ==
      if callback(depth).Err? && Retries(callback(depth).error, depth) then
        AfterRollback(Transaction(pool, callback, depth + 1))
      else
        Run([Begin, if callback(depth).Ok? then Commit else Rollback], 1, callback(depth))
  {
    var p := pool.value;
    assert p.connect(depth).None? && p.exec(depth, Begin).None?;
    assert p.exec(depth, Commit).None? && p.exec(depth, Rollback).None?;
  }

  /** The statements a single settling attempt can issue are enveloped. */
  lemma SingleAttemptEnveloped(log: seq<Statement>)
    requires log in [[], [Begin], [Begin, Commit], [Begin, Rollback]]
    ensures Enveloped(log)
  {
  }

  /** Putting a rolled-back attempt in front of an enveloped log keeps it enveloped. */
  lemma EnvelopedPrepend(log: seq<Statement>)
    requires Enveloped(log)
    ensures Enveloped([Begin, Rollback] + log)
  {
    var full := [Begin, Rollback] + log;
    forall i | 2 <= i < |full|
      ensures full[i] == log[i - 2] && (i % 2 == 0 <==> (i - 2) % 2 == 0)
    {
    }
  }

  /** Each attempt issues BEGIN and then exactly one of COMMIT or ROLLBACK (only the last
      attempt can stop short after BEGIN), and nothing follows a COMMIT. */
  lemma {:induction false} LogIsEnveloped<T, R>(pool: Option<Pool<R>>, callback: nat -> Outcome<T>, depth: nat)
    ensures var run := Transaction(pool, callback, depth);
      && Enveloped(run.log)
      && 2 * run.attempts <= |run.log| <= 2 * run.attempts + 1
    decreases MaxSerializationRetryDepth + 1 - depth
  {
    match Attempt(pool, callback, depth)
    case Settled(run) =>
      SettledAttempt(pool, callback, depth);
      SingleAttemptEnveloped(run.log);
    case Retry =>
      var next := Transaction(pool, callback, depth + 1);
      LogIsEnveloped(pool, callback, depth + 1);
      EnvelopedPrepend(next.log);
  }

  /** Every retry follows a rolled-back attempt whose callback threw an error the rule retries. */
  lemma {:induction false} RetriesJustified<T, R>(pool: Option<Pool<R>>, callback: nat -> Outcome<T>, depth: nat)
    ensures var run := Transaction(pool, callback, depth);
      forall d :: depth <= d < depth + run.attempts - 1 ==>
        callback(d).Err? && Retries(callback(d).error, d)
    decreases MaxSerializationRetryDepth + 1 - depth
  {
    match Attempt(pool, callback, depth)
    case Settled(run) =>
      SettledAttempt(pool, callback, depth);
    case Retry =>
      RetriesJustified(pool, callback, depth + 1);
  }

  /** A COMMIT is only issued after the callback of the last attempt succeeded. */
  lemma {:induction false} CommitOnlyAfterSuccess<T, R>(pool: Option<Pool<R>>, callback: nat -> Outcome<T>, depth: nat)
    ensures var run := Transaction(pool, callback, depth);
      Commit in run.log ==> run.attempts >= 1 && callback(depth + run.attempts - 1).Ok?
    decreases MaxSerializationRetryDepth + 1 - depth
  {
    match Attempt(pool, callback, depth)
    case Settled(run) =>
      SettledAttempt(pool, callback, depth);
    case Retry =>
      var next := Transaction(pool, callback, depth + 1);
      assert Commit in [Begin, Rollback] + next.log ==> Commit in next.log;
      CommitOnlyAfterSuccess(pool, callback, depth + 1);
  }

  /** For any pool, the `k`-th invocation of the callback is closed by COMMIT exactly when
      that callback succeeded, and by ROLLBACK exactly when it threw. */
  lemma {:induction false} CloserMatchesOutcome<T, R>(pool: Option<Pool<R>>, callback: nat -> Outcome<T>, depth: nat)
    ensures var run := Transaction(pool, callback, depth);
      && 2 * run.attempts <= |run.log|
      && (forall k :: 0 <= k < run.attempts ==>
            && (run.log[2 * k + 1] == Commit <==> callback(depth + k).Ok?)
            && (run.log[2 * k + 1] == Rollback <==> callback(depth + k).Err?))
    decreases MaxSerializationRetryDepth + 1 - depth
  {
    LogIsEnveloped(pool, callback, depth);
    match Attempt(pool, callback, depth)
    case Settled(run) =>
      SettledAttempt(pool, callback, depth);
    case Retry =>
      var next := Transaction(pool, callback, depth + 1);
      var run := Transaction(pool, callback, depth);
      CloserMatchesOutcome(pool, callback, depth + 1);
      forall k | 0 <= k < run.attempts
        ensures run.log[2 * k + 1] == Commit <==> callback(depth + k).Ok?
        ensures run.log[2 * k + 1] == Rollback <==> callback(depth + k).Err?
      {
        if k >= 1 {
          assert run.log[2 * k + 1] == next.log[2 * (k - 1) + 1];
          assert depth + k == (depth + 1) + (k - 1);
        }
      }
  }

  /** A run that resolves returns what the callback of its last attempt produced, and its
      last statement is COMMIT. */
  lemma {:induction false} ResolvesWithCallbackResult<T, R>(pool: Option<Pool<R>>, callback: nat -> Outcome<T>, depth: nat)
    ensures var run := Transaction(pool, callback, depth);
      run.outcome.Ok? ==>
        && run.attempts >= 1
        && run.outcome == callback(depth + run.attempts - 1)
        && run.log[|run.log| - 1] == Commit
    decreases MaxSerializationRetryDepth + 1 - depth
  {
    match Attempt(pool, callback, depth)
    case Settled(run) =>
      SettledAttempt(pool, callback, depth);
    case Retry =>
      ResolvesWithCallbackResult(pool, callback, depth + 1);
  }

  /** With a healthy pool the run ends with the first attempt whose callback does not throw an
      error the rule retries, and resolves to, or throws, exactly what that callback produced. */
  lemma {:induction false} HealthyOutcome<T, R>(pool: Option<Pool<R>>, callback: nat -> Outcome<T>, depth: nat)
    requires Healthy(pool)
    ensures var run := Transaction(pool, callback, depth);
      && run.attempts >= 1
      && (forall d :: depth <= d < depth + run.attempts - 1 ==>
            callback(d).Err? && Retries(callback(d).error, d))
      && !(callback(depth + run.attempts - 1).Err? &&
           Retries(callback(depth + run.attempts - 1).error, depth + run.attempts - 1))
      && run.outcome == callback(depth + run.attempts - 1)
    decreases MaxSerializationRetryDepth + 1 - depth
  {
    RetriesJustified(pool, callback, depth);
    HealthyStep(pool, callback, depth);
    if callback(depth).Err? && Retries(callback(depth).error, depth) {
      HealthyOutcome(pool, callback, depth + 1);
    }
  }

  /** With a healthy pool the log is one BEGIN/ROLLBACK pair per retried attempt, followed by
      BEGIN and then COMMIT or ROLLBACK for the last attempt, as its outcome says. */
  lemma {:induction false} HealthyLog<T, R>(pool: Option<Pool<R>>, callback: nat -> Outcome<T>, depth: nat)
    requires Healthy(pool)
    ensures var run := Transaction(pool, callback, depth);
      run.attempts >= 1 && run.log == AttemptsLog(run.attempts, run.outcome.Ok?)
    decreases MaxSerializationRetryDepth + 1 - depth
  {
    HealthyStep(pool, callback, depth);
    if callback(depth).Err? && Retries(callback(depth).error, depth) {
      var next := Transaction(pool, callback, depth + 1);
      HealthyLog(pool, callback, depth + 1);
      assert AttemptsLog(1 + next.attempts, next.outcome.Ok?)
          == [Begin, Rollback] + AttemptsLog(next.attempts, next.outcome.Ok?);
    }
  }

  /** With a healthy pool the run is fixed by the callback alone: it retries exactly as long as
      the callback throws errors the rule retries, and the first other outcome is the final one. */
  lemma HealthyRun<T, R>(pool: Option<Pool<R>>, callback: nat -> Outcome<T>, depth: nat)
    requires Healthy(pool)
    ensures var run := Transaction(pool, callback, depth);
      && run.attempts >= 1
      && (forall d :: depth <= d < depth + run.attempts - 1 ==>
            callback(d).Err? && Retries(callback(d).error, d))
      && !(callback(depth + run.attempts - 1).Err? &&
           Retries(callback(depth + run.attempts - 1).error, depth + run.attempts - 1))
      && run.outcome == callback(depth + run.attempts - 1)
      && run.log == AttemptsLog(run.attempts, run.outcome.Ok?)
  {
    HealthyOutcome(pool, callback, depth);
    HealthyLog(pool, callback, depth);
  }

  /** A callback whose first attempt succeeds is committed once and never rolled back. */
  lemma FirstAttemptSucceeds<T, R>(pool: Option<Pool<R>>, callback: nat -> Outcome<T>)
    requires Healthy(pool)
    requires callback(0).Ok?
    ensures Transaction(pool, callback, 0) == Run([Begin, Commit], 1, callback(0))
  {
    HealthyStep(pool, callback, 0);
  }

  /** A serialization failure at `depth` is retried exactly when `depth <= 10`. */
  lemma SerializationFailureRetriedIff<T, R>(pool: Option<Pool<R>>, callback: nat -> Outcome<T>, depth: nat)
    requires Healthy(pool)
    requires callback(depth).Err? && callback(depth).error.code == Some(SerializationFailure)
    ensures Transaction(pool, callback, depth).attempts > 1 <==> depth <= 10
  {
    HealthyStep(pool, callback, depth);
    HealthyOutcome(pool, callback, depth + 1);
  }

  /** A unique violation at `depth` is retried exactly when `depth == 0`. */
  lemma UniqueViolationRetriedIff<T, R>(pool: Option<Pool<R>>, callback: nat -> Outcome<T>, depth: nat)
    requires Healthy(pool)
    requires callback(depth).Err? && callback(depth).error.code == Some(UniqueViolation)
    ensures Transaction(pool, callback, depth).attempts > 1 <==> depth == 0
  {
    HealthyStep(pool, callback, depth);
    HealthyOutcome(pool, callback, depth + 1);
  }

  /** Any other error is rethrown unchanged after a single rolled-back attempt. */
  lemma OtherErrorRethrown<T, R>(pool: Option<Pool<R>>, callback: nat -> Outcome<T>, depth: nat)
    requires Healthy(pool)
    requires callback(depth).Err?
    requires callback(depth).error.code != Some(SerializationFailure)
    requires callback(depth).error.code != Some(UniqueViolation)
    ensures Transaction(pool, callback, depth) == Run([Begin, Rollback], 1, callback(depth))
  {
    HealthyStep(pool, callback, depth);
  }

  /** A callback that always throws a serialization failure is attempted at every depth from
      `depth` to 11, and the error of the attempt at depth 11 is rethrown. */
  lemma {:induction false} AlwaysSerializationFailure<T, R>(pool: Option<Pool<R>>, callback: nat -> Outcome<T>, depth: nat)
    requires Healthy(pool)
    requires depth <= 11
    requires forall d :: callback(d).Err? && callback(d).error.code == Some(SerializationFailure)
    ensures var run := Transaction(pool, callback, depth);
      && run.attempts == 12 - depth
      && run.outcome == callback(11)
      && run.log == AttemptsLog(12 - depth, false)
    decreases MaxSerializationRetryDepth + 1 - depth
  {
    HealthyStep(pool, callback, depth);
    if depth <= 10 {
      AlwaysSerializationFailure(pool, callback, depth + 1);
    }
  }

  /** From the caller's `transaction(callback)`: 12 attempts, then the same error is rethrown. */
  lemma TwelveAttempts<T, R>(pool: Option<Pool<R>>, callback: nat -> Outcome<T>, e: Error)
    requires Healthy(pool)
    requires e.code == Some(SerializationFailure)
    requires forall d :: callback(d) == Err(e)
    ensures var run := Transaction(pool, callback, 0);
      run.attempts == 12 && run.outcome == Err(e) && run.log == AttemptsLog(12, false)
  {
    AlwaysSerializationFailure(pool, callback, 0);
  }

  /** A callback that always throws a unique violation is attempted twice, and the error of
      the second attempt is rethrown. */
  lemma AlwaysUniqueViolation<T, R>(pool: Option<Pool<R>>, callback: nat -> Outcome<T>)
    requires Healthy(pool)
    requires forall d :: callback(d).Err? && callback(d).error.code == Some(UniqueViolation)
    ensures var run := Transaction(pool, callback, 0);
      run.attempts == 2 && run.outcome == callback(1) && run.log == AttemptsLog(2, false)
  {
    HealthyStep(pool, callback, 0);
    HealthyStep(pool, callback, 1);
  }

  /** What a run entered at `depth` does depends only on the callback's outcomes from `depth` on. */
  lemma {:induction false} TransactionDependsOnlyFromDepth<T, R>(
    pool: Option<Pool<R>>, f: nat -> Outcome<T>, g: nat -> Outcome<T>, depth: nat)
    requires forall d :: d >= depth ==> f(d) == g(d)
    ensures Transaction(pool, f, depth) == Transaction(pool, g, depth)
    decreases MaxSerializationRetryDepth + 1 - depth
  {
    assert Attempt(pool, f, depth) == Attempt(pool, g, depth);
    if Attempt(pool, f, depth).Retry? {
      TransactionDependsOnlyFromDepth(pool, f, g, depth + 1);
    }
  }

  /** The two retry limits are independent: a unique violation at depth 0 followed by
      serialization failures still reaches depth 11, for 12 attempts in all. */
  lemma UniqueViolationThenSerializationFailures<T, R>(pool: Option<Pool<R>>, callback: nat -> Outcome<T>)
    requires Healthy(pool)
    requires callback(0).Err? && callback(0).error.code == Some(UniqueViolation)
    requires forall d :: d >= 1 ==> callback(d).Err? && callback(d).error.code == Some(SerializationFailure)
    ensures var run := Transaction(pool, callback, 0);
      run.attempts == 12 && run.outcome == callback(11)
  {
    var shifted: nat -> Outcome<T> := (d: nat) => if d == 0 then callback(1) else callback(d);
    AlwaysSerializationFailure(pool, shifted, 1);
    TransactionDependsOnlyFromDepth(pool, shifted, callback, 1);
    HealthyStep(pool, callback, 0);
  }

  /** Unlike `query`, `transaction` does not guard against a missing driver: it fails on the
      null pool before any statement is issued or the callback is invoked, with another error. */
  lemma TransactionWithoutPool<T, R>(callback: nat -> Outcome<T>, depth: nat)
    ensures var run := Transaction<T, R>(None, callback, depth);
      run.log == [] && run.attempts == 0 && run.outcome == Err(NullPoolError) && run.outcome != Err(NotInstalledError)
  {
  }

  /** A summary of `Query`'s contract: a query fails exactly when the driver is missing or
      `pool.query` throws, and a driver error is rethrown with its message and without its code. */
  lemma QueryFailsIff<R>(pool: Option<Pool<R>>, request: Request)
    ensures var r := Query(pool, request);
      && (r.Err? <==> pool.None? || pool.value.query(request).Failed?)
      && (r.Err? && pool.Some? ==> r.error == Error(None, pool.value.query(request).error.message))
  {
  }
}
