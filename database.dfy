/**
 * The database wrapper of server/config/database.js: connection settings from
 * the environment, `query`, the BEGIN/COMMIT/ROLLBACK protocol of
 * `transaction`, and `healthCheck`. The database's answers are inputs.
 */
module Database {

  import opened Wrappers
  import opened Text

  // ---------------------------------------------------------------- configuration

  datatype Ssl = NoSsl | SslWithoutVerification

  /** The settings handed to the pool: a connection string, or separate fields. */
  datatype Config =
    | ConnectionString(url: string, ssl: Ssl)
    | Fields(host: string, port: Option<int>, database: string, user: string, password: Option<string>, ssl: Ssl)

  /** `process.env[key] || fallback`: an unset or empty variable gives the fallback. */
  function EnvOr(env: map<string, string>, key: string, fallback: string): (r: string)
    ensures key in env && env[key] != "" ==> r == env[key]
    ensures key !in env || env[key] == "" ==> r == fallback
  {
    if key in env && env[key] != "" then env[key] else fallback
  }

  /** `getDatabaseConfig()`; a port that does not parse is `None` (NaN). */
  function GetDatabaseConfig(env: map<string, string>): (c: Config)
    ensures c.ConnectionString? <==> "DATABASE_URL" in env && env["DATABASE_URL"] != ""
    ensures c.ConnectionString? ==> c.url == env["DATABASE_URL"]
    ensures c.ssl == SslWithoutVerification <==> "NODE_ENV" in env && env["NODE_ENV"] == "production"
    ensures c.Fields? ==>
      && c.host == EnvOr(env, "DB_HOST", "localhost")
      && c.port == ParseInt(EnvOr(env, "DB_PORT", "5432"), 10)
      && c.database == EnvOr(env, "DB_NAME", "reporemix")
      && c.user == EnvOr(env, "DB_USER", "postgres")
      && (c.password.Some? <==> "DB_PASSWORD" in env)
  {
    var ssl := if "NODE_ENV" in env && env["NODE_ENV"] == "production" then SslWithoutVerification else NoSsl;
    if "DATABASE_URL" in env && env["DATABASE_URL"] != "" then
      ConnectionString(env["DATABASE_URL"], ssl)
    else
      Fields(
        EnvOr(env, "DB_HOST", "localhost"),
        ParseInt(EnvOr(env, "DB_PORT", "5432"), 10),
        EnvOr(env, "DB_NAME", "reporemix"),
        EnvOr(env, "DB_USER", "postgres"),
        if "DB_PASSWORD" in env then Some(env["DB_PASSWORD"]) else None,
        ssl)
  }

  /** With nothing set, the settings are the local development defaults. */
  lemma DefaultConfig()
    ensures GetDatabaseConfig(map[]) == Fields("localhost", Some(5432), "reporemix", "postgres", None, NoSsl)
  {
    assert NatToDecimal(5432) == "5432";
    PaddedDecimalRoundTrip(5432, 0);
  }

  /** A `DB_PORT` written as a decimal numeral is read as that number. */
  lemma PortFromDecimal(env: map<string, string>, port: nat)
    requires "DATABASE_URL" !in env && "DB_PORT" in env && env["DB_PORT"] == NatToDecimal(port)
    ensures GetDatabaseConfig(env).port == Some(port)
  {
    PaddedDecimalRoundTrip(port, 0);
  }

  // ---------------------------------------------------------------- query

  /** `query(text, params)`: the database's answer, with an error rethrown unchanged. */
  function Query<R, E>(answer: Result<R, E>): (r: Result<R, E>)
    ensures r.Failure? <==> answer.Failure?
    ensures r.Failure? ==> r.error == answer.error
    ensures r.Success? ==> r.value == answer.value
  {
    answer
  }

  // ---------------------------------------------------------------- transaction

  /** What the wrapper sends on the pooled client, in order. */
  datatype Command<S> = Begin | Run(statement: S) | Commit | Rollback | Release

  /** The callback: the statements it issues on the client, then the value it returns or the error it throws. */
  datatype Callback<S, T, E> = Returns(statements: seq<S>, value: T) | Throws(statements: seq<S>, error: E)

  function Runs<S>(statements: seq<S>): (cs: seq<Command<S>>)
    ensures |cs| == |statements|
    ensures forall i :: 0 <= i < |cs| ==> cs[i] == Run(statements[i])
  {
    seq(|statements|, i requires 0 <= i < |statements| => Run(statements[i]))
  }

  /**
   * The protocol, case by case: a failed `pool.connect()` sends nothing (it is
   * outside the `try`); otherwise BEGIN, the callback's statements, and COMMIT
   * as far as each step succeeds, ROLLBACK after the first failure, and
   * `release()` last.
   */
  function ProtocolLog<S, T, E>(connect: Option<E>, begin: Option<E>, callback: Callback<S, T, E>, commit: Option<E>): seq<Command<S>>
  {
    if connect.Some? then []
    else if begin.Some? then [Begin, Rollback, Release]
    else if callback.Throws? then [Begin] + Runs(callback.statements) + [Rollback, Release]
    else if commit.Some? then [Begin] + Runs(callback.statements) + [Commit, Rollback, Release]
    else [Begin] + Runs(callback.statements) + [Commit, Release]
  }

  /**
   * The outcome: the callback's value after a successful COMMIT; otherwise the
   * first error, unless the ROLLBACK itself throws, whose error then replaces it.
   */
  function ProtocolResult<S, T, E>(connect: Option<E>, begin: Option<E>, callback: Callback<S, T, E>, commit: Option<E>, rollback: Option<E>): Result<T, E>
  {
    if connect.Some? then Failure(connect.value)
    else
      var first :=
        if begin.Some? then begin
        else if callback.Throws? then Some(callback.error)
        else commit;
      if first.None? then Success(callback.value)
      else if rollback.Some? then Failure(rollback.value)
      else Failure(first.value)
  }

  /**
   * `transaction(callback)`. `connect`, `begin`, `commit` and `rollback` are the
   * errors (if any) of `pool.connect()` and of the three control statements.
   */
  method Transaction<S, T, E>(connect: Option<E>, begin: Option<E>, callback: Callback<S, T, E>, commit: Option<E>, rollback: Option<E>)
    returns (result: Result<T, E>, log: seq<Command<S>>)
    ensures log == ProtocolLog(connect, begin, callback, commit)
    ensures result == ProtocolResult(connect, begin, callback, commit, rollback)
  {
    if connect.Some? {
      return Failure(connect.value), [];
    }
    log := [Begin];
    var failure: Option<E> := None;
    if begin.Some? {
      failure := begin;
    } else {
      log := log + Runs(callback.statements);
      if callback.Throws? {
        failure := Some(callback.error);
      } else {
        log := log + [Commit];
        if commit.Some? {
          failure := commit;
        }
      }
    }
    if failure.Some? {
      log := log + [Rollback];
      result := Failure(if rollback.Some? then rollback.value else failure.value);
    } else {
      result := Success(callback.value);
    }
    log := log + [Release];
  }

  predicate IsCommit<S>(c: Command<S>) { c.Commit? }
  predicate IsRollback<S>(c: Command<S>) { c.Rollback? }
  predicate IsRelease<S>(c: Command<S>) { c.Release? }

  /** How many commands of the log satisfy `kind`. */
  function Count<S>(log: seq<Command<S>>, kind: Command<S> -> bool): nat
  {
    if log == [] then 0 else Count(log[..|log| - 1], kind) + (if kind(log[|log| - 1]) then 1 else 0)
  }

  lemma {:induction false} CountConcat<S>(a: seq<Command<S>>, b: seq<Command<S>>, kind: Command<S> -> bool)
    ensures Count(a + b, kind) == Count(a, kind) + Count(b, kind)
  {
    if b == [] {
      assert a + b == a;
    } else {
      CountConcat(a, b[..|b| - 1], kind);
      assert (a + b)[..|a + b| - 1] == a + b[..|b| - 1];
    }
  }

  lemma {:induction false} CountRuns<S>(statements: seq<S>, kind: Command<S> -> bool)
    requires forall s :: !kind(Run(s))
    ensures Count(Runs(statements), kind) == 0
  {
    if statements != [] {
      CountRuns(statements[..|statements| - 1], kind);
      assert Runs(statements)[..|statements| - 1] == Runs(statements[..|statements| - 1]);
    }
  }

  /**
   * Once a client is acquired it is released exactly once, as the last
   * command, and BEGIN comes first; the callback's statements follow BEGIN in
   * the order issued.
   */
  lemma ReleasedExactlyOnce<S, T, E>(connect: Option<E>, begin: Option<E>, callback: Callback<S, T, E>, commit: Option<E>)
    requires connect.None?
    ensures var log := ProtocolLog(connect, begin, callback, commit);
      && |log| >= 3
      && log[0] == Begin
      && log[|log| - 1] == Release
      && Count(log, IsRelease) == 1
      && (begin.None? ==> log[1..1 + |callback.statements|] == Runs(callback.statements))
  {
    var log := ProtocolLog(connect, begin, callback, commit);
    var isRelease: Command<S> -> bool := IsRelease;
    if begin.Some? {
      assert log == [Begin] + [Rollback] + [Release];
      CountConcat([Begin], [Rollback], isRelease);
      CountConcat([Begin] + [Rollback], [Release], isRelease);
    } else {
      var runs := Runs(callback.statements);
      var tail :=
        if callback.Throws? then [Rollback, Release]
        else if commit.Some? then [Commit, Rollback, Release]
        else [Commit, Release];
      assert log == [Begin] + runs + tail;
      CountRuns(callback.statements, isRelease);
      CountConcat([Begin], runs, isRelease);
      CountConcat([Begin] + runs, tail, isRelease);
      assert Count(tail, isRelease) == 1 by {
        assert tail == tail[..|tail| - 1] + [Release];
        CountConcat(tail[..|tail| - 1], [Release], isRelease);
        if callback.Throws? {
          CountConcat([], [Rollback], isRelease);
          assert tail[..|tail| - 1] == [Rollback];
        } else if commit.Some? {
          assert tail[..|tail| - 1] == [Commit] + [Rollback];
          CountConcat([Commit], [Rollback], isRelease);
        } else {
          assert tail[..|tail| - 1] == [Commit];
        }
      }
      assert log[1..1 + |runs|] == runs;
    }
  }

  /**
   * All or nothing: the transaction succeeds exactly when COMMIT is sent and no
   * ROLLBACK follows, and then it returns the callback's value.
   */
  lemma CommitIffSuccess<S, T, E>(connect: Option<E>, begin: Option<E>, callback: Callback<S, T, E>, commit: Option<E>, rollback: Option<E>)
    ensures var log := ProtocolLog(connect, begin, callback, commit);
      var result := ProtocolResult(connect, begin, callback, commit, rollback);
      && (result.Success? <==> Count(log, IsCommit) == 1 && Count(log, IsRollback) == 0)
      && (result.Success? ==> callback.Returns? && result.value == callback.value)
      && (result.Failure? && connect.None? ==> Count(log, IsRollback) == 1)
  {
    if connect.None? {
      CommandCounts(begin, callback, commit);
    }
  }

  /** How many COMMITs and ROLLBACKs a transaction that acquired a client sends. */
  lemma CommandCounts<S, T, E>(begin: Option<E>, callback: Callback<S, T, E>, commit: Option<E>)
    ensures var log := ProtocolLog(None, begin, callback, commit);
      && Count(log, IsCommit) == (if begin.None? && callback.Returns? then 1 else 0)
      && Count(log, IsRollback) == (if begin.Some? || callback.Throws? || commit.Some? then 1 else 0)
  {
    var isCommit: Command<S> -> bool := IsCommit;
    var isRollback: Command<S> -> bool := IsRollback;
    if begin.Some? {
      var log: seq<Command<S>> := [Begin, Rollback, Release];
      assert log == [Begin] + [Rollback] + [Release];
      CountConcat([Begin], [Rollback], isCommit);
      CountConcat([Begin] + [Rollback], [Release], isCommit);
      CountConcat([Begin], [Rollback], isRollback);
      CountConcat([Begin] + [Rollback], [Release], isRollback);
    } else {
      var runs := Runs(callback.statements);
      var tail := Ending(callback, commit);
      assert ProtocolLog(None, begin, callback, commit) == [Begin] + runs + tail;
      CountRuns(callback.statements, isCommit);
      CountRuns(callback.statements, isRollback);
      CountConcat([Begin], runs, isCommit);
      CountConcat([Begin] + runs, tail, isCommit);
      CountConcat([Begin], runs, isRollback);
      CountConcat([Begin] + runs, tail, isRollback);
      EndingCounts(callback, commit);
    }
  }

  /** The commands after the callback's statements, once BEGIN succeeded. */
  function Ending<S, T, E>(callback: Callback<S, T, E>, commit: Option<E>): seq<Command<S>>
  {
    if callback.Throws? then [Rollback, Release]
    else if commit.Some? then [Commit, Rollback, Release]
    else [Commit, Release]
  }

  lemma EndingCounts<S, T, E>(callback: Callback<S, T, E>, commit: Option<E>)
    ensures Count(Ending(callback, commit), IsCommit) == (if callback.Returns? then 1 else 0)
    ensures Count(Ending(callback, commit), IsRollback) == (if callback.Throws? || commit.Some? then 1 else 0)
  {
    var isCommit: Command<S> -> bool := IsCommit;
    var isRollback: Command<S> -> bool := IsRollback;
    if callback.Throws? {
      assert Ending(callback, commit) == [Rollback] + [Release];
      CountConcat([Rollback], [Release], isCommit);
      CountConcat([Rollback], [Release], isRollback);
    } else if commit.Some? {
      assert Ending(callback, commit) == [Commit] + [Rollback] + [Release];
      CountConcat([Commit], [Rollback], isCommit);
      CountConcat([Commit] + [Rollback], [Release], isCommit);
      CountConcat([Commit], [Rollback], isRollback);
      CountConcat([Commit] + [Rollback], [Release], isRollback);
    } else {
      assert Ending(callback, commit) == [Commit] + [Release];
      CountConcat([Commit], [Release], isCommit);
      CountConcat([Commit], [Release], isRollback);
    }
  }

  /** When ROLLBACK succeeds, the error that aborted the transaction is the one rethrown. */
  lemma RollbackRethrowsFirstError<S, T, E>(begin: Option<E>, callback: Callback<S, T, E>, commit: Option<E>)
    ensures var result := ProtocolResult(None, begin, callback, commit, None);
      && (begin.Some? ==> result == Failure(begin.value))
      && (begin.None? && callback.Throws? ==> result == Failure(callback.error))
      && (begin.None? && callback.Returns? && commit.Some? ==> result == Failure(commit.value))
  {
  }

  // ---------------------------------------------------------------- health check

  datatype PoolStats = PoolStats(total: nat, idle: nat, waiting: nat)

  datatype Health = Healthy(timestamp: string, pool: PoolStats) | Unhealthy(error: string)

  const MissingRowError: string := "Cannot read properties of undefined (reading 'now')"

  /**
   * `healthCheck()`, given the answer to `SELECT NOW()` as the `now` column of
   * each row: never throws; a query error, or a missing first row, is reported
   * as unhealthy with its message.
   */
  function HealthCheck(answer: Result<seq<string>, string>, pool: PoolStats): (h: Health)
    ensures h.Healthy? <==> answer.Success? && |answer.value| > 0
    ensures h.Healthy? ==> h.timestamp == answer.value[0] && h.pool == pool
    ensures answer.Failure? ==> h == Unhealthy(answer.error)
  {
    match Query(answer)
    case Failure(message) => Unhealthy(message)
    case Success(rows) => if |rows| == 0 then Unhealthy(MissingRowError) else Healthy(rows[0], pool)
  }
}
