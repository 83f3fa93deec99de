/**
 * The sync pipeline of server/services/syncWorker.js: the ordered writes of
 * `syncSingleRepository` inside one transaction, and the bookkeeping of
 * `syncRepositoriesBackground` (success counter, checkpoints every ten
 * successes, terminal job-row writes). Collaborators are given as their
 * answers: the listing, each repository's sync outcome, and the error (if
 * any) of each job-row write.
 */
module SyncWorker {

  import opened Wrappers
  import opened Js
  import Ontology
  import Embeddings
  import GitHub
  import Database

  // ---------------------------------------------------------------- one repository

  /** A repository as the hosting API lists it (the fields the pipeline reads). */
  datatype ApiRepo = ApiRepo(
    id: int,
    name: string,
    fullName: string,
    description: Ontology.Description,
    language: Option<string>,
    stargazersCount: nat,
    forksCount: nat,
    watchersCount: nat,
    watchers: nat,
    openIssues: nat,
    size: nat,
    daysSincePush: Option<real>)

  /** A bound parameter of the language insert. */
  datatype Param = Id(id: int) | Name(name: string) | Bytes(bytes: nat) | Percent(percentage: GitHub.Percentage)

  /** The statements the transaction callback sends, in the order it sends them. */
  datatype Statement =
    | UpsertRepository(userId: int, githubId: int, topics: seq<string>)
    | DeleteLanguages(repositoryId: int)
    | InsertLanguages(placeholders: seq<(nat, nat, nat)>, params: seq<Param>)
    | UpsertCategory(repositoryId: int, analysis: Ontology.Analysis)
    | UpsertEmbedding(repositoryId: int, model: string, vector: seq<real>)
    | InsertStarHistory(repositoryId: int, starCount: nat)

  /** The `($1, $a, $b, $c)` groups of the language insert: group `idx` uses `3·idx + 2 … 3·idx + 4`. */
  function Placeholders(n: nat): (ps: seq<(nat, nat, nat)>)
    ensures |ps| == n
  {
    seq(n, idx requires 0 <= idx < n => (idx * 3 + 2, idx * 3 + 3, idx * 3 + 4))
  }

  /** The parameters of the language insert: the repository id, then name, bytes, percentage per language. */
  function LanguageParams(repositoryId: int, languages: seq<GitHub.LanguageStat>): (ps: seq<Param>)
    ensures |ps| == 1 + 3 * |languages|
  {
    if languages == [] then [Id(repositoryId)]
    else
      var l := languages[|languages| - 1];
      LanguageParams(repositoryId, languages[..|languages| - 1]) + [Name(l.name), Bytes(l.bytes), Percent(l.percentage)]
  }

  /** The `params.push(...)` loop of the language insert. */
  method BuildLanguageParams(repositoryId: int, languages: seq<GitHub.LanguageStat>) returns (params: seq<Param>)
    ensures params == LanguageParams(repositoryId, languages)
  {
    params := [Id(repositoryId)];
    for i := 0 to |languages|
      invariant params == LanguageParams(repositoryId, languages[..i])
    {
      assert languages[..i + 1][..i] == languages[..i];
      params := params + [Name(languages[i].name), Bytes(languages[i].bytes), Percent(languages[i].percentage)];
    }
    assert languages[..|languages|] == languages;
  }

  /**
   * Every placeholder of the language insert names the parameter it should:
   * `$1` is the repository id and group `idx` reads language `idx`'s name,
   * bytes and percentage; the last placeholder is `$(3n + 1)`, the number of
   * parameters.
   */
  lemma PlaceholdersLineUp(repositoryId: int, languages: seq<GitHub.LanguageStat>)
    ensures var params := LanguageParams(repositoryId, languages);
      var ps := Placeholders(|languages|);
      && params[0] == Id(repositoryId)
      && (forall idx :: 0 <= idx < |languages| ==>
            && params[ps[idx].0 - 1] == Name(languages[idx].name)
            && params[ps[idx].1 - 1] == Bytes(languages[idx].bytes)
            && params[ps[idx].2 - 1] == Percent(languages[idx].percentage))
      && (|languages| > 0 ==> ps[|languages| - 1].2 == |params|)
  {
    var params := LanguageParams(repositoryId, languages);
    forall idx | 0 <= idx < |languages|
      ensures params[idx * 3 + 1] == Name(languages[idx].name)
      ensures params[idx * 3 + 2] == Bytes(languages[idx].bytes)
      ensures params[idx * 3 + 3] == Percent(languages[idx].percentage)
    {
      ParamsOfLanguage(repositoryId, languages, idx);
    }
    FirstParam(repositoryId, languages);
  }

  lemma {:induction false} FirstParam(repositoryId: int, languages: seq<GitHub.LanguageStat>)
    ensures LanguageParams(repositoryId, languages)[0] == Id(repositoryId)
  {
    if languages != [] {
      FirstParam(repositoryId, languages[..|languages| - 1]);
    }
  }

  lemma {:induction false} ParamsOfLanguage(repositoryId: int, languages: seq<GitHub.LanguageStat>, idx: nat)
    requires idx < |languages|
    ensures var params := LanguageParams(repositoryId, languages);
      && params[idx * 3 + 1] == Name(languages[idx].name)
      && params[idx * 3 + 2] == Bytes(languages[idx].bytes)
      && params[idx * 3 + 3] == Percent(languages[idx].percentage)
  {
    var init := languages[..|languages| - 1];
    if idx < |init| {
      ParamsOfLanguage(repositoryId, init, idx);
      assert languages[idx] == init[idx];
    }
  }

  /** The repository as `analyzeRepository` sees it: `primary_language`, `topics` and `size_kb` are filled in, `stars` is absent. */
  function OntologyView(repo: ApiRepo, topics: seq<string>): Ontology.Repo
  {
    Ontology.Repo(repo.name, repo.description, topics, repo.language, repo.size, 0,
                  repo.forksCount, repo.openIssues, repo.watchers, repo.daysSincePush)
  }

  /** The repository as the palette sees it: no `stars`, `category`, `priority` or `is_fork` field. */
  function FeatureView(repo: ApiRepo, topics: seq<string>): Embeddings.FeatureRepo
  {
    Embeddings.FeatureRepo(
      Number(Finite(repo.stargazersCount as real)), Undefined,
      Number(Finite(repo.forksCount as real)), Number(Finite(repo.forksCount as real)),
      Number(Finite(repo.watchersCount as real)), Number(Finite(repo.watchers as real)),
      Number(Finite(repo.size as real)), Number(Finite(repo.size as real)),
      None, repo.language, Some(topics), Undefined, Undefined)
  }

  /** The analysis record as the palette sees it: it carries no `weights`. */
  function AnalysisView(a: Ontology.Analysis): Embeddings.FeatureAnalysis
  {
    Embeddings.FeatureAnalysis(
      Some(Ontology.CategoryName(a.category)),
      Number(Finite(a.vibeScore)),
      Number(Finite(a.complexityScore as real)),
      Number(Finite(a.installDifficulty as real)),
      Number(Finite(a.debugTimeHours as real)),
      Number(Finite(a.learningCurve as real)),
      Number(Finite(a.maintenanceLoad as real)),
      Number(Finite(a.confidence)),
      [])
  }

  /** The vector as written: a non-finite entry becomes 0 (the 6-decimal formatting is not modelled). */
  function SafeVector(v: seq<Num>): (r: seq<real>)
    ensures |r| == |v|
    ensures forall i :: 0 <= i < |v| ==> r[i] == if v[i].Finite? then v[i].r else 0.0
  {
    seq(|v|, i requires 0 <= i < |v| => if v[i].Finite? then v[i].r else 0.0)
  }

  /**
   * The statements sent before `analyzeRepository` runs: the repository
   * upsert, the language delete and, when there are languages, the insert.
   */
  function LeadingStatements(
    userId: int, repo: ApiRepo, languages: seq<GitHub.LanguageStat>, topics: seq<string>, repositoryId: int): seq<Statement>
  {
    [UpsertRepository(userId, repo.id, topics), DeleteLanguages(repositoryId)]
    + (if |languages| > 0 then [InsertLanguages(Placeholders(|languages|), LanguageParams(repositoryId, languages))] else [])
  }

  /** The statements of one repository's sync, given its analysis and the vector to store. */
  function Statements(
    userId: int, repo: ApiRepo, languages: seq<GitHub.LanguageStat>, topics: seq<string>, repositoryId: int,
    analysis: Ontology.Analysis, vector: seq<real>): seq<Statement>
  {
    LeadingStatements(userId, repo, languages, topics, repositoryId)
    + [ UpsertCategory(repositoryId, analysis),
        UpsertEmbedding(repositoryId, Embeddings.EmbeddingModel, vector),
        InsertStarHistory(repositoryId, repo.stargazersCount) ]
  }

  /** The embedding stored for a repository with this analysis. */
  function StoredVector(
    repo: ApiRepo, topics: seq<string>, analysis: Ontology.Analysis,
    ofString: string -> Num, log10: real -> real, mix: (Embeddings.Feature, nat) -> Num): seq<real>
  {
    var palette := Embeddings.BuildFeaturePalette(FeatureView(repo, topics), AnalysisView(analysis), ofString, log10);
    SafeVector(Embeddings.EmbeddingVector(palette, mix))
  }

  /**
   * The statements of the corrected callback when none of them fails: the
   * analysis treats a `null` description as missing. The sync path passes
   * no `stars`, so the vibe score's `log10(stars + 1)` is 0.
   */
  function RepositoryWrites(
    userId: int, repo: ApiRepo, languages: seq<GitHub.LanguageStat>, topics: seq<string>, repositoryId: int,
    ofString: string -> Num, log10: real -> real, mix: (Embeddings.Feature, nat) -> Num): seq<Statement>
  {
    var analysis := Ontology.AnalyzeRepositoryNullSafe(OntologyView(repo, topics), 0.0);
    Statements(userId, repo, languages, topics, repositoryId, analysis, StoredVector(repo, topics, analysis, ofString, log10, mix))
  }

  /**
   * The corrected callback's writes are the statements built from the
   * null-safe analysis, whose scores are in range, and the sanitised
   * 1536-value vector computed from exactly the 16 base features.
   */
  lemma WritesInOrder(
    userId: int, repo: ApiRepo, languages: seq<GitHub.LanguageStat>, topics: seq<string>, repositoryId: int,
    ofString: string -> Num, log10: real -> real, mix: (Embeddings.Feature, nat) -> Num)
    ensures var analysis := Ontology.AnalyzeRepositoryNullSafe(OntologyView(repo, topics), 0.0);
      var palette := Embeddings.BuildFeaturePalette(FeatureView(repo, topics), AnalysisView(analysis), ofString, log10);
      var vector := StoredVector(repo, topics, analysis, ofString, log10, mix);
      && RepositoryWrites(userId, repo, languages, topics, repositoryId, ofString, log10, mix)
           == Statements(userId, repo, languages, topics, repositoryId, analysis, vector)
      && Ontology.InRange(analysis)
      && |palette| == 16
      && |vector| == Embeddings.VectorDimension
  {
    var analysis := Ontology.AnalyzeRepositoryNullSafe(OntologyView(repo, topics), 0.0);
    Embeddings.PaletteSize(FeatureView(repo, topics), AnalysisView(analysis), ofString, log10);
  }

  /**
   * The statements come in the source's order: repository upsert, language
   * delete, the language insert only when there are languages, category
   * upsert, embedding upsert under the model name, star history.
   */
  lemma StatementsLayout(
    userId: int, repo: ApiRepo, languages: seq<GitHub.LanguageStat>, topics: seq<string>, repositoryId: int,
    analysis: Ontology.Analysis, vector: seq<real>)
    ensures var w := Statements(userId, repo, languages, topics, repositoryId, analysis, vector);
      var k := if |languages| > 0 then 3 else 2;
      && |w| == k + 3
      && w[..k] == LeadingStatements(userId, repo, languages, topics, repositoryId)
      && w[0].UpsertRepository? && w[1] == DeleteLanguages(repositoryId)
      && (|languages| > 0 ==> w[2].InsertLanguages? && |w[2].placeholders| == |languages|)
      && w[k] == UpsertCategory(repositoryId, analysis)
      && w[k + 1] == UpsertEmbedding(repositoryId, "ontology-hybrid/1", vector)
      && w[k + 2] == InsertStarHistory(repositoryId, repo.stargazersCount)
  {
  }

  /** The callback runs the statements in order and throws at the first that fails. */
  function RunUntilFailure(statements: seq<Statement>, fails: Statement -> Option<string>): (c: Database.Callback<Statement, (), string>)
    ensures c.Returns? <==> forall i :: 0 <= i < |statements| ==> fails(statements[i]).None?
    ensures c.Returns? ==> c.statements == statements
    ensures c.Throws? ==>
      && 0 < |c.statements| <= |statements|
      && c.statements == statements[..|c.statements|]
      && fails(c.statements[|c.statements| - 1]) == Some(c.error)
      && forall i :: 0 <= i < |c.statements| - 1 ==> fails(statements[i]).None?
  {
    if statements == [] then Database.Returns([], ())
    else if fails(statements[0]).Some? then Database.Throws([statements[0]], fails(statements[0]).value)
    else
      match RunUntilFailure(statements[1..], fails)
      case Returns(rest, v) => Database.Returns([statements[0]] + rest, v)
      case Throws(rest, e) => Database.Throws([statements[0]] + rest, e)
  }

  /** The message of the `TypeError` that `toLowerCase` on a `null` description throws. */
  const NullDescriptionMessage := "Cannot read properties of null (reading 'toLowerCase')"

  /**
   * The transaction callback of `syncSingleRepository` as written: the
   * leading statements run first; then `analyzeRepository`, which throws on
   * a `null` description; then the category, embedding and star-history
   * statements built from its analysis.
   */
  function SyncCallback(
    userId: int, repo: ApiRepo, languages: seq<GitHub.LanguageStat>, topics: seq<string>, repositoryId: int,
    fails: Statement -> Option<string>,
    ofString: string -> Num, log10: real -> real, mix: (Embeddings.Feature, nat) -> Num): Database.Callback<Statement, (), string>
  {
    match Ontology.AnalyzeRepository(OntologyView(repo, topics), 0.0)
    case Success(analysis) =>
      var vector := StoredVector(repo, topics, analysis, ofString, log10, mix);
      RunUntilFailure(Statements(userId, repo, languages, topics, repositoryId, analysis, vector), fails)
    case Failure(_) =>
      var leading := LeadingStatements(userId, repo, languages, topics, repositoryId);
      var run := RunUntilFailure(leading, fails);
      if run.Throws? then run else Database.Throws(leading, NullDescriptionMessage)
  }

  /** The corrected callback: every repository is analysed, a `null` description reading as empty. */
  function SyncCallbackNullSafe(
    userId: int, repo: ApiRepo, languages: seq<GitHub.LanguageStat>, topics: seq<string>, repositoryId: int,
    fails: Statement -> Option<string>,
    ofString: string -> Num, log10: real -> real, mix: (Embeddings.Feature, nat) -> Num): Database.Callback<Statement, (), string>
  {
    RunUntilFailure(RepositoryWrites(userId, repo, languages, topics, repositoryId, ofString, log10, mix), fails)
  }

  /**
   * Corrected, every repository is stored, a description-less one included:
   * when no statement fails and COMMIT succeeds, the transaction commits all
   * the writes and succeeds.
   */
  lemma NullSafeStoresEveryRepository(
    userId: int, repo: ApiRepo, languages: seq<GitHub.LanguageStat>, topics: seq<string>, repositoryId: int,
    fails: Statement -> Option<string>,
    ofString: string -> Num, log10: real -> real, mix: (Embeddings.Feature, nat) -> Num, rollback: Option<string>)
    ensures var w := RepositoryWrites(userId, repo, languages, topics, repositoryId, ofString, log10, mix);
      var callback := SyncCallbackNullSafe(userId, repo, languages, topics, repositoryId, fails, ofString, log10, mix);
      (forall i :: 0 <= i < |w| ==> fails(w[i]).None?) ==>
        && callback == Database.Returns(w, ())
        && Database.ProtocolResult(None, None, callback, None, rollback) == Success(())
        && Database.ProtocolLog(None, None, callback, None) == [Database.Begin] + Database.Runs(w) + [Database.Commit, Database.Release]
  {
    var w := RepositoryWrites(userId, repo, languages, topics, repositoryId, ofString, log10, mix);
    AllRun(w, fails, rollback);
  }

  lemma AllRun(w: seq<Statement>, fails: Statement -> Option<string>, rollback: Option<string>)
    ensures var callback := RunUntilFailure(w, fails);
      (forall i :: 0 <= i < |w| ==> fails(w[i]).None?) ==>
        && callback == Database.Returns(w, ())
        && Database.ProtocolResult(None, None, callback, None, rollback) == Success(())
        && Database.ProtocolLog(None, None, callback, None) == [Database.Begin] + Database.Runs(w) + [Database.Commit, Database.Release]
  {
  }

  /**
   * As written, a repository without a description is never stored: the
   * callback throws once the leading statements are sent (or earlier, at a
   * failing one), so a transaction that began sends one ROLLBACK and no
   * COMMIT, and fails.
   */
  lemma NullDescriptionRollsBack(
    userId: int, repo: ApiRepo, languages: seq<GitHub.LanguageStat>, topics: seq<string>, repositoryId: int,
    fails: Statement -> Option<string>,
    ofString: string -> Num, log10: real -> real, mix: (Embeddings.Feature, nat) -> Num,
    commit: Option<string>, rollback: Option<string>)
    requires repo.description.Null?
    ensures var leading := LeadingStatements(userId, repo, languages, topics, repositoryId);
      var callback := SyncCallback(userId, repo, languages, topics, repositoryId, fails, ofString, log10, mix);
      var log := Database.ProtocolLog(None, None, callback, commit);
      && callback.Throws?
      && ((forall i :: 0 <= i < |leading| ==> fails(leading[i]).None?) ==>
            callback.statements == leading && callback.error == NullDescriptionMessage)
      && Database.ProtocolResult(None, None, callback, commit, rollback).Failure?
      && Database.Count(log, Database.IsCommit) == 0
      && Database.Count(log, Database.IsRollback) == 1
  {
    var callback := SyncCallback(userId, repo, languages, topics, repositoryId, fails, ofString, log10, mix);
    assert Ontology.AnalyzeRepository(OntologyView(repo, topics), 0.0).Failure?;
    Database.CommandCounts(None, callback, commit);
  }

  /** On every repository whose description is not `null`, the corrected callback is the written one. */
  lemma CallbacksAgree(
    userId: int, repo: ApiRepo, languages: seq<GitHub.LanguageStat>, topics: seq<string>, repositoryId: int,
    fails: Statement -> Option<string>,
    ofString: string -> Num, log10: real -> real, mix: (Embeddings.Feature, nat) -> Num)
    requires !repo.description.Null?
    ensures SyncCallback(userId, repo, languages, topics, repositoryId, fails, ofString, log10, mix)
         == SyncCallbackNullSafe(userId, repo, languages, topics, repositoryId, fails, ofString, log10, mix)
  {
    var analysis := Ontology.AnalyzeRepositoryNullSafe(OntologyView(repo, topics), 0.0);
    assert Ontology.AnalyzeRepository(OntologyView(repo, topics), 0.0) == Success(analysis);
  }

  /**
   * `syncSingleRepository`: one transaction around the written callback.
   * `languagesAnswer` and `topicsAnswer` are the hosting API's answers,
   * `repositoryId` the id the upsert returns, `fails` each statement's error.
   */
  method SyncSingleRepository(
    userId: int, repo: ApiRepo,
    languagesAnswer: Result<seq<(string, nat)>, string>, topicsAnswer: Result<Option<seq<string>>, string>,
    repositoryId: int, fails: Statement -> Option<string>,
    connect: Option<string>, begin: Option<string>, commit: Option<string>, rollback: Option<string>,
    ofString: string -> Num, log10: real -> real, mix: (Embeddings.Feature, nat) -> Num)
    returns (result: Result<(), string>, log: seq<Database.Command<Statement>>)
    ensures var callback := SyncCallback(userId, repo, GitHub.LanguageStats(languagesAnswer), GitHub.Topics(topicsAnswer),
                                         repositoryId, fails, ofString, log10, mix);
      && log == Database.ProtocolLog(connect, begin, callback, commit)
      && result == Database.ProtocolResult(connect, begin, callback, commit, rollback)
  {
    var languages := GitHub.LanguageStats(languagesAnswer);
    var topics := GitHub.Topics(topicsAnswer);
    var callback := SyncCallback(userId, repo, languages, topics, repositoryId, fails, ofString, log10, mix);
    result, log := Database.Transaction(connect, begin, callback, commit, rollback);
  }

  // ---------------------------------------------------------------- background job

  /** A write to the job's row in `sync_jobs`, or to the user's row. */
  datatype JobWrite =
    | TotalRepos(count: nat)
    | ReposSynced(count: nat)
    | Completed(count: nat)
    | UserLastSynced
    | Failed(message: string)

  /** How many repository syncs passed. */
  function Passes(outcomes: seq<Outcome<string>>): nat
  {
    if outcomes == [] then 0 else Passes(outcomes[..|outcomes| - 1]) + (if outcomes[|outcomes| - 1].Pass? then 1 else 0)
  }

  /** The checkpoint writes made while counting up to `synced`: 10, 20, … */
  function Checkpoints(synced: nat): (cs: seq<JobWrite>)
    ensures |cs| == synced / 10
  {
    seq(synced / 10, j requires 0 <= j < synced / 10 => ReposSynced(10 * (j + 1)))
  }

  /**
   * The writes `syncRepositoriesBackground` sends, given the listing, each
   * repository's sync outcome and the error (if any) of each write. A failed
   * checkpoint is caught with that repository's error and changes nothing.
   */
  function SyncLog(listing: Result<seq<string>, string>, outcomes: seq<Outcome<string>>, writeError: JobWrite -> Option<string>): seq<JobWrite>
  {
    match listing
    case Failure(e) => [Failed(e)]
    case Success(repos) =>
      var total := TotalRepos(|repos|);
      if writeError(total).Some? then [total, Failed(writeError(total).value)]
      else
        var synced := Passes(outcomes);
        var completed := Completed(synced);
        var body := [total] + Checkpoints(synced) + [completed];
        if writeError(completed).Some? then body + [Failed(writeError(completed).value)]
        else if writeError(UserLastSynced).Some? then body + [UserLastSynced, Failed(writeError(UserLastSynced).value)]
        else body + [UserLastSynced]
  }

  lemma CheckpointsStep(synced: nat)
    ensures Checkpoints(synced + 1) ==
      Checkpoints(synced) + (if (synced + 1) % 10 == 0 then [ReposSynced(synced + 1)] else [])
  {
  }

  lemma {:induction false} PassesStep(outcomes: seq<Outcome<string>>, i: nat)
    requires i < |outcomes|
    ensures Passes(outcomes[..i + 1]) == Passes(outcomes[..i]) + (if outcomes[i].Pass? then 1 else 0)
  {
    assert outcomes[..i + 1][..i] == outcomes[..i];
  }

  /**
   * `syncRepositoriesBackground`. The listing carries each repository's
   * `full_name`; `outcomes[i]` is how the sync of repository `i` ends;
   * `writeError(w)` is the error of job write `w`. Returns the writes sent,
   * the repositories handed to the single-repository sync, the counter, and
   * the error of a failed `failed` write, which nothing catches.
   */
  method SyncRepositoriesBackground(
    listing: Result<seq<string>, string>, outcomes: seq<Outcome<string>>, writeError: JobWrite -> Option<string>)
    returns (log: seq<JobWrite>, attempted: seq<string>, synced: nat, unhandled: Option<string>)
    requires listing.Success? ==> |outcomes| == |listing.value|
    ensures log == SyncLog(listing, outcomes, writeError)
    ensures listing.Success? && writeError(TotalRepos(|listing.value|)).None? ==>
      attempted == listing.value && synced == Passes(outcomes)
    ensures listing.Failure? || writeError(TotalRepos(|listing.value|)).Some? ==> attempted == [] && synced == 0
    ensures unhandled.Some? <==> log[|log| - 1].Failed? && writeError(log[|log| - 1]).Some?
    ensures unhandled.Some? ==> unhandled == writeError(log[|log| - 1])
  {
    log := [];
    attempted := [];
    synced := 0;
    unhandled := None;
    var error: Option<string> := None;
    if listing.Failure? {
      error := Some(listing.error);
    } else {
      var repos := listing.value;
      log := log + [TotalRepos(|repos|)];
      error := writeError(TotalRepos(|repos|));
      if error.None? {
        for i := 0 to |repos|
          invariant attempted == repos[..i]
          invariant synced == Passes(outcomes[..i])
          invariant log == [TotalRepos(|repos|)] + Checkpoints(synced)
        {
          attempted := attempted + [repos[i]];
          PassesStep(outcomes, i);
          if outcomes[i].Pass? {
            CheckpointsStep(synced);
            synced := synced + 1;
            if synced % 10 == 0 {
              // a failing checkpoint write is caught like a failing sync: only logged
              log := log + [ReposSynced(synced)];
            }
          }
        }
        assert outcomes[..|repos|] == outcomes;
        log := log + [Completed(synced)];
        error := writeError(Completed(synced));
        if error.None? {
          log := log + [UserLastSynced];
          error := writeError(UserLastSynced);
        }
      }
    }
    if error.Some? {
      log := log + [Failed(error.value)];
      unhandled := writeError(Failed(error.value));
    }
  }

  // ---------------------------------------------------------------- job row

  datatype Status = Running | CompletedStatus | FailedStatus

  /** The columns of the job row the worker writes. */
  datatype JobRow = JobRow(status: Status, totalRepos: Option<nat>, reposSynced: nat, errorMessage: Option<string>)

  function Apply(row: JobRow, w: JobWrite): JobRow
  {
    match w
    case TotalRepos(n) => row.(totalRepos := Some(n))
    case ReposSynced(n) => row.(reposSynced := n)
    case Completed(n) => row.(status := CompletedStatus, reposSynced := n)
    case UserLastSynced => row
    case Failed(m) => row.(status := FailedStatus, errorMessage := Some(m))
  }

  /** The row after the writes that succeeded. */
  function Replay(row: JobRow, log: seq<JobWrite>, writeError: JobWrite -> Option<string>): JobRow
  {
    if log == [] then row
    else
      var before := Replay(row, log[..|log| - 1], writeError);
      var w := log[|log| - 1];
      if writeError(w).None? then Apply(before, w) else before
  }

  lemma {:induction false} ReplayConcat(row: JobRow, a: seq<JobWrite>, b: seq<JobWrite>, writeError: JobWrite -> Option<string>)
    ensures Replay(row, a + b, writeError) == Replay(Replay(row, a, writeError), b, writeError)
  {
    if b == [] {
      assert a + b == a;
    } else {
      ReplayConcat(row, a, b[..|b| - 1], writeError);
      assert (a + b)[..|a + b| - 1] == a + b[..|b| - 1];
    }
  }

  lemma {:induction false} ReplayCheckpoints(row: JobRow, synced: nat, writeError: JobWrite -> Option<string>)
    ensures Replay(row, Checkpoints(synced), writeError).status == row.status
    ensures Replay(row, Checkpoints(synced), writeError).totalRepos == row.totalRepos
  {
    if synced / 10 > 0 {
      var cs := Checkpoints(synced);
      assert cs[..|cs| - 1] == Checkpoints(synced - 10);
      ReplayCheckpoints(row, synced - 10, writeError);
    }
  }

  /**
   * The checkpoint values are exactly the positive multiples of 10 up to the
   * final count, in increasing order.
   */
  lemma CheckpointValues(synced: nat)
    ensures forall v: nat :: ReposSynced(v) in Checkpoints(synced) <==> 0 < v <= synced && v % 10 == 0
    ensures forall i, j :: 0 <= i < j < |Checkpoints(synced)| ==> Checkpoints(synced)[i].count < Checkpoints(synced)[j].count
  {
    var cs := Checkpoints(synced);
    forall v | 0 < v <= synced && v % 10 == 0
      ensures ReposSynced(v) in cs
    {
      assert cs[v / 10 - 1] == ReposSynced(v);
    }
  }

  /** A failing listing ends the job as `failed` with the listing's error, after no repository sync. */
  lemma ListingFailureFailsJob(row: JobRow, e: string, outcomes: seq<Outcome<string>>, writeError: JobWrite -> Option<string>)
    requires writeError(Failed(e)).None?
    ensures SyncLog(Failure(e), outcomes, writeError) == [Failed(e)]
    ensures Replay(row, SyncLog(Failure(e), outcomes, writeError), writeError).status == FailedStatus
    ensures Replay(row, SyncLog(Failure(e), outcomes, writeError), writeError).errorMessage == Some(e)
  {
    assert [Failed(e)][..0] == [];
  }

  /**
   * When every write succeeds, the job ends `completed` with `total_repos` the
   * listing's length and `repos_synced` the number of syncs that passed.
   */
  lemma CleanRunCompletes(row: JobRow, repos: seq<string>, outcomes: seq<Outcome<string>>, writeError: JobWrite -> Option<string>)
    requires forall w :: writeError(w).None?
    ensures var end := Replay(row, SyncLog(Success(repos), outcomes, writeError), writeError);
      && end.status == CompletedStatus
      && end.totalRepos == Some(|repos|)
      && end.reposSynced == Passes(outcomes)
  {
    var synced := Passes(outcomes);
    var afterTotal := Replay(row, [TotalRepos(|repos|)], writeError);
    assert [TotalRepos(|repos|)][..0] == [];
    ReplayCheckpoints(afterTotal, synced, writeError);
    var log := [TotalRepos(|repos|)] + Checkpoints(synced) + [Completed(synced)] + [UserLastSynced];
    assert SyncLog(Success(repos), outcomes, writeError) == log;
    ReplayConcat(row, [TotalRepos(|repos|)], Checkpoints(synced), writeError);
    ReplayConcat(row, [TotalRepos(|repos|)] + Checkpoints(synced), [Completed(synced)], writeError);
    ReplayConcat(row, [TotalRepos(|repos|)] + Checkpoints(synced) + [Completed(synced)], [UserLastSynced], writeError);
    assert [Completed(synced)][..0] == [];
    assert [UserLastSynced][..0] == [];
  }

  /**
   * A throw from the `last_synced_at` update reaches the outer catch after
   * `completed` was written: the row ends `failed`, though its count is final.
   */
  lemma CompletedThenFailed(row: JobRow, repos: seq<string>, outcomes: seq<Outcome<string>>, writeError: JobWrite -> Option<string>, e: string)
    requires writeError(TotalRepos(|repos|)).None? && writeError(Completed(Passes(outcomes))).None?
    requires writeError(UserLastSynced) == Some(e) && writeError(Failed(e)).None?
    ensures var end := Replay(row, SyncLog(Success(repos), outcomes, writeError), writeError);
      && end.status == FailedStatus
      && end.errorMessage == Some(e)
      && end.reposSynced == Passes(outcomes)
  {
    var synced := Passes(outcomes);
    var body := [TotalRepos(|repos|)] + Checkpoints(synced) + [Completed(synced)];
    assert SyncLog(Success(repos), outcomes, writeError) == body + [UserLastSynced] + [Failed(e)];
    ReplayConcat(row, body, [UserLastSynced], writeError);
    ReplayConcat(row, body + [UserLastSynced], [Failed(e)], writeError);
    ReplayConcat(row, [TotalRepos(|repos|)] + Checkpoints(synced), [Completed(synced)], writeError);
    assert [Completed(synced)][..0] == [];
    assert [UserLastSynced][..0] == [];
    assert [Failed(e)][..0] == [];
  }

  /** Whether a checkpoint write fails has no effect on what else is written. */
  lemma CheckpointFailuresIgnored(listing: Result<seq<string>, string>, outcomes: seq<Outcome<string>>,
                                  writeError: JobWrite -> Option<string>, other: JobWrite -> Option<string>)
    requires forall w: JobWrite :: !w.ReposSynced? ==> writeError(w) == other(w)
    ensures SyncLog(listing, outcomes, writeError) == SyncLog(listing, outcomes, other)
  {
    if listing.Success? {
      assert writeError(TotalRepos(|listing.value|)) == other(TotalRepos(|listing.value|));
      assert writeError(Completed(Passes(outcomes))) == other(Completed(Passes(outcomes)));
      assert writeError(UserLastSynced) == other(UserLastSynced);
    }
  }
}
