/**
 * The hosting-API client of server/services/github.js: the page loop of
 * `getUserRepositories`, the fallbacks of `getRepositoryLanguages`,
 * `getRepositoryTopics` and `getRateLimit`, and the slicing of
 * `batchFetchRepositories`. Every remote call is given as its answer: a
 * sequence of page responses, a per-repository outcome, a rate-limit reading.
 */
module GitHub {

  import opened Wrappers

  // ---------------------------------------------------------------- pagination

  /** `perPage` when the option is not given. */
  const DefaultPerPage: nat := 100

  /** A response that ends the page loop: an error, or a page shorter than `perPage`. */
  predicate IsStop<R, E>(response: Result<seq<R>, E>, perPage: nat)
  {
    response.Failure? || |response.value| < perPage
  }

  /** The server eventually answers with an error or a short page. */
  ghost predicate HasStop<R, E>(pages: seq<Result<seq<R>, E>>, perPage: nat)
  {
    exists k :: 0 <= k < |pages| && IsStop(pages[k], perPage)
  }

  /** The position of the first stopping response. */
  function FirstStop<R, E>(pages: seq<Result<seq<R>, E>>, perPage: nat): nat
  {
    if pages == [] || IsStop(pages[0], perPage) then 0 else 1 + FirstStop(pages[1..], perPage)
  }

  lemma {:induction false} FirstStopIsFirst<R, E>(pages: seq<Result<seq<R>, E>>, perPage: nat)
    requires HasStop(pages, perPage)
    ensures FirstStop(pages, perPage) < |pages|
    ensures IsStop(pages[FirstStop(pages, perPage)], perPage)
    ensures forall j :: 0 <= j < FirstStop(pages, perPage) ==> !IsStop(pages[j], perPage)
  {
    if !IsStop(pages[0], perPage) {
      var k :| 0 <= k < |pages| && IsStop(pages[k], perPage);
      assert IsStop(pages[1..][k - 1], perPage);
      FirstStopIsFirst(pages[1..], perPage);
    }
  }

  /** `xs` followed by a listing, keeping a failure as it is. */
  function Prepend<R, E>(xs: seq<R>, r: Result<seq<R>, E>): Result<seq<R>, E>
  {
    match r
    case Success(v) => Success(xs + v)
    case Failure(e) => Failure(e)
  }

  /** What `getUserRepositories` returns when page `k + 1` is answered by `pages[k]`. */
  function Listing<R, E>(pages: seq<Result<seq<R>, E>>, perPage: nat): Result<seq<R>, E>
  {
    if pages == [] then Success([])
    else match pages[0]
      case Failure(e) => Failure(e)
      case Success(d) => if |d| < perPage then Success(d) else Prepend(d, Listing(pages[1..], perPage))
  }

  /** The repositories of the successful pages, in page order. */
  function Concat<R, E>(pages: seq<Result<seq<R>, E>>): seq<R>
  {
    if pages == [] then []
    else (if pages[0].Success? then pages[0].value else []) + Concat(pages[1..])
  }

  /**
   * `getUserRepositories`: request pages 1, 2, … until a page comes back
   * shorter than `perPage`; an error is rethrown. Returns the listing and the
   * number of requests made.
   */
  method GetUserRepositories<R, E>(pages: seq<Result<seq<R>, E>>, perPage: nat)
    returns (result: Result<seq<R>, E>, requests: nat)
    requires HasStop(pages, perPage)
    ensures result == Listing(pages, perPage)
    ensures requests == FirstStop(pages, perPage) + 1
  {
    FirstStopIsFirst(pages, perPage);
    assert pages[0..] == pages;
    PrependNothing(Listing(pages, perPage));
    var repos: seq<R> := [];
    var page: nat := 1;
    var hasMore := true;
    requests := 0;
    result := Success([]);
    while hasMore
      invariant 1 <= page
      invariant hasMore ==> page - 1 <= FirstStop(pages, perPage) && requests == page - 1
      invariant hasMore ==> Listing(pages, perPage) == Prepend(repos, Listing(pages[page - 1..], perPage))
      invariant !hasMore ==> result == Listing(pages, perPage) && requests == FirstStop(pages, perPage) + 1
      decreases if hasMore then FirstStop(pages, perPage) + 2 - page else 0
    {
      var response := pages[page - 1];
      requests := requests + 1;
      if response.Failure? {
        result := Failure(response.error);
        return;
      }
      assert Listing(pages[page - 1..], perPage) ==
        if |response.value| < perPage then Success(response.value)
        else Prepend(response.value, Listing(pages[page..], perPage)) by {
        assert pages[page - 1..][1..] == pages[page..];
      }
      PrependTwice(repos, response.value, Listing(pages[page..], perPage));
      repos := repos + response.value;
      if |response.value| < perPage {
        hasMore := false;
        result := Success(repos);
      } else {
        page := page + 1;
      }
    }
  }

  lemma PrependNothing<R, E>(r: Result<seq<R>, E>)
    ensures Prepend([], r) == r
  {
    if r.Success? {
      assert [] + r.value == r.value;
    }
  }

  lemma PrependTwice<R, E>(xs: seq<R>, ys: seq<R>, r: Result<seq<R>, E>)
    ensures Prepend(xs, Prepend(ys, r)) == Prepend(xs + ys, r)
  {
    if r.Success? {
      assert xs + (ys + r.value) == (xs + ys) + r.value;
    }
  }

  /**
   * The listing is the concatenation, in page order, of every page up to and
   * including the first short one; if a request fails first, that error is the
   * result.
   */
  lemma {:induction false} ListingConcatenatesPages<R, E>(pages: seq<Result<seq<R>, E>>, perPage: nat)
    requires HasStop(pages, perPage)
    ensures var f := FirstStop(pages, perPage);
      f < |pages|
      && Listing(pages, perPage) ==
           if pages[f].Failure? then Failure(pages[f].error) else Success(Concat(pages[..f + 1]))
  {
    FirstStopIsFirst(pages, perPage);
    if !IsStop(pages[0], perPage) {
      FirstStopIsFirst(pages[1..], perPage);
      ListingConcatenatesPages(pages[1..], perPage);
      assert pages[..FirstStop(pages, perPage) + 1][1..] == pages[1..][..FirstStop(pages[1..], perPage) + 1];
    } else if pages[0].Success? {
      assert pages[..1][1..] == [];
      assert Concat(pages[..1]) == pages[0].value + Concat(pages[..1][1..]);
      assert Concat(pages[..1]) == pages[0].value;
    }
  }

  // ---------------------------------------------------------------- languages and topics

  /**
   * A language's share: `Share(p)` stands for `(p).toFixed(2)` (a string), and
   * `NoShare` for the number 0 used when the repository has no bytes at all.
   */
  datatype Percentage = Share(exact: real) | NoShare

  datatype LanguageStat = LanguageStat(name: string, bytes: nat, percentage: Percentage)

  function TotalBytes(languages: seq<(string, nat)>): nat
  {
    if languages == [] then 0 else TotalBytes(languages[..|languages| - 1]) + languages[|languages| - 1].1
  }

  /** `getRepositoryLanguages`, given the answer of the language endpoint; an error yields []. */
  function LanguageStats<E>(response: Result<seq<(string, nat)>, E>): (r: seq<LanguageStat>)
    ensures response.Failure? ==> r == []
    ensures response.Success? ==>
      && |r| == |response.value|
      && (forall i :: 0 <= i < |r| ==>
            && r[i].name == response.value[i].0
            && r[i].bytes == response.value[i].1
            && (r[i].percentage.NoShare? <==> TotalBytes(response.value) == 0))
  {
    match response
    case Failure(_) => []
    case Success(languages) =>
      var total := TotalBytes(languages);
      seq(|languages|, i requires 0 <= i < |languages| =>
        LanguageStat(languages[i].0, languages[i].1,
          if total > 0 then Share(languages[i].1 as real / total as real * 100.0) else NoShare))
  }

  function ShareSum(stats: seq<LanguageStat>): real
  {
    if stats == [] then 0.0
    else ShareSum(stats[..|stats| - 1]) + (if stats[|stats| - 1].percentage.Share? then stats[|stats| - 1].percentage.exact else 0.0)
  }

  /** Before rounding, the shares of a repository with any bytes add up to 100. */
  lemma SharesAddUpTo100(languages: seq<(string, nat)>)
    requires TotalBytes(languages) > 0
    ensures ShareSum(LanguageStats<string>(Success(languages))) == 100.0
  {
    var stats := LanguageStats<string>(Success(languages));
    var total := TotalBytes(languages);
    PartialShares(languages, stats, |languages|, total);
    assert stats[..|languages|] == stats;
    assert languages[..|languages|] == languages;
    Whole(total as real);
  }

  lemma Whole(t: real)
    requires t > 0.0
    ensures t / t * 100.0 == 100.0
  {
  }

  lemma {:induction false} PartialShares(languages: seq<(string, nat)>, stats: seq<LanguageStat>, n: nat, total: nat)
    requires n <= |languages| && total == TotalBytes(languages) && total > 0
    requires stats == LanguageStats<string>(Success(languages))
    ensures ShareSum(stats[..n]) == TotalBytes(languages[..n]) as real / total as real * 100.0
  {
    if n > 0 {
      PartialShares(languages, stats, n - 1, total);
      assert stats[..n][..n - 1] == stats[..n - 1];
      assert languages[..n][..n - 1] == languages[..n - 1];
      assert stats[n - 1].percentage == Share(languages[n - 1].1 as real / total as real * 100.0);
      SplitShare(TotalBytes(languages[..n - 1]) as real, languages[n - 1].1 as real, total as real);
    } else {
      assert languages[..0] == [];
      assert stats[..0] == [];
    }
  }

  lemma SplitShare(t: real, b: real, total: real)
    requires total > 0.0
    ensures (t + b) / total * 100.0 == t / total * 100.0 + b / total * 100.0
  {
  }

  /** `getRepositoryTopics`: the `names` list, or [] when it is missing or the call fails. */
  function Topics<E>(response: Result<Option<seq<string>>, E>): (r: seq<string>)
    ensures response.Success? && response.value.Some? ==> r == response.value.value
    ensures response.Failure? || response.value.None? ==> r == []
  {
    match response
    case Success(Some(names)) => names
    case _ => []
  }

  // ---------------------------------------------------------------- batches

  /** One entry of the batch result: `data` on success, `error` on rejection. */
  datatype BatchResult<R, D, E> = BatchResult(repo: R, data: Option<D>, error: Option<E>)

  /** What `batchFetchRepositories` does after reading the rate limit. */
  datatype RateAction = Proceed | Warn(remaining: int) | WarnAndWait(remaining: int)

  function Settle<R, D, E>(repo: R, outcome: Result<D, E>): (b: BatchResult<R, D, E>)
    ensures b.repo == repo
    ensures b.data.Some? <==> outcome.Success?
    ensures b.error.Some? <==> outcome.Failure?
  {
    match outcome
    case Success(d) => BatchResult(repo, Some(d), None)
    case Failure(e) => BatchResult(repo, None, Some(e))
  }

  /** The reaction to a rate-limit reading; `None` is the `null` returned when the reading fails. */
  function Reaction(rateLimit: Option<int>): (a: RateAction)
    ensures a.WarnAndWait? <==> rateLimit.Some? && rateLimit.value < 10
    ensures a.Proceed? <==> rateLimit.None? || rateLimit.value >= 100
  {
    if rateLimit.Some? && rateLimit.value < 100 then
      if rateLimit.value < 10 then WarnAndWait(rateLimit.value) else Warn(rateLimit.value)
    else Proceed
  }

  function Flatten<T>(batches: seq<seq<T>>): seq<T>
  {
    if batches == [] then [] else Flatten(batches[..|batches| - 1]) + batches[|batches| - 1]
  }

  function Min(a: int, b: int): int { if a <= b then a else b }

  /**
   * `batchFetchRepositories`: take the repositories in consecutive slices of
   * `batchSize`, settle each slice's fetches, and read the rate limit after
   * every slice. `outcomes[k]` is what fetching `repos[k]` settles to and
   * `rateAfter(b)` the rate-limit reading after slice `b`.
   */
  method BatchFetchRepositories<R, D, E>(
    repos: seq<R>, batchSize: nat, outcomes: seq<Result<D, E>>, rateAfter: nat -> Option<int>)
    returns (results: seq<BatchResult<R, D, E>>, batches: seq<seq<R>>, actions: seq<RateAction>)
    requires batchSize > 0 && |outcomes| == |repos|
    ensures |results| == |repos|
    ensures forall k :: 0 <= k < |repos| ==> results[k] == Settle(repos[k], outcomes[k])
    ensures Flatten(batches) == repos
    ensures forall b :: 0 <= b < |batches| ==>
      0 < |batches[b]| <= batchSize && (b < |batches| - 1 ==> |batches[b]| == batchSize)
    ensures |actions| == |batches|
    ensures forall b :: 0 <= b < |actions| ==> actions[b] == Reaction(rateAfter(b))
  {
    results := [];
    batches := [];
    actions := [];
    var i := 0;
    ghost var done := 0;
    while i < |repos|
      invariant done == Min(i, |repos|)
      invariant Fetched(repos, outcomes, batchSize, rateAfter, done, results, batches, actions)
      decreases |repos| - i
    {
      assert done == i;
      var end := Min(i + batchSize, |repos|);
      var batch := repos[i..end];
      var settled := Settlements(batch, outcomes[i..end]);
      var action := Reaction(rateAfter(|batches|));
      FetchStep(repos, outcomes, batchSize, rateAfter, done, results, batches, actions);
      results, batches, actions := results + settled, batches + [batch], actions + [action];
      i := i + batchSize;
      done := end;
    }
    FetchedAll(repos, outcomes, batchSize, rateAfter, results, batches, actions);
  }

  /** Once every repository is fetched, the loop state is the method's postcondition. */
  lemma FetchedAll<R, D, E>(
    repos: seq<R>, outcomes: seq<Result<D, E>>, batchSize: nat, rateAfter: nat -> Option<int>,
    results: seq<BatchResult<R, D, E>>, batches: seq<seq<R>>, actions: seq<RateAction>)
    requires Fetched(repos, outcomes, batchSize, rateAfter, |repos|, results, batches, actions)
    ensures |results| == |repos|
    ensures forall k :: 0 <= k < |repos| ==> results[k] == Settle(repos[k], outcomes[k])
    ensures Flatten(batches) == repos
    ensures Cut(batches, batchSize)
    ensures |actions| == |batches| && Reacted(actions, rateAfter)
  {
    assert repos[..|repos|] == repos;
  }

  /** The loop state after the first `done` repositories have been fetched. */
  ghost predicate Fetched<R, D, E>(
    repos: seq<R>, outcomes: seq<Result<D, E>>, batchSize: nat, rateAfter: nat -> Option<int>, done: nat,
    results: seq<BatchResult<R, D, E>>, batches: seq<seq<R>>, actions: seq<RateAction>)
  {
    done <= |repos| == |outcomes| &&
    |results| == done && Flatten(batches) == repos[..done] &&
    Settled(results, repos, outcomes) &&
    Cut(batches, batchSize) &&
    (done < |repos| && |batches| > 0 ==> |batches[|batches| - 1]| == batchSize) &&
    |actions| == |batches| && Reacted(actions, rateAfter)
  }

  /** One batch fetched: the next slice of at most `batchSize` repositories is settled and recorded. */
  lemma FetchStep<R, D, E>(
    repos: seq<R>, outcomes: seq<Result<D, E>>, batchSize: nat, rateAfter: nat -> Option<int>, done: nat,
    results: seq<BatchResult<R, D, E>>, batches: seq<seq<R>>, actions: seq<RateAction>)
    requires batchSize > 0 && done < |repos|
    requires Fetched(repos, outcomes, batchSize, rateAfter, done, results, batches, actions)
    ensures var end := Min(done + batchSize, |repos|);
      Fetched(repos, outcomes, batchSize, rateAfter, end,
        results + Settlements(repos[done..end], outcomes[done..end]),
        batches + [repos[done..end]],
        actions + [Reaction(rateAfter(|batches|))])
  {
    var end := Min(done + batchSize, |repos|);
    var batch := repos[done..end];
    SettledExtend(repos, outcomes, results, done, end, Settlements(batch, outcomes[done..end]));
    FlattenAppend(batches, batch);
    PrefixExtend(repos, done, end);
    CutExtend(batches, batch, batchSize);
    ReactedExtend(actions, rateAfter);
  }

  lemma FlattenAppend<T>(batches: seq<seq<T>>, batch: seq<T>)
    ensures Flatten(batches + [batch]) == Flatten(batches) + batch
  {
    assert (batches + [batch])[..|batches|] == batches;
  }

  lemma SettledExtend<R, D, E>(
    repos: seq<R>, outcomes: seq<Result<D, E>>, results: seq<BatchResult<R, D, E>>, i: nat, end: nat,
    settled: seq<BatchResult<R, D, E>>)
    requires i <= end <= |repos| == |outcomes| && |results| == i
    requires Settled(results, repos, outcomes)
    requires settled == Settlements(repos[i..end], outcomes[i..end])
    ensures Settled(results + settled, repos, outcomes)
  {
    forall k | 0 <= k < end
      ensures (results + settled)[k] == Settle(repos[k], outcomes[k])
    {
      if k >= i {
        assert repos[i..end][k - i] == repos[k] && outcomes[i..end][k - i] == outcomes[k];
      }
    }
  }

  /** Every batch is non-empty and at most `size` long, and all but the last are exactly `size` long. */
  ghost predicate Cut<T>(batches: seq<seq<T>>, size: nat)
  {
    forall b :: 0 <= b < |batches| ==> 0 < |batches[b]| <= size && (b < |batches| - 1 ==> |batches[b]| == size)
  }

  lemma CutExtend<T>(batches: seq<seq<T>>, batch: seq<T>, size: nat)
    requires Cut(batches, size) && 0 < |batch| <= size
    requires |batches| > 0 ==> |batches[|batches| - 1]| == size
    ensures Cut(batches + [batch], size)
  {
  }

  /** Action `b` is the reaction to the rate-limit reading after batch `b`. */
  ghost predicate Reacted(actions: seq<RateAction>, rateAfter: nat -> Option<int>)
  {
    forall b :: 0 <= b < |actions| ==> actions[b] == Reaction(rateAfter(b))
  }

  /** Each result is the settlement of the repository at its position. */
  ghost predicate Settled<R, D, E>(results: seq<BatchResult<R, D, E>>, repos: seq<R>, outcomes: seq<Result<D, E>>)
  {
    |results| <= |repos| && |results| <= |outcomes| &&
    forall k :: 0 <= k < |results| ==> results[k] == Settle(repos[k], outcomes[k])
  }

  /** The settled results of one batch: the fetch of `batch[k]` settled to `outcomes[k]`. */
  function Settlements<R, D, E>(batch: seq<R>, outcomes: seq<Result<D, E>>): (r: seq<BatchResult<R, D, E>>)
    requires |outcomes| == |batch|
    ensures |r| == |batch|
    ensures forall k :: 0 <= k < |batch| ==> r[k] == Settle(batch[k], outcomes[k])
  {
    seq(|batch|, k requires 0 <= k < |batch| => Settle(batch[k], outcomes[k]))
  }

  lemma PrefixExtend<T>(s: seq<T>, i: nat, end: nat)
    requires i <= end <= |s|
    ensures s[..end] == s[..i] + s[i..end]
  {
  }

  lemma ReactedExtend(actions: seq<RateAction>, rateAfter: nat -> Option<int>)
    requires Reacted(actions, rateAfter)
    ensures Reacted(actions + [Reaction(rateAfter(|actions|))], rateAfter)
  {
  }
}
