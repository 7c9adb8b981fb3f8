/** What a round does, told from outside: from the upstream height, the failed heights and what its reads and its fetch
    come to. */
module RoundLaws {
  import opened Common
  import opened RangeFinder
  import opened BlockBook
  import opened QueryService
  import opened Rounds
  import opened Coverage
  import opened CoverageRuns
  import opened FetchEffects
  import opened HealthyRounds
  import opened ChainIndexer

  /** Nothing stops the round before it looks for new blocks, and no read of the failed heights fails. */
  ghost predicate Unhindered(input: Input) {
    input.readable && !input.postponed && forall lo, hi :: !input.windowFails(lo, hi)
  }

  ghost predicate AllFailed(s: Book, upstream: int) {
    forall h :: s.latest < h <= upstream ==> h in s.failed
  }

  /** The end of the range reaches the newest upstream height known. */
  predicate ReachesTop(to: int, input: Input) {
    to >= input.upstream && (input.refreshed.Some? ==> to >= input.refreshed.value)
  }

  // ---- new blocks

  /** A round fetches new blocks exactly if upstream is ahead and some height up to it has not failed. */
  lemma FetchesIff(s: Book, input: Input)
    requires 0 <= s.latest && Unhindered(input)
    ensures NewRange(s, input).Range? <==> s.latest < input.upstream && !AllFailed(s, input.upstream)
  {
    if s.latest < input.upstream {
      var query := FailedQuery(s.failed, input);
      WindowsAreTruthful(s.failed, input);
      DeterminedRange(s.latest, input.upstream, query, FailedAt(s.failed));
      SearchSucceeds(s, input);
      if NewRange(s, input).NoRange? {
        forall h | s.latest < h <= input.upstream ensures h in s.failed {
          assert FailedAt(s.failed)(h);
        }
      } else {
        NewRangeFacts(s, input);
        assert NewRange(s, input).from !in s.failed;
      }
    }
  }

  lemma SearchSucceeds(s: Book, input: Input)
    requires 0 <= s.latest < input.upstream && Unhindered(input)
    ensures DetermineRange(s.latest, input.upstream, FailedQuery(s.failed, input)).Some?
  {
    var query := FailedQuery(s.failed, input);
    WindowsAreTruthful(s.failed, input);
    DeterminedRange(s.latest, input.upstream, query, FailedAt(s.failed));
    var first := s.latest + 1;
    forall from, to ensures !AsksInVain(first, query, FailedAt(s.failed), from, to) {
      assert !input.windowFails(from, to);
    }
  }

  /** A read of the failed heights that fails ends the round, and only one that nothing but failed heights precede. */
  lemma FailedReadEndsRound(s: Book, env: Env, input: Input)
    requires 0 <= s.latest < input.upstream
    requires DetermineRange(s.latest, input.upstream, FailedQuery(s.failed, input)).None?
    ensures Round(s, env, input) == s
    ensures exists from, to :: s.latest < from <= to && input.windowFails(from, to)
                               && forall h :: s.latest < h < from ==> h in s.failed
  {
    var query := FailedQuery(s.failed, input);
    WindowsAreTruthful(s.failed, input);
    DeterminedRange(s.latest, input.upstream, query, FailedAt(s.failed));
    var from, to :| AsksInVain(s.latest + 1, query, FailedAt(s.failed), from, to);
    forall h | s.latest < h < from ensures h in s.failed {
      assert FailedAt(s.failed)(h);
    }
    assert input.windowFails(from, to);
  }

  /** Nothing happens without the chain's record, while postponed, or with an endpoint more than three blocks behind. */
  lemma RoundIsIdle(s: Book, env: Env, input: Input)
    requires 0 <= s.latest && (!input.readable || input.postponed || input.upstream < s.latest - 3)
    ensures Round(s, env, input) == s
  {
  }

  // ---- the retry

  /** When a round comes to its retry. */
  ghost predicate RetryIsDue(s: Book, env: Env, input: Input)
    requires 0 <= s.latest
  {
    if input.upstream <= s.latest then input.upstream >= s.latest - 3
    else if AllFailed(s, input.upstream) then input.upstream - s.latest < 5
    else
      var r := NewRange(s, input);
      r.Range? && ReachesTop(r.to, input)
      && FetchReported(env, s.calls, Transform(input.serveNew(r.from, r.to), r.from, r.to))
  }

  /** Up to the tip, with less than five blocks to go and all of them failed, or with new blocks fetched up to the
      newest upstream height: then, and only then, a round goes on to its retry. */
  lemma RetriesIff(s: Book, env: Env, input: Input)
    requires 0 <= s.latest && Unhindered(input)
    ensures Retries(s, env, input) <==> RetryIsDue(s, env, input)
  {
    FetchesIff(s, input);
    if s.latest < input.upstream {
      SearchSucceeds(s, input);
      if NewRange(s, input).Range? {
        FetchForetold(s, env, NewAnswer(input, NewRange(s, input).from, NewRange(s, input).to), 0);
      }
    }
  }

  /** Tried less than a hundred times, the last time more than a minute ago. */
  predicate MayBeRetried(failed: map<int, FailedRow>, now: int, h: int) {
    h in failed && failed[h].retryCount < 100 && now - failed[h].lastRetry > 60
  }

  /** The greatest height that may be retried, if any. */
  ghost predicate IsNext(failed: map<int, FailedRow>, now: int, h: int) {
    MayBeRetried(failed, now, h) && forall g :: MayBeRetried(failed, now, g) ==> g <= h
  }

  /** A round retries h exactly if it comes to its retry, retries are enabled, the selection does not fail, and h is
      then the greatest height that may be retried. */
  lemma RetriedIff(s: Book, env: Env, input: Input, h: int)
    requires 0 <= s.latest && Unhindered(input) && h > 0
    ensures Selected(s, env, input) == h
       <==> && RetryIsDue(s, env, input) && input.retryEnabled && !input.selectFails
            && IsNext(BeforeRetry(s, env, input).failed, input.selectNow, h)
  {
    RetriesIff(s, env, input);
    var failed := BeforeRetry(s, env, input).failed;
    forall g ensures MayBeRetried(failed, input.selectNow, g) <==> Eligible(failed, input.selectNow, g) {
    }
    assert IsGreatestEligible(failed, input.selectNow, SelectFailed(failed, input.selectNow));
  }

  lemma CallsGrow(s: Book, env: Env, input: Input)
    requires 0 <= s.latest
    ensures s.calls <= BeforeRetry(s, env, input).calls
  {
    if NewRange(s, input).Range? {
      NewPartGrows(s, env, input);
    }
  }

  /** With a healthy database, a round that comes to its retry and is served a good block of the greatest height that
      may be retried indexes it and strikes it from the failed heights. */
  lemma RetryProgresses(s: Book, env: Env, input: Input, h: int)
    requires 0 <= s.latest && Unhindered(input) && Healthy(env, s.calls) && h > 0
    requires RetryIsDue(s, env, input) && input.retryEnabled && !input.selectFails
    requires IsNext(BeforeRetry(s, env, input).failed, input.selectNow, h)
    requires ServesGood(input.serveRetry(h, h), h, h)
    ensures h in Round(s, env, input).indexed && h !in Round(s, env, input).failed
  {
    RetriedIff(s, env, input, h);
    CallsGrow(s, env, input);
    GoodResponse(input.serveRetry(h, h), h, h);
    var before, answer := BeforeRetry(s, env, input), RetryAnswer(input, h);
    FetchForetold(before, env, answer, h);
    HealthyForetold(env, before.calls, answer, h);
  }

  /** In particular while all heights up to upstream have failed. */
  lemma StuckHeightIsRetried(s: Book, env: Env, input: Input, h: int)
    requires 0 <= s.latest && Unhindered(input) && Healthy(env, s.calls) && h > 0
    requires s.latest - 3 <= input.upstream < s.latest + 5 && AllFailed(s, input.upstream)
    requires input.retryEnabled && !input.selectFails && IsNext(s.failed, input.selectNow, h)
    requires ServesGood(input.serveRetry(h, h), h, h)
    ensures h in Round(s, env, input).indexed && h !in Round(s, env, input).failed
  {
    FetchesIff(s, input);
    RetryProgresses(s, env, input, h);
  }

  // ---- the pace

  /** The next round follows at once exactly if new blocks were fetched and do not yet reach the newest upstream height;
      such a round retries nothing. */
  lemma SpeedsUpIff(s: Book, env: Env, input: Input)
    requires 0 <= s.latest && Unhindered(input)
    ensures SpeedsUp(s, env, input)
       <==> && s.latest < input.upstream && !AllFailed(s, input.upstream)
            && var r := NewRange(s, input);
               && r.Range? && FetchReported(env, s.calls, Transform(input.serveNew(r.from, r.to), r.from, r.to))
               && !ReachesTop(r.to, input)
    ensures SpeedsUp(s, env, input) ==> Round(s, env, input) == BeforeRetry(s, env, input)
  {
    FetchesIff(s, input);
    if NewRange(s, input).Range? {
      FetchForetold(s, env, NewAnswer(input, NewRange(s, input).from, NewRange(s, input).to), 0);
      SearchSucceeds(s, input);
    }
  }

  // ---- blocks without transactions

  /** An empty block is indexed without touching its failure record: only the removal after the retry clears it. */
  lemma EmptyBlockNeedsRemoval(s: Book, env: Env, input: Input, h: int)
    requires RetryAnswer(input, h) == Answer([BlockAnswer(h, true, true)], [], [])
    requires h in s.failed && env(s.calls).outcome == Applied
    ensures var after := RetryHeight(s, env, input, h);
            && h in after.indexed
            && (h in after.failed <==> env(s.calls + 1).outcome == Refused)
            && (h in after.failed ==> after.failed[h] == s.failed[h])
  {
    var b, raised := BlockAnswer(h, true, true), RaiseLatest(s, env, h);
    SortedIsFixed([b]);
    assert [b][1..] == [];
    assert Marked(s, env, RetryAnswer(input, h)) == Done(s, true);
    assert IndexBlocks(s, env, [b]) == IndexBlocks(raised.book, env, []) == raised;
    assert Fetch(s, env, RetryAnswer(input, h)) == raised;
  }
}
