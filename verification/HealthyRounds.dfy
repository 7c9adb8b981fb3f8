/** Rounds in which every database call succeeds: how fast the indexer catches up, and exactly when an endpoint's answer
    alone makes it lose a height. */
module HealthyRounds {
  import opened Common
  import opened RangeFinder
  import opened BlockBook
  import opened QueryService
  import opened Rounds
  import opened Coverage
  import opened CoverageRuns
  import opened FetchEffects
  import opened ExactCoverage
  import opened ExactLosses

  /** Every call from the n-th on is applied. */
  ghost predicate Healthy(env: Env, n: nat) {
    forall m: nat :: n <= m ==> env(m).outcome == Applied
  }

  /** A block of that height is delivered and has no transactions, or acceptable ones. */
  predicate HasGoodBlock(blocks: seq<BlockAnswer>, h: int) {
    exists i :: 0 <= i < |blocks| && blocks[i].height == h && blocks[i].Good()
  }

  /** A block of that height is delivered whose rows the database refuses. */
  predicate HasBadBlock(blocks: seq<BlockAnswer>, h: int) {
    exists i :: 0 <= i < |blocks| && blocks[i].height == h && !blocks[i].Good()
  }

  predicate Usable(a: Answer) {
    a.Answer? && !HasDuplicates(a.errors) && !HasDuplicates(a.missing)
  }

  // ---- what is foretold when nothing fails

  lemma {:induction false} HealthyRow(env: Env, c: nat, limit: nat)
    requires Healthy(env, c)
    ensures ReportedInARow(env, c, limit) == limit
    decreases limit
  {
    if limit > 0 {
      HealthyRow(env, c + 1, limit - 1);
    }
  }

  lemma HealthyBlock(env: Env, c: nat, b: BlockAnswer)
    requires Healthy(env, c)
    ensures BlockReported(env, c, b) && BlockLands(env, c, b) == b.Good() && BlockMarked(env, c, b) == !b.Good()
  {
    HealthyRow(env, c + 3, STATEMENTS_AFTER_ROWS);
  }

  lemma HasInRest(blocks: seq<BlockAnswer>, h: int)
    requires blocks != []
    ensures HasGoodBlock(blocks, h) <==> (blocks[0].height == h && blocks[0].Good()) || HasGoodBlock(blocks[1..], h)
    ensures HasBadBlock(blocks, h) <==> (blocks[0].height == h && !blocks[0].Good()) || HasBadBlock(blocks[1..], h)
  {
    assert forall i :: 0 < i < |blocks| ==> blocks[1..][i - 1] == blocks[i];
  }

  lemma {:induction false} HealthyBlocks(env: Env, c: nat, blocks: seq<BlockAnswer>, h: int)
    requires Healthy(env, c)
    ensures BlocksReported(env, c, blocks)
    ensures SomeLands(env, c, blocks, h) <==> HasGoodBlock(blocks, h)
    ensures SomeMarked(env, c, blocks, h) <==> HasBadBlock(blocks, h)
    decreases |blocks|
  {
    if blocks != [] {
      HealthyBlock(env, c, blocks[0]);
      HasInRest(blocks, h);
      HealthyBlocks(env, c + BlockCalls(env, c, blocks[0]), blocks[1..], h);
    }
  }

  lemma SortedHasSame(blocks: seq<BlockAnswer>, h: int)
    ensures HasGoodBlock(SortByHeight(blocks), h) <==> HasGoodBlock(blocks, h)
    ensures HasBadBlock(SortByHeight(blocks), h) <==> HasBadBlock(blocks, h)
  {
    var sorted := SortByHeight(blocks);
    forall i | 0 <= i < |blocks| ensures exists j :: 0 <= j < |sorted| && sorted[j] == blocks[i] {
      assert blocks[i] in sorted;
    }
    forall j | 0 <= j < |sorted| ensures exists i :: 0 <= i < |blocks| && blocks[i] == sorted[j] {
      assert sorted[j] in blocks;
    }
  }

  /** Without database errors the answer alone foretells the fetch. */
  lemma HealthyForetold(env: Env, c: nat, answer: Answer, h: int)
    requires Healthy(env, c)
    ensures FetchReported(env, c, answer) <==> Usable(answer)
    ensures FetchLands(env, c, answer, h) <==> Usable(answer) && HasGoodBlock(answer.blocks, h)
    ensures Usable(answer) ==>
              (FetchMarks(env, c, answer, h)
               <==> h in answer.errors || h in answer.missing || HasBadBlock(answer.blocks, h))
  {
    if answer.Answer? {
      HealthyBlocks(env, c + MarkingCalls(env, c, answer), SortByHeight(answer.blocks), h);
      SortedHasSame(answer.blocks, h);
    }
  }

  /** Without database errors, a fetch ends fatally exactly for an unusable answer. Otherwise a height gets indexed
      exactly if a good block of it is delivered, and becomes accounted for exactly if the answer mentions it; a
      height without a good block is then failed exactly if it was, or the answer calls it an error, missing, or
      brings a bad block. */
  lemma HealthyFetch(s: Book, env: Env, answer: Answer, h: int)
    requires Healthy(env, s.calls)
    ensures Fetch(s, env, answer).ok <==> Usable(answer)
    ensures Usable(answer) ==>
              var after := Fetch(s, env, answer).book;
              && s.calls <= after.calls && after.dropped == s.dropped && s.latest <= after.latest
              && (h in after.indexed <==> h in s.indexed || HasGoodBlock(answer.blocks, h))
              && (after.Accounts(h) <==> s.Accounts(h) || Mentioned(answer, h))
              && (HasGoodBlock(answer.blocks, h) ==> h <= after.latest)
              && (after.latest == h ==> s.latest == h || HasGoodBlock(answer.blocks, h))
              && (!HasGoodBlock(answer.blocks, h) ==>
                    (h in after.failed
                     <==> h in s.failed || h in answer.errors || h in answer.missing || HasBadBlock(answer.blocks, h)))
  {
    FetchForetold(s, env, answer, h);
    HealthyForetold(env, s.calls, answer, h);
    if Usable(answer) {
      assert HasBlock(answer.blocks, h) <==> HasGoodBlock(answer.blocks, h) || HasBadBlock(answer.blocks, h) by {
        GoodOrBad(answer.blocks, h);
      }
    }
  }

  lemma GoodOrBad(blocks: seq<BlockAnswer>, h: int)
    ensures HasBlock(blocks, h) <==> HasGoodBlock(blocks, h) || HasBadBlock(blocks, h)
  {
    if i :| 0 <= i < |blocks| && blocks[i].height == h {
      assert blocks[i].Good() || !blocks[i].Good();
    }
  }

  // ---- when an answer alone loses a height

  /** Without database errors, retrying a failed height has three outcomes, told apart by the answer alone: an
      unusable answer keeps the record, a good block indexes the height, and anything else drops it, be it a height
      called missing or an error or not mentioned, or a delivered block that the database refuses. */
  lemma RetryOutcome(s: Book, env: Env, input: Input, h: int)
    requires Healthy(env, s.calls) && h in s.failed && h !in s.indexed && h !in s.dropped
    ensures var answer, after := RetryAnswer(input, h), RetryHeight(s, env, input, h);
            && (h in after.failed && h !in after.indexed <==> !Usable(answer))
            && (h in after.indexed && h !in after.failed <==> Usable(answer) && HasGoodBlock(answer.blocks, h))
            && (h in after.dropped <==> Usable(answer) && !HasGoodBlock(answer.blocks, h))
  {
    var answer := RetryAnswer(input, h);
    var fetched := Fetch(s, env, answer);
    FetchForetold(s, env, answer, h);
    HealthyForetold(env, s.calls, answer, h);
    UpsertedFailed(fetched.book.failed, [h], env(fetched.book.calls).now);
  }

  /** Without database errors: a retry keeps every height up to the latest block accounted for exactly if it stays
      behind the latest block, nothing below it is missing, or the answer brings no good block. */
  lemma HealthyRetryCovers(s: Book, env: Env, input: Input, h: int)
    requires Safe(s) && Healthy(env, s.calls)
    ensures Covered(RetryHeight(s, env, input, h).Now())
       <==> || h <= s.latest
            || Below(s, h)
            || !Usable(RetryAnswer(input, h))
            || !HasGoodBlock(RetryAnswer(input, h).blocks, h)
  {
    RetryCoversIff(s, env, input, h);
    HealthyForetold(env, s.calls, RetryAnswer(input, h), h);
  }

  /** Every height below a good delivered block is mentioned, or was accounted for before. */
  ghost predicate NoGapBelowGood(s: Book, answer: Answer)
    requires answer.Answer?
  {
    forall h, g :: HasGoodBlock(answer.blocks, h) && 1 <= g < h ==> s.Accounts(g) || Mentioned(answer, g)
  }

  /** Without database errors, fetching new blocks with a usable answer keeps every height up to the latest block
      accounted for, at every write, exactly if the answer leaves no gap below a good block. Completeness is therefore
      needed, up to heights above all good blocks. */
  lemma CoveredIffNoGap(s: Book, env: Env, input: Input)
    requires Safe(s) && NewRange(s, input).Range? && Healthy(env, s.calls)
    requires Usable(NewAnswer(input, NewRange(s, input).from, NewRange(s, input).to))
    ensures var r := NewRange(s, input);
            Safe(NewPart(s, env, input)) <==> NoGapBelowGood(s, NewAnswer(input, r.from, r.to))
  {
    var r := NewRange(s, input);
    var answer := NewAnswer(input, r.from, r.to);
    NewPartSafeIff(s, env, input);
    forall h ensures FetchLands(env, s.calls, answer, h) <==> HasGoodBlock(answer.blocks, h) {
      HealthyForetold(env, s.calls, answer, h);
    }
  }

  // ---- catching up

  /** The endpoint is reachable, knows the chain at least up to `target`, and serves a good block wherever it is
      asked. */
  ghost predicate Serves(input: Input, target: int) {
    && input.readable && !input.postponed && input.upstream >= target
    && (forall lo, hi :: !input.windowFails(lo, hi))
    && forall lo, hi :: lo <= hi ==> ServesGood(input.serveNew(lo, hi), lo, hi)
  }

  /** A response with a good block of every height asked for, and nothing else. */
  ghost predicate ServesGood(raw: Raw, lo: int, hi: int) {
    && raw.Raw? && raw.errors == [] && raw.missing == []
    && (forall h :: lo <= h <= hi ==> Delivers(raw, h))
    && forall b :: b in raw.blocks ==> HeightMeant(b, lo, hi) && (b.empty || b.valid)
  }

  lemma GoodResponse(raw: Raw, lo: int, hi: int)
    requires ServesGood(raw, lo, hi)
    ensures ServesRange(Transform(raw, lo, hi), lo, hi)
  {
    var a := Transform(raw, lo, hi);
    AnswerKeepsAll(raw, lo, hi);
    forall i | 0 <= i < |a.blocks| ensures a.blocks[i].Good() {
      assert raw.blocks[i] in raw.blocks;
    }
    forall h | lo <= h <= hi ensures HasGoodBlock(a.blocks, h) {
      SpokenOf(raw, lo, hi, h);
      var i :| 0 <= i < |a.blocks| && a.blocks[i].height == h;
      assert a.blocks[i].Good();
    }
  }

  predicate ServesRange(a: Answer, lo: int, hi: int) {
    && a.Answer? && a.errors == [] && a.missing == []
    && (forall h :: lo <= h <= hi ==> HasGoodBlock(a.blocks, h))
    && forall i :: 0 <= i < |a.blocks| ==> a.blocks[i].Good()
  }

  /** Everything up to the latest block is indexed, and nothing is pending. */
  ghost predicate CaughtUpTo(s: Book, height: int) {
    && height <= s.latest
    && s.failed == map[] && s.dropped == {}
    && forall h :: h in s.indexed <==> 1 <= h <= s.latest
  }

  lemma ServedRange(s: Book, input: Input, target: int)
    requires CaughtUpTo(s, 0) && Serves(input, target) && s.latest < input.upstream
    ensures NewRange(s, input) == Range(s.latest + 1, Min(input.upstream, s.latest + MAX_BLOCKS_PER_BATCH))
  {
    var from, to := s.latest + 1, Min(input.upstream, s.latest + MAX_BLOCKS_PER_BATCH);
    assert !input.windowFails(from, to);
    assert FailedQuery(s.failed, input)(from, to) == Some(FailedInRange(s.failed, from, to));
    ClosestUnique(from, to, FailedInRange(s.failed, from, to), Range(from, to));
  }

  lemma NothingToRetry(s: Book, env: Env, input: Input)
    requires s.failed == map[]
    ensures RetryPart(s, env, input) == s
  {
    assert forall h :: !Eligible(s.failed, input.selectNow, h);
  }

  lemma ServedFetch(s: Book, env: Env, answer: Answer, to: int)
    requires CaughtUpTo(s, 0) && Healthy(env, s.calls) && s.latest < to
    requires WithinRange(answer, s.latest + 1, to) && ServesRange(answer, s.latest + 1, to)
    ensures var fetched := Fetch(s, env, answer);
            fetched.ok && s.calls <= fetched.book.calls && fetched.book.latest == to && CaughtUpTo(fetched.book, to)
  {
    var after := Fetch(s, env, answer).book;
    FetchFollows(s, env, answer, s.latest + 1, to);
    forall h ensures h in after.indexed <==> 1 <= h <= to {
      HealthyFetch(s, env, answer, h);
    }
    forall h ensures h !in after.failed {
      FetchForetold(s, env, answer, h);
      HealthyForetold(env, s.calls, answer, h);
    }
    HealthyFetch(s, env, answer, to);
    assert after.failed == map[] by {
      assert forall h :: h !in after.failed;
    }
  }

  lemma ServedNewPart(s: Book, env: Env, input: Input, target: int)
    requires CaughtUpTo(s, 0) && Healthy(env, s.calls) && Serves(input, target) && s.latest < input.upstream
    ensures NewRange(s, input).Range?
    ensures var after, to := NewPart(s, env, input), Min(input.upstream, s.latest + 100);
            s.calls <= after.calls && after.latest == to && CaughtUpTo(after, to)
  {
    ServedRange(s, input, target);
    var from, to := s.latest + 1, Min(input.upstream, s.latest + 100);
    GoodResponse(input.serveNew(from, to), from, to);
    ServedFetch(s, env, NewAnswer(input, from, to), to);
  }

  /** One round indexes exactly the next hundred blocks, or all that are left. */
  lemma RoundCatchesUp(s: Book, env: Env, input: Input, target: int)
    requires CaughtUpTo(s, 0) && Healthy(env, s.calls) && Serves(input, target)
    ensures var after := Round(s, env, input);
            && CaughtUpTo(after, Min(target, s.latest + 100)) && s.calls <= after.calls
            && after.latest == if input.upstream <= s.latest then s.latest
                               else Min(input.upstream, s.latest + 100)
  {
    if input.upstream <= s.latest {
      NothingToRetry(s, env, input);
    } else {
      ServedNewPart(s, env, input, target);
      NothingToRetry(NewPart(s, env, input), env, input);
    }
  }

  /** From an empty database, with a healthy database and endpoints that serve good blocks only: after n rounds exactly
      the blocks up to the latest one are indexed, and that is at least the smaller of the target and 100 n. */
  lemma {:induction false} CatchesUp(env: Env, inputs: seq<Input>, target: int)
    requires 0 <= target && Healthy(env, 0)
    requires forall i :: 0 <= i < |inputs| ==> Serves(inputs[i], target)
    ensures CaughtUpTo(RunRounds(START, env, inputs), Min(target, 100 * |inputs|))
    ensures Healthy(env, RunRounds(START, env, inputs).calls)
  {
    if inputs != [] {
      var n := |inputs| - 1;
      CatchesUp(env, inputs[..n], target);
      RoundCatchesUp(RunRounds(START, env, inputs[..n]), env, inputs[n], target);
    }
  }
}
