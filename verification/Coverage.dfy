/** No height is silently skipped: what every database write of every round keeps. */
module Coverage {
  import opened Common
  import opened RangeFinder
  import opened BlockBook
  import opened QueryService
  import opened Rounds

  /** Every height up to the latest indexed block is indexed, recorded as failed, or was dropped by a retry. */
  predicate Covered(v: View) {
    forall h :: 1 <= h <= v.latest ==> v.Accounts(h)
  }

  /** Covered now and after every write so far. */
  predicate Safe(s: Book) {
    && 0 <= s.latest
    && Covered(s.Now())
    && forall i :: 0 <= i < |s.trail| ==> Covered(s.trail[i])
  }

  /** A failure record survives, with no fewer retries, unless its block has been indexed. */
  predicate RecordsSurvive(before: Book, after: Book) {
    forall h :: h in before.failed && h !in after.indexed ==>
      && h in after.failed
      && before.failed[h].retryCount <= after.failed[h].retryCount
      && before.failed[h].lastRetry <= after.failed[h].lastRetry
  }

  predicate NoNegativeRetries(s: Book) {
    forall h :: h in s.failed ==> 0 <= s.failed[h].retryCount
  }

  /** What calls about heights in [lo, hi] may do to the book: nothing is forgotten, nothing outside is touched,
      nothing is dropped, and a height that becomes indexed never lies above the latest one. */
  ghost predicate Follows(before: Book, after: Book, lo: int, hi: int) {
    && before.calls <= after.calls
    && before.latest <= after.latest <= Max(before.latest, hi)
    && (forall h :: before.Accounts(h) ==> after.Accounts(h))
    && before.indexed <= after.indexed
    && after.dropped == before.dropped
    && (forall h :: h in after.indexed ==> h in before.indexed || (lo <= h <= hi && h <= after.latest))
    && (forall h :: h in after.failed ==> h in before.failed || lo <= h <= hi)
    && (forall h :: h in before.failed && !(lo <= h <= hi) ==> h in after.failed && after.failed[h] == before.failed[h])
    && RecordsSurvive(before, after)
    && (NoNegativeRetries(before) ==> NoNegativeRetries(after))
  }

  lemma FollowsTransitive(a: Book, b: Book, c: Book, lo: int, hi: int)
    requires Follows(a, b, lo, hi) && Follows(b, c, lo, hi)
    ensures Follows(a, c, lo, hi)
  {
  }

  lemma MarkFollows(s: Book, env: Env, heights: seq<int>, lo: int, hi: int)
    requires AllWithin(heights, lo, hi)
    ensures Follows(s, MarkFailed(s, env, heights).book, lo, hi)
  {
    UpsertedFailed(s.failed, heights, env(s.calls).now);
  }

  lemma {:induction false} StatementsIdle(s: Book, env: Env, left: nat)
    ensures var after := TxStatements(s, env, left).book; after == s.(calls := after.calls) && s.calls <= after.calls
    decreases left
  {
    if left > 0 {
      StatementsIdle(Idle(s), env, left - 1);
    }
  }

  lemma IndexBlockFollows(s: Book, env: Env, b: BlockAnswer, lo: int, hi: int)
    requires lo <= b.height <= hi
    ensures Follows(s, IndexBlock(s, env, b).book, lo, hi)
  {
    if !b.empty {
      var begun := Idle(Idle(s));
      StatementsIdle(Idle(begun), env, STATEMENTS_AFTER_ROWS);
      var transaction := BlockTransaction(begun, env, b.height, b.valid);
      assert Follows(s, transaction.book, lo, hi);
      MarkFollows(transaction.book, env, [b.height], lo, hi);
      FollowsTransitive(s, transaction.book, MarkFailed(transaction.book, env, [b.height]).book, lo, hi);
    }
  }

  lemma {:induction false} IndexBlocksFollows(s: Book, env: Env, blocks: seq<BlockAnswer>, lo: int, hi: int)
    requires forall i :: 0 <= i < |blocks| ==> lo <= blocks[i].height <= hi
    ensures Follows(s, IndexBlocks(s, env, blocks).book, lo, hi)
    decreases |blocks|
  {
    if blocks != [] {
      var first := IndexBlock(s, env, blocks[0]);
      IndexBlockFollows(s, env, blocks[0], lo, hi);
      if first.ok {
        IndexBlocksFollows(first.book, env, blocks[1..], lo, hi);
        FollowsTransitive(s, first.book, IndexBlocks(first.book, env, blocks[1..]).book, lo, hi);
      }
    }
  }

  lemma SortedWithin(blocks: seq<BlockAnswer>, lo: int, hi: int)
    requires forall i :: 0 <= i < |blocks| ==> lo <= blocks[i].height <= hi
    ensures forall i :: 0 <= i < |SortByHeight(blocks)| ==> lo <= SortByHeight(blocks)[i].height <= hi
  {
    var sorted := SortByHeight(blocks);
    assert forall i :: 0 <= i < |sorted| ==> sorted[i] in sorted;
  }

  lemma MarkedFollows(s: Book, env: Env, answer: Answer, lo: int, hi: int)
    requires answer.Answer? && WithinRange(answer, lo, hi)
    ensures Follows(s, Marked(s, env, answer).book, lo, hi)
  {
    var afterErrors := MarkIfAny(s, env, answer.errors);
    if answer.errors != [] {
      MarkFollows(s, env, answer.errors, lo, hi);
    }
    if afterErrors.ok && answer.missing != [] {
      MarkFollows(afterErrors.book, env, answer.missing, lo, hi);
      FollowsTransitive(s, afterErrors.book, MarkIfAny(afterErrors.book, env, answer.missing).book, lo, hi);
    }
  }

  lemma FetchFollows(s: Book, env: Env, answer: Answer, lo: int, hi: int)
    requires WithinRange(answer, lo, hi)
    ensures Follows(s, Fetch(s, env, answer).book, lo, hi)
  {
    if answer.Answer? {
      MarkedFollows(s, env, answer, lo, hi);
      var marked := Marked(s, env, answer);
      if marked.ok {
        SortedWithin(answer.blocks, lo, hi);
        IndexBlocksFollows(marked.book, env, SortByHeight(answer.blocks), lo, hi);
        FollowsTransitive(s, marked.book, Fetch(s, env, answer).book, lo, hi);
      }
    }
  }

  // ---- safety of every write

  /** All heights below h are accounted for. */
  predicate Below(s: Book, h: int) {
    forall g :: 1 <= g < h ==> s.Accounts(g)
  }

  lemma WrittenSafe(s: Book, changed: Book)
    requires Safe(s) && changed.trail == s.trail && 0 <= changed.latest && Covered(changed.Now())
    ensures Safe(Written(s, changed))
  {
    var after := Written(s, changed);
    assert after.Now() == changed.Now();
    forall i | 0 <= i < |after.trail| ensures Covered(after.trail[i]) {
      if i < |s.trail| {
        assert after.trail[i] == s.trail[i];
      }
    }
  }

  /** Enough that nothing is forgotten and that a higher latest block has everything below it accounted for. */
  lemma CoveredGrows(s: Book, changed: Book, h: int)
    requires Covered(s.Now()) && changed.latest <= Max(s.latest, h)
    requires forall g :: s.Accounts(g) ==> changed.Accounts(g)
    requires changed.latest > s.latest ==> Below(s, h) && changed.Accounts(h)
    ensures Covered(changed.Now())
  {
    forall g | 1 <= g <= changed.latest ensures changed.Now().Accounts(g) {
      assert s.Now().Accounts(g) == s.Accounts(g);
      assert changed.Now().Accounts(g) == changed.Accounts(g);
    }
  }

  lemma MarkSafe(s: Book, env: Env, heights: seq<int>)
    requires Safe(s)
    ensures Safe(MarkFailed(s, env, heights).book)
    ensures MarkFailed(s, env, heights).ok ==> forall h :: h in heights ==> h in MarkFailed(s, env, heights).book.failed
  {
    UpsertedFailed(s.failed, heights, env(s.calls).now);
    var changed := s.(failed := UpsertFailed(s.failed, heights, env(s.calls).now));
    CoveredGrows(s, changed, 0);
    WrittenSafe(s, changed);
  }

  lemma RaiseSafe(s: Book, env: Env, h: int)
    requires Safe(s) && Below(s, h)
    ensures Safe(RaiseLatest(s, env, h).book)
  {
    var changed := s.(latest := Max(s.latest, h), indexed := s.indexed + {h});
    CoveredGrows(s, changed, h);
    WrittenSafe(s, changed);
  }

  lemma CommitSafe(s: Book, env: Env, h: int)
    requires Safe(s) && Below(s, h)
    ensures Safe(Commit(s, env, h).book)
  {
    var changed := s.(latest := Max(s.latest, h), failed := s.failed - {h}, indexed := s.indexed + {h});
    CoveredGrows(s, changed, h);
    WrittenSafe(s, changed);
  }

  lemma IndexBlockSafe(s: Book, env: Env, b: BlockAnswer)
    requires Safe(s) && Below(s, b.height)
    ensures Safe(IndexBlock(s, env, b).book)
    ensures IndexBlock(s, env, b).ok ==> IndexBlock(s, env, b).book.Accounts(b.height)
  {
    if b.empty {
      RaiseSafe(s, env, b.height);
    } else {
      var begun := Idle(Idle(s));
      StatementsIdle(Idle(begun), env, STATEMENTS_AFTER_ROWS);
      var statements := TxStatements(Idle(begun), env, STATEMENTS_AFTER_ROWS);
      forall g | 1 <= g < b.height ensures statements.book.Accounts(g) {
        assert s.Accounts(g);
      }
      CommitSafe(statements.book, env, b.height);
      var transaction := BlockTransaction(begun, env, b.height, b.valid);
      MarkSafe(transaction.book, env, [b.height]);
    }
  }

  /** Every height up to `to` is accounted for or has a block still to be processed. */
  predicate Prepared(s: Book, to: int, blocks: seq<BlockAnswer>) {
    forall g :: 1 <= g <= to ==> s.Accounts(g) || HasBlock(blocks, g)
  }

  lemma {:induction false} IndexBlocksSafe(s: Book, env: Env, blocks: seq<BlockAnswer>, to: int)
    requires Safe(s) && AscendingBlocks(blocks) && Prepared(s, to, blocks)
    requires forall i :: 0 <= i < |blocks| ==> blocks[i].height <= to
    ensures Safe(IndexBlocks(s, env, blocks).book)
    ensures IndexBlocks(s, env, blocks).ok ==> Below(IndexBlocks(s, env, blocks).book, to + 1)
    decreases |blocks|
  {
    if blocks != [] {
      var b := blocks[0];
      assert Below(s, b.height);
      IndexBlockSafe(s, env, b);
      IndexBlockFollows(s, env, b, b.height, b.height);
      var first := IndexBlock(s, env, b);
      if first.ok {
        forall g | 1 <= g <= to ensures first.book.Accounts(g) || HasBlock(blocks[1..], g) {
          if !s.Accounts(g) {
            var i :| 0 <= i < |blocks| && blocks[i].height == g;
            assert i > 0 ==> blocks[1..][i - 1] == blocks[i];
          }
        }
        IndexBlocksSafe(first.book, env, blocks[1..], to);
      }
    }
  }

  lemma MarkedSafe(s: Book, env: Env, answer: Answer)
    requires Safe(s) && answer.Answer?
    ensures Safe(Marked(s, env, answer).book)
    ensures Marked(s, env, answer).ok ==>
              forall h :: h in answer.errors || h in answer.missing ==> Marked(s, env, answer).book.Accounts(h)
  {
    var afterErrors := MarkIfAny(s, env, answer.errors);
    if answer.errors != [] {
      MarkSafe(s, env, answer.errors);
    }
    if afterErrors.ok && answer.missing != [] {
      MarkSafe(afterErrors.book, env, answer.missing);
      UpsertedFailed(afterErrors.book.failed, answer.missing, env(afterErrors.book.calls).now);
    }
  }

  lemma SortedHasBlock(blocks: seq<BlockAnswer>, h: int)
    ensures HasBlock(SortByHeight(blocks), h) <==> HasBlock(blocks, h)
  {
    var sorted := SortByHeight(blocks);
    if i :| 0 <= i < |blocks| && blocks[i].height == h {
      assert blocks[i] in sorted;
    }
    if j :| 0 <= j < |sorted| && sorted[j].height == h {
      assert sorted[j] in sorted;
    }
  }

  /** Everything below `from` being accounted for, and every height of [from, to] either accounted for or mentioned by
      the answer: covered at every write, and without a fatal error everything up to `to` is accounted for. */
  lemma FetchSafe(s: Book, env: Env, answer: Answer, from: int, to: int)
    requires Safe(s) && Below(s, from) && WithinRange(answer, from, to)
    requires answer.Answer? ==> forall g :: from <= g <= to ==> s.Accounts(g) || Mentioned(answer, g)
    ensures Safe(Fetch(s, env, answer).book)
    ensures Fetch(s, env, answer).ok ==> Below(Fetch(s, env, answer).book, to + 1)
  {
    if answer.Answer? {
      MarkedSafe(s, env, answer);
      MarkedFollows(s, env, answer, from, to);
      var marked := Marked(s, env, answer);
      if marked.ok {
        var blocks := SortByHeight(answer.blocks);
        SortedWithin(answer.blocks, from, to);
        forall g | 1 <= g <= to ensures marked.book.Accounts(g) || HasBlock(blocks, g) {
          if g < from {
            assert s.Accounts(g);
          } else if !s.Accounts(g) {
            assert Mentioned(answer, g);
            SortedHasBlock(answer.blocks, g);
          }
        }
        IndexBlocksSafe(marked.book, env, blocks, to);
      }
    }
  }

  // ---- one round of new blocks

  function FailedAt(failed: map<int, FailedRow>): int -> bool { h => h in failed }

  lemma WindowsAreTruthful(failed: map<int, FailedRow>, input: Input)
    ensures Truthful(FailedQuery(failed, input), FailedAt(failed))
  {
    var query := FailedQuery(failed, input);
    forall lo, hi | query(lo, hi).Some?
      ensures forall h :: lo <= h <= hi ==> (h in query(lo, hi).value <==> FailedAt(failed)(h))
    {
      assert query(lo, hi).value == FailedInRange(failed, lo, hi);
    }
  }

  lemma NewRangeFacts(s: Book, input: Input)
    requires 0 <= s.latest && NewRange(s, input).Range?
    ensures var r := NewRange(s, input);
            && s.latest < r.from <= r.to <= input.upstream && r.to - r.from < 100
            && (forall h :: s.latest < h < r.from ==> h in s.failed)
            && (forall h :: r.from <= h <= r.to ==> h !in s.failed)
  {
    WindowsAreTruthful(s.failed, input);
    DeterminedRange(s.latest, input.upstream, FailedQuery(s.failed, input), FailedAt(s.failed));
    var r := NewRange(s, input);
    forall h | s.latest < h <= r.to ensures h in s.failed <==> h < r.from {
      assert FailedAt(s.failed)(h) == (h in s.failed);
    }
  }

  ghost predicate CompleteNew(s: Book, input: Input)
    requires 0 <= s.latest
  {
    NewRange(s, input).Range? ==>
      CompleteResponse(input.serveNew(NewRange(s, input).from, NewRange(s, input).to), NewRange(s, input).from,
                       NewRange(s, input).to)
  }

  lemma CompleteNewAnswer(s: Book, input: Input)
    requires 0 <= s.latest && NewRange(s, input).Range?
    ensures var r := NewRange(s, input);
            CompleteNew(s, input) <==> Complete(NewAnswer(input, r.from, r.to), r.from, r.to)
  {
    var r := NewRange(s, input);
    CompleteIff(input.serveNew(r.from, r.to), r.from, r.to);
  }

  /** With a complete response, whatever database calls fail, are lost or are refused: after every write of a round of
      new blocks each height up to the latest indexed one is indexed, recorded as failed or dropped. */
  lemma NewPartSafe(s: Book, env: Env, input: Input)
    requires Safe(s) && NewRange(s, input).Range? && CompleteNew(s, input)
    ensures Safe(NewPart(s, env, input))
    ensures Safe(FetchNew(s, env, input).book)
    ensures FetchNew(s, env, input).ok ==> Below(FetchNew(s, env, input).book, NewRange(s, input).to + 1)
  {
    var r := NewRange(s, input);
    NewRangeFacts(s, input);
    CompleteNewAnswer(s, input);
    forall g | 1 <= g < r.from ensures s.Accounts(g) {
      if g <= s.latest {
        assert s.Now().Accounts(g);
      }
    }
    FetchSafe(s, env, NewAnswer(input, r.from, r.to), r.from, r.to);
    MarkSafe(FetchNew(s, env, input).book, env, HeightsFromTo(r.from, r.to));
  }

  // ---- whole runs

  /** Everything up to the high-water mark w, the greatest height ever asked for, is accounted for. */
  predicate SoundUpTo(s: Book, w: int) {
    && Safe(s)
    && s.latest <= w
    && Below(s, w + 1)
    && (forall h :: h in s.failed ==> 1 <= h <= w)
    && (forall h :: h in s.indexed ==> h <= s.latest)
  }

  /** The insert that marks a range after a fatal error takes effect. */
  predicate MarkingLands(s: Book, env: Env, input: Input)
    requires 0 <= s.latest
  {
    NewRange(s, input).Range? && !FetchNew(s, env, input).ok ==> env(FetchNew(s, env, input).book.calls).outcome.Lands()
  }

  function HighAfter(s: Book, input: Input, w: int): int
    requires 0 <= s.latest
  {
    match NewRange(s, input)
    case NoRange => w
    case Range(_, to) => Max(w, to)
  }

  lemma NoDuplicateHeights(from: int, to: int)
    ensures !HasDuplicates(HeightsFromTo(from, to))
  {
  }

  lemma FollowsKeepsSound(s: Book, after: Book, w: int, lo: int, hi: int)
    requires SoundUpTo(s, w) && Safe(after) && Follows(s, after, lo, hi) && 1 <= lo <= hi
    requires forall g :: w < g <= hi ==> after.Accounts(g)
    ensures SoundUpTo(after, Max(w, hi))
  {
    forall g | 1 <= g < Max(w, hi) + 1 ensures after.Accounts(g) {
      if g <= w {
        assert s.Accounts(g);
      }
    }
  }

  lemma NewPartSound(s: Book, env: Env, input: Input, w: int)
    requires SoundUpTo(s, w) && NewRange(s, input).Range?
    requires CompleteNew(s, input) && MarkingLands(s, env, input)
    ensures SoundUpTo(NewPart(s, env, input), HighAfter(s, input, w))
  {
    var r := NewRange(s, input);
    var answer := NewAnswer(input, r.from, r.to);
    NewRangeFacts(s, input);
    NewPartSafe(s, env, input);
    FetchFollows(s, env, answer, r.from, r.to);
    if FetchNew(s, env, input).ok {
      FollowsKeepsSound(s, FetchNew(s, env, input).book, w, r.from, r.to);
    } else {
      MarkedRangeSound(s, env, input, w);
    }
  }

  lemma MarkedRangeSound(s: Book, env: Env, input: Input, w: int)
    requires SoundUpTo(s, w) && NewRange(s, input).Range?
    requires MarkingLands(s, env, input) && !FetchNew(s, env, input).ok && Safe(NewPart(s, env, input))
    ensures SoundUpTo(NewPart(s, env, input), HighAfter(s, input, w))
  {
    var r, fetched := NewRange(s, input), FetchNew(s, env, input);
    var heights, after := HeightsFromTo(r.from, r.to), NewPart(s, env, input);
    NewRangeFacts(s, input);
    FetchFollows(s, env, NewAnswer(input, r.from, r.to), r.from, r.to);
    NoDuplicateHeights(r.from, r.to);
    assert forall i :: 0 <= i < |heights| ==> heights[i] in heights;
    MarkFollows(fetched.book, env, heights, r.from, r.to);
    FollowsTransitive(s, fetched.book, after, r.from, r.to);
    UpsertedFailed(fetched.book.failed, heights, env(fetched.book.calls).now);
    forall g | w < g <= r.to ensures after.Accounts(g) {
      assert g !in s.failed;
      assert g in heights;
    }
    FollowsKeepsSound(s, after, w, r.from, r.to);
  }

  lemma RemoveSafe(s: Book, env: Env, h: int)
    requires Safe(s)
    ensures Safe(RemoveFailed(s, env, h).book)
  {
    var changed := s.(failed := s.failed - {h},
                      dropped := if h in s.failed && h !in s.indexed then s.dropped + {h} else s.dropped);
    assert forall g :: s.Accounts(g) ==> changed.Accounts(g);
    CoveredGrows(s, changed, 0);
    WrittenSafe(s, changed);
  }

  lemma RemoveSound(s: Book, env: Env, h: int, w: int)
    requires SoundUpTo(s, w)
    ensures SoundUpTo(RemoveFailed(s, env, h).book, w)
  {
    RemoveSafe(s, env, h);
    forall g | 1 <= g < w + 1 ensures RemoveFailed(s, env, h).book.Accounts(g) {
      assert s.Accounts(g);
    }
  }

  lemma RetryHeightSound(s: Book, env: Env, input: Input, h: int, w: int)
    requires SoundUpTo(s, w) && h in s.failed
    ensures SoundUpTo(RetryHeight(s, env, input, h), w)
  {
    var answer := RetryAnswer(input, h);
    var fetched := Fetch(s, env, answer);
    FetchSafe(s, env, answer, h, h);
    FetchFollows(s, env, answer, h, h);
    FollowsKeepsSound(s, fetched.book, w, h, h);
    if fetched.ok {
      RemoveSound(fetched.book, env, h, w);
    } else {
      MarkSafe(fetched.book, env, [h]);
      MarkFollows(fetched.book, env, [h], h, h);
      FollowsKeepsSound(fetched.book, MarkFailed(fetched.book, env, [h]).book, w, h, h);
    }
  }

  lemma RetryPartSound(s: Book, env: Env, input: Input, w: int)
    requires SoundUpTo(s, w)
    ensures SoundUpTo(RetryPart(s, env, input), w)
  {
    var h := RetryTarget(s, input);
    if h > 0 {
      RetryHeightSound(s, env, input, h, w);
    }
  }

  lemma RoundSound(s: Book, env: Env, input: Input, w: int)
    requires SoundUpTo(s, w) && CompleteNew(s, input) && MarkingLands(s, env, input)
    ensures SoundUpTo(Round(s, env, input), HighAfter(s, input, w))
  {
    if NewRange(s, input).Range? {
      NewPartSound(s, env, input, w);
      RetryPartSound(NewPart(s, env, input), env, input, HighAfter(s, input, w));
    } else {
      RetryPartSound(s, env, input, w);
    }
  }
}
