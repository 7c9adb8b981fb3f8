/** Exactly when the code keeps every height accounted for: over any run, with any calls failing and any answers. */
module ExactCoverage {
  import opened Common
  import opened RangeFinder
  import opened BlockBook
  import opened QueryService
  import opened Rounds
  import opened Coverage
  import opened CoverageRuns
  import opened FetchEffects

  /** Below every height that the fetch will index, each height is accounted for already or mentioned by the answer. */
  ghost predicate NoGap(s: Book, env: Env, answer: Answer) {
    forall h, g :: FetchLands(env, s.calls, answer, h) && 1 <= g < h ==> s.Accounts(g) || Mentioned(answer, g)
  }

  /** The same for blocks about to be processed in this order. */
  ghost predicate NoGapIn(s: Book, env: Env, blocks: seq<BlockAnswer>) {
    forall h, g :: SomeLands(env, s.calls, blocks, h) && 1 <= g < h ==> s.Accounts(g) || HasBlock(blocks, g)
  }

  lemma NotLanded(s: Book, env: Env, h: int, valid: bool)
    requires !TransactionLands(env, s.calls, valid)
    ensures var after := BlockTransaction(s, env, h, valid).book; after == s.(calls := after.calls)
  {
    StatementsForetold(Idle(s), env, STATEMENTS_AFTER_ROWS);
  }

  lemma BlockSafe(s: Book, env: Env, b: BlockAnswer)
    requires Safe(s) && (BlockLands(env, s.calls, b) ==> Below(s, b.height))
    ensures Safe(IndexBlock(s, env, b).book)
  {
    if BlockLands(env, s.calls, b) {
      IndexBlockSafe(s, env, b);
    } else if !b.empty && Begins(env, s.calls) {
      var begun := Idle(Idle(s));
      NotLanded(begun, env, b.height, b.valid);
      MarkSafe(BlockTransaction(begun, env, b.height, b.valid).book, env, [b.height]);
    }
  }

  lemma NoGapInRest(s: Book, env: Env, blocks: seq<BlockAnswer>)
    requires blocks != [] && NoGapIn(s, env, blocks) && BlockReported(env, s.calls, blocks[0])
    ensures NoGapIn(IndexBlock(s, env, blocks[0]).book, env, blocks[1..])
  {
    var first := IndexBlock(s, env, blocks[0]).book;
    forall h, g | SomeLands(env, first.calls, blocks[1..], h) && 1 <= g < h
      ensures first.Accounts(g) || HasBlock(blocks[1..], g)
    {
      BlockForetold(s, env, blocks[0], g);
      assert SomeLands(env, s.calls, blocks, h);
      if !s.Accounts(g) {
        var i :| 0 <= i < |blocks| && blocks[i].height == g;
        assert i > 0 ==> blocks[1..][i - 1] == blocks[i];
      }
    }
  }

  lemma {:induction false} BlocksSafe(s: Book, env: Env, blocks: seq<BlockAnswer>)
    requires Safe(s) && AscendingBlocks(blocks) && NoGapIn(s, env, blocks)
    ensures Safe(IndexBlocks(s, env, blocks).book)
    decreases |blocks|
  {
    if blocks != [] {
      var b := blocks[0];
      BlockForetold(s, env, b, b.height);
      if BlockLands(env, s.calls, b) {
        assert SomeLands(env, s.calls, blocks, b.height);
        forall g | 1 <= g < b.height ensures s.Accounts(g) {
          assert !HasBlock(blocks, g);
        }
      }
      BlockSafe(s, env, b);
      if IndexBlock(s, env, b).ok {
        NoGapInRest(s, env, blocks);
        BlocksSafe(IndexBlock(s, env, b).book, env, blocks[1..]);
      }
    }
  }

  lemma NoGapOfAnswer(s: Book, env: Env, answer: Answer)
    requires Safe(s) && answer.Answer? && NoGap(s, env, answer) && Marked(s, env, answer).ok
    ensures NoGapIn(Marked(s, env, answer).book, env, SortByHeight(answer.blocks))
  {
    var marked, blocks := Marked(s, env, answer).book, SortByHeight(answer.blocks);
    MarkedSafe(s, env, answer);
    MarkedForetold(s, env, answer, 0);
    forall h, g | SomeLands(env, marked.calls, blocks, h) && 1 <= g < h
      ensures marked.Accounts(g) || HasBlock(blocks, g) {
      assert FetchLands(env, s.calls, answer, h);
      MarkedForetold(s, env, answer, g);
      SortedHasBlock(answer.blocks, g);
    }
  }

  /** Whatever fails and whatever is answered: after every write of a fetch each height up to the latest block is
      accounted for, exactly if the answer leaves no gap below a height that the fetch will index. */
  lemma FetchSafeIff(s: Book, env: Env, answer: Answer)
    requires Safe(s)
    ensures Safe(Fetch(s, env, answer).book) <==> NoGap(s, env, answer)
  {
    var after := Fetch(s, env, answer).book;
    if Covered(after.Now()) {
      forall h, g | FetchLands(env, s.calls, answer, h) && 1 <= g < h ensures s.Accounts(g) || Mentioned(answer, g) {
        FetchForetold(s, env, answer, h);
        assert after.Now().Accounts(g);
        AccountedIfMentioned(s, env, answer, g);
      }
    }
    if answer.Answer? && NoGap(s, env, answer) {
      MarkedSafe(s, env, answer);
      if Marked(s, env, answer).ok {
        NoGapOfAnswer(s, env, answer);
        BlocksSafe(Marked(s, env, answer).book, env, SortByHeight(answer.blocks));
      }
    }
  }

  lemma AccountedIfMentioned(s: Book, env: Env, answer: Answer, g: int)
    requires answer.Answer? && Fetch(s, env, answer).book.Accounts(g)
    ensures s.Accounts(g) || Mentioned(answer, g)
  {
    FetchForetold(s, env, answer, g);
    if FetchLands(env, s.calls, answer, g) {
      LandsWithin(env, s.calls, answer, g);
    } else if FetchMarks(env, s.calls, answer, g) {
      MarksWithin(env, s.calls, answer, g);
    }
  }

  // ---- the trail never forgets

  /** The trail grows by the views of the writes in between, the last of which is the present one. */
  predicate Traced(before: Book, after: Book) {
    && before.trail <= after.trail
    && (after.trail == before.trail ==> after.Now() == before.Now())
    && (|after.trail| > |before.trail| ==> after.trail[|after.trail| - 1] == after.Now())
  }

  lemma TracedTransitive(a: Book, b: Book, c: Book)
    requires Traced(a, b) && Traced(b, c)
    ensures Traced(a, c)
  {
  }

  lemma {:induction false} BlocksTraced(s: Book, env: Env, blocks: seq<BlockAnswer>)
    ensures Traced(s, IndexBlocks(s, env, blocks).book)
    decreases |blocks|
  {
    if blocks != [] {
      BlockTraced(s, env, blocks[0]);
      var first := IndexBlock(s, env, blocks[0]);
      if first.ok {
        BlocksTraced(first.book, env, blocks[1..]);
        TracedTransitive(s, first.book, IndexBlocks(first.book, env, blocks[1..]).book);
      }
    }
  }

  lemma BlockTraced(s: Book, env: Env, b: BlockAnswer)
    ensures Traced(s, IndexBlock(s, env, b).book)
  {
    StatementsForetold(Idle(Idle(Idle(s))), env, STATEMENTS_AFTER_ROWS);
  }

  lemma FetchTraced(s: Book, env: Env, answer: Answer)
    ensures Traced(s, Fetch(s, env, answer).book)
  {
    if answer.Answer? && Marked(s, env, answer).ok {
      var marked := Marked(s, env, answer).book;
      BlocksTraced(marked, env, SortByHeight(answer.blocks));
      TracedTransitive(s, marked, Fetch(s, env, answer).book);
    }
  }

  /** A book that has come from a safe one is safe if a later one is. */
  lemma SafeBetween(a: Book, b: Book, c: Book)
    requires Safe(a) && Traced(a, b) && Traced(b, c) && Safe(c) && 0 <= b.latest
    ensures Safe(b)
  {
    forall i | 0 <= i < |b.trail| ensures Covered(b.trail[i]) {
      assert b.trail[i] == c.trail[i];
    }
  }

  // ---- one round

  lemma NewPartTraced(s: Book, env: Env, input: Input)
    requires 0 <= s.latest && NewRange(s, input).Range?
    ensures Traced(s, FetchNew(s, env, input).book) && Traced(FetchNew(s, env, input).book, NewPart(s, env, input))
    ensures Traced(s, NewPart(s, env, input)) && 0 <= FetchNew(s, env, input).book.latest
  {
    var r, fetched := NewRange(s, input), FetchNew(s, env, input).book;
    FetchTraced(s, env, NewAnswer(input, r.from, r.to));
    FetchFollows(s, env, NewAnswer(input, r.from, r.to), r.from, r.to);
    TracedTransitive(s, fetched, NewPart(s, env, input));
  }

  lemma NewPartSafeIff(s: Book, env: Env, input: Input)
    requires Safe(s) && NewRange(s, input).Range?
    ensures Safe(NewPart(s, env, input))
        <==> NoGap(s, env, NewAnswer(input, NewRange(s, input).from, NewRange(s, input).to))
  {
    var r, fetched := NewRange(s, input), FetchNew(s, env, input).book;
    FetchSafeIff(s, env, NewAnswer(input, r.from, r.to));
    NewPartTraced(s, env, input);
    if Safe(fetched) {
      MarkSafe(fetched, env, HeightsFromTo(r.from, r.to));
    }
    if Safe(NewPart(s, env, input)) {
      SafeBetween(s, fetched, NewPart(s, env, input));
    }
  }

  lemma RetryTraced(s: Book, env: Env, input: Input, h: int)
    ensures var fetched := Fetch(s, env, RetryAnswer(input, h)).book;
            && Traced(s, fetched) && Traced(fetched, RetryHeight(s, env, input, h))
                && Traced(s, RetryHeight(s, env, input, h))
            && s.latest <= fetched.latest
  {
    var fetched := Fetch(s, env, RetryAnswer(input, h)).book;
    FetchTraced(s, env, RetryAnswer(input, h));
    FetchFollows(s, env, RetryAnswer(input, h), h, h);
    TracedTransitive(s, fetched, RetryHeight(s, env, input, h));
  }

  lemma RetrySafeIff(s: Book, env: Env, input: Input, h: int)
    requires Safe(s)
    ensures Safe(RetryHeight(s, env, input, h)) <==> NoGap(s, env, RetryAnswer(input, h))
  {
    var fetched := Fetch(s, env, RetryAnswer(input, h)).book;
    FetchSafeIff(s, env, RetryAnswer(input, h));
    RetryTraced(s, env, input, h);
    if Safe(fetched) {
      RemoveSafe(fetched, env, h);
      MarkSafe(fetched, env, [h]);
    }
    if Safe(RetryHeight(s, env, input, h)) {
      SafeBetween(s, fetched, RetryHeight(s, env, input, h));
    }
  }

  /** No gap in what the round fetches as new blocks, and none below the height it retries. */
  ghost predicate RoundLeavesNoGap(s: Book, env: Env, input: Input)
    requires 0 <= s.latest
  {
    && (NewRange(s, input).Range? ==> NoGap(s, env, NewAnswer(input, NewRange(s, input).from, NewRange(s, input).to)))
    && (Selected(s, env, input) > 0 ==>
        NoGap(BeforeRetry(s, env, input), env, RetryAnswer(input, Selected(s, env, input))))
  }

  lemma RoundTraced(s: Book, env: Env, input: Input)
    requires 0 <= s.latest
    ensures Traced(s, BeforeRetry(s, env, input)) && Traced(BeforeRetry(s, env, input), Round(s, env, input))
    ensures Traced(s, Round(s, env, input)) && s.latest <= BeforeRetry(s, env, input).latest
  {
    var before := BeforeRetry(s, env, input);
    if NewRange(s, input).Range? {
      NewPartTraced(s, env, input);
      NewPartGrows(s, env, input);
    }
    RetryTraced(before, env, input, RetryTarget(before, input));
    TracedTransitive(s, before, Round(s, env, input));
  }

  lemma RoundSafeIff(s: Book, env: Env, input: Input)
    requires Safe(s)
    ensures Safe(Round(s, env, input)) <==> RoundLeavesNoGap(s, env, input)
  {
    var before := BeforeRetry(s, env, input);
    RoundTraced(s, env, input);
    if NewRange(s, input).Range? {
      NewPartSafeIff(s, env, input);
    }
    if Safe(Round(s, env, input)) {
      SafeBetween(s, before, Round(s, env, input));
    }
    if Safe(before) && Selected(s, env, input) > 0 {
      RetrySafeIff(before, env, input, Selected(s, env, input));
    }
  }

  // ---- whole runs

  ghost predicate RunLeavesNoGap(env: Env, inputs: seq<Input>) {
    inputs != [] ==>
      && RunLeavesNoGap(env, inputs[..|inputs| - 1])
      && RoundLeavesNoGap(RunRounds(START, env, inputs[..|inputs| - 1]), env, inputs[|inputs| - 1])
  }

  lemma {:induction false} RunTraced(env: Env, inputs: seq<Input>)
    ensures Traced(START, RunRounds(START, env, inputs))
  {
    if inputs != [] {
      var init := inputs[..|inputs| - 1];
      RunTraced(env, init);
      RoundTraced(RunRounds(START, env, init), env, inputs[|inputs| - 1]);
      TracedTransitive(START, RunRounds(START, env, init), RunRounds(START, env, inputs));
    }
  }

  /** Over any run from an empty database, with any answers and any mix of applied, refused and lost calls: every write
      leaves each height up to the latest block indexed, failed or dropped, exactly if no round leaves a gap. */
  lemma {:induction false} RunSafeIff(env: Env, inputs: seq<Input>)
    ensures Safe(RunRounds(START, env, inputs)) <==> RunLeavesNoGap(env, inputs)
  {
    if inputs != [] {
      var init, last := inputs[..|inputs| - 1], inputs[|inputs| - 1];
      var s := RunRounds(START, env, init);
      RunSafeIff(env, init);
      RunTraced(env, init);
      RoundTraced(s, env, last);
      if Safe(RunRounds(START, env, inputs)) {
        SafeBetween(START, s, RunRounds(START, env, inputs));
      }
      if Safe(s) {
        RoundSafeIff(s, env, last);
      }
    }
  }
}
