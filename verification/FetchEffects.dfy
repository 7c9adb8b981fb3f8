/** What a fetch will do, foretold from the answer and the fate of the calls it makes: neither the book nor the
    result of any step is looked at. `c` is the number of the first call. */
module FetchEffects {
  import opened Common
  import opened BlockBook
  import opened QueryService
  import opened Rounds
  import opened Coverage

  predicate Reported(env: Env, c: nat) { env(c).outcome.Reported() }

  predicate Lands(env: Env, c: nat) { env(c).outcome.Lands() }

  // ---- recording failed heights

  predicate MarkReported(env: Env, c: nat, heights: seq<int>) {
    heights == [] || (!HasDuplicates(heights) && Reported(env, c))
  }

  predicate MarkLands(env: Env, c: nat, heights: seq<int>, h: int) {
    h in heights && !HasDuplicates(heights) && Lands(env, c)
  }

  function MarkCalls(heights: seq<int>): nat { if heights == [] then 0 else 1 }

  // ---- one block with transactions

  /** How many of the next calls succeed before the first that does not, `limit` at most. */
  function ReportedInARow(env: Env, c: nat, limit: nat): (n: nat)
    ensures n <= limit
    decreases limit
  {
    if limit == 0 || !Reported(env, c) then 0 else 1 + ReportedInARow(env, c + 1, limit - 1)
  }

  /** The rows are accepted and inserted, and the three statements after them succeed. */
  predicate ReachesCommit(env: Env, c: nat, valid: bool) {
    valid && Reported(env, c) && ReportedInARow(env, c + 1, STATEMENTS_AFTER_ROWS) == STATEMENTS_AFTER_ROWS
  }

  /** The calls of the transaction, the one that fails or the commit included. */
  function TransactionCalls(env: Env, c: nat, valid: bool): (n: nat)
    ensures n >= 1
  {
    if !valid || !Reported(env, c) then 1
    else if ReachesCommit(env, c, valid) then 2 + STATEMENTS_AFTER_ROWS
    else 2 + ReportedInARow(env, c + 1, STATEMENTS_AFTER_ROWS)
  }

  predicate TransactionLands(env: Env, c: nat, valid: bool) {
    ReachesCommit(env, c, valid) && Lands(env, c + 1 + STATEMENTS_AFTER_ROWS)
  }

  predicate TransactionReported(env: Env, c: nat, valid: bool) {
    ReachesCommit(env, c, valid) && Reported(env, c + 1 + STATEMENTS_AFTER_ROWS)
  }

  // ---- one block

  /** A block with transactions gets as far as its transaction. */
  predicate Begins(env: Env, c: nat) {
    Reported(env, c) && Reported(env, c + 1)
  }

  predicate BlockLands(env: Env, c: nat, b: BlockAnswer) {
    if b.empty then Lands(env, c) else Begins(env, c) && TransactionLands(env, c + 2, b.valid)
  }

  /** The transaction fails, is rolled back or ends in doubt, and the insert that records this takes effect. */
  predicate BlockMarked(env: Env, c: nat, b: BlockAnswer) {
    && !b.empty && Begins(env, c) && !TransactionReported(env, c + 2, b.valid)
    && Lands(env, c + 2 + TransactionCalls(env, c + 2, b.valid))
  }

  /** No fatal error: the block is done with, indexed or recorded as failed. */
  predicate BlockReported(env: Env, c: nat, b: BlockAnswer) {
    if b.empty then Reported(env, c)
    else
      && Begins(env, c)
      && (|| TransactionReported(env, c + 2, b.valid)
          || Reported(env, c + 2 + TransactionCalls(env, c + 2, b.valid)))
  }

  function BlockCalls(env: Env, c: nat, b: BlockAnswer): nat {
    if b.empty || !Reported(env, c) then 1
    else if !Reported(env, c + 1) then 2
    else 2 + TransactionCalls(env, c + 2, b.valid) + if TransactionReported(env, c + 2, b.valid) then 0 else 1
  }

  // ---- blocks in the order in which they are processed

  predicate BlocksReported(env: Env, c: nat, blocks: seq<BlockAnswer>)
    decreases |blocks|
  {
    blocks != [] ==>
      && BlockReported(env, c, blocks[0])
      && BlocksReported(env, c + BlockCalls(env, c, blocks[0]), blocks[1..])
  }

  function BlocksCalls(env: Env, c: nat, blocks: seq<BlockAnswer>): nat
    decreases |blocks|
  {
    if blocks == [] then 0
    else
      BlockCalls(env, c, blocks[0])
      + if BlockReported(env, c, blocks[0]) then BlocksCalls(env, c + BlockCalls(env, c, blocks[0]), blocks[1..]) else 0
  }

  /** A block of height h is reached and takes effect. */
  predicate SomeLands(env: Env, c: nat, blocks: seq<BlockAnswer>, h: int)
    decreases |blocks|
  {
    && blocks != []
    && (|| (blocks[0].height == h && BlockLands(env, c, blocks[0]))
        || (BlockReported(env, c, blocks[0]) && SomeLands(env, c + BlockCalls(env, c, blocks[0]), blocks[1..], h)))
  }

  /** A block of height h is reached and recorded as failed. */
  predicate SomeMarked(env: Env, c: nat, blocks: seq<BlockAnswer>, h: int)
    decreases |blocks|
  {
    && blocks != []
    && (|| (blocks[0].height == h && BlockMarked(env, c, blocks[0]))
        || (BlockReported(env, c, blocks[0]) && SomeMarked(env, c + BlockCalls(env, c, blocks[0]), blocks[1..], h)))
  }

  // ---- a whole fetch

  /** The error and missing heights are recorded, as far as the caller sees. */
  predicate MarkingReported(env: Env, c: nat, answer: Answer)
    requires answer.Answer?
  {
    MarkReported(env, c, answer.errors) && MarkReported(env, c + MarkCalls(answer.errors), answer.missing)
  }

  function MarkingCalls(env: Env, c: nat, answer: Answer): nat
    requires answer.Answer?
  {
    MarkCalls(answer.errors) + if MarkReported(env, c, answer.errors) then MarkCalls(answer.missing) else 0
  }

  /** The fetch of the answer ends without a fatal error. */
  predicate FetchReported(env: Env, c: nat, answer: Answer) {
    && answer.Answer? && MarkingReported(env, c, answer)
    && BlocksReported(env, c + MarkingCalls(env, c, answer), SortByHeight(answer.blocks))
  }

  function FetchCalls(env: Env, c: nat, answer: Answer): nat {
    if answer.NoAnswer? then 0
    else if !MarkingReported(env, c, answer) then MarkingCalls(env, c, answer)
    else MarkingCalls(env, c, answer) + BlocksCalls(env, c + MarkingCalls(env, c, answer), SortByHeight(answer.blocks))
  }

  /** The fetch indexes height h. */
  predicate FetchLands(env: Env, c: nat, answer: Answer, h: int) {
    && answer.Answer? && MarkingReported(env, c, answer)
    && SomeLands(env, c + MarkingCalls(env, c, answer), SortByHeight(answer.blocks), h)
  }

  /** The fetch records h as an error or missing height. */
  predicate FetchMarksFirst(env: Env, c: nat, answer: Answer, h: int)
    requires answer.Answer?
  {
    || MarkLands(env, c, answer.errors, h)
    || (MarkReported(env, c, answer.errors) && MarkLands(env, c + MarkCalls(answer.errors), answer.missing, h))
  }

  /** The fetch records height h as failed. */
  predicate FetchMarks(env: Env, c: nat, answer: Answer, h: int) {
    && answer.Answer?
    && (|| FetchMarksFirst(env, c, answer, h)
        || (&& MarkingReported(env, c, answer)
            && SomeMarked(env, c + MarkingCalls(env, c, answer), SortByHeight(answer.blocks), h)))
  }

  // ---- the book does what is foretold

  /** What happened to height g between two books. */
  predicate Changed(before: Book, after: Book, g: int, lands: bool, marks: bool) {
    && (g in after.indexed <==> g in before.indexed || lands)
    && (after.Accounts(g) <==> before.Accounts(g) || lands || marks)
    && (g in after.failed ==> g in before.failed || marks)
    && (g in before.failed || marks ==> g in after.failed || lands)
    && before.latest <= after.latest
    && (lands ==> g <= after.latest)
    && (after.latest == g ==> before.latest == g || lands)
    && after.dropped == before.dropped
    && (g in before.failed && !lands ==> RecordGrows(before, after, g))
  }

  /** The record of g is still there, with no fewer retries and no earlier time. */
  predicate RecordGrows(before: Book, after: Book, g: int)
    requires g in before.failed
  {
    && g in after.failed
    && before.failed[g].retryCount <= after.failed[g].retryCount
    && before.failed[g].lastRetry <= after.failed[g].lastRetry
  }

  lemma ChangedTwice(a: Book, b: Book, c: Book, g: int, lands: bool, marks: bool, thenLands: bool, thenMarks: bool)
    requires Changed(a, b, g, lands, marks) && Changed(b, c, g, thenLands, thenMarks)
    ensures Changed(a, c, g, lands || thenLands, marks || thenMarks)
  {
  }

  lemma MarkForetold(s: Book, env: Env, heights: seq<int>, g: int)
    ensures var d := MarkIfAny(s, env, heights);
            && d.ok == MarkReported(env, s.calls, heights) && d.book.calls == s.calls + MarkCalls(heights)
            && Changed(s, d.book, g, false, MarkLands(env, s.calls, heights, g))
  {
    UpsertedFailed(s.failed, heights, env(s.calls).now);
  }

  lemma {:induction false} StatementsForetold(s: Book, env: Env, left: nat)
    ensures var n := ReportedInARow(env, s.calls, left);
            TxStatements(s, env, left) == Done(s.(calls := s.calls + if n == left then n else n + 1), n == left)
    decreases left
  {
    if left > 0 && Reported(env, s.calls) {
      StatementsForetold(Idle(s), env, left - 1);
    }
  }

  lemma TransactionForetold(s: Book, env: Env, h: int, valid: bool, g: int)
    ensures var d := BlockTransaction(s, env, h, valid);
            && d.ok == TransactionReported(env, s.calls, valid)
            && d.book.calls == s.calls + TransactionCalls(env, s.calls, valid)
            && Changed(s, d.book, g, g == h && TransactionLands(env, s.calls, valid), false)
  {
    StatementsForetold(Idle(s), env, STATEMENTS_AFTER_ROWS);
  }

  /** The end `d` of indexing a block from s is as foretold. */
  ghost predicate BlockTold(s: Book, d: Done, env: Env, b: BlockAnswer, g: int) {
    && d.ok == BlockReported(env, s.calls, b)
    && d.book.calls == s.calls + BlockCalls(env, s.calls, b)
    && Changed(s, d.book, g, g == b.height && BlockLands(env, s.calls, b),
               g == b.height && BlockMarked(env, s.calls, b))
  }

  ghost predicate BlocksTold(s: Book, d: Done, env: Env, blocks: seq<BlockAnswer>, g: int) {
    && d.ok == BlocksReported(env, s.calls, blocks)
    && d.book.calls == s.calls + BlocksCalls(env, s.calls, blocks)
    && Changed(s, d.book, g, SomeLands(env, s.calls, blocks, g), SomeMarked(env, s.calls, blocks, g))
  }

  lemma TransactionThenMark(s: Book, tx: Done, last: Done, env: Env, b: BlockAnswer, g: int)
    requires !b.empty && Begins(env, s.calls) && tx.ok == TransactionReported(env, s.calls + 2, b.valid)
    requires tx.book.calls == s.calls + 2 + TransactionCalls(env, s.calls + 2, b.valid)
    requires Changed(s, tx.book, g, g == b.height && TransactionLands(env, s.calls + 2, b.valid), false)
    requires if tx.ok then last == tx else
               && last.ok == Reported(env, tx.book.calls) && last.book.calls == tx.book.calls + 1
               && Changed(tx.book, last.book, g, false, g == b.height && Lands(env, tx.book.calls))
    ensures BlockTold(s, last, env, b, g)
  {
    if !tx.ok {
      ChangedTwice(s, tx.book, last.book, g, g == b.height && TransactionLands(env, s.calls + 2, b.valid), false,
                   false, g == b.height && Lands(env, tx.book.calls));
    }
  }

  lemma BlockForetold(s: Book, env: Env, b: BlockAnswer, g: int)
    ensures BlockTold(s, IndexBlock(s, env, b), env, b, g)
  {
    if !b.empty && Begins(env, s.calls) {
      var begun := Idle(Idle(s));
      var tx := BlockTransaction(begun, env, b.height, b.valid);
      TransactionForetold(begun, env, b.height, b.valid, g);
      MarkForetold(tx.book, env, [b.height], g);
      assert !HasDuplicates([b.height]);
      TransactionThenMark(s, tx, IndexBlock(s, env, b), env, b, g);
    }
  }

  /** What the first block and the rest of a list foretell of the list. */
  lemma NextBlocks(env: Env, c: nat, blocks: seq<BlockAnswer>, h: int)
    requires blocks != []
    ensures var b, rest := blocks[0], blocks[1..];
            var next := c + BlockCalls(env, c, b);
            var on := BlockReported(env, c, b);
            && BlocksReported(env, c, blocks) == (on && BlocksReported(env, next, rest))
            && BlocksCalls(env, c, blocks) == BlockCalls(env, c, b) + (if on then BlocksCalls(env, next, rest) else 0)
            && SomeLands(env, c, blocks, h)
               == ((h == b.height && BlockLands(env, c, b)) || (on && SomeLands(env, next, rest, h)))
            && SomeMarked(env, c, blocks, h)
               == ((h == b.height && BlockMarked(env, c, b)) || (on && SomeMarked(env, next, rest, h)))
  {
  }

  lemma FirstAndRest(s: Book, first: Done, last: Done, env: Env, blocks: seq<BlockAnswer>, g: int)
    requires blocks != [] && BlockTold(s, first, env, blocks[0], g)
    requires if first.ok then BlocksTold(first.book, last, env, blocks[1..], g) else last == first
    ensures BlocksTold(s, last, env, blocks, g)
  {
    var b, c := blocks[0], first.book.calls;
    NextBlocks(env, s.calls, blocks, g);
    if first.ok {
      ChangedTwice(s, first.book, last.book, g,
                   g == b.height && BlockLands(env, s.calls, b), g == b.height && BlockMarked(env, s.calls, b),
                   SomeLands(env, c, blocks[1..], g), SomeMarked(env, c, blocks[1..], g));
    }
  }

  lemma {:induction false} BlocksForetold(s: Book, env: Env, blocks: seq<BlockAnswer>, g: int)
    ensures BlocksTold(s, IndexBlocks(s, env, blocks), env, blocks, g)
    decreases |blocks|
  {
    if blocks != [] {
      BlockForetold(s, env, blocks[0], g);
      if IndexBlock(s, env, blocks[0]).ok {
        BlocksForetold(IndexBlock(s, env, blocks[0]).book, env, blocks[1..], g);
      }
      FirstAndRest(s, IndexBlock(s, env, blocks[0]), IndexBlocks(s, env, blocks), env, blocks, g);
    }
  }

  lemma MarkedForetold(s: Book, env: Env, answer: Answer, g: int)
    requires answer.Answer?
    ensures var d := Marked(s, env, answer);
            && d.ok == MarkingReported(env, s.calls, answer)
                && d.book.calls == s.calls + MarkingCalls(env, s.calls, answer)
            && Changed(s, d.book, g, false, FetchMarksFirst(env, s.calls, answer, g))
  {
    MarkForetold(s, env, answer.errors, g);
    MarkForetold(MarkIfAny(s, env, answer.errors).book, env, answer.missing, g);
  }

  lemma MarkedThenBlocks(s: Book, marked: Done, last: Done, env: Env, answer: Answer, g: int)
    requires answer.Answer? && marked.ok == MarkingReported(env, s.calls, answer)
    requires marked.book.calls == s.calls + MarkingCalls(env, s.calls, answer)
    requires Changed(s, marked.book, g, false, FetchMarksFirst(env, s.calls, answer, g))
    requires if marked.ok then BlocksTold(marked.book, last, env, SortByHeight(answer.blocks), g) else last == marked
    ensures last.ok == FetchReported(env, s.calls, answer)
    ensures last.book.calls == s.calls + FetchCalls(env, s.calls, answer)
    ensures Changed(s, last.book, g, FetchLands(env, s.calls, answer, g), FetchMarks(env, s.calls, answer, g))
  {
    if marked.ok {
      var c, blocks := marked.book.calls, SortByHeight(answer.blocks);
      ChangedTwice(s, marked.book, last.book, g, false, FetchMarksFirst(env, s.calls, answer, g),
                   SomeLands(env, c, blocks, g), SomeMarked(env, c, blocks, g));
    }
  }

  /** Whatever the book: a fetch ends as foretold, and at every height it changes exactly what is foretold. */
  lemma FetchForetold(s: Book, env: Env, answer: Answer, g: int)
    ensures var d := Fetch(s, env, answer);
            && d.ok == FetchReported(env, s.calls, answer) && d.book.calls == s.calls + FetchCalls(env, s.calls, answer)
            && Changed(s, d.book, g, FetchLands(env, s.calls, answer, g), FetchMarks(env, s.calls, answer, g))
  {
    if answer.Answer? {
      MarkedForetold(s, env, answer, g);
      var marked := Marked(s, env, answer);
      if marked.ok {
        BlocksForetold(marked.book, env, SortByHeight(answer.blocks), g);
      }
      MarkedThenBlocks(s, marked, Fetch(s, env, answer), env, answer, g);
    }
  }

  lemma OneBlock(env: Env, c: nat, b: BlockAnswer, h: int)
    ensures BlocksReported(env, c, [b]) == BlockReported(env, c, b)
    ensures BlocksCalls(env, c, [b]) == BlockCalls(env, c, b)
    ensures SomeLands(env, c, [b], h) == (b.height == h && BlockLands(env, c, b))
  {
    assert [b][1..] == [];
  }

  lemma DeliversOne(env: Env, c: nat, b: BlockAnswer, h: int)
    ensures var answer := Answer([b], [], []);
            && FetchReported(env, c, answer) == BlockReported(env, c, b)
            && FetchCalls(env, c, answer) == BlockCalls(env, c, b)
            && FetchLands(env, c, answer, h) == (b.height == h && BlockLands(env, c, b))
  {
    SortedIsFixed([b]);
    OneBlock(env, c, b, h);
  }

  // ---- only delivered heights land, only mentioned ones are recorded

  lemma {:induction false} BlocksWithin(env: Env, c: nat, blocks: seq<BlockAnswer>, h: int)
    requires SomeLands(env, c, blocks, h) || SomeMarked(env, c, blocks, h)
    ensures HasBlock(blocks, h)
    decreases |blocks|
  {
    if blocks[0].height != h {
      BlocksWithin(env, c + BlockCalls(env, c, blocks[0]), blocks[1..], h);
      var i :| 0 <= i < |blocks| - 1 && blocks[1..][i].height == h;
      assert blocks[i + 1].height == h;
    }
  }

  lemma LandsWithin(env: Env, c: nat, answer: Answer, h: int)
    requires FetchLands(env, c, answer, h)
    ensures HasBlock(answer.blocks, h)
  {
    BlocksWithin(env, c + MarkingCalls(env, c, answer), SortByHeight(answer.blocks), h);
    SortedHasBlock(answer.blocks, h);
  }

  lemma MarksWithin(env: Env, c: nat, answer: Answer, h: int)
    requires FetchMarks(env, c, answer, h)
    ensures Mentioned(answer, h)
  {
    if !(h in answer.errors || h in answer.missing) {
      BlocksWithin(env, c + MarkingCalls(env, c, answer), SortByHeight(answer.blocks), h);
      SortedHasBlock(answer.blocks, h);
    }
  }
}
