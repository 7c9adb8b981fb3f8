/** Concrete runs in which the code loses a height for good. */
module LossExamples {
  import opened Common
  import opened RangeFinder
  import opened BlockBook
  import opened QueryService
  import opened Rounds
  import opened Coverage
  import opened CoverageRuns
  import opened HealthyRounds
  import opened FetchEffects
  import opened ExactLosses
  import opened Batches
  import opened Acceptance
  import opened Deliveries
  import opened RowBuilding

  function Served(upstream: int, answer: Raw, retryEnabled: bool, now: int, retryAnswer: Raw): Input {
    Input(true, false, upstream, (lo: int, hi: int) => false, (lo: int, hi: int) => answer, None,
          retryEnabled, false, now, (lo: int, hi: int) => retryAnswer)
  }

  /** The range of a round whose endpoint knows `upstream` blocks, none of the next ones having failed. */
  lemma FreshRange(s: Book, input: Input, to: int)
    requires 0 <= s.latest < to <= s.latest + MAX_BLOCKS_PER_BATCH
    requires input.readable && !input.postponed && !input.windowFails(s.latest + 1, to) && to == input.upstream
    requires forall h :: s.latest < h <= to ==> h !in s.failed
    ensures NewRange(s, input) == Range(s.latest + 1, to)
  {
    var failed := FailedInRange(s.failed, s.latest + 1, to);
    assert FailedQuery(s.failed, input)(s.latest + 1, to) == Some(failed);
    ClosestUnique(s.latest + 1, to, failed, Range(s.latest + 1, to));
  }

  lemma OneEmptyBlock(s: Book, env: Env, h: int)
    requires env(s.calls).outcome == Applied
    ensures IndexBlocks(s, env, SortByHeight([BlockAnswer(h, true, true)]))
         == Done(Book(Max(s.latest, h), s.failed, s.indexed + {h}, s.dropped, s.calls + 1,
                      s.trail + [View(Max(s.latest, h), s.failed.Keys, s.indexed + {h}, s.dropped)]), true)
  {
    var blocks := [BlockAnswer(h, true, true)];
    SortedIsFixed(blocks);
    assert blocks[1..] == [];
    assert IndexBlock(s, env, blocks[0]) == RaiseLatest(s, env, h);
  }

  lemma MarkFirst(s: Book, env: Env, h: int)
    requires s.failed == map[] && env(s.calls).outcome == Applied
    ensures MarkIfAny(s, env, [h])
         == Done(Book(s.latest, map[h := FailedRow(0, env(s.calls).now)], s.indexed, s.dropped, s.calls + 1,
                      s.trail + [View(s.latest, {h}, s.indexed, s.dropped)]), true)
  {
    assert !HasDuplicates([h]);
    assert UpsertFailed(map[], [h], env(s.calls).now) == map[h := FailedRow(0, env(s.calls).now)] by {
      assert [h][..0] == [];
    }
    assert map[h := FailedRow(0, env(s.calls).now)].Keys == {h};
  }

  lemma OnlyTarget(s: Book, input: Input, h: int)
    requires input.retryEnabled && !input.selectFails && h > 0
    requires s.failed.Keys == {h} && Eligible(s.failed, input.selectNow, h)
    ensures RetryTarget(s, input) == h
  {
  }

  // ---- a retry that is answered "missing"

  function AllApplied(n: nat): Call { Call(Applied, 0) }

  /** Height 1 is missing; later, the retry of height 1 finds it missing again. */
  function MissingTwice(): seq<Input> {
    [Served(2, Raw([RawBlock(Some(2), true, true)], [1], []), false, 0, Rejected),
     Served(2, Rejected, true, 61, Raw([], [1], []))]
  }

  function AfterMissing(): Book {
    Book(2, map[1 := FailedRow(0, 0)], {2}, {}, 2, [View(0, {1}, {}, {}), View(2, {1}, {2}, {})])
  }

  lemma MissingAnswer()
    ensures NewRange(START, MissingTwice()[0]) == Range(1, 2)
    ensures NewAnswer(MissingTwice()[0], 1, 2) == Answer([BlockAnswer(2, true, true)], [1], [])
    ensures CompleteNew(START, MissingTwice()[0])
  {
    var input := MissingTwice()[0];
    FreshRange(START, input, 2);
    assert input.serveNew(1, 2) == Raw([RawBlock(Some(2), true, true)], [1], []);
    assert BlocksOf([RawBlock(Some(2), true, true)]) == [BlockAnswer(2, true, true)];
    var answer := NewAnswer(input, 1, 2);
    assert answer.blocks[0].height == 2 && answer.missing[0] == 1;
    CompleteNewAnswer(START, input);
  }

  lemma FirstMissing()
    ensures Round(START, AllApplied, MissingTwice()[0]) == AfterMissing()
  {
    var env := AllApplied;
    MissingAnswer();
    MarkFirst(START, env, 1);
    var marked := MarkIfAny(START, env, [1]).book;
    OneEmptyBlock(marked, env, 2);
    assert marked.indexed + {2} == {2} && marked.failed.Keys == {1};
  }

  lemma MissingIsWellBehaved()
    ensures WellBehaved(START, AllApplied, MissingTwice())
  {
    var inputs, s := MissingTwice(), AfterMissing();
    MissingAnswer();
    FirstMissing();
    assert CompleteNew(START, inputs[0]) && MarkingLands(START, AllApplied, inputs[0]);
    assert CompleteNew(s, inputs[1]) && MarkingLands(s, AllApplied, inputs[1]) by {
      assert inputs[1].upstream <= s.latest;
    }
    TwoRounds(AllApplied, inputs);
  }

  lemma MissingAgain()
    ensures var end := RetryHeight(AfterMissing(), AllApplied, MissingTwice()[1], 1);
            Gone(end, 1) && end.dropped == {1}
  {
    var s, input := AfterMissing(), MissingTwice()[1];
    var answer := RetryAnswer(input, 1);
    assert input.serveRetry(1, 1) == Raw([], [1], []);
    assert answer == Answer([], [1], []);
    RetryOutcome(s, AllApplied, input, 1);
    FetchFollows(s, AllApplied, answer, 1, 1);
  }

  lemma SecondRoundRetries()
    ensures Round(AfterMissing(), AllApplied, MissingTwice()[1])
         == RetryHeight(AfterMissing(), AllApplied, MissingTwice()[1], 1)
  {
    var s, input := AfterMissing(), MissingTwice()[1];
    assert s.failed.Keys == {1};
    OnlyTarget(s, input, 1);
  }

  /** Every database call succeeds and every answer is complete, yet block 1 is dropped without being indexed. */
  lemma RetryLosesHeight()
    ensures var end := RunRounds(START, AllApplied, MissingTwice());
            WellBehaved(START, AllApplied, MissingTwice()) && Gone(end, 1) && end.dropped == {1}
  {
    MissingIsWellBehaved();
    FirstMissing();
    TwoRounds(AllApplied, MissingTwice());
    SecondRoundRetries();
    MissingAgain();
  }

  lemma TwoRounds(env: Env, inputs: seq<Input>)
    requires |inputs| == 2
    ensures 0 <= Round(START, env, inputs[0]).latest
    ensures RunRounds(START, env, inputs) == Round(Round(START, env, inputs[0]), env, inputs[1])
    ensures CompleteNew(START, inputs[0]) && MarkingLands(START, env, inputs[0])
            && CompleteNew(Round(START, env, inputs[0]), inputs[1])
                && MarkingLands(Round(START, env, inputs[0]), env, inputs[1])
            ==> WellBehaved(START, env, inputs)
  {
    RoundGrows(START, env, inputs[0]);
    assert inputs[..0] == [] && RunRounds(START, env, []) == START;
    assert inputs[..1] == [inputs[0]] && inputs[..1][..0] == [];
    assert RunRounds(START, env, inputs[..1]) == Round(RunRounds(START, env, []), env, inputs[0]);
  }

  // ---- a marking insert that is refused

  /** The second and third database calls are refused: recording the missing block, then marking the range. */
  function TwoRefused(n: nat): Call { Call(if n == 1 || n == 2 then Refused else Applied, 0) }

  /** Of blocks 1 to 3 the first is missing and the last an error; then an endpoint that knows one block only. */
  function MarkingRefused(): seq<Input> {
    [Served(3, Raw([RawBlock(Some(2), true, true)], [1], [3]), false, 0, Rejected),
     Served(1, Raw([RawBlock(Some(1), true, true)], [], []), true, 61, Raw([RawBlock(Some(3), true, true)], [], []))]
  }

  function AfterRefusal(): Book {
    Book(0, map[3 := FailedRow(0, 0)], {}, {}, 3, [View(0, {3}, {}, {})])
  }

  lemma RefusedAnswer()
    ensures NewRange(START, MarkingRefused()[0]) == Range(1, 3)
    ensures NewAnswer(MarkingRefused()[0], 1, 3) == Answer([BlockAnswer(2, true, true)], [1], [3])
    ensures CompleteNew(START, MarkingRefused()[0])
  {
    var input := MarkingRefused()[0];
    FreshRange(START, input, 3);
    assert input.serveNew(1, 3) == Raw([RawBlock(Some(2), true, true)], [1], [3]);
    assert BlocksOf([RawBlock(Some(2), true, true)]) == [BlockAnswer(2, true, true)];
    var answer := NewAnswer(input, 1, 3);
    assert answer.blocks[0].height == 2 && answer.missing[0] == 1 && answer.errors[0] == 3;
    CompleteNewAnswer(START, input);
  }

  lemma FatalRound()
    ensures NewRange(START, MarkingRefused()[0]) == Range(1, 3)
    ensures CompleteNew(START, MarkingRefused()[0])
    ensures Round(START, TwoRefused, MarkingRefused()[0]) == AfterRefusal()
  {
    var env := TwoRefused;
    RefusedAnswer();
    MarkFirst(START, env, 3);
    var marked := MarkIfAny(START, env, [3]).book;
    assert MarkIfAny(marked, env, [1]) == Done(Idle(marked), false);
  }

  function AfterShortEndpoint(): Book {
    Book(1, map[3 := FailedRow(0, 0)], {1}, {}, 4, [View(0, {3}, {}, {}), View(1, {3}, {1}, {})])
  }

  lemma ShortEndpoint()
    ensures NewRange(AfterRefusal(), MarkingRefused()[1]) == Range(1, 1)
    ensures FetchNew(AfterRefusal(), TwoRefused, MarkingRefused()[1]) == Done(AfterShortEndpoint(), true)
    ensures CompleteNew(AfterRefusal(), MarkingRefused()[1])
  {
    var input, env := MarkingRefused()[1], TwoRefused;
    FreshRange(AfterRefusal(), input, 1);
    var answer := Answer([BlockAnswer(1, true, true)], [], []);
    assert NewAnswer(input, 1, 1) == answer by {
      assert input.serveNew(1, 1) == Raw([RawBlock(Some(1), true, true)], [], []);
      assert BlocksOf([RawBlock(Some(1), true, true)]) == [BlockAnswer(1, true, true)];
    }
    assert answer.blocks[0].height == 1;
    CompleteNewAnswer(AfterRefusal(), input);
    assert map[3 := FailedRow(0, 0)].Keys == {3};
    OneEmptyBlock(AfterRefusal(), env, 1);
    assert AfterRefusal().indexed + {1} == {1};
  }

  lemma RetryJumpsAhead()
    ensures var end := RetryPart(AfterShortEndpoint(), TwoRefused, MarkingRefused()[1]);
            end.latest == 3 && Gone(end, 2) && 2 !in end.dropped
  {
    var s, input, env := AfterShortEndpoint(), MarkingRefused()[1], TwoRefused;
    assert s.failed.Keys == {3};
    OnlyTarget(s, input, 3);
    var answer := Answer([BlockAnswer(3, true, true)], [], []);
    assert RetryAnswer(input, 3) == answer by {
      assert input.serveRetry(3, 3) == Raw([RawBlock(Some(3), true, true)], [], []);
      assert BlocksOf([RawBlock(Some(3), true, true)]) == [BlockAnswer(3, true, true)];
    }
    OneEmptyBlock(s, env, 3);
  }

  lemma SecondOfRefused()
    ensures Round(AfterRefusal(), TwoRefused, MarkingRefused()[1])
         == RetryPart(AfterShortEndpoint(), TwoRefused, MarkingRefused()[1])
    ensures CompleteNew(AfterRefusal(), MarkingRefused()[1])
  {
    ShortEndpoint();
  }

  /** All answers are complete, but the insert that marks a range after a fatal error is refused, which the program
      calls not critical. Block 2 then ends up below the latest block, neither indexed, failed nor dropped. */
  lemma RefusedMarkingSkipsHeight()
    ensures var s, end := Round(START, TwoRefused, MarkingRefused()[0]), RunRounds(START, TwoRefused, MarkingRefused());
            && 0 <= s.latest
            && CompleteNew(START, MarkingRefused()[0]) && CompleteNew(s, MarkingRefused()[1])
            && !Covered(end.Now()) && Gone(end, 2) && 2 !in end.dropped
  {
    FatalRound();
    TwoRounds(TwoRefused, MarkingRefused());
    SecondOfRefused();
    RetryJumpsAhead();
    assert !RunRounds(START, TwoRefused, MarkingRefused()).Now().Accounts(2);
  }

  // ---- a block that is delivered twice and not stored either time

  /** Block 1 has transactions, block 2 has none; later, block 1 is delivered again. */
  function DeliveredTwice(valid: bool): seq<Input> { ServedTwice(RawBlock(Some(1), false, valid)) }

  function ServedTwice(block: RawBlock): seq<Input> {
    [Served(2, Raw([block, RawBlock(Some(2), true, true)], [], []), false, 0, Rejected),
     Served(2, Rejected, true, 61, Raw([block], [], []))]
  }

  /** Calls 2 and 7 insert the rows of block 1. */
  predicate OnlyRowsMayFail(env: Env) {
    forall n: nat :: n <= 9 && n != 2 && n != 7 ==> env(n) == Call(Applied, 0)
  }

  predicate RowsFail(env: Env, valid: bool) {
    OnlyRowsMayFail(env) && (!valid || (!Reported(env, 2) && !Reported(env, 7)))
  }

  function AfterFirst(): Book {
    Book(0, map[1 := FailedRow(0, 0)], {}, {}, 4, [View(0, {1}, {}, {})])
  }

  function AfterRollback(): Book {
    Book(2, map[1 := FailedRow(0, 0)], {2}, {}, 5, [View(0, {1}, {}, {}), View(2, {1}, {2}, {})])
  }

  lemma DeliveredAnswer(valid: bool)
    ensures NewRange(START, DeliveredTwice(valid)[0]) == Range(1, 2)
    ensures NewAnswer(DeliveredTwice(valid)[0], 1, 2)
        == Answer([BlockAnswer(1, false, valid), BlockAnswer(2, true, true)], [], [])
    ensures CompleteNew(START, DeliveredTwice(valid)[0])
  {
    var input := DeliveredTwice(valid)[0];
    var raw := [RawBlock(Some(1), false, valid), RawBlock(Some(2), true, true)];
    FreshRange(START, input, 2);
    assert input.serveNew(1, 2) == Raw(raw, [], []);
    assert BlocksOf(raw) == [BlockAnswer(1, false, valid), BlockAnswer(2, true, true)];
    var answer := NewAnswer(input, 1, 2);
    assert answer.blocks[0].height == 1 && answer.blocks[1].height == 2;
    CompleteNewAnswer(START, input);
  }

  lemma RolledBack(env: Env, valid: bool)
    requires RowsFail(env, valid)
    ensures IndexBlock(START, env, BlockAnswer(1, false, valid))
         == Done(AfterFirst(), true)
  {
    var begun := Idle(Idle(START));
    assert Reported(env, 0) && Reported(env, 1) && env(3) == Call(Applied, 0);
    assert InsertRows(begun, env, valid) == Done(Idle(begun), false);
    MarkFirst(Idle(begun), env, 1);
  }

  lemma SecondBlock(env: Env)
    requires env(4).outcome == Applied
    ensures IndexBlocks(AfterFirst(), env, SortByHeight([BlockAnswer(2, true, true)])) == Done(AfterRollback(), true)
  {
    var s := AfterFirst();
    OneEmptyBlock(s, env, 2);
    assert s.calls == 4 && s.failed.Keys == {1} && s.indexed + {2} == {2} && Max(s.latest, 2) == 2;
    assert s.trail + [View(2, {1}, {2}, {})] == AfterRollback().trail;
  }

  lemma BothBlocks(env: Env, valid: bool)
    requires RowsFail(env, valid)
    ensures var blocks := [BlockAnswer(1, false, valid), BlockAnswer(2, true, true)];
            Fetch(START, env, Answer(blocks, [], [])) == Done(AfterRollback(), true)
  {
    var b, c := BlockAnswer(1, false, valid), BlockAnswer(2, true, true);
    SortedIsFixed([b, c]);
    SortedIsFixed([c]);
    RolledBack(env, valid);
    SecondBlock(env);
    assert [b, c][1..] == [c];
  }

  lemma FirstDelivery(env: Env, valid: bool)
    requires RowsFail(env, valid)
    ensures Round(START, env, DeliveredTwice(valid)[0]) == AfterRollback()
  {
    DeliveredAnswer(valid);
    BothBlocks(env, valid);
  }

  lemma SecondDelivery(env: Env, valid: bool)
    requires RowsFail(env, valid)
    ensures var end := RetryHeight(AfterRollback(), env, DeliveredTwice(valid)[1], 1);
            Gone(end, 1) && end.dropped == {1}
  {
    var s, input := AfterRollback(), DeliveredTwice(valid)[1];
    var b, raw := BlockAnswer(1, false, valid), [RawBlock(Some(1), false, valid)];
    assert input.serveRetry(1, 1) == Raw(raw, [], []);
    assert BlocksOf(raw) == [b];
    assert RetryAnswer(input, 1) == Answer([b], [], []);
    assert Reported(env, 5) && Reported(env, 6) && Reported(env, 8) && Lands(env, 9);
    DeliveredBlockLostIff(s, env, input, 1, valid);
    FetchForetold(s, env, RetryAnswer(input, 1), 1);
    FetchFollows(s, env, RetryAnswer(input, 1), 1, 1);
  }

  lemma DeliveryIsRetried(env: Env, valid: bool)
    ensures Round(AfterRollback(), env, DeliveredTwice(valid)[1])
         == RetryHeight(AfterRollback(), env, DeliveredTwice(valid)[1], 1)
  {
    assert AfterRollback().failed.Keys == {1};
    OnlyTarget(AfterRollback(), DeliveredTwice(valid)[1], 1);
  }

  /** The rows of a delivered block fail twice, because they are refused or because their insert is. */
  lemma DeliveredBlockLost(env: Env, valid: bool)
    requires RowsFail(env, valid)
    ensures var end := RunRounds(START, env, DeliveredTwice(valid));
            WellBehaved(START, env, DeliveredTwice(valid)) && Gone(end, 1) && end.dropped == {1}
  {
    var inputs, s := DeliveredTwice(valid), AfterRollback();
    DeliveredAnswer(valid);
    FirstDelivery(env, valid);
    TwoRounds(env, inputs);
    DeliveryIsRetried(env, valid);
    SecondDelivery(env, valid);
    DeliveredAreProcessed(env, valid);
    assert CompleteNew(START, inputs[0]) && MarkingLands(START, env, inputs[0]);
    assert CompleteNew(s, inputs[1]) && MarkingLands(s, env, inputs[1]) by {
      assert inputs[1].upstream <= s.latest;
    }
  }

  lemma DeliveredAreProcessed(env: Env, valid: bool)
    requires RowsFail(env, valid)
    ensures NewRange(START, DeliveredTwice(valid)[0]) == Range(1, 2)
    ensures FetchNew(START, env, DeliveredTwice(valid)[0]).ok
  {
    DeliveredAnswer(valid);
    BothBlocks(env, valid);
  }

  /** Every database call is applied and every answer about new blocks complete, yet block 1 is dropped for good. */
  ghost predicate LosesFirst(inputs: seq<Input>) {
    var end := RunRounds(START, AllApplied, inputs);
    WellBehaved(START, AllApplied, inputs) && Gone(end, 1) && end.dropped == {1}
  }

  /** Any block with transactions that the database never takes is lost when it is delivered twice. */
  lemma RefusedBlockLost(convert: Converter, chainId: string, block: Block)
    requires block.height == 1 && block.txs != [] && !Acceptable(convert, chainId, block)
    ensures LosesFirst(ServedTwice(Delivered(convert, chainId, block)))
  {
    assert Delivered(convert, chainId, block) == RawBlock(Some(1), false, false);
    DeliveredBlockLost(AllApplied, false);
  }

  lemma RepeatedHashLost(convert: Converter, chainId: string)
    requires convert("rol1signers").Address? && Normalized(chainId)
    ensures LosesFirst(ServedTwice(Delivered(convert, chainId, RepeatedHash(1))))
  {
    RepeatedHashIsBad(convert, chainId, 1);
    RefusedBlockLost(convert, chainId, RepeatedHash(1));
  }

  /** A busy block: too many references for one statement. */
  lemma CrowdedBlockLost(convert: Converter, chainId: string)
    requires KeepsAccounts(convert) && Normalized(chainId)
    ensures LosesFirst(ServedTwice(Delivered(convert, chainId, Crowded(1))))
  {
    CrowdedIsBad(convert, chainId, 1);
    RefusedBlockLost(convert, chainId, Crowded(1));
  }

  function RowsRefused(n: nat): Call { Call(if n == 2 || n == 7 then Refused else Applied, 0) }

  /** The block is acceptable and every answer complete, but the insert of its rows is refused twice: its transaction is
      rolled back twice, and the second time the record of the failure is removed. */
  lemma RolledBackBlockLost()
    ensures var end := RunRounds(START, RowsRefused, DeliveredTwice(true));
            WellBehaved(START, RowsRefused, DeliveredTwice(true)) && Gone(end, 1) && end.dropped == {1}
  {
    DeliveredBlockLost(RowsRefused, true);
  }

  // ---- a response that leaves a height out

  /** Of blocks 1 and 2 only the second is in the response. */
  function LeftOut(): seq<Input> {
    [Served(2, Raw([RawBlock(Some(2), true, true)], [], []), false, 0, Rejected)]
  }

  /** The response is accepted and every database call succeeds, yet block 1 is neither indexed nor recorded in any
      way. */
  lemma IncompleteAnswerLosesHeight()
    ensures var end := RunRounds(START, AllApplied, LeftOut());
            && NewAnswer(LeftOut()[0], 1, 2).Answer?
            && !Covered(end.Now()) && Gone(end, 1) && 1 !in end.dropped
  {
    var input := LeftOut()[0];
    FreshRange(START, input, 2);
    assert input.serveNew(1, 2) == Raw([RawBlock(Some(2), true, true)], [], []);
    assert BlocksOf([RawBlock(Some(2), true, true)]) == [BlockAnswer(2, true, true)];
    OneEmptyBlock(START, AllApplied, 2);
    var end := RunRounds(START, AllApplied, LeftOut());
    assert LeftOut()[..0] == [];
    assert end == Round(START, AllApplied, input);
    assert !end.Now().Accounts(1);
  }
}
