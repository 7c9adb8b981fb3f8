/** Exactly which retries lose their height, which retries leave a hole behind, and what a refused marking does:
    conditions on the answer and on the fate of numbered calls. */
module ExactLosses {
  import opened Common
  import opened RangeFinder
  import opened BlockBook
  import opened QueryService
  import opened Rounds
  import opened Coverage
  import opened CoverageRuns
  import opened FetchEffects
  import opened ExactCoverage

  // ---- a retry that loses its height

  /** A retry of h leaves it neither failed nor indexed exactly if its markings are reported, no block of the answer
      takes effect, every block is done with without a fatal error, and the removal of the record takes effect. */
  lemma RetryLosesIff(s: Book, env: Env, input: Input, h: int)
    requires h in s.failed && h !in s.indexed && h !in s.dropped
    ensures var answer, after := RetryAnswer(input, h), RetryHeight(s, env, input, h);
            (h !in after.failed && h !in after.indexed)
            <==> && FetchReported(env, s.calls, answer)
                 && !FetchLands(env, s.calls, answer, h)
                 && Lands(env, s.calls + FetchCalls(env, s.calls, answer))
  {
    var answer := RetryAnswer(input, h);
    var fetched := Fetch(s, env, answer);
    FetchForetold(s, env, answer, h);
    UpsertedFailed(fetched.book.failed, [h], env(fetched.book.calls).now);
  }

  /** For an answer that delivers one block with transactions and mentions nothing else: it is lost exactly if its
      partitions are there and its transaction begins, but does not take effect, this is recorded as far as the
      caller sees, and the removal of the record takes effect. */
  lemma DeliveredBlockLostIff(s: Book, env: Env, input: Input, h: int, valid: bool)
    requires h in s.failed && h !in s.indexed && h !in s.dropped
    requires RetryAnswer(input, h) == Answer([BlockAnswer(h, false, valid)], [], [])
    ensures var after := RetryHeight(s, env, input, h);
            var recorded := s.calls + 2 + TransactionCalls(env, s.calls + 2, valid);
            (h !in after.failed && h !in after.indexed)
            <==> Begins(env, s.calls) && !TransactionLands(env, s.calls + 2, valid)
                 && Reported(env, recorded) && Lands(env, recorded + 1)
  {
    var b := BlockAnswer(h, false, valid);
    RetryLosesIff(s, env, input, h);
    DeliversOne(env, s.calls, b, h);
  }

  // ---- a retry that jumps ahead

  /** Retrying h cannot raise the latest block past an unaccounted height: h is not above the latest block, or
      everything below h is accounted for, or no delivered block takes effect. */
  ghost predicate StaysBehind(s: Book, env: Env, input: Input, h: int) {
    h <= s.latest || Below(s, h) || !FetchLands(env, s.calls, RetryAnswer(input, h), h)
  }

  lemma RetryNoGapIff(s: Book, env: Env, input: Input, h: int)
    requires Safe(s)
    ensures NoGap(s, env, RetryAnswer(input, h)) <==> StaysBehind(s, env, input, h)
  {
    var answer := RetryAnswer(input, h);
    forall g | FetchLands(env, s.calls, answer, g) ensures g == h {
      LandsWithin(env, s.calls, answer, g);
    }
    forall g | 1 <= g < h && answer.Answer? ensures !Mentioned(answer, g) {
    }
    if StaysBehind(s, env, input, h) && FetchLands(env, s.calls, answer, h) {
      forall g | 1 <= g < h ensures s.Accounts(g) {
        assert g <= s.latest ==> s.Now().Accounts(g);
      }
    }
  }

  /** After a retry every height up to the latest block is accounted for exactly if the retry could not jump ahead. */
  lemma RetryCoversIff(s: Book, env: Env, input: Input, h: int)
    requires Safe(s)
    ensures Safe(RetryHeight(s, env, input, h)) <==> StaysBehind(s, env, input, h)
    ensures Covered(RetryHeight(s, env, input, h).Now()) <==> StaysBehind(s, env, input, h)
  {
    var answer, after := RetryAnswer(input, h), RetryHeight(s, env, input, h);
    var fetched := Fetch(s, env, answer);
    RetryNoGapIff(s, env, input, h);
    RetrySafeIff(s, env, input, h);
    if Covered(after.Now()) && FetchLands(env, s.calls, answer, h) && s.latest < h {
      forall g | 1 <= g < h ensures s.Accounts(g) {
        FetchForetold(s, env, answer, h);
        assert after.Now().Accounts(g);
        UpsertedFailed(fetched.book.failed, [h], env(fetched.book.calls).now);
        AccountedIfMentioned(s, env, answer, g);
      }
    }
  }

  // ---- runs with complete answers, whatever becomes of the marking

  lemma CompleteLeavesNoGap(s: Book, env: Env, input: Input)
    requires Safe(s) && NewRange(s, input).Range? && CompleteNew(s, input)
    ensures NoGap(s, env, NewAnswer(input, NewRange(s, input).from, NewRange(s, input).to))
  {
    var r := NewRange(s, input);
    var answer := NewAnswer(input, r.from, r.to);
    NewRangeFacts(s, input);
    CompleteNewAnswer(s, input);
    forall h, g | FetchLands(env, s.calls, answer, h) && 1 <= g < h ensures s.Accounts(g) || Mentioned(answer, g) {
      LandsWithin(env, s.calls, answer, h);
      assert g <= s.latest ==> s.Now().Accounts(g);
    }
  }

  ghost predicate CompleteAnswers(env: Env, inputs: seq<Input>) {
    inputs != [] ==>
      && CompleteAnswers(env, inputs[..|inputs| - 1])
      && CompleteNew(RunRounds(START, env, inputs[..|inputs| - 1]), inputs[|inputs| - 1])
  }

  /** The round retries nothing, or a height that cannot jump ahead. */
  ghost predicate RetryStaysBehind(s: Book, env: Env, input: Input)
    requires 0 <= s.latest
  {
    Selected(s, env, input) > 0 ==> StaysBehind(BeforeRetry(s, env, input), env, input, Selected(s, env, input))
  }

  ghost predicate RetriesStayBehind(env: Env, inputs: seq<Input>) {
    inputs != [] ==>
      && RetriesStayBehind(env, inputs[..|inputs| - 1])
      && RetryStaysBehind(RunRounds(START, env, inputs[..|inputs| - 1]), env, inputs[|inputs| - 1])
  }

  /** With a complete answer about new blocks, whatever calls fail and whether or not a marking takes effect: a round
      keeps every height accounted for, at every write, exactly if its retry stays behind. */
  lemma RoundCoveredIff(s: Book, env: Env, input: Input)
    requires Safe(s) && CompleteNew(s, input)
    ensures Safe(Round(s, env, input)) <==> RetryStaysBehind(s, env, input)
  {
    RoundSafeIff(s, env, input);
    if NewRange(s, input).Range? {
      CompleteLeavesNoGap(s, env, input);
      NewPartSafe(s, env, input);
    }
    var h := Selected(s, env, input);
    if h > 0 {
      RetryNoGapIff(BeforeRetry(s, env, input), env, input, h);
    }
  }

  /** The same over whole runs: a hole that a refused marking leaves behind does harm exactly if a retry jumps over
      it. */
  lemma {:induction false} RunCoveredIff(env: Env, inputs: seq<Input>)
    requires CompleteAnswers(env, inputs)
    ensures Safe(RunRounds(START, env, inputs)) <==> RetriesStayBehind(env, inputs)
  {
    if inputs != [] {
      var init, last := inputs[..|inputs| - 1], inputs[|inputs| - 1];
      var s := RunRounds(START, env, init);
      RunCoveredIff(env, init);
      RunSafeIff(env, init);
      RunSafeIff(env, inputs);
      if Safe(s) {
        RoundCoveredIff(s, env, last);
      }
    }
  }

  // ---- what a refused marking leaves behind

  /** After a fatal round everything up to the end of its range is accounted for exactly if the marking insert takes
      effect, or every height of the range was accounted for, is indexed or is recorded by the fetch itself. */
  lemma MarkingDecides(s: Book, env: Env, input: Input, w: int)
    requires SoundUpTo(s, w) && NewRange(s, input).Range? && CompleteNew(s, input)
    requires !FetchReported(env, s.calls, NewAnswer(input, NewRange(s, input).from, NewRange(s, input).to))
    ensures var r := NewRange(s, input);
            var answer := NewAnswer(input, r.from, r.to);
            Below(NewPart(s, env, input), r.to + 1)
            <==> || Lands(env, s.calls + FetchCalls(env, s.calls, answer))
                 || forall g :: r.from <= g <= r.to ==>
                      s.Accounts(g) || FetchLands(env, s.calls, answer, g) || FetchMarks(env, s.calls, answer, g)
  {
    var r, fetched := NewRange(s, input), FetchNew(s, env, input).book;
    var answer := NewAnswer(input, r.from, r.to);
    FetchForetold(s, env, answer, 0);
    NewRangeFacts(s, input);
    if Lands(env, fetched.calls) {
      NewPartSound(s, env, input, w);
    } else {
      forall g ensures NewPart(s, env, input).Accounts(g)
                  <==> s.Accounts(g) || FetchLands(env, s.calls, answer, g) || FetchMarks(env, s.calls, answer, g)
      {
        UnmarkedAccounts(s, env, input, g);
      }
      assert forall g :: 1 <= g < r.from ==> s.Accounts(g);
    }
  }

  lemma UnmarkedAccounts(s: Book, env: Env, input: Input, g: int)
    requires 0 <= s.latest && NewRange(s, input).Range?
    requires var answer := NewAnswer(input, NewRange(s, input).from, NewRange(s, input).to);
             !FetchReported(env, s.calls, answer) && !Lands(env, s.calls + FetchCalls(env, s.calls, answer))
    ensures var answer := NewAnswer(input, NewRange(s, input).from, NewRange(s, input).to);
            NewPart(s, env, input).Accounts(g)
            <==> s.Accounts(g) || FetchLands(env, s.calls, answer, g) || FetchMarks(env, s.calls, answer, g)
  {
    FetchForetold(s, env, NewAnswer(input, NewRange(s, input).from, NewRange(s, input).to), g);
  }
}
