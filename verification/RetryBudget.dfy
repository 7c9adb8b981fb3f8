/** How often, how soon again and in which order failed heights are retried. */
module RetryBudget {
  import opened Common
  import opened RangeFinder
  import opened BlockBook
  import opened QueryService
  import opened Rounds
  import opened Coverage
  import opened CoverageRuns
  import opened FetchEffects

  /** What is selected is the greatest height with retries and a minute's rest left, and nothing only if there is
      none. */
  lemma SelectionIsGreatest(s: Book, input: Input)
    requires input.retryEnabled && !input.selectFails
    requires forall h :: h in s.failed ==> h >= 1
    ensures var h := RetryTarget(s, input);
            && (h > 0 <==> exists g :: Eligible(s.failed, input.selectNow, g))
            && (h > 0 ==> && Eligible(s.failed, input.selectNow, h)
                          && forall g :: Eligible(s.failed, input.selectNow, g) ==> g <= h)
  {
    var h := SelectFailed(s.failed, input.selectNow);
    assert IsGreatestEligible(s.failed, input.selectNow, h);
  }

  /** The retry of h ends with a fatal error, and the insert that records this takes effect. */
  ghost predicate FailsRecorded(s: Book, env: Env, input: Input, h: int) {
    var fetched := Fetch(s, env, RetryAnswer(input, h));
    !fetched.ok && env(fetched.book.calls).outcome.Lands()
  }

  /** The clock when a failed retry of h is recorded. */
  ghost function RecordedAt(s: Book, env: Env, input: Input, h: int): int {
    env(Fetch(s, env, RetryAnswer(input, h)).book.calls).now
  }

  function Tries(s: Book, h: int): int {
    if h in s.failed then s.failed[h].retryCount else 0
  }

  /** The block of h takes effect when it is retried. */
  predicate RetryLands(s: Book, env: Env, input: Input, h: int) {
    FetchLands(env, s.calls, RetryAnswer(input, h), h)
  }

  /** A retry touches the record of its own height only. */
  lemma RetryTouchesOne(s: Book, env: Env, input: Input, h: int)
    ensures var after := RetryHeight(s, env, input, h);
            && (forall g :: g != h ==>
                (g in after.failed <==> g in s.failed) && (g in s.failed ==> after.failed[g] == s.failed[g]))
            && (NoNegativeRetries(s) ==> NoNegativeRetries(after))
  {
    var fetched := Fetch(s, env, RetryAnswer(input, h));
    FetchFollows(s, env, RetryAnswer(input, h), h, h);
    MarkFollows(fetched.book, env, [h], h, h);
  }

  /** One that fails and is recorded costs it a try, unless the block takes effect all the same. */
  lemma RetryCosts(s: Book, env: Env, input: Input, h: int)
    requires h in s.failed && FailsRecorded(s, env, input, h) && !RetryLands(s, env, input, h)
    ensures var after := RetryHeight(s, env, input, h);
            && h in after.failed && after.failed[h].retryCount >= s.failed[h].retryCount + 1
            && after.failed[h].lastRetry >= s.failed[h].lastRetry
            && after.failed[h].lastRetry >= RecordedAt(s, env, input, h)
  {
    var fetched := Fetch(s, env, RetryAnswer(input, h));
    FetchForetold(s, env, RetryAnswer(input, h), h);
    UpsertedFailed(fetched.book.failed, [h], env(fetched.book.calls).now);
    assert !HasDuplicates([h]);
  }

  // ---- one height over a stretch of a run

  /** The block of h takes effect among the new blocks of a round. */
  predicate NewLands(s: Book, env: Env, input: Input, h: int)
    requires 0 <= s.latest
  {
    NewRange(s, input).Range?
    && FetchLands(env, s.calls, NewAnswer(input, NewRange(s, input).from, NewRange(s, input).to), h)
  }

  /** A round in which the block of h does not take effect, and a retry of h, if any, ends fatally and is recorded. */
  ghost predicate LeavesFailing(s: Book, env: Env, input: Input, h: int)
    requires 0 <= s.latest
  {
    && !NewLands(s, env, input, h)
    && (Selected(s, env, input) == h ==>
          && !RetryLands(BeforeRetry(s, env, input), env, input, h)
          && FailsRecorded(BeforeRetry(s, env, input), env, input, h))
  }

  lemma NewPartSpares(s: Book, env: Env, input: Input, h: int)
    requires 0 <= s.latest && !NewLands(s, env, input, h)
    ensures h in s.failed ==> RecordGrows(s, BeforeRetry(s, env, input), h)
    ensures NoNegativeRetries(s) ==> NoNegativeRetries(BeforeRetry(s, env, input))
  {
    var r := NewRange(s, input);
    if r.Range? {
      NewPartGrows(s, env, input);
      FetchForetold(s, env, NewAnswer(input, r.from, r.to), h);
      var fetched := FetchNew(s, env, input).book;
      UpsertedFailed(fetched.failed, HeightsFromTo(r.from, r.to), env(fetched.calls).now);
    }
  }

  /** One round, seen from one height that it leaves failing. */
  lemma RoundCosts(s: Book, env: Env, input: Input, h: int)
    requires 0 <= s.latest && NoNegativeRetries(s) && h > 0 && LeavesFailing(s, env, input, h)
    ensures var after := Round(s, env, input);
            && NoNegativeRetries(after)
            && Tries(after, h) >= Tries(s, h)
            && (h in s.failed ==> h in after.failed && after.failed[h].lastRetry >= s.failed[h].lastRetry)
    ensures Selected(s, env, input) == h ==>
              var before, after := BeforeRetry(s, env, input), Round(s, env, input);
              && Tries(s, h) < MAX_RETRIES && Tries(after, h) >= Tries(s, h) + 1
              && (h in s.failed ==> s.failed[h].lastRetry < input.selectNow - RETRY_GAP_SECONDS)
              && h in after.failed && after.failed[h].lastRetry >= RecordedAt(before, env, input, h)
  {
    var before := BeforeRetry(s, env, input);
    NewPartSpares(s, env, input, h);
    assert Tries(before, h) >= Tries(s, h);
    var target := RetryTarget(before, input);
    if target > 0 {
      assert IsGreatestEligible(before.failed, input.selectNow, target);
      RetryTouchesOne(before, env, input, target);
      if Selected(s, env, input) == h {
        RetryCosts(before, env, input, h);
      }
    }
  }

  /** Where a stretch of a run may begin: in particular after any run from an empty database. */
  predicate Begun(from: Book) {
    0 <= from.latest && NoNegativeRetries(from)
  }

  /** How many rounds of the stretch retry h. */
  ghost function Selections(from: Book, env: Env, inputs: seq<Input>, h: int): nat
    requires 0 <= from.latest
  {
    if inputs == [] then 0
    else
      Selections(from, env, inputs[..|inputs| - 1], h)
      + if Selected(RunRounds(from, env, inputs[..|inputs| - 1]), env, inputs[|inputs| - 1]) == h then 1 else 0
  }

  /** In no round of the stretch the block of h takes effect, and every retry of h ends fatally and is recorded. */
  ghost predicate KeepsFailing(from: Book, env: Env, inputs: seq<Input>, h: int)
    requires 0 <= from.latest
  {
    inputs != [] ==>
      && KeepsFailing(from, env, inputs[..|inputs| - 1], h)
      && LeavesFailing(RunRounds(from, env, inputs[..|inputs| - 1]), env, inputs[|inputs| - 1], h)
  }

  lemma {:induction false} KeepsFailingUpTo(from: Book, env: Env, inputs: seq<Input>, h: int, n: nat)
    requires Begun(from) && KeepsFailing(from, env, inputs, h) && n <= |inputs|
    ensures KeepsFailing(from, env, inputs[..n], h)
    ensures n < |inputs| ==> LeavesFailing(RunRounds(from, env, inputs[..n]), env, inputs[n], h)
    decreases |inputs|
  {
    if n == |inputs| {
      assert inputs[..n] == inputs;
    } else {
      var last := |inputs| - 1;
      assert inputs[..last][..n] == inputs[..n];
      KeepsFailingUpTo(from, env, inputs[..last], h, n);
    }
  }

  lemma {:induction false} TriesCountSelections(from: Book, env: Env, inputs: seq<Input>, h: int)
    requires Begun(from) && h > 0 && KeepsFailing(from, env, inputs, h)
    ensures Tries(from, h) + Selections(from, env, inputs, h) <= Tries(RunRounds(from, env, inputs), h)
    ensures Selections(from, env, inputs, h) <= Max(0, MAX_RETRIES - Tries(from, h))
    ensures NoNegativeRetries(RunRounds(from, env, inputs))
  {
    if inputs != [] {
      var n := |inputs| - 1;
      KeepsFailingUpTo(from, env, inputs, h, n);
      TriesCountSelections(from, env, inputs[..n], h);
      RoundCosts(RunRounds(from, env, inputs[..n]), env, inputs[n], h);
    }
  }

  /** Every run from an empty database may be followed by such a stretch. */
  lemma {:induction false} RunsBegin(env: Env, inputs: seq<Input>)
    ensures Begun(RunRounds(START, env, inputs))
  {
    if inputs != [] {
      var n := |inputs| - 1;
      RunsBegin(env, inputs[..n]);
      RoundNeverNegative(RunRounds(START, env, inputs[..n]), env, inputs[n]);
    }
  }

  lemma RoundNeverNegative(s: Book, env: Env, input: Input)
    requires Begun(s)
    ensures NoNegativeRetries(Round(s, env, input))
  {
    if NewRange(s, input).Range? {
      NewPartGrows(s, env, input);
    }
    var before := BeforeRetry(s, env, input);
    var target := RetryTarget(before, input);
    if target > 0 {
      RetryTouchesOne(before, env, input, target);
    }
  }

  /** After any run from an empty database, whatever else goes on: while its block does not take effect and its retries
      end fatally and are recorded, a height is retried at most a hundred times, or as often as it has retries left. */
  lemma AtMostHundredRetries(env: Env, earlier: seq<Input>, inputs: seq<Input>, h: int)
    requires h > 0 && KeepsFailing(RunRounds(START, env, earlier), env, inputs, h)
    ensures var from := RunRounds(START, env, earlier);
            Selections(from, env, inputs, h) <= Max(0, 100 - Tries(from, h)) <= 100
  {
    RunsBegin(env, earlier);
    TriesCountSelections(RunRounds(START, env, earlier), env, inputs, h);
  }

  /** The commit of the retried block takes effect although the program sees an error, and the insert that should record
      this is refused: the retry ends fatally, and the record is made anew. */
  predicate CommitInDoubt(env: Env, c: nat) {
    && (forall n: nat :: c <= n < c + 6 ==> env(n).outcome == Applied)
    && env(c + 6).outcome == Lost && env(c + 7).outcome == Refused && env(c + 8).outcome == Applied
  }

  /** Then the block is indexed, but its record is back with all hundred retries, whatever it had used before. So the
      bound on retries needs the block not to be indexed. */
  lemma LostCommitRestartsBudget(s: Book, env: Env, input: Input, h: int)
    requires RetryAnswer(input, h) == Answer([BlockAnswer(h, false, true)], [], [])
    requires h in s.failed && CommitInDoubt(env, s.calls)
    ensures var after := RetryHeight(s, env, input, h);
            h in after.indexed && h in after.failed && after.failed[h] == FailedRow(0, env(s.calls + 8).now)
  {
    var b := BlockAnswer(h, false, true);
    assert Reported(env, s.calls) && Reported(env, s.calls + 1);
    DoubtfulTransaction(Idle(Idle(s)), env, h);
    SortedIsFixed([b]);
    var transaction := BlockTransaction(Idle(Idle(s)), env, h, true);
    assert IndexBlock(s, env, b) == Done(Idle(transaction.book), false);
    assert Fetch(s, env, RetryAnswer(input, h)) == IndexBlock(s, env, b);
    var fetched := Idle(transaction.book);
    assert fetched.calls == s.calls + 8 && !HasDuplicates([h]);
    UpsertedFailed(fetched.failed, [h], env(fetched.calls).now);
  }

  lemma DoubtfulTransaction(s: Book, env: Env, h: int)
    requires forall n: nat :: s.calls <= n < s.calls + 4 ==> env(n).outcome == Applied
    requires env(s.calls + 4).outcome == Lost
    ensures var d := BlockTransaction(s, env, h, true);
            && !d.ok && d.book.calls == s.calls + 5
            && d.book.failed == s.failed - {h} && d.book.indexed == s.indexed + {h}
  {
    assert Reported(env, s.calls) && Reported(env, s.calls + 1) && Reported(env, s.calls + 2)
        && Reported(env, s.calls + 3);
    StatementsForetold(Idle(s), env, STATEMENTS_AFTER_ROWS);
    assert ReportedInARow(env, s.calls + 3, 1) == 1;
    assert ReportedInARow(env, s.calls + 2, 2) == 2;
  }

  predicate RecordedSince(s: Book, h: int, moment: int) {
    h in s.failed && s.failed[h].lastRetry >= moment
  }

  lemma LastRoundKeepsRecord(from: Book, env: Env, inputs: seq<Input>, h: int, moment: int)
    requires Begun(from) && h > 0 && inputs != [] && KeepsFailing(from, env, inputs, h)
    requires RecordedSince(RunRounds(from, env, inputs[..|inputs| - 1]), h, moment)
    ensures RecordedSince(RunRounds(from, env, inputs), h, moment)
  {
    var last := |inputs| - 1;
    KeepsFailingUpTo(from, env, inputs, h, last);
    TriesCountSelections(from, env, inputs[..last], h);
    RoundCosts(RunRounds(from, env, inputs[..last]), env, inputs[last], h);
  }

  lemma {:induction false} RecordStays(from: Book, env: Env, inputs: seq<Input>, h: int, n: nat, moment: int)
    requires Begun(from) && h > 0 && KeepsFailing(from, env, inputs, h) && n <= |inputs|
    requires RecordedSince(RunRounds(from, env, inputs[..n]), h, moment)
    ensures RecordedSince(RunRounds(from, env, inputs), h, moment)
    decreases |inputs|
  {
    if n == |inputs| {
      assert inputs[..n] == inputs;
    } else {
      var init := inputs[..|inputs| - 1];
      assert init[..n] == inputs[..n];
      KeepsFailingUpTo(from, env, inputs, h, |inputs| - 1);
      RecordStays(from, env, init, h, n, moment);
      LastRoundKeepsRecord(from, env, inputs, h, moment);
    }
  }

  lemma RunOneMore(from: Book, env: Env, inputs: seq<Input>, i: nat)
    requires Begun(from) && i < |inputs|
    ensures RunRounds(from, env, inputs[..i + 1]) == Round(RunRounds(from, env, inputs[..i]), env, inputs[i])
  {
    assert inputs[..i + 1][..i] == inputs[..i] && inputs[..i + 1][i] == inputs[i];
  }

  /** The height is retried in round i, and the clock does not go back until the failure is recorded. */
  ghost predicate RetriedAt(from: Book, env: Env, inputs: seq<Input>, h: int, i: nat)
    requires Begun(from) && i < |inputs|
  {
    var s := RunRounds(from, env, inputs[..i]);
    Selected(s, env, inputs[i]) == h
        && inputs[i].selectNow <= RecordedAt(BeforeRetry(s, env, inputs[i]), env, inputs[i], h)
  }

  lemma RetryIsRecorded(from: Book, env: Env, inputs: seq<Input>, h: int, i: nat)
    requires Begun(from) && h > 0 && KeepsFailing(from, env, inputs, h)
    requires i < |inputs| && RetriedAt(from, env, inputs, h, i)
    ensures RecordedSince(RunRounds(from, env, inputs[..i + 1]), h, inputs[i].selectNow)
  {
    KeepsFailingUpTo(from, env, inputs, h, i);
    TriesCountSelections(from, env, inputs[..i], h);
    RoundCosts(RunRounds(from, env, inputs[..i]), env, inputs[i], h);
    RunOneMore(from, env, inputs, i);
  }

  lemma RetryMustWait(from: Book, env: Env, inputs: seq<Input>, h: int, j: nat, moment: int)
    requires Begun(from) && h > 0 && KeepsFailing(from, env, inputs, h) && j < |inputs|
    requires Selected(RunRounds(from, env, inputs[..j]), env, inputs[j]) == h
    requires RecordedSince(RunRounds(from, env, inputs[..j]), h, moment)
    ensures inputs[j].selectNow > moment + RETRY_GAP_SECONDS
  {
    KeepsFailingUpTo(from, env, inputs, h, j);
    TriesCountSelections(from, env, inputs[..j], h);
    RoundCosts(RunRounds(from, env, inputs[..j]), env, inputs[j], h);
  }

  /** Two retries of one height are more than a minute apart, if the clock does not go back between selecting the height
      and recording that the first retry failed. */
  lemma RetriesMinuteApart(from: Book, env: Env, inputs: seq<Input>, h: int, i: nat, j: nat)
    requires Begun(from) && h > 0 && KeepsFailing(from, env, inputs, h) && i < j < |inputs|
    requires RetriedAt(from, env, inputs, h, i)
    requires Selected(RunRounds(from, env, inputs[..j]), env, inputs[j]) == h
    ensures inputs[j].selectNow > inputs[i].selectNow + 60
  {
    RetryIsRecorded(from, env, inputs, h, i);
    KeepsFailingUpTo(from, env, inputs, h, j);
    assert inputs[..j][..i + 1] == inputs[..i + 1];
    RecordStays(from, env, inputs[..j], h, i + 1, inputs[i].selectNow);
    RetryMustWait(from, env, inputs, h, j, inputs[i].selectNow);
  }

  // ---- all heights together

  function RemainingOf(failed: map<int, FailedRow>, h: int): nat {
    if h in failed && failed[h].retryCount < MAX_RETRIES then MAX_RETRIES - failed[h].retryCount else 0
  }

  /** The retries left to all failed heights up to w. */
  function Remaining(failed: map<int, FailedRow>, w: nat): nat {
    if w == 0 then 0 else Remaining(failed, w - 1) + RemainingOf(failed, w)
  }

  lemma {:induction false} RemainingDrops(before: map<int, FailedRow>, after: map<int, FailedRow>, w: nat, h: int,
                                          cost: nat)
    requires forall g :: 1 <= g <= w && g != h ==> RemainingOf(after, g) == RemainingOf(before, g)
    requires RemainingOf(after, h) + cost <= RemainingOf(before, h)
    ensures Remaining(after, w) + (if 1 <= h <= w then cost else 0) <= Remaining(before, w)
  {
    if w > 0 {
      RemainingDrops(before, after, w - 1, h, cost);
    }
  }

  /** A retry that fails and is recorded uses up some of the remaining retries. */
  lemma RetryDecreases(s: Book, env: Env, input: Input, h: int, w: nat)
    requires 1 <= h <= w && Eligible(s.failed, input.selectNow, h)
    requires FailsRecorded(s, env, input, h) && !RetryLands(s, env, input, h)
    ensures Remaining(RetryHeight(s, env, input, h).failed, w) < Remaining(s.failed, w)
  {
    var after := RetryHeight(s, env, input, h);
    RetryTouchesOne(s, env, input, h);
    RetryCosts(s, env, input, h);
    forall g | g != h ensures RemainingOf(after.failed, g) == RemainingOf(s.failed, g) {
    }
    RemainingDrops(s.failed, after.failed, w, h, 1);
  }

  /** A round without new blocks that retries nothing, or whose retry fails and is recorded. */
  ghost predicate OnlyFailingRetry(s: Book, env: Env, input: Input)
    requires 0 <= s.latest
  {
    && NewRange(s, input).NoRange?
    && (Selected(s, env, input) > 0 ==>
          && FailsRecorded(s, env, input, Selected(s, env, input))
          && !RetryLands(s, env, input, Selected(s, env, input)))
  }

  ghost function RoundsWithRetry(s: Book, env: Env, inputs: seq<Input>): nat
    requires 0 <= s.latest
  {
    if inputs == [] then 0
    else
      RoundsWithRetry(s, env, inputs[..|inputs| - 1])
      + if Selected(RunRounds(s, env, inputs[..|inputs| - 1]), env, inputs[|inputs| - 1]) > 0 then 1 else 0
  }

  ghost predicate OnlyFailingRetries(s: Book, env: Env, inputs: seq<Input>)
    requires 0 <= s.latest
  {
    inputs != [] ==>
      && OnlyFailingRetries(s, env, inputs[..|inputs| - 1])
      && OnlyFailingRetry(RunRounds(s, env, inputs[..|inputs| - 1]), env, inputs[|inputs| - 1])
  }

  /** While there are no new blocks and retries keep failing, at most as many rounds retry something as the failed
      heights have retries left; after that none does. */
  lemma {:induction false} RetriesRunOut(s: Book, env: Env, inputs: seq<Input>, w: nat)
    requires 0 <= s.latest && forall h :: h in s.failed ==> 1 <= h <= w
    requires OnlyFailingRetries(s, env, inputs)
    ensures RoundsWithRetry(s, env, inputs) + Remaining(RunRounds(s, env, inputs).failed, w) <= Remaining(s.failed, w)
    ensures forall h :: h in RunRounds(s, env, inputs).failed ==> 1 <= h <= w
  {
    if inputs != [] {
      var n := |inputs| - 1;
      RetriesRunOut(s, env, inputs[..n], w);
      LastRound(RunRounds(s, env, inputs[..n]), env, inputs[n], w);
    }
  }

  lemma LastRound(s: Book, env: Env, input: Input, w: nat)
    requires 0 <= s.latest && OnlyFailingRetry(s, env, input) && forall h :: h in s.failed ==> 1 <= h <= w
    ensures var after := Round(s, env, input);
            && (forall h :: h in after.failed ==> 1 <= h <= w)
            && Remaining(after.failed, w) + (if Selected(s, env, input) > 0 then 1 else 0) <= Remaining(s.failed, w)
  {
    var h := Selected(s, env, input);
    if h > 0 {
      assert IsGreatestEligible(s.failed, input.selectNow, h);
      RetryTouchesOne(s, env, input, h);
      RetryCosts(s, env, input, h);
      RetryDecreases(s, env, input, h, w);
    }
  }
}
