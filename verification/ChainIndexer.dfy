/** The per-chain indexer and its two tables as mutable state: every method leaves behind exactly the book that the
    round functions specify. `indexed`, `dropped` and `trail` are ghost: the program does not store them. */
module ChainIndexer {
  import opened Common
  import opened RangeFinder
  import opened BlockBook
  import opened QueryService
  import opened Rounds
  import opened Coverage
  import opened CoverageRuns

  /** The next round starts after a tenth of a second instead of the configured interval. */
  predicate SpeedsUp(s: Book, env: Env, input: Input)
    requires 0 <= s.latest
  {
    NewRange(s, input).Range? && FetchNew(s, env, input).ok && NewRange(s, input).to < UpstreamAfter(input)
  }

  class Indexer {
    const env: Env
    var latest: int
    var failed: map<int, FailedRow>
    var calls: nat
    var catchUp: bool
    ghost var indexed: set<int>
    ghost var dropped: set<int>
    ghost var trail: seq<View>

    ghost function State(): Book
      reads this
    {
      Book(latest, failed, indexed, dropped, calls, trail)
    }

    constructor (env: Env)
      ensures State() == START && this.env == env
    {
      this.env := env;
      latest, failed, calls, catchUp := 0, map[], 0, false;
      indexed, dropped, trail := {}, {}, [];
    }

    /** A call that changes nothing the book records. */
    method Statement() returns (ok: bool)
      modifies this`calls
      ensures State() == Idle(old(State())) && ok == env(old(calls)).outcome.Reported()
    {
      ok := env(calls).outcome.Reported();
      calls := calls + 1;
    }

    // ---- the tables

    method InsertOrUpdateFailedBlocks(heights: seq<int>) returns (ok: bool)
      modifies this
      ensures catchUp == old(catchUp)
      ensures Done(State(), ok) == MarkFailed(old(State()), env, heights)
    {
      var call := env(calls);
      var rows := failed;
      var touched: set<int> := {};
      for i := 0 to |heights|
        invariant State() == old(State()) && catchUp == old(catchUp)
        invariant rows == UpsertFailed(failed, heights[..i], call.now)
        invariant touched == set j | 0 <= j < i :: heights[j]
        invariant !HasDuplicates(heights[..i])
      {
        var h := heights[i];
        assert heights[..i + 1][..i] == heights[..i] && heights[..i + 1][i] == h;
        if h in touched {
          assert HasDuplicates(heights);
          calls := calls + 1;
          return false;
        }
        touched := touched + {h};
        rows := rows[h := if h in failed then FailedRow(failed[h].retryCount + 1, Max(call.now, failed[h].lastRetry))
                          else FailedRow(0, call.now)];
      }
      assert heights[..|heights|] == heights;
      ok := call.outcome.Reported();
      calls := calls + 1;
      if call.outcome.Lands() {
        failed := rows;
        trail := trail + [State().Now()];
      }
    }

    method SetLatestIndexedBlock(h: int) returns (ok: bool)
      modifies this
      ensures catchUp == old(catchUp)
      ensures Done(State(), ok) == RaiseLatest(old(State()), env, h)
    {
      var call := env(calls);
      calls := calls + 1;
      if call.outcome.Lands() {
        if latest < h {
          latest := h;
        }
        indexed := indexed + {h};
        trail := trail + [State().Now()];
      }
      ok := call.outcome.Reported();
    }

    method RemoveFailedBlockRecord(h: int) returns (ok: bool)
      modifies this
      ensures catchUp == old(catchUp)
      ensures Done(State(), ok) == RemoveFailed(old(State()), env, h)
    {
      var call := env(calls);
      calls := calls + 1;
      if call.outcome.Lands() {
        dropped := if h in failed && h !in indexed then dropped + {h} else dropped;
        failed := failed - {h};
        trail := trail + [State().Now()];
      }
      ok := call.outcome.Reported();
    }

    /** The greatest height that may be retried, or 0. */
    method GetOneFailedBlock(now: int) returns (h: int)
      ensures h == SelectFailed(failed, now)
    {
      h := 0;
      var found, waiting := false, failed.Keys;
      while waiting != {}
        invariant waiting <= failed.Keys
        invariant found ==> Eligible(failed, now, h)
        invariant !found ==> h == 0
        invariant forall g :: g in failed.Keys - waiting && Eligible(failed, now, g) ==> found && g <= h
      {
        SomeNumber(waiting);
        var g: int :| g in waiting;
        if Eligible(failed, now, g) && (!found || g > h) {
          found, h := true, g;
        }
        waiting := waiting - {g};
      }
      assert forall g :: Eligible(failed, now, g) ==> g in failed.Keys - waiting;
      assert IsGreatestEligible(failed, now, h);
    }

    // ---- blocks

    /** What the transaction does between the rows and its commit: its own copy of the two tables, until a statement
        fails. */
    method TransactionStatements(h: int) returns (ok: bool, txLatest: int, txFailed: map<int, FailedRow>)
      modifies this`calls
      ensures Done(State(), ok) == TxStatements(old(State()), env, STATEMENTS_AFTER_ROWS)
      ensures ok ==> txLatest == Max(latest, h) && txFailed == failed - {h}
    {
      ThreeStatements(State(), env);
      txLatest, txFailed := latest, failed;
      ok := Statement();  // cleanup
      if ok {
        ok := Statement();
        txLatest := if latest < h then h else latest;
      }
      if ok {
        ok := Statement();
        txFailed := failed - {h};
      }
    }

    method CommitBlock(h: int, valid: bool) returns (ok: bool)
      modifies this
      ensures catchUp == old(catchUp)
      ensures Done(State(), ok) == BlockTransaction(old(State()), env, h, valid)
    {
      ok := Statement();  // rows of the block
      if !ok || !valid {
        return false;
      }
      var txLatest, txFailed;
      ok, txLatest, txFailed := TransactionStatements(h);
      if ok {
        var commit := env(calls).outcome;
        calls := calls + 1;
        if commit.Lands() {
          latest, failed := txLatest, txFailed;
          indexed := indexed + {h};
          trail := trail + [State().Now()];
        }
        ok := commit.Reported();
      }
    }

    method IndexBlock(b: BlockAnswer) returns (ok: bool)
      modifies this
      ensures catchUp == old(catchUp)
      ensures Done(State(), ok) == Rounds.IndexBlock(old(State()), env, b)
    {
      if b.empty {
        ok := SetLatestIndexedBlock(b.height);
        return;
      }
      ok := Statement();  // partitions of the epoch week
      if !ok {
        return;
      }
      ok := Statement();  // begin
      if !ok {
        return;
      }
      ok := CommitBlock(b.height, b.valid);
      if !ok {
        ok := InsertOrUpdateFailedBlocks([b.height]);
      }
    }

    method FetchAndIndexBlockRange(answer: Answer) returns (ok: bool)
      modifies this
      ensures catchUp == old(catchUp)
      ensures Done(State(), ok) == Fetch(old(State()), env, answer)
    {
      if answer.NoAnswer? {
        return false;
      }
      if |answer.errors| > 0 {
        ok := InsertOrUpdateFailedBlocks(answer.errors);
        if !ok {
          return;
        }
      }
      if |answer.missing| > 0 {
        ok := InsertOrUpdateFailedBlocks(answer.missing);
        if !ok {
          return;
        }
      }
      var blocks := SortByHeight(answer.blocks);
      ghost var marked := State();
      assert Fetch(old(State()), env, answer) == IndexBlocks(marked, env, blocks);
      for i := 0 to |blocks|
        invariant catchUp == old(catchUp)
        invariant IndexBlocks(marked, env, blocks) == IndexBlocks(State(), env, blocks[i..])
      {
        assert blocks[i..][0] == blocks[i] && blocks[i..][1..] == blocks[i + 1..];
        ok := IndexBlock(blocks[i]);
        if !ok {
          return;
        }
      }
      ok := true;
    }

    // ---- rounds

    method RetryFailedBlock(input: Input)
      modifies this
      ensures catchUp == old(catchUp)
      ensures State() == RetryPart(old(State()), env, input)
    {
      if !input.retryEnabled || input.selectFails {
        return;
      }
      var h := GetOneFailedBlock(input.selectNow);
      if h > 0 {
        var answer := TransactionsInBlockRange(input.serveRetry(h, h), h, h);
        var ok := FetchAndIndexBlockRange(answer);
        if ok {
          ok := RemoveFailedBlockRecord(h);
        } else {
          ok := InsertOrUpdateFailedBlocks([h]);
        }
      }
    }

    method IndexNewBlocks(input: Input, from: int, to: int) returns (ok: bool)
      requires from <= to
      modifies this
      ensures catchUp == old(catchUp)
      ensures var fetched := Fetch(old(State()), env, NewAnswer(input, from, to));
              && ok == fetched.ok
              && State() == if ok then fetched.book else MarkFailed(fetched.book, env, HeightsFromTo(from, to)).book
    {
      var answer := TransactionsInBlockRange(input.serveNew(from, to), from, to);
      ok := FetchAndIndexBlockRange(answer);
      if !ok {
        var heights: seq<int> := [];
        for h := from to to + 1
          invariant heights + HeightsFromTo(h, to) == HeightsFromTo(from, to)
        {
          heights := heights + [h];
        }
        assert heights == HeightsFromTo(from, to);
        var _ := InsertOrUpdateFailedBlocks(heights);
      }
    }

    method Round(input: Input)
      requires 0 <= latest
      modifies this
      ensures State() == Rounds.Round(old(State()), env, input)
      ensures catchUp == SpeedsUp(old(State()), env, input)
      ensures 0 <= latest
    {
      RoundGrows(State(), env, input);
      catchUp := false;
      if !input.readable || input.postponed || input.upstream < latest - MAX_OUTDATED_BLOCKS {
        return;
      }
      var retry := true;
      if input.upstream > latest {
        var range := DetermineBlockRangeToIndex(latest, input.upstream, FailedQuery(failed, input));
        if range.None? {
          return;
        }
        if range.value.Range? {
          NewRangeFacts(State(), input);
          var ok := IndexNewBlocks(input, range.value.from, range.value.to);
          if !ok {
            return;
          }
          if range.value.to < UpstreamAfter(input) {
            catchUp, retry := true, false;
          }
        } else {
          retry := input.upstream - latest < RETRY_WHEN_BEHIND_LESS_THAN;
        }
      }
      if retry {
        RetryFailedBlock(input);
      }
    }

    /** Start's loop: after every single write each height up to the latest block is accounted for, if the run is well
        behaved. */
    method Start(inputs: seq<Input>)
      requires State() == START
      modifies this
      ensures State() == RunRounds(START, env, inputs)
      ensures WellBehaved(START, env, inputs) ==>
                Covered(State().Now()) && forall i :: 0 <= i < |trail| ==> Covered(trail[i])
    {
      for i := 0 to |inputs|
        invariant 0 <= latest && State() == RunRounds(START, env, inputs[..i])
      {
        assert inputs[..i + 1][..i] == inputs[..i] && inputs[..i + 1][i] == inputs[i];
        Round(inputs[i]);
      }
      assert inputs[..|inputs|] == inputs;
      if WellBehaved(START, env, inputs) {
        NothingSkipped(env, inputs);
      }
    }
  }

  lemma ThreeStatements(s: Book, env: Env)
    ensures TxStatements(s, env, STATEMENTS_AFTER_ROWS)
         == if !env(s.calls).outcome.Reported() then Done(Idle(s), false)
            else if !env(s.calls + 1).outcome.Reported() then Done(Idle(Idle(s)), false)
            else Done(Idle(Idle(Idle(s))), env(s.calls + 2).outcome.Reported())
  {
    assert TxStatements(Idle(Idle(s)), env, 1) == Done(Idle(Idle(Idle(s))), env(s.calls + 2).outcome.Reported());
  }
}
