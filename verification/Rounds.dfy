/** The indexing rounds of one chain: choose a range, fetch it, record missing and error heights, process the blocks in
    ascending order, mark the range after a fatal error, retry one failed height
    (indexer/services/per_chain_indexer/chain_indexer.go). */
module Rounds {
  import opened Common
  import opened RangeFinder
  import opened BlockBook
  import opened QueryService

  /** One block of a response. `ok` is false for a fatal error. */
  function IndexBlock(s: Book, env: Env, b: BlockAnswer): Done {
    if b.empty then RaiseLatest(s, env, b.height)
    else if !env(s.calls).outcome.Reported() then Done(Idle(s), false)  // partitions of the epoch week
    else if !env(s.calls + 1).outcome.Reported() then Done(Idle(Idle(s)), false)  // begin
    else
      var transaction := BlockTransaction(Idle(Idle(s)), env, b.height, b.valid);
      if transaction.ok then transaction else MarkFailed(transaction.book, env, [b.height])
  }

  function IndexBlocks(s: Book, env: Env, blocks: seq<BlockAnswer>): Done
    decreases |blocks|
  {
    if blocks == [] then Done(s, true)
    else
      var first := IndexBlock(s, env, blocks[0]);
      if !first.ok then first else IndexBlocks(first.book, env, blocks[1..])
  }

  function MarkIfAny(s: Book, env: Env, heights: seq<int>): Done {
    if heights == [] then Done(s, true) else MarkFailed(s, env, heights)
  }

  /** The book once errors and missing blocks are marked. */
  function Marked(s: Book, env: Env, answer: Answer): Done
    requires answer.Answer?
  {
    var afterErrors := MarkIfAny(s, env, answer.errors);
    if !afterErrors.ok then afterErrors else MarkIfAny(afterErrors.book, env, answer.missing)
  }

  /** The blocks, unless the marking was fatal. */
  function ThenIndex(marked: Done, env: Env, blocks: seq<BlockAnswer>): Done {
    if !marked.ok then marked else IndexBlocks(marked.book, env, blocks)
  }

  /** fetchAndIndexingBlockRange, from the response on. */
  function Fetch(s: Book, env: Env, answer: Answer): Done {
    if answer.NoAnswer? then Done(s, false) else ThenIndex(Marked(s, env, answer), env, SortByHeight(answer.blocks))
  }

  /** What a round meets outside the book: the reads of the database that may fail, the upstream heights,
      the answers of the RPC endpoint, the clock when a failed block is selected. */
  datatype Input = Input(
    readable: bool,
    postponed: bool,
    upstream: int,
    windowFails: (int, int) -> bool,
    serveNew: (int, int) -> Raw,
    refreshed: Option<int>,  // the newer upstream height asked for after a slow fetch
    retryEnabled: bool,
    selectFails: bool,
    selectNow: int,
    serveRetry: (int, int) -> Raw)

  const MAX_OUTDATED_BLOCKS := 3
  const RETRY_WHEN_BEHIND_LESS_THAN := 5

  function FailedQuery(failed: map<int, FailedRow>, input: Input): Query {
    (lo, hi) => if input.windowFails(lo, hi) then None else Some(FailedInRange(failed, lo, hi))
  }

  function NewAnswer(input: Input, from: int, to: int): Answer {
    Transform(input.serveNew(from, to), from, to)
  }

  function RetryAnswer(input: Input, h: int): Answer {
    Transform(input.serveRetry(h, h), h, h)
  }

  /** GetOneFailedBlock: the greatest eligible height, or 0. */
  ghost function SelectFailed(failed: map<int, FailedRow>, now: int): (h: int)
    ensures IsGreatestEligible(failed, now, h)
  {
    if exists g :: Eligible(failed, now, g) then
      var g :| Eligible(failed, now, g);
      GreatestEligible(failed, now, g);
      var h :| Eligible(failed, now, h) && forall x :: Eligible(failed, now, x) ==> x <= h; h
    else 0
  }

  lemma {:induction false} GreatestOf(s: set<int>, g: int)
    requires g in s
    ensures exists m: int :: m in s && forall x :: x in s ==> x <= m
    decreases s
  {
    if x: int :| x in s && x > g {
      GreatestOf(s - {g}, x);
      var m: int :| m in s - {g} && forall y :: y in s - {g} ==> y <= m;
      assert x <= m;
      forall y | y in s ensures y <= m {
        if y != g {
          assert y in s - {g};
        }
      }
    }
  }

  lemma GreatestEligible(failed: map<int, FailedRow>, now: int, g: int)
    requires Eligible(failed, now, g)
    ensures exists h :: Eligible(failed, now, h) && forall x :: Eligible(failed, now, x) ==> x <= h
  {
    var s := set x | x in failed && Eligible(failed, now, x);
    GreatestOf(s, g);
    var m: int :| m in s && forall x :: x in s ==> x <= m;
    assert Eligible(failed, now, m);
    forall x | Eligible(failed, now, x) ensures x <= m {
      assert x in s;
    }
  }

  /** Retrying the failed height h > 0. */
  function RetryHeight(s: Book, env: Env, input: Input, h: int): Book {
    var fetched := Fetch(s, env, RetryAnswer(input, h));
    if fetched.ok then RemoveFailed(fetched.book, env, h).book
    else MarkFailed(fetched.book, env, [h]).book
  }

  /** The height a retry would take now, 0 for none. */
  ghost function RetryTarget(s: Book, input: Input): int {
    if !input.retryEnabled || input.selectFails then 0 else Max(0, SelectFailed(s.failed, input.selectNow))
  }

  ghost function RetryPart(s: Book, env: Env, input: Input): Book {
    var h := RetryTarget(s, input);
    if h > 0 then RetryHeight(s, env, input, h) else s
  }

  /** The range of new blocks the round fetches, if it gets that far. */
  function NewRange(s: Book, input: Input): Range
    requires 0 <= s.latest
  {
    if !input.readable || input.postponed || input.upstream <= s.latest then NoRange
    else match DetermineRange(s.latest, input.upstream, FailedQuery(s.failed, input))
         case None => NoRange
         case Some(r) => r
  }

  function FetchNew(s: Book, env: Env, input: Input): Done
    requires 0 <= s.latest && NewRange(s, input).Range?
  {
    var r := NewRange(s, input);
    Fetch(s, env, NewAnswer(input, r.from, r.to))
  }

  /** The upstream height after an optional refresh. */
  function UpstreamAfter(input: Input): int {
    if input.refreshed.Some? && input.refreshed.value > input.upstream then input.refreshed.value else input.upstream
  }

  /** The book after fetching new blocks: a fatal error marks the whole range. */
  function NewPart(s: Book, env: Env, input: Input): Book
    requires 0 <= s.latest && NewRange(s, input).Range?
  {
    var fetched := FetchNew(s, env, input);
    var r := NewRange(s, input);
    if fetched.ok then fetched.book else MarkFailed(fetched.book, env, HeightsFromTo(r.from, r.to)).book
  }

  /** The round goes on to retry a failed height. */
  predicate Retries(s: Book, env: Env, input: Input)
    requires 0 <= s.latest
  {
    if !input.readable || input.postponed || input.upstream < s.latest - MAX_OUTDATED_BLOCKS then false
    else if input.upstream <= s.latest then true
    else match DetermineRange(s.latest, input.upstream, FailedQuery(s.failed, input))
         case None => false
         case Some(NoRange) => input.upstream - s.latest < RETRY_WHEN_BEHIND_LESS_THAN
         case Some(Range(_, to)) => FetchNew(s, env, input).ok && to >= UpstreamAfter(input)
  }

  /** The book when a round comes to its retry. */
  function BeforeRetry(s: Book, env: Env, input: Input): Book
    requires 0 <= s.latest
  {
    if NewRange(s, input).Range? then NewPart(s, env, input) else s
  }

  /** The height a round retries, 0 for none. */
  ghost function Selected(s: Book, env: Env, input: Input): int
    requires 0 <= s.latest
  {
    if Retries(s, env, input) then RetryTarget(BeforeRetry(s, env, input), input) else 0
  }

  /** One round of Start's loop. */
  ghost function Round(s: Book, env: Env, input: Input): Book
    requires 0 <= s.latest
  {
    if Retries(s, env, input) then RetryPart(BeforeRetry(s, env, input), env, input) else BeforeRetry(s, env, input)
  }
}
