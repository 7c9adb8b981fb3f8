/** chain_info.latest_indexed_block and failed_block, and the database calls that move them.
    A call may be applied, refused without effect, or applied although the caller sees an error. */
module BlockBook {
  import opened Common

  datatype Outcome = Applied | Refused | Lost {
    predicate Lands() { this != Refused }

    predicate Reported() { this == Applied }
  }

  /** What happens to the n-th database call, and the UTC second at which it is made. */
  datatype Call = Call(outcome: Outcome, now: int)

  type Env = nat -> Call

  datatype FailedRow = FailedRow(retryCount: int, lastRetry: int)

  /** The heights as one write leaves them. */
  datatype View = View(latest: int, failed: set<int>, indexed: set<int>, dropped: set<int>) {
    predicate Accounts(h: int) { h in indexed || h in failed || h in dropped }
  }

  /** `indexed` are the heights whose block has been processed, `dropped` those whose failure record has been removed
      without that; neither is stored by the program. `trail` has one view per write. */
  datatype Book = Book(
    latest: int,
    failed: map<int, FailedRow>,
    indexed: set<int>,
    dropped: set<int>,
    calls: nat,
    trail: seq<View>)
  {
    function Now(): View { View(latest, failed.Keys, indexed, dropped) }

    predicate Accounts(h: int) { h in indexed || h in failed || h in dropped }
  }

  const MAX_RETRIES := 100
  const RETRY_GAP_SECONDS := 60

  /** The book after a call, and whether the caller saw it succeed. */
  datatype Done = Done(book: Book, ok: bool)

  /** A call that changes nothing the book records. */
  function Idle(s: Book): Book {
    s.(calls := s.calls + 1)
  }

  /** A write: the changed book with its view on the trail. */
  function Written(s: Book, changed: Book): Book {
    changed.(calls := s.calls + 1, trail := s.trail + [changed.Now()])
  }

  function UpsertFailed(failed: map<int, FailedRow>, heights: seq<int>, now: int): map<int, FailedRow> {
    if heights == [] then failed
    else
      var before := UpsertFailed(failed, heights[..|heights| - 1], now);
      var h := heights[|heights| - 1];
      before[h := if h in failed then FailedRow(failed[h].retryCount + 1, Max(now, failed[h].lastRetry))
             else FailedRow(0, now)]
  }

  lemma {:induction false} UpsertedFailed(failed: map<int, FailedRow>, heights: seq<int>, now: int)
    ensures var after := UpsertFailed(failed, heights, now);
            && (forall h :: h in after <==> h in failed || h in heights)
            && (forall h :: h in failed && h !in heights ==> after[h] == failed[h])
            && (forall h :: h in heights ==>
                  after[h] == if h in failed then FailedRow(failed[h].retryCount + 1, Max(now, failed[h].lastRetry))
                              else FailedRow(0, now))
  {
    if heights != [] {
      UpsertedFailed(failed, heights[..|heights| - 1], now);
      assert heights == heights[..|heights| - 1] + [heights[|heights| - 1]];
    }
  }

  predicate HasDuplicates(s: seq<int>) {
    exists i, j :: 0 <= i < j < |s| && s[i] == s[j]
  }

  /** InsertOrUpdateFailedBlocks. PostgreSQL refuses a statement that would update one row twice. */
  function MarkFailed(s: Book, env: Env, heights: seq<int>): Done {
    var call := env(s.calls);
    if HasDuplicates(heights) then Done(Idle(s), false)
    else if !call.outcome.Lands() then Done(Idle(s), false)
    else Done(Written(s, s.(failed := UpsertFailed(s.failed, heights, call.now))), call.outcome.Reported())
  }

  /** SetLatestIndexedBlock outside a transaction, for a block without transactions. */
  function RaiseLatest(s: Book, env: Env, h: int): Done {
    var call := env(s.calls);
    if !call.outcome.Lands() then Done(Idle(s), false)
    else Done(Written(s, s.(latest := Max(s.latest, h), indexed := s.indexed + {h})), call.outcome.Reported())
  }

  /** RemoveFailedBlockRecord outside a transaction. */
  function RemoveFailed(s: Book, env: Env, h: int): Done {
    var call := env(s.calls);
    if !call.outcome.Lands() then Done(Idle(s), false)
    else Done(Written(s, s.(failed := s.failed - {h},
                            dropped := if h in s.failed && h !in s.indexed then s.dropped + {h} else s.dropped)),
              call.outcome.Reported())
  }

  /** Statements inside a transaction: the first error ends them, and nothing is visible before the commit. */
  function TxStatements(s: Book, env: Env, left: nat): Done
    decreases left
  {
    if left == 0 then Done(s, true)
    else if env(s.calls).outcome.Reported() then TxStatements(Idle(s), env, left - 1)
    else Done(Idle(s), false)
  }

  /** Building, checking and inserting the rows of the block. */
  function InsertRows(s: Book, env: Env, valid: bool): Done {
    Done(Idle(s), valid && env(s.calls).outcome.Reported())
  }

  /** After the rows: cleanup, SetLatestIndexedBlock and RemoveFailedBlockRecord. */
  const STATEMENTS_AFTER_ROWS := 3

  function Commit(s: Book, env: Env, h: int): Done {
    var call := env(s.calls);
    if !call.outcome.Lands() then Done(Idle(s), false)
    else Done(Written(s, s.(latest := Max(s.latest, h), failed := s.failed - {h}, indexed := s.indexed + {h})),
              call.outcome.Reported())
  }

  function BlockTransaction(s: Book, env: Env, h: int, valid: bool): Done {
    var rows := InsertRows(s, env, valid);
    if !rows.ok then rows
    else
      var statements := TxStatements(rows.book, env, STATEMENTS_AFTER_ROWS);
      if !statements.ok then statements else Commit(statements.book, env, h)
  }

  predicate Eligible(failed: map<int, FailedRow>, now: int, h: int) {
    h in failed && failed[h].retryCount < MAX_RETRIES && failed[h].lastRetry < now - RETRY_GAP_SECONDS
  }

  ghost predicate IsGreatestEligible(failed: map<int, FailedRow>, now: int, h: int) {
    if exists g :: Eligible(failed, now, g)
    then Eligible(failed, now, h) && forall g :: Eligible(failed, now, g) ==> g <= h
    else h == 0
  }

  /** The failed heights of a window, as GetFailedBlocksInRange lists them. */
  function FailedInRange(failed: map<int, FailedRow>, lo: int, hi: int): (heights: seq<int>)
    ensures forall h :: h in heights <==> lo <= h <= hi && h in failed
    decreases hi - lo
  {
    if lo > hi then []
    else (if lo in failed then [lo] else []) + FailedInRange(failed, lo + 1, hi)
  }

  /** The heights of a range, in ascending order. */
  function HeightsFromTo(first: int, last: int): (heights: seq<int>)
    decreases last - first
    ensures forall h :: h in heights <==> first <= h <= last
    ensures forall i, j :: 0 <= i < j < |heights| ==> heights[i] < heights[j]
  {
    if first > last then []
    else
      var rest := HeightsFromTo(first + 1, last);
      assert forall i :: 0 <= i < |rest| ==> rest[i] in rest;
      [first] + rest
  }
}
