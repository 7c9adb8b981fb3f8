/** What each SQL statement of a block's transaction does to the tables, triggers included.
    A multi-row INSERT lands all its rows first; then, row by row, the AFTER triggers fire in name order:
    the foreign key check, 00100, 00200. The DELETE inside 00200 fires 00300 for each deleted row before it returns. */
module Statements {
  import opened Common
  import opened Tables
  import opened TopRows
  import opened Pruning
  import opened Batches

  // ---- account

  /** trigger_00100_before_insert_or_update_account */
  function CleanAccount(row: AccountRow): AccountRow {
    row.(erc20 := Distinct(row.erc20), nft := Distinct(row.nft))
  }

  function MergeAccount(accounts: map<AccountKey, AccountRow>, row: AccountInsert): map<AccountKey, AccountRow> {
    var inserted := CleanAccount(AccountRow(0, row.erc20, row.nft));
    if row.key in accounts then
      var stored := accounts[row.key];
      var updated := AccountRow(stored.counter, stored.erc20 + inserted.erc20, stored.nft + inserted.nft);
      accounts[row.key := CleanAccount(updated)]
    else
      accounts[row.key := inserted]
  }

  function MergeAccounts(accounts: map<AccountKey, AccountRow>, rows: seq<AccountInsert>): map<AccountKey, AccountRow> {
    if rows == [] then accounts
    else MergeAccount(MergeAccounts(accounts, rows[..|rows| - 1]), rows[|rows| - 1])
  }

  predicate DistinctAccounts(rows: seq<AccountInsert>) {
    forall i, j :: 0 <= i < j < |rows| ==> rows[i].key != rows[j].key
  }

  function UpsertAccounts(db: Db, rows: seq<AccountInsert>): Result<Db> {
    if rows == [] then Success(db)
    else if !ValidAccountBatch(rows) then Failure(InvalidBatch)
    else if !SendableAccounts(rows) then Failure(NotSendable)
    else if !DistinctAccounts(rows) then Failure(RowTouchedTwice)
    else if exists i :: 0 <= i < |rows| && rows[i].key.chainId !in db.keepSetting then Failure(ForeignKeyViolation)
    else Success(db.(accounts := MergeAccounts(db.accounts, rows)))
  }

  // ---- transaction

  function LandTransactions(table: map<TransactionKey, Details>, rows: seq<TransactionInsert>)
    : map<TransactionKey, Details>
  {
    if rows == [] then table
    else
      var before := LandTransactions(table, rows[..|rows| - 1]);
      var row := rows[|rows| - 1];
      if row.key in before then before else before[row.key := row.details]
  }

  function InsertTransactions(db: Db, rows: seq<TransactionInsert>): Result<Db> {
    if rows == [] then Success(db)
    else if !ValidTransactionBatch(rows) then Failure(InvalidBatch)
    else if !SendableTransactions(rows) then Failure(NotSendable)
    else if rows[0].key.chainId !in db.keepSetting then Failure(ForeignKeyViolation)
    else Success(db.(transactions := LandTransactions(db.transactions, rows)))
  }

  // ---- recent_account_transaction

  /** Each row that lands starts with no reference and is put on the pending list by its AFTER INSERT trigger. */
  function LandRecent(db: Db, rows: seq<RecentInsert>): Db {
    if rows == [] then db
    else
      var before := LandRecent(db, rows[..|rows| - 1]);
      var row := rows[|rows| - 1];
      if row.key in before.recent then before
      else before.(recent := before.recent[row.key := RecentRow(0, row.details)], pending := before.pending + {row.key})
  }

  function InsertRecent(db: Db, rows: seq<RecentInsert>): Result<Db> {
    if rows == [] then Success(db)
    else if !ValidRecentBatch(rows) then Failure(InvalidBatch)
    else if !SendableRecent(rows) then Failure(NotSendable)
    else Success(LandRecent(db, rows))
  }

  // ---- ref_account_to_recent_tx

  function LandRefs(refs: map<RefKey, Flags>, rows: seq<RefRow>): map<RefKey, Flags> {
    if rows == [] then refs
    else
      var before := LandRefs(refs, rows[..|rows| - 1]);
      var row := rows[|rows| - 1];
      if row.key in before then before else before[row.key := row.flags]
  }

  /** The rows that landed, in the order their AFTER triggers fire. */
  function LandQueue(refs: map<RefKey, Flags>, rows: seq<RefRow>): seq<RefKey> {
    if rows == [] then []
    else
      var row := rows[|rows| - 1];
      LandQueue(refs, rows[..|rows| - 1])
      + if row.key in LandRefs(refs, rows[..|rows| - 1]) then [] else [row.key]
  }

  /** Trigger 00100: one more insert for the account, one more reference to the transaction. */
  function After100(db: Db, r: RefKey): Db {
    var a, t := r.Account(), r.Tx();
    db.(accounts := if a in db.accounts
                    then db.accounts[a := db.accounts[a].(counter := db.accounts[a].counter + 1)]
                    else db.accounts,
        recent := if t in db.recent
                  then db.recent[t := db.recent[t].(refCount := db.recent[t].refCount + 1)]
                  else db.recent)
  }

  /** Trigger 00300: one reference less, and the transaction becomes a candidate for cleanup. */
  function After300(db: Db, r: RefKey): Db {
    var t := r.Tx();
    db.(recent := if t in db.recent
                  then db.recent[t := db.recent[t].(refCount := db.recent[t].refCount - 1)]
                  else db.recent,
        pending := db.pending + {t})
  }

  function Toward(rows: set<RefKey>, t: TxKey): set<RefKey> {
    set r | r in rows && r.Tx() == t
  }

  /** `rows` have been deleted and trigger 00300 has fired for the rows in `fired` only. */
  function Deleting(db: Db, rows: set<RefKey>, fired: set<RefKey>): Db {
    db.(refs := db.refs - rows,
        recent := map t | t in db.recent :: db.recent[t].(refCount := db.recent[t].refCount - |Toward(fired, t)|),
        pending := db.pending + set r | r in fired :: r.Tx())
  }

  ghost function DoomedIn(db: Db, a: AccountKey): set<RefKey> {
    if a.chainId in db.keepSetting then Doomed(db.refs, a, EffectiveKeep(db.keepSetting[a.chainId]))
    else {}  // LIMIT NULL: no limit
  }

  predicate PruneDue(db: Db, a: AccountKey) {
    a in db.accounts && db.accounts[a].counter >= PRUNE_AFTER_INSERTS
  }

  function ResetCounter(db: Db, a: AccountKey): Db
    requires a in db.accounts
  {
    db.(accounts := db.accounts[a := db.accounts[a].(counter := 0)])
  }

  /** Trigger 00200: prune the account and reset its counter once ten inserts have been counted. */
  ghost function After200(db: Db, r: RefKey): Db {
    var a := r.Account();
    if PruneDue(db, a) then ResetCounter(Deleting(db, DoomedIn(db, a), DoomedIn(db, a)), a) else db
  }

  predicate HasParents(db: Db, r: RefKey) {
    r.Account() in db.accounts && r.Tx() in db.recent
  }

  /** All the AFTER triggers of one row. The foreign key check passes over a row that is already deleted again. */
  ghost function FireRow(db: Db, r: RefKey): Result<Db> {
    if r in db.refs && !HasParents(db, r) then Failure(ForeignKeyViolation)
    else Success(After200(After100(db, r), r))
  }

  ghost function FireQueue(db: Db, queue: seq<RefKey>): Result<Db>
    decreases |queue|
  {
    if queue == [] then Success(db)
    else
      var first := FireRow(db, queue[0]);
      if first.Failure? then first else FireQueue(first.value, queue[1..])
  }

  ghost function InsertRefs(db: Db, rows: seq<RefRow>): Result<Db> {
    if rows == [] then Success(db)
    else if !ValidRefBatch(rows) then Failure(InvalidBatch)
    else if !SendableRefs(rows) then Failure(NotSendable)
    else FireQueue(db.(refs := LandRefs(db.refs, rows)), LandQueue(db.refs, rows))
  }

  // ---- the cleanup procedure

  function Garbage(db: Db): set<TxKey> {
    set t | t in db.pending && t in db.recent && db.recent[t].refCount < 1
  }

  /** Deleting a transaction that a reference still points to violates the foreign key. */
  ghost function Cleanup(db: Db): Result<Db> {
    if exists r :: r in db.refs && r.Tx() in Garbage(db) then Failure(ForeignKeyViolation)
    else Success(db.(recent := db.recent - Garbage(db), pending := {}))
  }

  // ---- sequences of statements

  datatype Statement =
    | SetKeep(chainId: string, setting: Option<int>)  // chain_info row written, by the indexer or by an operator
    | Transactions(transactions: seq<TransactionInsert>)
    | Accounts(accounts: seq<AccountInsert>)
    | Recent(recent: seq<RecentInsert>)
    | Refs(refs: seq<RefRow>)
    | CallCleanup

  ghost function Execute(db: Db, s: Statement): Result<Db> {
    match s
    case SetKeep(chainId, setting) => Success(db.(keepSetting := db.keepSetting[chainId := setting]))
    case Transactions(rows) => InsertTransactions(db, rows)
    case Accounts(rows) => UpsertAccounts(db, rows)
    case Recent(rows) => InsertRecent(db, rows)
    case Refs(rows) => InsertRefs(db, rows)
    case CallCleanup => Cleanup(db)
  }

  ghost function ExecuteAll(db: Db, statements: seq<Statement>): Result<Db>
    decreases |statements|
  {
    if statements == [] then Success(db)
    else
      var first := Execute(db, statements[0]);
      if first.Failure? then first else ExecuteAll(first.value, statements[1..])
  }
}
