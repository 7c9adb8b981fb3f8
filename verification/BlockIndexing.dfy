/** From one block to the tables: the statements issued for its rows always close their foreign keys. */
module BlockIndexing {
  import opened Common
  import opened Tables
  import opened Batches
  import opened Statements
  import opened Consistency
  import opened Collector
  import opened RowBuilding

  /** The order in which insertBlockInformation and its caller issue the statements of one block. */
  function StatementsOf(rows: Rows): seq<Statement> {
    [Transactions(rows.transactions), Accounts(rows.accounts), Recent(rows.recent), Refs(rows.refs), CallCleanup]
  }

  predicate ValidRows(rows: Rows) {
    && ValidTransactionBatch(rows.transactions)
    && ValidAccountBatch(rows.accounts)
    && ValidRecentBatch(rows.recent)
    && ValidRefBatch(rows.refs)
  }

  predicate SendableRows(rows: Rows) {
    && SendableTransactions(rows.transactions)
    && SendableAccounts(rows.accounts)
    && SendableRecent(rows.recent)
    && SendableRefs(rows.refs)
  }

  /** What a refused statement reports. */
  predicate RefusedFor(error: Error, valid: bool, sendable: bool) {
    (error == InvalidBatch && !valid) || (error == NotSendable && !sendable)
  }

  lemma {:induction false} RecentRowsHave(convert: Converter, chainId: string, block: Block, n: nat, i: nat)
    requires i < n <= |block.txs| && Involves(convert, block.txs[i])
    ensures exists j :: 0 <= j < |RecentRows(convert, chainId, block, n)|
              && RecentRows(convert, chainId, block, n)[j].key == TxKey(chainId, block.height, block.txs[i].hash)
  {
    var rows := RecentRows(convert, chainId, block, n);
    if i == n - 1 {
      assert rows[|rows| - 1].key == TxKey(chainId, block.height, block.txs[i].hash);
    } else {
      RecentRowsHave(convert, chainId, block, n - 1, i);
      var before := RecentRows(convert, chainId, block, n - 1);
      var j :| 0 <= j < |before| && before[j].key == TxKey(chainId, block.height, block.txs[i].hash);
      assert rows[j] == before[j];
    }
  }

  /** Every reference row built has its account row and its recent transaction in the same build. */
  lemma ParentsInBatch(convert: Converter, chainId: string, block: Block, rows: Rows, row: RefRow)
    requires AreRowsOf(convert, chainId, block, rows) && row in rows.refs
    ensures HasAccountRow(rows.accounts, row.key.Account())
    ensures exists j :: 0 <= j < |rows.recent| && rows.recent[j].key == row.key.Tx()
  {
    RefRowsMembers(convert, chainId, block.height, block.txs, |block.txs|, rows.refs);
    var i :| 0 <= i < |block.txs| && IsRefRow(convert, chainId, block.height, block.txs[i], row);
    assert Involved(convert, block.txs[i], row.key.address);
    RecentRowsHave(convert, chainId, block, |block.txs|, i);
  }

  /** The tables after the first three statements: every parent the references need is there. */
  lemma ParentsInserted(convert: Converter, chainId: string, block: Block, rows: Rows, db: Db)
    requires AreRowsOf(convert, chainId, block, rows) && AtRest(db)
    requires UpsertAccounts(db, rows.accounts).Success?
    requires InsertRecent(UpsertAccounts(db, rows.accounts).value, rows.recent).Success?
    ensures var ready := InsertRecent(UpsertAccounts(db, rows.accounts).value, rows.recent).value;
            AtRest(ready) && forall i :: 0 <= i < |rows.refs| ==> HasParents(ready, rows.refs[i].key)
  {
    var withAccounts := UpsertAccounts(db, rows.accounts).value;
    MergeKeeps(db.accounts, rows.accounts);
    UpsertAccountsKeeps(db, rows.accounts);
    LandRecentAdds(withAccounts, rows.recent);
    LandRecentKeeps(withAccounts, rows.recent);
    forall i | 0 <= i < |rows.refs|
      ensures HasParents(InsertRecent(withAccounts, rows.recent).value, rows.refs[i].key)
    {
      ParentsInBatch(convert, chainId, block, rows, rows.refs[i]);
    }
  }

  lemma RefsClose(db: Db, rows: seq<RefRow>)
    requires AtRest(db) && ValidRefBatch(rows) && SendableRefs(rows)
    requires forall i :: 0 <= i < |rows| ==> HasParents(db, rows[i].key)
    ensures InsertRefs(db, rows).Success?
  {
    if rows != [] {
      Landed(db.refs, rows);
      FiringSucceeds(db.(refs := LandRefs(db.refs, rows)), LandQueue(db.refs, rows));
    }
  }

  /** Five statements in a row. */
  lemma FiveStatements(db: Db, s: seq<Statement>)
    requires |s| == 5
    ensures ExecuteAll(db, s) ==
              var r0 := Execute(db, s[0]);
              if r0.Failure? then r0 else
              var r1 := Execute(r0.value, s[1]);
              if r1.Failure? then r1 else
              var r2 := Execute(r1.value, s[2]);
              if r2.Failure? then r2 else
              var r3 := Execute(r2.value, s[3]);
              if r3.Failure? then r3 else
              Execute(r3.value, s[4])
  {
    var r0 := Execute(db, s[0]);
    if r0.Success? {
      NextStatement(r0.value, s, 1);
      var r1 := Execute(r0.value, s[1]);
      if r1.Success? {
        NextStatement(r1.value, s, 2);
        var r2 := Execute(r1.value, s[2]);
        if r2.Success? {
          NextStatement(r2.value, s, 3);
          var r3 := Execute(r2.value, s[3]);
          if r3.Success? {
            NextStatement(r3.value, s, 4);
          }
        }
      }
    }
  }

  lemma NextStatement(db: Db, s: seq<Statement>, i: nat)
    requires i < |s|
    ensures ExecuteAll(db, s[i..]) == var first := Execute(db, s[i]);
                                      if first.Failure? then first else ExecuteAll(first.value, s[i + 1..])
    ensures i + 1 == |s| ==> ExecuteAll(db, s[i..]) == Execute(db, s[i])
  {
    assert s[i..][0] == s[i] && s[i..][1..] == s[i + 1..];
  }

  lemma TransactionsKeep(db: Db, rows: seq<TransactionInsert>)
    requires AtRest(db) && InsertTransactions(db, rows).Success?
    ensures AtRest(InsertTransactions(db, rows).value)
  {
    assert AtRest(db.(transactions := InsertTransactions(db, rows).value.transactions));
  }

  lemma TransactionsClose(chainId: string, block: Block, db: Db)
    requires AtRest(db) && chainId in db.keepSetting
    ensures var rows := TransactionRows(chainId, block);
            var result := InsertTransactions(db, rows);
            && (result.Success? <==> ValidTransactionBatch(rows) && SendableTransactions(rows))
            && (result.Failure? ==> RefusedFor(result.error, ValidTransactionBatch(rows), SendableTransactions(rows)))
            && (result.Success? ==>
                AtRest(result.value) && result.value == db.(transactions := result.value.transactions))
  {
    var rows := TransactionRows(chainId, block);
    assert rows != [] ==> rows[0].key.chainId == chainId;
    if InsertTransactions(db, rows).Success? {
      TransactionsKeep(db, rows);
    }
  }

  lemma AccountsClose(convert: Converter, chainId: string, txs: seq<BlockTx>, rows: seq<AccountInsert>, db: Db)
    requires AreAccountRows(convert, chainId, txs, rows)
    requires AtRest(db) && chainId in db.keepSetting
    ensures UpsertAccounts(db, rows).Success? <==> ValidAccountBatch(rows) && SendableAccounts(rows)
    ensures UpsertAccounts(db, rows).Failure? ==>
              RefusedFor(UpsertAccounts(db, rows).error, ValidAccountBatch(rows), SendableAccounts(rows))
  {
    forall i | 0 <= i < |rows| ensures rows[i].key.chainId == chainId {
      assert HasAccountRow(rows, rows[i].key);
    }
  }

  lemma RefsAndCleanupClose(db: Db, rows: seq<RefRow>)
    requires AtRest(db)
    requires forall i :: 0 <= i < |rows| ==> HasParents(db, rows[i].key)
    ensures InsertRefs(db, rows).Success? <==> ValidRefBatch(rows) && SendableRefs(rows)
    ensures InsertRefs(db, rows).Failure? ==>
              RefusedFor(InsertRefs(db, rows).error, ValidRefBatch(rows), SendableRefs(rows))
    ensures InsertRefs(db, rows).Success? ==> Cleanup(InsertRefs(db, rows).value).Success?
  {
    if ValidRefBatch(rows) && SendableRefs(rows) {
      RefsClose(db, rows);
      InsertRefsKeeps(db, rows);
      CleanupExact(InsertRefs(db, rows).value);
    }
  }

  function FirstThree(db: Db, rows: Rows): Result<Db> {
    var r0 := InsertTransactions(db, rows.transactions);
    if r0.Failure? then r0 else
    var r1 := UpsertAccounts(r0.value, rows.accounts);
    if r1.Failure? then r1 else InsertRecent(r1.value, rows.recent)
  }

  predicate FirstThreeValid(rows: Rows) {
    && ValidTransactionBatch(rows.transactions)
    && ValidAccountBatch(rows.accounts)
    && ValidRecentBatch(rows.recent)
  }

  predicate FirstThreeSendable(rows: Rows) {
    && SendableTransactions(rows.transactions)
    && SendableAccounts(rows.accounts)
    && SendableRecent(rows.recent)
  }

  lemma FirstThreeClose(convert: Converter, chainId: string, block: Block, rows: Rows, db: Db)
    requires AreRowsOf(convert, chainId, block, rows)
    requires AtRest(db) && chainId in db.keepSetting
    ensures FirstThree(db, rows).Success? <==> FirstThreeValid(rows) && FirstThreeSendable(rows)
    ensures FirstThree(db, rows).Failure? ==>
              RefusedFor(FirstThree(db, rows).error, FirstThreeValid(rows), FirstThreeSendable(rows))
  {
    TransactionsClose(chainId, block, db);
    var r0 := InsertTransactions(db, rows.transactions);
    if r0.Success? {
      AccountsClose(convert, chainId, block.txs, rows.accounts, r0.value);
    }
  }

  /** The tables when the block's references are about to be inserted. */
  lemma FirstThreeReady(convert: Converter, chainId: string, block: Block, rows: Rows, db: Db)
    requires AreRowsOf(convert, chainId, block, rows) && AtRest(db) && FirstThree(db, rows).Success?
    ensures var ready := FirstThree(db, rows).value;
            AtRest(ready) && forall i :: 0 <= i < |rows.refs| ==> HasParents(ready, rows.refs[i].key)
  {
    TransactionsKeep(db, rows.transactions);
    ParentsInserted(convert, chainId, block, rows, InsertTransactions(db, rows.transactions).value);
  }

  ghost function LastTwo(db: Db, refs: seq<RefRow>): Result<Db> {
    var r3 := InsertRefs(db, refs);
    if r3.Failure? then r3 else Cleanup(r3.value)
  }

  lemma BlockStatements(db: Db, rows: Rows)
    ensures ExecuteAll(db, StatementsOf(rows))
         == if FirstThree(db, rows).Failure? then FirstThree(db, rows)
             else LastTwo(FirstThree(db, rows).value, rows.refs)
  {
    FiveStatements(db, StatementsOf(rows));
  }

  /** From tables at rest, the transaction of a block can only be refused for malformed rows or an insert that
      PostgreSQL cannot take: never for a missing parent, never for touching an account twice, never in its cleanup. */
  lemma BlockCloses(convert: Converter, chainId: string, block: Block, rows: Rows, db: Db)
    requires AreRowsOf(convert, chainId, block, rows)
    requires AtRest(db) && chainId in db.keepSetting
    ensures ExecuteAll(db, StatementsOf(rows)).Success? <==> ValidRows(rows) && SendableRows(rows)
    ensures ExecuteAll(db, StatementsOf(rows)).Failure? ==>
              RefusedFor(ExecuteAll(db, StatementsOf(rows)).error, ValidRows(rows), SendableRows(rows))
  {
    BlockStatements(db, rows);
    FirstThreeClose(convert, chainId, block, rows, db);
    if FirstThree(db, rows).Success? {
      FirstThreeReady(convert, chainId, block, rows, db);
      RefsAndCleanupClose(FirstThree(db, rows).value, rows.refs);
    }
  }
}
