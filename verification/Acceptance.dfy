/** Which blocks the database accepts: the checks on the rows a block is turned into, said of the block itself. */
module Acceptance {
  import opened Common
  import opened Tables
  import opened Batches
  import opened Statements
  import opened Collector
  import opened RowBuilding
  import opened Limits
  import opened BlockIndexing

  /** Among the first n transactions, no two that involve somebody have hashes equal up to case. */
  ghost predicate HashesApart(convert: Converter, txs: seq<BlockTx>, n: nat)
    requires n <= |txs|
  {
    forall i, j :: 0 <= i < j < n && Involves(convert, txs[i]) && Involves(convert, txs[j]) ==>
      Upper(txs[i].hash) != Upper(txs[j].hash)
  }

  /** The same without folding case, which is what tells rows apart. */
  ghost predicate HashesDiffer(convert: Converter, txs: seq<BlockTx>) {
    forall i, j :: 0 <= i < j < |txs| && Involves(convert, txs[i]) && Involves(convert, txs[j]) ==>
      txs[i].hash != txs[j].hash
  }

  ghost predicate AddressesNormal(convert: Converter, txs: seq<BlockTx>) {
    forall i, a :: 0 <= i < |txs| && Involved(convert, txs[i], a) ==> Normalized(a)
  }

  ghost predicate ContractsNormal(convert: Converter, txs: seq<BlockTx>) {
    forall i, h :: 0 <= i < |txs| && Holds(convert, txs[i], h) ==> Normalized(h.contract)
  }

  /** What the validation of a response has already checked of each transaction. */
  predicate WellFormed(chainId: string, block: Block) {
    && (block.txs != [] ==> Normalized(chainId) && block.height >= 1 && block.epoch >= 1)
    && forall i :: 0 <= i < |block.txs| ==>
      block.txs[i].messageTypes != [] && HashFits(block.txs[i].txType, block.txs[i].hash)
  }

  ghost predicate AddressesStorable(convert: Converter, txs: seq<BlockTx>) {
    forall i, a :: 0 <= i < |txs| && Involved(convert, txs[i], a) ==> Storable(a)
  }

  ghost predicate ContractsStorable(convert: Converter, txs: seq<BlockTx>) {
    forall i, h :: 0 <= i < |txs| && Holds(convert, txs[i], h) ==> Storable(h.contract)
  }

  /** No NUL character in any text the block would store. */
  ghost predicate TextsStorable(convert: Converter, txs: seq<BlockTx>) {
    && (forall i :: 0 <= i < |txs| ==> StorableTx(txs[i]))
    && AddressesStorable(convert, txs)
    && ContractsStorable(convert, txs)
  }

  predicate StorableTx(tx: BlockTx) {
    AllStorable(tx.messageTypes) && Storable(tx.rest)
  }

  /** All references of a block go into one statement, and so do all its transactions. Its accounts and its recent
      transactions are fewer, with no more parameters each. */
  predicate StatementsFit(convert: Converter, txs: seq<BlockTx>) {
    && 9 * |txs| <= 65535
    && 7 * References(convert, txs) <= 65535
  }

  /** The block's rows can be built, pass every check before their INSERT, and can be sent to the server. */
  ghost predicate Acceptable(convert: Converter, chainId: string, block: Block) {
    && !BlockBroken(convert, block)
    && WellFormed(chainId, block)
    && HashesApart(convert, block.txs, |block.txs|)
    && AddressesNormal(convert, block.txs)
    && ContractsNormal(convert, block.txs)
    && TextsStorable(convert, block.txs)
    && StatementsFit(convert, block.txs)
  }

  lemma TransactionsAcceptable(chainId: string, block: Block)
    ensures ValidTransactionBatch(TransactionRows(chainId, block)) <==> WellFormed(chainId, block)
  {
    var rows := TransactionRows(chainId, block);
    forall i | 0 <= i < |rows|
      ensures SoundTransaction(rows[i])
         <==> && Normalized(chainId) && block.height >= 1 && block.epoch >= 1
              && block.txs[i].messageTypes != [] && HashFits(block.txs[i].txType, block.txs[i].hash)
    {
    }
    if ValidTransactionBatch(rows) && block.txs != [] {
      assert SoundTransaction(rows[0]);
    }
  }

  lemma {:induction false} RecentRowsFrom(convert: Converter, chainId: string, block: Block, n: nat, j: nat)
    requires n <= |block.txs| && j < |RecentRows(convert, chainId, block, n)|
    ensures exists i :: 0 <= i < n && Involves(convert, block.txs[i])
              && RecentRows(convert, chainId, block, n)[j] == RecentRowOf(chainId, block, block.txs[i])
  {
    var before := RecentRows(convert, chainId, block, n - 1);
    if j < |before| {
      RecentRowsFrom(convert, chainId, block, n - 1, j);
    } else {
      assert Involves(convert, block.txs[n - 1]);
    }
  }

  predicate NewHashFor(rows: seq<RecentInsert>, hash: string) {
    forall j :: 0 <= j < |rows| ==> Upper(rows[j].key.hash) != Upper(hash)
  }

  ghost predicate NewHashAfter(convert: Converter, txs: seq<BlockTx>, n: nat, hash: string)
    requires n <= |txs|
  {
    forall i :: 0 <= i < n && Involves(convert, txs[i]) ==> Upper(txs[i].hash) != Upper(hash)
  }

  /** The new hash differs from those of all earlier rows exactly if it differs from those of all earlier
      transactions. */
  lemma NewHash(convert: Converter, chainId: string, block: Block, n: nat, hash: string)
    requires n <= |block.txs|
    ensures NewHashFor(RecentRows(convert, chainId, block, n), hash) <==> NewHashAfter(convert, block.txs, n, hash)
  {
    var rows := RecentRows(convert, chainId, block, n);
    forall j | 0 <= j < |rows|
      ensures exists i :: 0 <= i < n && Involves(convert, block.txs[i]) && rows[j].key.hash == block.txs[i].hash
    {
      RecentRowsFrom(convert, chainId, block, n, j);
    }
    forall i | 0 <= i < n && Involves(convert, block.txs[i])
      ensures exists j :: 0 <= j < |rows| && rows[j].key.hash == block.txs[i].hash
    {
      RecentRowsHave(convert, chainId, block, n, i);
    }
  }

  ghost predicate AllOf(rows: seq<RecentInsert>, chainId: string, height: int) {
    forall j :: 0 <= j < |rows| ==> rows[j].key.chainId == chainId && rows[j].key.height == height
  }

  lemma HashesApartNext(convert: Converter, txs: seq<BlockTx>, n: nat)
    requires 0 < n <= |txs|
    ensures HashesApart(convert, txs, n)
       <==> && HashesApart(convert, txs, n - 1)
            && (Involves(convert, txs[n - 1]) ==> NewHashAfter(convert, txs, n - 1, txs[n - 1].hash))
  {
  }

  lemma SoundRow(chainId: string, block: Block, i: nat)
    requires i < |block.txs| && WellFormed(chainId, block)
    ensures SoundRecent(RecentRowOf(chainId, block, block.txs[i]))
  {
  }

  ghost predicate RecentSoFar(convert: Converter, chainId: string, block: Block, n: nat, rows: seq<RecentInsert>)
    requires n <= |block.txs|
  {
    && ValidRecentBatch(rows) == HashesApart(convert, block.txs, n)
    && AllOf(rows, chainId, block.height)
  }

  lemma RecentStep(convert: Converter, chainId: string, block: Block, n: nat, before: seq<RecentInsert>)
    requires n < |block.txs| && WellFormed(chainId, block) && Involves(convert, block.txs[n])
    requires RecentSoFar(convert, chainId, block, n, before)
    requires NewHashFor(before, block.txs[n].hash) == NewHashAfter(convert, block.txs, n, block.txs[n].hash)
    ensures RecentSoFar(convert, chainId, block, n + 1, before + [RecentRowOf(chainId, block, block.txs[n])])
  {
    SoundRow(chainId, block, n);
    HashesApartNext(convert, block.txs, n + 1);
    OneMoreRecent(before, RecentRowOf(chainId, block, block.txs[n]));
  }

  lemma RecentSkip(convert: Converter, chainId: string, block: Block, n: nat, before: seq<RecentInsert>)
    requires n < |block.txs| && !Involves(convert, block.txs[n])
    requires RecentSoFar(convert, chainId, block, n, before)
    ensures RecentSoFar(convert, chainId, block, n + 1, before + [])
  {
    HashesApartNext(convert, block.txs, n + 1);
    assert before + [] == before;
  }

  lemma NoneRecent(convert: Converter, chainId: string, block: Block)
    ensures RecentSoFar(convert, chainId, block, 0, [])
  {
  }

  lemma RecentNext(convert: Converter, chainId: string, block: Block, n: nat)
    requires n < |block.txs| && WellFormed(chainId, block)
    requires RecentSoFar(convert, chainId, block, n, RecentRows(convert, chainId, block, n))
    ensures RecentSoFar(convert, chainId, block, n + 1, RecentRows(convert, chainId, block, n + 1))
  {
    if Involves(convert, block.txs[n]) {
      NewHash(convert, chainId, block, n, block.txs[n].hash);
      RecentStep(convert, chainId, block, n, RecentRows(convert, chainId, block, n));
    } else {
      RecentSkip(convert, chainId, block, n, RecentRows(convert, chainId, block, n));
    }
  }

  lemma {:induction false} RecentAcceptable(convert: Converter, chainId: string, block: Block, n: nat)
    requires n <= |block.txs| && WellFormed(chainId, block)
    ensures RecentSoFar(convert, chainId, block, n, RecentRows(convert, chainId, block, n))
  {
    if n == 0 {
      NoneRecent(convert, chainId, block);
    } else {
      RecentAcceptable(convert, chainId, block, n - 1);
      RecentNext(convert, chainId, block, n - 1);
    }
  }

  lemma OneMoreRecent(rows: seq<RecentInsert>, row: RecentInsert)
    requires AllOf(rows, row.key.chainId, row.key.height) && SoundRecent(row)
    ensures ValidRecentBatch(rows + [row]) <==> ValidRecentBatch(rows) && NewHashFor(rows, row.key.hash)
    ensures AllOf(rows + [row], row.key.chainId, row.key.height)
  {
    var all := rows + [row];
    assert forall j :: 0 <= j < |rows| ==> all[j] == rows[j];
    assert all[|rows|] == row;
    if ValidRecentBatch(all) {
      forall j | 0 <= j < |rows| ensures SoundRecent(rows[j]) && Upper(rows[j].key.hash) != Upper(row.key.hash) {
        assert SoundRecent(all[j]);
        assert Upper(all[j].key.hash) != Upper(all[|rows|].key.hash);
      }
    }
  }

  lemma HolderIsInvolved(convert: Converter, tx: BlockTx, h: Holding)
    requires Holds(convert, tx, h)
    ensures Involved(convert, tx, h.address)
  {
    assert PlaysRole(convert, tx, Fact(h.address, h.kind));
  }

  lemma AccountsAcceptable(convert: Converter, chainId: string, txs: seq<BlockTx>, rows: seq<AccountInsert>)
    requires AreAccountRows(convert, chainId, txs, rows) && (txs != [] ==> Normalized(chainId))
    ensures ValidAccountBatch(rows) <==> AddressesNormal(convert, txs) && ContractsNormal(convert, txs)
  {
    forall i | 0 <= i < |rows| ensures rows[i].key.chainId == chainId {
      assert HasAccountRow(rows, rows[i].key);
    }
    if ValidAccountBatch(rows) {
      forall i, a | 0 <= i < |txs| && Involved(convert, txs[i], a) ensures Normalized(a) {
        assert HasAccountRow(rows, AccountKey(chainId, a));
      }
      forall i, h | 0 <= i < |txs| && Holds(convert, txs[i], h) ensures Normalized(h.contract) {
        HolderIsInvolved(convert, txs[i], h);
        assert HasAccountRow(rows, AccountKey(chainId, h.address));
        var j :| 0 <= j < |rows| && rows[j].key == AccountKey(chainId, h.address);
        assert h == Holding(rows[j].key.address, h.kind, h.contract);
        assert SoundAccount(rows[j]);
      }
    }
    if AddressesNormal(convert, txs) && ContractsNormal(convert, txs) {
      forall j | 0 <= j < |rows| ensures SoundAccount(rows[j]) {
        NormalAccount(convert, chainId, txs, rows, j);
      }
    }
  }

  lemma NormalAccount(convert: Converter, chainId: string, txs: seq<BlockTx>, rows: seq<AccountInsert>, j: nat)
    requires AreAccountRows(convert, chainId, txs, rows) && (txs != [] ==> Normalized(chainId)) && j < |rows|
    requires AddressesNormal(convert, txs) && ContractsNormal(convert, txs)
    ensures SoundAccount(rows[j])
  {
    var address := rows[j].key.address;
    assert HasAccountRow(rows, rows[j].key);
    forall c | c in rows[j].erc20 ensures Normalized(c) {
      var i :| 0 <= i < |txs| && Holds(convert, txs[i], Holding(address, Erc20Kind, c));
    }
    forall c | c in rows[j].nft ensures Normalized(c) {
      var i :| 0 <= i < |txs| && Holds(convert, txs[i], Holding(address, NftKind, c));
    }
  }

  lemma RefsAcceptable(convert: Converter, chainId: string, block: Block, refs: seq<RefRow>)
    requires AreRefRows(convert, chainId, block.height, block.txs, |block.txs|, refs)
    requires WellFormed(chainId, block) && AddressesNormal(convert, block.txs)
    ensures ValidRefBatch(refs)
  {
    RefRowsMembers(convert, chainId, block.height, block.txs, |block.txs|, refs);
    forall j | 0 <= j < |refs|
      ensures SoundRef(refs[j]) && refs[j].key.chainId == chainId && refs[j].key.height == block.height
    {
      assert refs[j] in refs;
      var i :| 0 <= i < |block.txs| && IsRefRow(convert, chainId, block.height, block.txs[i], refs[j]);
      assert HashFits(block.txs[i].txType, block.txs[i].hash);
    }
  }

  lemma ValidIff(convert: Converter, chainId: string, block: Block, rows: Rows)
    requires AreRowsOf(convert, chainId, block, rows)
    ensures ValidRows(rows)
       <==> && WellFormed(chainId, block)
            && HashesApart(convert, block.txs, |block.txs|)
            && AddressesNormal(convert, block.txs)
            && ContractsNormal(convert, block.txs)
  {
    TransactionsAcceptable(chainId, block);
    if WellFormed(chainId, block) {
      RecentAcceptable(convert, chainId, block, |block.txs|);
      AccountsAcceptable(convert, chainId, block.txs, rows.accounts);
      if AddressesNormal(convert, block.txs) {
        RefsAcceptable(convert, chainId, block, rows.refs);
      }
    }
  }

  // ---- what can be sent

  lemma TransactionsSendable(chainId: string, block: Block)
    ensures SendableTransactions(TransactionRows(chainId, block))
       <==> && 9 * |block.txs| <= 65535
            && forall i :: 0 <= i < |block.txs| ==> StorableTx(block.txs[i])
  {
    var rows := TransactionRows(chainId, block);
    assert forall i :: 0 <= i < |rows| ==> (StorableDetails(rows[i].details) <==> StorableTx(block.txs[i]));
  }

  /** The recent transactions can be sent whenever all transactions can. */
  lemma RecentSendable(convert: Converter, chainId: string, block: Block)
    requires SendableTransactions(TransactionRows(chainId, block))
    ensures SendableRecent(RecentRows(convert, chainId, block, |block.txs|))
  {
    var rows := RecentRows(convert, chainId, block, |block.txs|);
    RecentRowsCounted(convert, chainId, block, |block.txs|);
    TransactionsSendable(chainId, block);
    forall j | 0 <= j < |rows| ensures StorableDetails(rows[j].details) {
      RecentRowsFrom(convert, chainId, block, |block.txs|, j);
      var i :| 0 <= i < |block.txs| && rows[j] == RecentRowOf(chainId, block, block.txs[i]);
      assert StorableTx(block.txs[i]);
    }
  }

  lemma RefsSendable(convert: Converter, chainId: string, block: Block, refs: seq<RefRow>)
    requires AreRefRows(convert, chainId, block.height, block.txs, |block.txs|, refs)
    ensures SendableRefs(refs)
       <==> 7 * References(convert, block.txs) <= 65535 && AddressesStorable(convert, block.txs)
  {
    RefRowsCounted(convert, chainId, block.height, block.txs, refs);
    RefRowsMembers(convert, chainId, block.height, block.txs, |block.txs|, refs);
    if SendableRefs(refs) {
      forall i, a | 0 <= i < |block.txs| && Involved(convert, block.txs[i], a) ensures Storable(a) {
        var row := RefRow(RefKey(chainId, a, block.height, block.txs[i].hash), RoleFlags(convert, block.txs[i], a));
        assert IsRefRow(convert, chainId, block.height, block.txs[i], row);
        assert row in refs;
      }
    }
    if AddressesStorable(convert, block.txs) {
      forall j | 0 <= j < |refs| ensures Storable(refs[j].key.address) {
        assert refs[j] in refs;
      }
    }
  }

  lemma StorableAccounts(convert: Converter, chainId: string, txs: seq<BlockTx>, rows: seq<AccountInsert>)
    requires AreAccountRows(convert, chainId, txs, rows) && AddressesStorable(convert, txs)
    ensures (forall j :: 0 <= j < |rows| ==> StorableAccount(rows[j])) <==> ContractsStorable(convert, txs)
  {
    if forall j :: 0 <= j < |rows| ==> StorableAccount(rows[j]) {
      forall i, h | 0 <= i < |txs| && Holds(convert, txs[i], h) ensures Storable(h.contract) {
        HolderIsInvolved(convert, txs[i], h);
        assert HasAccountRow(rows, AccountKey(chainId, h.address));
        var j :| 0 <= j < |rows| && rows[j].key == AccountKey(chainId, h.address);
        assert h == Holding(rows[j].key.address, h.kind, h.contract);
        assert StorableAccount(rows[j]);
      }
    }
    if ContractsStorable(convert, txs) {
      forall j | 0 <= j < |rows| ensures StorableAccount(rows[j]) {
        AccountIsStorable(convert, chainId, txs, rows, j);
      }
    }
  }

  lemma AccountIsStorable(convert: Converter, chainId: string, txs: seq<BlockTx>, rows: seq<AccountInsert>, j: nat)
    requires AreAccountRows(convert, chainId, txs, rows) && j < |rows|
    requires AddressesStorable(convert, txs) && ContractsStorable(convert, txs)
    ensures StorableAccount(rows[j])
  {
    var address := rows[j].key.address;
    assert HasAccountRow(rows, rows[j].key);
    forall c | c in rows[j].erc20 ensures Storable(c) {
      var i :| 0 <= i < |txs| && Holds(convert, txs[i], Holding(address, Erc20Kind, c));
    }
    forall c | c in rows[j].nft ensures Storable(c) {
      var i :| 0 <= i < |txs| && Holds(convert, txs[i], Holding(address, NftKind, c));
    }
  }

  /** The four statements can be sent exactly if the block's texts can be stored and its transactions and references,
      which outnumber its accounts, are few enough. */
  lemma SendableIff(convert: Converter, chainId: string, block: Block, rows: Rows)
    requires AreRowsOf(convert, chainId, block, rows)
    ensures SendableRows(rows) <==> TextsStorable(convert, block.txs) && StatementsFit(convert, block.txs)
  {
    TransactionsSendable(chainId, block);
    RefsSendable(convert, chainId, block, rows.refs);
    AccountRowsCounted(convert, chainId, block.txs, rows.accounts);
    if SendableTransactions(rows.transactions) {
      RecentSendable(convert, chainId, block);
    }
    if AddressesStorable(convert, block.txs) {
      StorableAccounts(convert, chainId, block.txs, rows.accounts);
    }
  }

  /** The rows pass their checks and can be sent exactly if the block is acceptable, in whatever order Go's maps
      produced them. */
  lemma AcceptableIffValid(convert: Converter, chainId: string, block: Block, rows: Rows)
    requires AreRowsOf(convert, chainId, block, rows) && !BlockBroken(convert, block)
    ensures ValidRows(rows) && SendableRows(rows) <==> Acceptable(convert, chainId, block)
  {
    ValidIff(convert, chainId, block, rows);
    SendableIff(convert, chainId, block, rows);
  }

  /** From tables at rest, with the chain registered: the block is turned into rows and all its statements succeed
      exactly if it is acceptable. */
  lemma CommitsIffAcceptable(convert: Converter, chainId: string, block: Block, result: Result<Rows>, db: Db)
    requires result.Failure? <==> BlockBroken(convert, block)
    requires result.Success? ==> AreRowsOf(convert, chainId, block, result.value)
    requires AtRest(db) && chainId in db.keepSetting
    ensures (result.Success? && ExecuteAll(db, StatementsOf(result.value)).Success?)
        <==> Acceptable(convert, chainId, block)
  {
    if result.Success? {
      AcceptableIffValid(convert, chainId, block, result.value);
      BlockCloses(convert, chainId, block, result.value, db);
    }
  }

  /** A batch of recent rows that passes its check tells the block's transactions apart. */
  lemma ValidRecentMeansApart(convert: Converter, chainId: string, block: Block, rows: Rows)
    requires AreRowsOf(convert, chainId, block, rows) && ValidTransactionBatch(rows.transactions)
    requires ValidRecentBatch(rows.recent)
    ensures HashesDiffer(convert, block.txs)
  {
    TransactionsAcceptable(chainId, block);
    RecentAcceptable(convert, chainId, block, |block.txs|);
  }

  // ---- blocks that a healthy database still refuses

  /** One hash listed twice, be it in different case, both times involving somebody. */
  lemma RepeatedHashRefused(convert: Converter, chainId: string, block: Block, i: nat, j: nat)
    requires i < j < |block.txs| && EqualFold(block.txs[i].hash, block.txs[j].hash)
    requires Involves(convert, block.txs[i]) && Involves(convert, block.txs[j])
    ensures !Acceptable(convert, chainId, block)
  {
    UpperFolds(block.txs[i].hash, block.txs[j].hash);
    assert !HashesApart(convert, block.txs, |block.txs|);
  }

  /** A value that does not parse, or an involver that cannot be converted. */
  lemma UnreadableRefused(convert: Converter, chainId: string, block: Block, i: nat)
    requires i < |block.txs|
    requires !block.txs[i].valueParses
          || exists kind, j :: kind in block.txs[i].involvers && 0 <= j < |block.txs[i].involvers[kind]|
                               && convert(block.txs[i].involvers[kind][j]).Broken?
    ensures !Acceptable(convert, chainId, block)
  {
    var tx := block.txs[i];
    if tx.valueParses {
      var kind, j :| kind in tx.involvers && 0 <= j < |tx.involvers[kind]| && convert(tx.involvers[kind][j]).Broken?;
      assert ListBroken(convert, InvolversOf(tx, kind));
      match kind case SignerKind => case Erc20Kind => case NftKind => case NormalKind =>
    }
    assert TxBroken(convert, tx);
  }

  /** A token contract written with a capital letter. */
  lemma CapitalContractRefused(convert: Converter, chainId: string, block: Block, i: nat, h: Holding, k: nat)
    requires i < |block.txs| && Holds(convert, block.txs[i], h)
    requires k < |h.contract| && 'A' <= h.contract[k] <= 'Z'
    ensures !Acceptable(convert, chainId, block)
  {
    assert !Normalized(h.contract);
  }
}
