/** What the tables hold depends only on which blocks have been committed: not on the order, not on repetitions,
    not on rolled back attempts, not on the order in which Go walked its maps. */
module Convergence {
  import opened Common
  import opened Tables
  import opened TopRows
  import opened Batches
  import opened Statements
  import opened Consistency
  import opened Collector
  import opened History
  import opened RowBuilding
  import opened BlockIndexing
  import opened Acceptance

  /** Each height of a chain always carries the same block; each chain has its own address conversion. */
  datatype Source = Source(convert: string -> Converter, content: (string, int) -> Block)

  ghost predicate Sound(src: Source) {
    forall chainId, h :: src.content(chainId, h).height == h
  }

  /** Hashes tell apart the transactions of the block that involve somebody, as they do in every block that can be
      committed. */
  ghost predicate Distinguishable(src: Source, chainId: string, h: int) {
    HashesDiffer(src.convert(chainId), src.content(chainId, h).txs)
  }

  /** The transaction of one block, however its rows were built, or a change of a chain's settings. */
  datatype Event =
    | Index(chainId: string, height: int, rows: Rows, commit: bool)
    | Configure(chainId: string, setting: Option<int>)

  function TransactionOf(e: Event): Transaction {
    match e
    case Index(_, _, rows, commit) => Transaction(StatementsOf(rows), commit)
    case Configure(chainId, setting) => Transaction([SetKeep(chainId, setting)], true)
  }

  ghost predicate FromSource(src: Source, e: Event) {
    e.Index? ==> AreRowsOf(src.convert(e.chainId), e.chainId, src.content(e.chainId, e.height), e.rows)
  }

  function TransactionsOf(events: seq<Event>): seq<Transaction> {
    seq(|events|, i requires 0 <= i < |events| => TransactionOf(events[i]))
  }

  ghost function After(events: seq<Event>): Db {
    Run(EMPTY, TransactionsOf(events))
  }

  ghost predicate LastCommits(events: seq<Event>)
    requires events != []
  {
    Commits(After(events[..|events| - 1]), TransactionOf(events[|events| - 1]))
  }

  /** The blocks committed so far. */
  ghost function Committed(events: seq<Event>): set<(string, int)> {
    if events == [] then {}
    else
      var last := events[|events| - 1];
      Committed(events[..|events| - 1])
      + if last.Index? && LastCommits(events) then {(last.chainId, last.height)} else {}
  }

  lemma AfterLast(events: seq<Event>)
    requires events != []
    ensures After(events) == RunOne(After(events[..|events| - 1]), TransactionOf(events[|events| - 1]))
    ensures RunHistory(EMPTY, TransactionsOf(events))
         == if LastCommits(events)
            then RecordAll(RunHistory(EMPTY, TransactionsOf(events[..|events| - 1])),
                           TransactionOf(events[|events| - 1]).statements)
            else RunHistory(EMPTY, TransactionsOf(events[..|events| - 1]))
  {
    var all, init := TransactionsOf(events), TransactionsOf(events[..|events| - 1]);
    assert all[..|all| - 1] == init;
  }

  // ---- what a committed block does to each table

  ghost predicate SameContracts(before: map<AccountKey, AccountRow>, after: map<AccountKey, AccountRow>) {
    && after.Keys == before.Keys
    && forall a :: a in before ==> after[a].erc20 == before[a].erc20 && after[a].nft == before[a].nft
  }

  lemma FirstThreeEffect(db: Db, rows: Rows)
    requires FirstThree(db, rows).Success?
    ensures var after := FirstThree(db, rows).value;
            && after.transactions == LandTransactions(db.transactions, rows.transactions)
            && after.accounts == MergeAccounts(db.accounts, rows.accounts)
            && after.refs == db.refs
  {
    var r1 := UpsertAccounts(InsertTransactions(db, rows.transactions).value, rows.accounts).value;
    LandRecentAdds(r1, rows.recent);
  }

  lemma FirstThreeRecent(db: Db, rows: Rows)
    requires FirstThree(db, rows).Success?
    ensures AbsentInserted(db.recent, RecentKeys(rows.recent), RecentValues(rows.recent),
                           FirstThree(db, rows).value.recent)
  {
    var r1 := UpsertAccounts(InsertTransactions(db, rows.transactions).value, rows.accounts).value;
    assert r1.recent == db.recent;
    RecentInserted(r1, rows.recent);
  }

  /** Some of the transactions, whatever their counts. */
  ghost predicate SomeOf(after: map<TxKey, RecentRow>, before: map<TxKey, RecentRow>) {
    forall t :: t in after ==> t in before && after[t].details == before[t].details
  }

  lemma LastTwoEffect(db: Db, refs: seq<RefRow>)
    requires LastTwo(db, refs).Success?
    ensures LastTwo(db, refs).value.transactions == db.transactions
    ensures SameContracts(db.accounts, LastTwo(db, refs).value.accounts)
    ensures SomeOf(LastTwo(db, refs).value.recent, db.recent)
  {
    if refs != [] {
      FiringOnlyCounts(db.(refs := LandRefs(db.refs, refs)), LandQueue(db.refs, refs));
    }
  }

  lemma BlockEffect(db: Db, rows: Rows)
    requires ExecuteAll(db, StatementsOf(rows)).Success?
    ensures var after := ExecuteAll(db, StatementsOf(rows)).value;
            && after.transactions == LandTransactions(db.transactions, rows.transactions)
            && SameContracts(MergeAccounts(db.accounts, rows.accounts), after.accounts)
            && FirstThree(db, rows).Success? && SomeOf(after.recent, FirstThree(db, rows).value.recent)
  {
    BlockStatements(db, rows);
    FirstThreeEffect(db, rows);
    LastTwoEffect(FirstThree(db, rows).value, rows.refs);
  }

  lemma BlockRecord(history: map<RefKey, Flags>, rows: Rows)
    ensures RecordAll(history, StatementsOf(rows)) == LandRefs(history, rows.refs)
  {
    var s := StatementsOf(rows);
    assert s[1..][1..] == s[2..] && s[2..][1..] == s[3..] && s[3..][1..] == s[4..] && s[4..][1..] == [];
    assert RecordAll(history, s) == RecordAll(history, s[1..]);
    assert RecordAll(history, s[1..]) == RecordAll(history, s[2..]);
    assert RecordAll(history, s[2..]) == RecordAll(history, s[3..]);
    var landed := LandRefs(history, rows.refs);
    assert RecordAll(history, s[3..]) == RecordAll(landed, s[4..]);
    assert RecordAll(landed, s[4..]) == RecordAll(landed, []);
  }

  // ---- transaction

  /** The i-th transaction of its block is the first with the hash of the key, in the week of the block. */
  predicate FirstOf(src: Source, key: TransactionKey, i: int) {
    var block := src.content(key.chainId, key.height);
    && 0 <= i < |block.txs| && block.txs[i].hash == key.hash && key.week == block.epoch / 604800
    && forall j :: 0 <= j < i ==> block.txs[j].hash != key.hash
  }

  predicate StoresTx(src: Source, key: TransactionKey, i: int, details: Details)
    requires FirstOf(src, key, i)
  {
    var block := src.content(key.chainId, key.height);
    var tx := block.txs[i];
    details == Details(block.epoch, tx.messageTypes, tx.txType, tx.rest)
  }

  /** Stored are exactly the transactions of the committed blocks, each as its block has it, in its week. */
  ghost predicate TransactionsConverged(src: Source, db: Db, blocks: set<(string, int)>) {
    && (forall key ::
          key in db.transactions <==> (key.chainId, key.height) in blocks && exists i :: FirstOf(src, key, i))
    && forall key, i :: key in db.transactions && FirstOf(src, key, i) ==> StoresTx(src, key, i, db.transactions[key])
  }

  lemma KeyOfBlock(src: Source, chainId: string, h: int, key: TransactionKey)
    requires Sound(src)
    ensures key in TransactionKeys(TransactionRows(chainId, src.content(chainId, h)))
       <==> key.chainId == chainId && key.height == h && exists i :: FirstOf(src, key, i)
  {
    var block, keys := src.content(chainId, h), TransactionKeys(TransactionRows(chainId, src.content(chainId, h)));
    assert forall i :: 0 <= i < |keys| ==>
      keys[i] == TransactionKey(chainId, h, block.txs[i].hash, block.epoch / 604800);
    if key in keys {
      FirstExists(keys, key);
      var i :| 0 <= i < |keys| && keys[i] == key && FirstAt(keys, i);
      assert FirstOf(src, key, i);
    }
    if key.chainId == chainId && key.height == h && exists i :: FirstOf(src, key, i) {
      var i :| FirstOf(src, key, i);
      assert keys[i] == key;
    }
  }

  lemma ValueOfBlock(src: Source, key: TransactionKey, i: int, before: map<TransactionKey, Details>,
                     after: map<TransactionKey, Details>)
    requires Sound(src) && FirstOf(src, key, i) && key !in before
    requires after == LandTransactions(before, TransactionRows(key.chainId, src.content(key.chainId, key.height)))
    ensures key in after && StoresTx(src, key, i, after[key])
  {
    var block := src.content(key.chainId, key.height);
    var rows := TransactionRows(key.chainId, block);
    var keys := TransactionKeys(rows);
    TransactionsInserted(before, rows);
    assert keys[i] == key && TransactionValues(rows)[i] == TransactionDetails(block, block.txs[i]);
    assert FirstAt(keys, i);
  }

  lemma TransactionsStep(src: Source, db: Db, blocks: set<(string, int)>, chainId: string, h: int, after: Db)
    requires Sound(src) && TransactionsConverged(src, db, blocks)
    requires after.transactions == LandTransactions(db.transactions, TransactionRows(chainId, src.content(chainId, h)))
    ensures TransactionsConverged(src, after, blocks + {(chainId, h)})
  {
    TransactionsInserted(db.transactions, TransactionRows(chainId, src.content(chainId, h)));
    forall key
      ensures key in after.transactions
         <==> (key.chainId, key.height) in blocks + {(chainId, h)} && exists i :: FirstOf(src, key, i)
    {
      KeyOfBlock(src, chainId, h, key);
    }
    forall key, i | key in after.transactions && FirstOf(src, key, i)
      ensures StoresTx(src, key, i, after.transactions[key])
    {
      KeyOfBlock(src, chainId, h, key);
      if key !in db.transactions {
        ValueOfBlock(src, key, i, db.transactions, after.transactions);
      }
    }
  }

  // ---- recent_account_transaction

  /** A transaction of the block that involves somebody, stored as the block has it. */
  ghost predicate IsContentTx(src: Source, t: TxKey, details: Details) {
    var block := src.content(t.chainId, t.height);
    exists i :: 0 <= i < |block.txs| && block.txs[i].hash == t.hash && Involves(src.convert(t.chainId), block.txs[i])
                && details == Details(block.epoch, block.txs[i].messageTypes, "", block.txs[i].rest)
  }

  ghost predicate RecentConverged(src: Source, db: Db, blocks: set<(string, int)>) {
    forall t :: t in db.recent ==> (t.chainId, t.height) in blocks && IsContentTx(src, t, db.recent[t].details)
  }

  lemma RecentStepped(src: Source, db: Db, blocks: set<(string, int)>, chainId: string, h: int,
                      rows: seq<RecentInsert>, landed: map<TxKey, RecentRow>, after: Db)
    requires Sound(src) && RecentConverged(src, db, blocks)
    requires rows == RecentRows(src.convert(chainId), chainId, src.content(chainId, h), |src.content(chainId, h).txs|)
    requires AbsentInserted(db.recent, RecentKeys(rows), RecentValues(rows), landed) && SomeOf(after.recent, landed)
    ensures RecentConverged(src, after, blocks + {(chainId, h)})
  {
    var block, keys := src.content(chainId, h), RecentKeys(rows);
    forall t | t in after.recent && t !in db.recent
      ensures t.chainId == chainId && t.height == h && IsContentTx(src, t, after.recent[t].details)
    {
      FirstExists(keys, t);
      var j :| 0 <= j < |keys| && keys[j] == t && FirstAt(keys, j);
      RecentRowsFrom(src.convert(chainId), chainId, block, |block.txs|, j);
      assert landed[t] == RecentValues(rows)[j];
    }
  }

  // ---- account

  ghost predicate BlockInvolves(src: Source, chainId: string, h: int, address: string) {
    exists i :: 0 <= i < |src.content(chainId, h).txs|
        && Involved(src.convert(chainId), src.content(chainId, h).txs[i], address)
  }

  ghost predicate BlockHolds(src: Source, chainId: string, h: int, holding: Holding) {
    exists i :: 0 <= i < |src.content(chainId, h).txs|
        && Holds(src.convert(chainId), src.content(chainId, h).txs[i], holding)
  }

  ghost predicate SomeInvolves(src: Source, blocks: set<(string, int)>, a: AccountKey) {
    exists h :: (a.chainId, h) in blocks && BlockInvolves(src, a.chainId, h, a.address)
  }

  ghost predicate SomeHolds(src: Source, blocks: set<(string, int)>, a: AccountKey, kind: Kind, c: string) {
    exists h :: (a.chainId, h) in blocks && BlockHolds(src, a.chainId, h, Holding(a.address, kind, c))
  }

  /** An account exists iff some committed block involves it, and lists a contract iff some committed block
      shows it holding a balance there. */
  ghost predicate AccountsConverged(src: Source, db: Db, blocks: set<(string, int)>) {
    && (forall a :: a in db.accounts <==> SomeInvolves(src, blocks, a))
    && (forall a, c :: a in db.accounts ==>
          && (c in db.accounts[a].erc20 <==> SomeHolds(src, blocks, a, Erc20Kind, c))
          && (c in db.accounts[a].nft <==> SomeHolds(src, blocks, a, NftKind, c)))
  }

  /** Some row of the batch brings the contract to the account. */
  predicate Brings(rows: seq<AccountInsert>, a: AccountKey, kind: Kind, c: string) {
    exists i :: 0 <= i < |rows| && rows[i].key == a && c in if kind == Erc20Kind then rows[i].erc20 else rows[i].nft
  }

  lemma {:induction false} MergeContracts(accounts: map<AccountKey, AccountRow>, rows: seq<AccountInsert>,
                                          a: AccountKey, c: string)
    ensures a in MergeAccounts(accounts, rows) <==> a in accounts || HasAccountRow(rows, a)
    ensures a in MergeAccounts(accounts, rows) ==>
              && (c in MergeAccounts(accounts, rows)[a].erc20
                  <==> (a in accounts && c in accounts[a].erc20) || Brings(rows, a, Erc20Kind, c))
              && (c in MergeAccounts(accounts, rows)[a].nft
                  <==> (a in accounts && c in accounts[a].nft) || Brings(rows, a, NftKind, c))
  {
    if rows != [] {
      var init, row := rows[..|rows| - 1], rows[|rows| - 1];
      MergeContracts(accounts, init, a, c);
      assert rows == init + [row];
      assert forall i :: 0 <= i < |init| ==> init[i] == rows[i];
      assert HasAccountRow(rows, a) <==> HasAccountRow(init, a) || row.key == a;
      assert Brings(rows, a, Erc20Kind, c) <==> Brings(init, a, Erc20Kind, c) || (row.key == a && c in row.erc20);
      assert Brings(rows, a, NftKind, c) <==> Brings(init, a, NftKind, c) || (row.key == a && c in row.nft);
    }
  }

  /** In terms of the block: who appears, and which balances its rows bring. */
  lemma RowsBring(src: Source, chainId: string, h: int, rows: seq<AccountInsert>, a: AccountKey, c: string)
    requires AreAccountRows(src.convert(chainId), chainId, src.content(chainId, h).txs, rows)
    ensures HasAccountRow(rows, a) <==> a.chainId == chainId && BlockInvolves(src, chainId, h, a.address)
    ensures Brings(rows, a, Erc20Kind, c)
        <==> a.chainId == chainId && BlockHolds(src, chainId, h, Holding(a.address, Erc20Kind, c))
    ensures Brings(rows, a, NftKind, c)
        <==> a.chainId == chainId && BlockHolds(src, chainId, h, Holding(a.address, NftKind, c))
  {
    var convert, txs := src.convert(chainId), src.content(chainId, h).txs;
    forall kind | kind in TOKEN_KINDS && BlockHolds(src, chainId, h, Holding(a.address, kind, c))
      ensures BlockInvolves(src, chainId, h, a.address)
    {
      var i :| 0 <= i < |txs| && Holds(convert, txs[i], Holding(a.address, kind, c));
      assert PlaysRole(convert, txs[i], Fact(a.address, kind));
      assert Involved(convert, txs[i], a.address);
    }
    if HasAccountRow(rows, a) {
      var i :| 0 <= i < |rows| && rows[i].key == a;
    }
  }

  lemma OneMoreBlock(src: Source, blocks: set<(string, int)>, chainId: string, h: int, a: AccountKey, kind: Kind,
                     c: string)
    ensures SomeInvolves(src, blocks + {(chainId, h)}, a)
       <==> SomeInvolves(src, blocks, a) || (a.chainId == chainId && BlockInvolves(src, chainId, h, a.address))
    ensures SomeHolds(src, blocks + {(chainId, h)}, a, kind, c)
       <==> SomeHolds(src, blocks, a, kind, c)
            || (a.chainId == chainId && BlockHolds(src, chainId, h, Holding(a.address, kind, c)))
  {
    if a.chainId == chainId {
      assert (a.chainId, h) in blocks + {(chainId, h)};
    }
  }

  lemma HoldersAreInvolved(src: Source, blocks: set<(string, int)>, a: AccountKey, kind: Kind, c: string)
    requires SomeHolds(src, blocks, a, kind, c)
    ensures SomeInvolves(src, blocks, a)
  {
    var g :| (a.chainId, g) in blocks && BlockHolds(src, a.chainId, g, Holding(a.address, kind, c));
    var convert, txs := src.convert(a.chainId), src.content(a.chainId, g).txs;
    var i :| 0 <= i < |txs| && Holds(convert, txs[i], Holding(a.address, kind, c));
    assert PlaysRole(convert, txs[i], Fact(a.address, kind));
    assert Involved(convert, txs[i], a.address);
    assert BlockInvolves(src, a.chainId, g, a.address);
  }

  lemma AccountStep(src: Source, db: Db, blocks: set<(string, int)>, chainId: string, h: int, rows: seq<AccountInsert>,
                    a: AccountKey, c: string)
    requires AccountsConverged(src, db, blocks)
    requires AreAccountRows(src.convert(chainId), chainId, src.content(chainId, h).txs, rows)
    ensures var merged, more := MergeAccounts(db.accounts, rows), blocks + {(chainId, h)};
            && (a in merged <==> SomeInvolves(src, more, a))
            && (a in merged ==>
                  && (c in merged[a].erc20 <==> SomeHolds(src, more, a, Erc20Kind, c))
                  && (c in merged[a].nft <==> SomeHolds(src, more, a, NftKind, c)))
  {
    MergeContracts(db.accounts, rows, a, c);
    RowsBring(src, chainId, h, rows, a, c);
    OneMoreBlock(src, blocks, chainId, h, a, Erc20Kind, c);
    OneMoreBlock(src, blocks, chainId, h, a, NftKind, c);
    if a !in db.accounts {
      if SomeHolds(src, blocks, a, Erc20Kind, c) {
        HoldersAreInvolved(src, blocks, a, Erc20Kind, c);
      }
      if SomeHolds(src, blocks, a, NftKind, c) {
        HoldersAreInvolved(src, blocks, a, NftKind, c);
      }
    }
  }

  lemma AccountsStep(src: Source, db: Db, blocks: set<(string, int)>, chainId: string, h: int,
                     rows: seq<AccountInsert>, after: Db)
    requires AccountsConverged(src, db, blocks)
    requires AreAccountRows(src.convert(chainId), chainId, src.content(chainId, h).txs, rows)
    requires SameContracts(MergeAccounts(db.accounts, rows), after.accounts)
    ensures AccountsConverged(src, after, blocks + {(chainId, h)})
  {
    var merged, more := MergeAccounts(db.accounts, rows), blocks + {(chainId, h)};
    forall a, c
      ensures a in merged <==> SomeInvolves(src, more, a)
      ensures a in merged ==>
                && (c in merged[a].erc20 <==> SomeHolds(src, more, a, Erc20Kind, c))
                && (c in merged[a].nft <==> SomeHolds(src, more, a, NftKind, c))
    {
      AccountStep(src, db, blocks, chainId, h, rows, a, c);
    }
    forall a ensures a in merged <==> SomeInvolves(src, more, a) {
      AccountStep(src, db, blocks, chainId, h, rows, a, "");
    }
  }

  // ---- the full history of references

  /** The reference is one the blocks of its chain and height contain. */
  ghost predicate ContentRef(src: Source, r: RefKey) {
    && Distinguishable(src, r.chainId, r.height)
    && exists i :: 0 <= i < |src.content(r.chainId, r.height).txs| && RefersTo(src, r, i)
  }

  ghost predicate RefersTo(src: Source, r: RefKey, i: nat)
    requires i < |src.content(r.chainId, r.height).txs|
  {
    && src.content(r.chainId, r.height).txs[i].hash == r.hash
    && Involved(src.convert(r.chainId), src.content(r.chainId, r.height).txs[i], r.address)
  }

  ghost function ContentFlags(src: Source, r: RefKey): Flags {
    if ContentRef(src, r) then
      var i :| 0 <= i < |src.content(r.chainId, r.height).txs| && RefersTo(src, r, i);
      RoleFlags(src.convert(r.chainId), src.content(r.chainId, r.height).txs[i], r.address)
    else Flags(false, false, false)
  }

  lemma RefFlags(src: Source, r: RefKey, j: nat)
    requires Distinguishable(src, r.chainId, r.height)
    requires j < |src.content(r.chainId, r.height).txs| && RefersTo(src, r, j)
    ensures ContentRef(src, r)
    ensures ContentFlags(src, r)
        == RoleFlags(src.convert(r.chainId), src.content(r.chainId, r.height).txs[j], r.address)
  {
    var convert, txs := src.convert(r.chainId), src.content(r.chainId, r.height).txs;
    assert Involves(convert, txs[j]);
    forall i | 0 <= i < |txs| && RefersTo(src, r, i) ensures i == j {
      assert Involves(convert, txs[i]);
    }
  }

  lemma ContentRows(src: Source, chainId: string, h: int, rows: seq<RefRow>)
    requires Sound(src) && Distinguishable(src, chainId, h)
    requires AreRefRows(src.convert(chainId), chainId, h, src.content(chainId, h).txs, |src.content(chainId, h).txs|,
                        rows)
    ensures FlagsFrom(rows, r => ContentFlags(src, r))
    ensures forall r ::
              HasRow(rows, r)
              <==> r.chainId == chainId && r.height == h && ContentRef(src, r)
  {
    var convert, txs := src.convert(chainId), src.content(chainId, h).txs;
    RefRowsMembers(convert, chainId, h, txs, |txs|, rows);
    forall i | 0 <= i < |rows|
      ensures rows[i].flags == ContentFlags(src, rows[i].key)
      ensures rows[i].key.chainId == chainId && rows[i].key.height == h && ContentRef(src, rows[i].key)
    {
      assert rows[i] in rows;
      var j :| 0 <= j < |txs| && IsRefRow(convert, chainId, h, txs[j], rows[i]);
      RefFlags(src, rows[i].key, j);
    }
    forall r: RefKey | r.chainId == chainId && r.height == h && ContentRef(src, r)
      ensures HasRow(rows, r)
    {
      var j :| 0 <= j < |txs| && RefersTo(src, r, j);
      var row := RefRow(r, RoleFlags(convert, txs[j], r.address));
      assert IsRefRow(convert, chainId, h, txs[j], row);
      assert row in rows;
    }
  }

  ghost predicate HistoryConverged(src: Source, history: map<RefKey, Flags>, blocks: set<(string, int)>) {
    && (forall r :: r in history <==> (r.chainId, r.height) in blocks && ContentRef(src, r))
    && Carries(history, r => ContentFlags(src, r))
  }

  lemma HistoryStep(src: Source, history: map<RefKey, Flags>, blocks: set<(string, int)>, chainId: string, h: int,
                    rows: seq<RefRow>)
    requires Sound(src) && HistoryConverged(src, history, blocks) && Distinguishable(src, chainId, h)
    requires AreRefRows(src.convert(chainId), chainId, h, src.content(chainId, h).txs, |src.content(chainId, h).txs|,
                        rows)
    ensures HistoryConverged(src, LandRefs(history, rows), blocks + {(chainId, h)})
  {
    ContentRows(src, chainId, h, rows);
    Landed(history, rows);
    LandedCarries(history, rows, r => ContentFlags(src, r));
  }

  // ---- whole runs

  ghost predicate ConvergedTo(src: Source, db: Db, history: map<RefKey, Flags>, blocks: set<(string, int)>) {
    && (forall chainId, h :: (chainId, h) in blocks ==> WellFormed(chainId, src.content(chainId, h)))
    && TransactionsConverged(src, db, blocks)
    && RecentConverged(src, db, blocks)
    && AccountsConverged(src, db, blocks)
    && HistoryConverged(src, history, blocks)
  }

  ghost predicate Converged(src: Source, events: seq<Event>) {
    ConvergedTo(src, After(events), RunHistory(EMPTY, TransactionsOf(events)), Committed(events))
  }

  /** Whatever the tables: a block whose statements succeed has passed the check for repeated hashes. */
  lemma CommittedDistinguishable(src: Source, db: Db, chainId: string, h: int, rows: Rows)
    requires AreRowsOf(src.convert(chainId), chainId, src.content(chainId, h), rows)
    requires FirstThree(db, rows).Success?
    ensures Distinguishable(src, chainId, h)
  {
    ValidRecentMeansApart(src.convert(chainId), chainId, src.content(chainId, h), rows);
  }

  lemma CommittedBlockStep(src: Source, db: Db, history: map<RefKey, Flags>, blocks: set<(string, int)>,
                           chainId: string, h: int, rows: Rows)
    requires Sound(src) && AreRowsOf(src.convert(chainId), chainId, src.content(chainId, h), rows)
    requires ExecuteAll(db, StatementsOf(rows)).Success?
    requires ConvergedTo(src, db, history, blocks)
    ensures ConvergedTo(src, ExecuteAll(db, StatementsOf(rows)).value, RecordAll(history, StatementsOf(rows)),
                        blocks + {(chainId, h)})
  {
    var after := ExecuteAll(db, StatementsOf(rows)).value;
    BlockStatements(db, rows);
    CommittedDistinguishable(src, db, chainId, h, rows);
    BlockEffect(db, rows);
    BlockRecord(history, rows);
    TransactionsAcceptable(chainId, src.content(chainId, h));
    TransactionsStep(src, db, blocks, chainId, h, after);
    FirstThreeRecent(db, rows);
    RecentStepped(src, db, blocks, chainId, h, rows.recent, FirstThree(db, rows).value.recent, after);
    AccountsStep(src, db, blocks, chainId, h, rows.accounts, after);
    HistoryStep(src, history, blocks, chainId, h, rows.refs);
  }

  lemma SettingEffect(db: Db, chainId: string, setting: Option<int>)
    ensures ExecuteAll(db, [SetKeep(chainId, setting)])
         == Success(db.(keepSetting := db.keepSetting[chainId := setting]))
  {
    assert [SetKeep(chainId, setting)][1..] == [];
  }

  lemma SettingStep(src: Source, db: Db, history: map<RefKey, Flags>, blocks: set<(string, int)>,
                    chainId: string, setting: Option<int>)
    requires ConvergedTo(src, db, history, blocks)
    ensures ExecuteAll(db, [SetKeep(chainId, setting)]).Success?
    ensures ConvergedTo(src, ExecuteAll(db, [SetKeep(chainId, setting)]).value,
                        RecordAll(history, [SetKeep(chainId, setting)]), blocks)
  {
    var s := [SetKeep(chainId, setting)];
    SettingEffect(db, chainId, setting);
    assert RecordAll(history, s) == RecordAll(history, s[1..]) == history;
  }

  lemma EventStep(src: Source, db: Db, history: map<RefKey, Flags>, blocks: set<(string, int)>, e: Event)
    requires Sound(src) && FromSource(src, e) && Commits(db, TransactionOf(e))
    requires ConvergedTo(src, db, history, blocks)
    ensures ConvergedTo(src, RunOne(db, TransactionOf(e)), RecordAll(history, TransactionOf(e).statements),
                        blocks + if e.Index? then {(e.chainId, e.height)} else {})
  {
    match e
    case Index(chainId, height, rows, _) => CommittedBlockStep(src, db, history, blocks, chainId, height, rows);
    case Configure(chainId, setting) =>
      SettingStep(src, db, history, blocks, chainId, setting);
      assert blocks + {} == blocks;
  }

  lemma ConvergedStep(src: Source, events: seq<Event>)
    requires Sound(src) && events != [] && FromSource(src, events[|events| - 1])
    requires Converged(src, events[..|events| - 1])
    ensures Converged(src, events)
  {
    AfterLast(events);
    var init, last := events[..|events| - 1], events[|events| - 1];
    if LastCommits(events) {
      EventStep(src, After(init), RunHistory(EMPTY, TransactionsOf(init)), Committed(init), last);
    } else {
      assert Committed(events) == Committed(init);
    }
  }

  /** The transaction table, the accounts with their contract sets, and the history of references are functions of
      the set of committed blocks. */
  lemma {:induction false} TablesConverge(src: Source, events: seq<Event>)
    requires Sound(src) && forall i :: 0 <= i < |events| ==> FromSource(src, events[i])
    ensures Converged(src, events)
  {
    if events != [] {
      var init := events[..|events| - 1];
      assert forall i :: 0 <= i < |init| ==> init[i] == events[i];
      TablesConverge(src, init);
      ConvergedStep(src, events);
    }
  }

  lemma SameTransactions(src: Source, one: Db, two: Db, blocks: set<(string, int)>)
    requires TransactionsConverged(src, one, blocks) && TransactionsConverged(src, two, blocks)
    ensures one.transactions == two.transactions
  {
    assert forall key :: key in one.transactions <==> key in two.transactions;
    forall key | key in one.transactions ensures one.transactions[key] == two.transactions[key] {
      var i :| FirstOf(src, key, i);
      assert StoresTx(src, key, i, one.transactions[key]) && StoresTx(src, key, i, two.transactions[key]);
    }
  }

  /** The same accounts, each with the same contracts. */
  ghost predicate SameContractSets(one: map<AccountKey, AccountRow>, two: map<AccountKey, AccountRow>) {
    && one.Keys == two.Keys
    && forall a :: a in one ==>
      && (forall c :: c in one[a].erc20 <==> c in two[a].erc20)
      && (forall c :: c in one[a].nft <==> c in two[a].nft)
  }

  lemma SameAccounts(src: Source, one: Db, two: Db, blocks: set<(string, int)>)
    requires AccountsConverged(src, one, blocks) && AccountsConverged(src, two, blocks)
    ensures SameContractSets(one.accounts, two.accounts)
  {
    forall a ensures a in one.accounts <==> a in two.accounts {
      assert a in one.accounts <==> SomeInvolves(src, blocks, a);
      assert a in two.accounts <==> SomeInvolves(src, blocks, a);
    }
    forall a, c | a in one.accounts
      ensures c in one.accounts[a].erc20 <==> c in two.accounts[a].erc20
      ensures c in one.accounts[a].nft <==> c in two.accounts[a].nft
    {
      assert c in one.accounts[a].erc20 <==> SomeHolds(src, blocks, a, Erc20Kind, c);
      assert c in one.accounts[a].nft <==> SomeHolds(src, blocks, a, NftKind, c);
    }
  }

  /** Two runs that committed the same blocks agree, whatever their order, repetitions, failures and settings. */
  lemma SameBlocksSameTables(src: Source, one: seq<Event>, two: seq<Event>)
    requires Sound(src)
    requires forall i :: 0 <= i < |one| ==> FromSource(src, one[i])
    requires forall i :: 0 <= i < |two| ==> FromSource(src, two[i])
    requires Committed(one) == Committed(two)
    ensures After(one).transactions == After(two).transactions
    ensures SameContractSets(After(one).accounts, After(two).accounts)
  {
    TablesConverge(src, one);
    TablesConverge(src, two);
    SameTransactions(src, After(one), After(two), Committed(one));
    SameAccounts(src, After(one), After(two), Committed(one));
  }
}
