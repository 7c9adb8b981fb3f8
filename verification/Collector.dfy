/** The reference-counting collector over whole runs: every statement keeps the tables consistent,
    counts are right at every point of the trigger queue, cleanup deletes exactly the garbage. */
module Collector {
  import opened Common
  import opened Tables
  import opened TopRows
  import opened Pruning
  import opened Batches
  import opened Statements
  import opened Consistency

  /** The tables between two statements. */
  ghost predicate AtRest(db: Db) {
    Consistent(db, [])
  }

  const EMPTY := Db(map[], map[], map[], map[], {}, map[])

  lemma EmptyAtRest()
    ensures AtRest(EMPTY)
  {
  }

  /** The counts around the triggers of one row: before them, between 00100 and 00200, and inside the DELETE
      of 00200 when the 00300 triggers of any part of the deleted rows have fired. */
  ghost predicate CountsAroundRow(db: Db, r: RefKey, waiting: seq<RefKey>) {
    var counted := After100(db, r);
    var doomed := DoomedIn(counted, r.Account());
    && CountsAgree(db, [r] + waiting, {})
    && CountsAgree(counted, waiting, {})
    && forall fired :: fired <= doomed ==> CountsAgree(Deleting(counted, doomed, fired), waiting, doomed - fired)
  }

  lemma RowKeepsCounts(db: Db, r: RefKey, waiting: seq<RefKey>)
    requires CountsAgree(db, [r] + waiting, {})
    ensures CountsAroundRow(db, r, waiting)
  {
    After100KeepsCounts(db, r, waiting);
    var counted := After100(db, r);
    forall fired | fired <= DoomedIn(counted, r.Account())
      ensures CountsAgree(Deleting(counted, DoomedIn(counted, r.Account()), fired), waiting,
                          DoomedIn(counted, r.Account()) - fired)
    {
      DeletingKeepsCounts(counted, DoomedIn(counted, r.Account()), fired, waiting);
    }
  }

  lemma CountsInQueue(landed: Db, queue: seq<RefKey>, done: nat)
    requires Consistent(landed, queue) && done < |queue| && FireQueue(landed, queue[..done]).Success?
    ensures CountsAroundRow(FireQueue(landed, queue[..done]).value, queue[done], queue[done + 1..])
  {
    assert queue == queue[..done] + queue[done..];
    FiringKeeps(landed, queue[..done], queue[done..]);
    assert queue[done..] == [queue[done]] + queue[done + 1..];
    RowKeepsCounts(FireQueue(landed, queue[..done]).value, queue[done], queue[done + 1..]);
  }

  /** Reference counts are right at every point of the trigger queue of a multi-row insert, even though a prune may
      delete rows whose own 00100 has not fired yet. */
  lemma CountsAtEveryPoint(db: Db, rows: seq<RefRow>, done: nat)
    requires AtRest(db)
    requires done < |LandQueue(db.refs, rows)|
    requires FireQueue(db.(refs := LandRefs(db.refs, rows)), LandQueue(db.refs, rows)[..done]).Success?
    ensures CountsAroundRow(FireQueue(db.(refs := LandRefs(db.refs, rows)), LandQueue(db.refs, rows)[..done]).value,
                            LandQueue(db.refs, rows)[done], LandQueue(db.refs, rows)[done + 1..])
  {
    LandingKeeps(db, rows);
    CountsInQueue(db.(refs := LandRefs(db.refs, rows)), LandQueue(db.refs, rows), done);
  }

  // ---- every statement

  predicate BringsAccount(rows: seq<AccountInsert>, a: AccountKey) {
    exists i :: 0 <= i < |rows| && rows[i].key == a
  }

  predicate BringsTx(rows: seq<RecentInsert>, t: TxKey) {
    exists i :: 0 <= i < |rows| && rows[i].key == t
  }

  lemma {:induction false} MergeKeeps(accounts: map<AccountKey, AccountRow>, rows: seq<AccountInsert>)
    ensures var merged := MergeAccounts(accounts, rows);
            && (forall a :: a in merged <==> a in accounts || BringsAccount(rows, a))
            && (forall a :: a in merged ==> merged[a].counter == if a in accounts then accounts[a].counter else 0)
            && (forall a ::
                  a in merged && (a in accounts ==> NoDuplicates(accounts[a].erc20) && NoDuplicates(accounts[a].nft))
                  ==> NoDuplicates(merged[a].erc20) && NoDuplicates(merged[a].nft))
  {
    if rows != [] {
      var init, row := rows[..|rows| - 1], rows[|rows| - 1];
      MergeKeeps(accounts, init);
      forall a ensures BringsAccount(rows, a) <==> a == row.key || BringsAccount(init, a) {
        assert forall i :: 0 <= i < |init| ==> init[i] == rows[i];
      }
    }
  }

  lemma UpsertAccountsKeeps(db: Db, rows: seq<AccountInsert>)
    requires AtRest(db) && UpsertAccounts(db, rows).Success?
    ensures AtRest(UpsertAccounts(db, rows).value)
  {
    MergeKeeps(db.accounts, rows);
  }

  // ---- what is refused

  predicate Oversized(s: Statement) {
    match s
    case Transactions(rows) => 9 * |rows| > 65535
    case Accounts(rows) => 4 * |rows| > 65535
    case Recent(rows) => 7 * |rows| > 65535
    case Refs(rows) => 7 * |rows| > 65535
    case _ => false
  }

  predicate Malformed(s: Statement) {
    match s
    case Transactions(rows) => exists row :: row in rows && !(SoundTransaction(row) && StorableDetails(row.details))
    case Accounts(rows) => exists row :: row in rows && !(SoundAccount(row) && StorableAccount(row))
    case Recent(rows) => exists row :: row in rows && !(SoundRecent(row) && StorableDetails(row.details))
    case Refs(rows) => exists row :: row in rows && !(SoundRef(row) && Storable(row.key.address))
    case _ => false
  }

  predicate Unregistered(db: Db, s: Statement) {
    match s
    case Transactions(rows) => exists row :: row in rows && row.key.chainId !in db.keepSetting
    case Accounts(rows) => exists row :: row in rows && row.key.chainId !in db.keepSetting
    case _ => false
  }

  /** PostgreSQL does not let one statement touch a row twice. */
  predicate TouchesTwice(s: Statement) {
    s.Accounts? && exists i, j :: 0 <= i < j < |s.accounts| && s.accounts[i].key == s.accounts[j].key
  }

  /** An insert with too many rows, with a row that fails its check or cannot be stored, for a chain that is not
      registered, or touching an account twice is refused. */
  lemma InsertRefused(db: Db, s: Statement)
    requires Oversized(s) || Malformed(s) || Unregistered(db, s) || TouchesTwice(s)
    ensures Execute(db, s).Failure?
  {
    match s
    case Transactions(rows) =>
      if row :| row in rows && row.key.chainId !in db.keepSetting {
        var i :| 0 <= i < |rows| && rows[i] == row;
        assert ValidTransactionBatch(rows) && i > 0 ==> rows[0].key.chainId == rows[i].key.chainId;
      }
    case Accounts(rows) =>
      if row :| row in rows && row.key.chainId !in db.keepSetting {
        var i :| 0 <= i < |rows| && rows[i] == row;
      }
    case _ =>
  }

  /** Nothing but new, unreferenced, pending transactions. */
  lemma {:induction false} LandRecentAdds(db: Db, rows: seq<RecentInsert>)
    ensures var after := LandRecent(db, rows);
            && after == db.(recent := after.recent, pending := after.pending)
            && db.pending <= after.pending
            && (forall t :: t in after.recent <==> t in db.recent || BringsTx(rows, t))
            && (forall t :: t in db.recent ==> after.recent[t] == db.recent[t])
            && (forall t :: t in after.recent && t !in db.recent ==>
                after.recent[t].refCount == 0 && t in after.pending)
  {
    if rows != [] {
      var init, row := rows[..|rows| - 1], rows[|rows| - 1];
      LandRecentAdds(db, init);
      var before := LandRecent(db, init);
      assert row.key in before.recent ==> LandRecent(db, rows) == before;
      forall t ensures BringsTx(rows, t) <==> t == row.key || BringsTx(init, t) {
        assert forall i :: 0 <= i < |init| ==> init[i] == rows[i];
      }
    }
  }

  lemma LandRecentKeeps(db: Db, rows: seq<RecentInsert>)
    requires AtRest(db)
    ensures AtRest(LandRecent(db, rows))
  {
    LandRecentAdds(db, rows);
    var after := LandRecent(db, rows);
    forall t | t in after.recent && t !in db.recent ensures RefsTo(after.refs, t) == {} && Toward({}, t) == {} {
      forall r | r in db.refs ensures r.Tx() != t {
        assert HasParents(db, r);
      }
    }
  }

  lemma InsertRefsKeeps(db: Db, rows: seq<RefRow>)
    requires AtRest(db) && InsertRefs(db, rows).Success?
    ensures AtRest(InsertRefs(db, rows).value)
  {
    if rows != [] {
      var queue := LandQueue(db.refs, rows);
      LandingKeeps(db, rows);
      assert queue + [] == queue;
      FiringKeeps(db.(refs := LandRefs(db.refs, rows)), queue, []);
    }
  }

  /** Between statements the counter in the row is the number of references. */
  lemma RestCount(db: Db, t: TxKey)
    requires AtRest(db) && t in db.recent
    ensures db.recent[t].refCount == |RefsTo(db.refs, t)|
  {
    assert Toward({}, t) == {};
  }

  /** Cleanup never meets a foreign key violation, empties the pending list, leaves the references alone and
      leaves exactly the transactions that some reference points to. */
  lemma CleanupExact(db: Db)
    requires AtRest(db)
    ensures Cleanup(db).Success?
    ensures var after := Cleanup(db).value;
            && AtRest(after)
            && after.pending == {} && after.refs == db.refs && after.accounts == db.accounts
            && (forall t :: t in after.recent <==> exists r :: r in db.refs && r.Tx() == t)
            && (forall t :: t in after.recent ==> after.recent[t] == db.recent[t])
  {
    forall r | r in db.refs ensures r.Tx() !in Garbage(db) {
      assert HasParents(db, r);
      RestCount(db, r.Tx());
      assert r in RefsTo(db.refs, r.Tx());
    }
    var after := Cleanup(db).value;
    forall r | r in after.refs ensures HasParents(after, r) {
      assert HasParents(db, r);
    }
    forall t | t in after.recent ensures exists r :: r in db.refs && r.Tx() == t {
      RestCount(db, t);
      var r :| r in RefsTo(db.refs, t);
    }
  }

  lemma StatementKeeps(db: Db, s: Statement)
    requires AtRest(db) && Execute(db, s).Success?
    ensures AtRest(Execute(db, s).value)
  {
    match s
    case SetKeep(_, _) =>
    case Transactions(_) =>
    case Accounts(rows) => UpsertAccountsKeeps(db, rows);
    case Recent(rows) => LandRecentKeeps(db, rows);
    case Refs(rows) => InsertRefsKeeps(db, rows);
    case CallCleanup => CleanupExact(db);
  }

  lemma {:induction false} StatementsKeep(db: Db, statements: seq<Statement>)
    requires AtRest(db) && ExecuteAll(db, statements).Success?
    ensures AtRest(ExecuteAll(db, statements).value)
    decreases |statements|
  {
    if statements != [] {
      StatementKeeps(db, statements[0]);
      StatementsKeep(Execute(db, statements[0]).value, statements[1..]);
    }
  }

  // ---- whole runs

  /** One database transaction: it takes effect if every statement succeeds and it is committed. */
  datatype Transaction = Transaction(statements: seq<Statement>, commit: bool)

  ghost predicate Commits(db: Db, t: Transaction) {
    t.commit && ExecuteAll(db, t.statements).Success?
  }

  ghost function RunOne(db: Db, t: Transaction): Db {
    if Commits(db, t) then ExecuteAll(db, t.statements).value else db
  }

  /** The n-th statement of the transaction is reached and fails. */
  ghost predicate FailsAt(db: Db, t: Transaction, n: nat) {
    && n < |t.statements| && ExecuteAll(db, t.statements[..n]).Success?
    && Execute(ExecuteAll(db, t.statements[..n]).value, t.statements[n]).Failure?
  }

  lemma {:induction false} FailureFails(db: Db, statements: seq<Statement>, n: nat)
    requires n < |statements| && ExecuteAll(db, statements[..n]).Success?
    requires Execute(ExecuteAll(db, statements[..n]).value, statements[n]).Failure?
    ensures ExecuteAll(db, statements).Failure?
    decreases n
  {
    if n > 0 {
      assert statements[..n][0] == statements[0] && statements[..n][1..] == statements[1..][..n - 1];
      FailureFails(Execute(db, statements[0]).value, statements[1..], n - 1);
    }
  }

  /** A transaction that is rolled back, or one of whose statements fails, leaves no trace. */
  lemma NoTrace(db: Db, t: Transaction, n: nat)
    requires !t.commit || FailsAt(db, t, n)
    ensures RunOne(db, t) == db
  {
    if FailsAt(db, t, n) {
      FailureFails(db, t.statements, n);
    }
  }

  ghost function Run(db: Db, run: seq<Transaction>): Db {
    if run == [] then db else RunOne(Run(db, run[..|run| - 1]), run[|run| - 1])
  }

  /** Every reachable rest state: counts exact, foreign keys closed, unreferenced transactions pending,
      counters in 0..9, contract lists free of duplicates. */
  lemma {:induction false} RunKeeps(db: Db, run: seq<Transaction>)
    requires AtRest(db)
    ensures AtRest(Run(db, run))
  {
    if run != [] {
      var before, last := Run(db, run[..|run| - 1]), run[|run| - 1];
      RunKeeps(db, run[..|run| - 1]);
      if Commits(before, last) {
        StatementsKeep(before, last.statements);
      }
    }
  }
}
