/** How much one account may keep: the insert counter pays for every height beyond the four kept lists. */
module StorageBound {
  import opened Common
  import opened Tables
  import opened TopRows
  import opened Pruning
  import opened Batches
  import opened Statements
  import opened Consistency
  import opened Collector

  function AccountHeights(refs: map<RefKey, Flags>, a: AccountKey): set<int> {
    HeightsOf(RowsOf(refs, a, All))
  }

  /** How many rows in the queue belong to account a. */
  function Inserts(queue: seq<RefKey>, a: AccountKey): nat {
    if queue == [] then 0 else (if queue[0].Account() == a then 1 else 0) + Inserts(queue[1..], a)
  }

  predicate WithinBudget(db: Db, queue: seq<RefKey>, a: AccountKey, k: nat) {
    a in db.accounts ==> |AccountHeights(db.refs, a)| <= 4 * k + db.accounts[a].counter + Inserts(queue, a)
  }

  predicate KeepsAtMost(db: Db, chainId: string, k: nat) {
    chainId in db.keepSetting ==> KeepsFew(db.keepSetting[chainId], k)
  }

  lemma {:induction false} InsertsAppend(queue: seq<RefKey>, r: RefKey, a: AccountKey)
    ensures Inserts(queue + [r], a) == Inserts(queue, a) + if r.Account() == a then 1 else 0
  {
    if queue == [] {
      assert queue + [r] == [r];
    } else {
      InsertsAppend(queue[1..], r, a);
      assert (queue + [r])[1..] == queue[1..] + [r];
    }
  }

  lemma OneMoreRow(refs: map<RefKey, Flags>, row: RefRow, a: AccountKey)
    requires row.key !in refs
    ensures |AccountHeights(refs[row.key := row.flags], a)|
         <= |AccountHeights(refs, a)| + if row.key.Account() == a then 1 else 0
  {
    var after := refs[row.key := row.flags];
    if row.key.Account() == a {
      assert AccountHeights(after, a) <= AccountHeights(refs, a) + {row.key.height};
      SubsetCardinality(AccountHeights(after, a), AccountHeights(refs, a) + {row.key.height});
    } else {
      assert RowsOf(after, a, All) == RowsOf(refs, a, All);
    }
  }

  lemma {:induction false} LandingWithinBudget(db: Db, rows: seq<RefRow>, a: AccountKey, k: nat)
    requires WithinBudget(db, [], a, k)
    ensures WithinBudget(db.(refs := LandRefs(db.refs, rows)), LandQueue(db.refs, rows), a, k)
  {
    if rows != [] && a in db.accounts {
      var init, row := rows[..|rows| - 1], rows[|rows| - 1];
      var before := LandRefs(db.refs, init);
      LandingWithinBudget(db, init, a, k);
      if row.key in before {
        assert LandQueue(db.refs, rows) == LandQueue(db.refs, init);
      } else {
        InsertsAppend(LandQueue(db.refs, init), row.key, a);
        OneMoreRow(before, row, a);
      }
    }
  }

  lemma PruneWithinBudget(db: Db, b: AccountKey, queue: seq<RefKey>, a: AccountKey, k: nat)
    requires WithinBudget(db, queue, a, k) && KeepsAtMost(db, a.chainId, k)
    requires b in db.accounts && b.chainId in db.keepSetting
    ensures WithinBudget(ResetCounter(Deleting(db, DoomedIn(db, b), DoomedIn(db, b)), b), queue, a, k)
  {
    var keep := EffectiveKeep(db.keepSetting[b.chainId]);
    var left := db.refs - Doomed(db.refs, b, keep);
    if b == a {
      PruneBoundsHeights(db.refs, a, keep);
    } else {
      assert RowsOf(left, a, All) == RowsOf(db.refs, a, All);
    }
  }

  lemma FireRowWithinBudget(db: Db, r: RefKey, rest: seq<RefKey>, a: AccountKey, k: nat)
    requires AccountsSound(db) && KeepsAtMost(db, a.chainId, k)
    requires WithinBudget(db, [r] + rest, a, k) && FireRow(db, r).Success?
    ensures WithinBudget(FireRow(db, r).value, rest, a, k)
    ensures AccountsSound(FireRow(db, r).value) && FireRow(db, r).value.keepSetting == db.keepSetting
  {
    assert ([r] + rest)[1..] == rest;
    var counted, b := After100(db, r), r.Account();
    assert WithinBudget(counted, rest, a, k);
    if PruneDue(counted, b) {
      PruneWithinBudget(counted, b, rest, a, k);
    }
  }

  lemma {:induction false} FiringWithinBudget(db: Db, queue: seq<RefKey>, a: AccountKey, k: nat)
    requires AccountsSound(db) && KeepsAtMost(db, a.chainId, k)
    requires WithinBudget(db, queue, a, k) && FireQueue(db, queue).Success?
    ensures WithinBudget(FireQueue(db, queue).value, [], a, k)
    decreases |queue|
  {
    if queue != [] {
      assert queue == [queue[0]] + queue[1..];
      FireRowWithinBudget(db, queue[0], queue[1..], a, k);
      FiringWithinBudget(FireRow(db, queue[0]).value, queue[1..], a, k);
    }
  }

  predicate KeepsAtMostIn(s: Statement, chainId: string, k: nat) {
    s.SetKeep? && s.chainId == chainId ==> KeepsFew(s.setting, k)
  }

  lemma RefsWithinBudget(db: Db, rows: seq<RefRow>, a: AccountKey, k: nat)
    requires AtRest(db) && WithinBudget(db, [], a, k) && KeepsAtMost(db, a.chainId, k)
    requires InsertRefs(db, rows).Success?
    ensures WithinBudget(InsertRefs(db, rows).value, [], a, k) && KeepsAtMost(InsertRefs(db, rows).value, a.chainId, k)
  {
    if rows != [] {
      LandingWithinBudget(db, rows, a, k);
      FiringWithinBudget(db.(refs := LandRefs(db.refs, rows)), LandQueue(db.refs, rows), a, k);
      FiringOnlyCounts(db.(refs := LandRefs(db.refs, rows)), LandQueue(db.refs, rows));
    }
  }

  /** A new account has no references yet. */
  lemma AccountsWithinBudget(db: Db, rows: seq<AccountInsert>, a: AccountKey, k: nat)
    requires AtRest(db) && WithinBudget(db, [], a, k) && UpsertAccounts(db, rows).Success?
    ensures WithinBudget(UpsertAccounts(db, rows).value, [], a, k)
  {
    MergeKeeps(db.accounts, rows);
    if a !in db.accounts {
      forall r | r in db.refs ensures r.Account() != a {
        assert HasParents(db, r);
      }
      assert AccountHeights(db.refs, a) == {};
    }
  }

  lemma StatementWithinBudget(db: Db, s: Statement, a: AccountKey, k: nat)
    requires AtRest(db) && WithinBudget(db, [], a, k) && KeepsAtMost(db, a.chainId, k)
    requires KeepsAtMostIn(s, a.chainId, k) && Execute(db, s).Success?
    ensures WithinBudget(Execute(db, s).value, [], a, k) && KeepsAtMost(Execute(db, s).value, a.chainId, k)
  {
    match s
    case Refs(rows) => RefsWithinBudget(db, rows, a, k);
    case Accounts(rows) => AccountsWithinBudget(db, rows, a, k);
    case Recent(rows) => LandRecentAdds(db, rows);
    case _ =>
  }

  lemma {:induction false} StatementsWithinBudget(db: Db, statements: seq<Statement>, a: AccountKey, k: nat)
    requires AtRest(db) && WithinBudget(db, [], a, k) && KeepsAtMost(db, a.chainId, k)
    requires forall s :: s in statements ==> KeepsAtMostIn(s, a.chainId, k)
    requires ExecuteAll(db, statements).Success?
    ensures WithinBudget(ExecuteAll(db, statements).value, [], a, k)
    ensures KeepsAtMost(ExecuteAll(db, statements).value, a.chainId, k)
    decreases |statements|
  {
    if statements != [] {
      StatementKeeps(db, statements[0]);
      StatementWithinBudget(db, statements[0], a, k);
      StatementsWithinBudget(Execute(db, statements[0]).value, statements[1..], a, k);
    }
  }

  /** From empty tables, whatever is inserted in whatever order: at rest an account has at most 4K heights plus its
      counter, which is at most 9. K is any count the chain never keeps more than. */
  lemma {:induction false} RunWithinBudget(run: seq<Transaction>, a: AccountKey, k: nat)
    requires forall i :: 0 <= i < |run| ==> forall s :: s in run[i].statements ==> KeepsAtMostIn(s, a.chainId, k)
    ensures WithinBudget(Run(EMPTY, run), [], a, k) && KeepsAtMost(Run(EMPTY, run), a.chainId, k)
    ensures AtRest(Run(EMPTY, run))
    ensures |AccountHeights(Run(EMPTY, run).refs, a)| <= 4 * k + 9
  {
    EmptyAtRest();
    RunKeeps(EMPTY, run);
    if run != [] {
      var init, last := run[..|run| - 1], run[|run| - 1];
      assert last == run[|init|];
      assert forall i :: 0 <= i < |init| ==> init[i] == run[i];
      RunWithinBudget(init, a, k);
      RunKeeps(EMPTY, init);
      if Commits(Run(EMPTY, init), last) {
        StatementsWithinBudget(Run(EMPTY, init), last.statements, a, k);
      }
    }
    var db := Run(EMPTY, run);
    if a !in db.accounts {
      forall r | r in db.refs ensures r.Account() != a {
        assert HasParents(db, r);
      }
      assert AccountHeights(db.refs, a) == {};
    }
  }

  /** One account has at most one row per transaction. */
  lemma {:induction false} TxsOfRows(rows: set<RefKey>, a: AccountKey, txs: set<TxKey>)
    requires forall r :: r in rows ==> r.Account() == a && r.Tx() in txs
    ensures |rows| <= |txs|
  {
    if rows != {} {
      var r :| r in rows;
      forall q | q in rows - {r} ensures q.Tx() in txs - {r.Tx()} {
        assert q.Account() == r.Account();
      }
      TxsOfRows(rows - {r}, a, txs - {r.Tx()});
    }
  }

  function RowsAt(rows: set<RefKey>, h: int): set<RefKey> {
    set r | r in rows && r.height == h
  }

  lemma {:induction false} RowsPerHeight(rows: set<RefKey>, heights: set<int>, m: nat)
    requires forall r :: r in rows ==> r.height in heights
    requires forall h :: h in heights ==> |RowsAt(rows, h)| <= m
    ensures |rows| <= m * |heights|
    decreases |heights|
  {
    if rows != {} {
      var r :| r in rows;
      var h := r.height;
      var rest := rows - RowsAt(rows, h);
      assert rows == RowsAt(rows, h) + rest;
      forall g | g in heights - {h} ensures RowsAt(rest, g) == RowsAt(rows, g) {
      }
      RowsPerHeight(rest, heights - {h}, m);
      assert m * (|heights| - 1) + m == m * |heights|;
    }
  }

  /** Rows spread over at most `heights` heights, at most m transactions at each. */
  lemma RowsBound(refs: map<RefKey, Flags>, a: AccountKey, heights: nat, m: nat, txsAt: int -> set<TxKey>)
    requires |AccountHeights(refs, a)| <= heights
    requires forall r :: r in RowsOf(refs, a, All) ==> r.Tx() in txsAt(r.height)
    requires forall h :: |txsAt(h)| <= m
    ensures |RowsOf(refs, a, All)| <= m * heights
  {
    var rows := RowsOf(refs, a, All);
    forall h | h in AccountHeights(refs, a) ensures |RowsAt(rows, h)| <= m {
      TxsOfRows(RowsAt(rows, h), a, txsAt(h));
    }
    RowsPerHeight(rows, AccountHeights(refs, a), m);
    MulMonotone(m, |AccountHeights(refs, a)|, heights);
  }

  lemma MulMonotone(m: nat, x: nat, y: nat)
    requires x <= y
    ensures m * x <= m * y
  {
  }
}
