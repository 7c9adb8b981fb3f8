/** The tables as a mutable store, driven statement by statement and trigger by trigger.
    Rows that LIMIT may pick among ties, and the order in which deleted or pending rows are visited, are left open. */
module RecentStore {
  import opened Common
  import opened Tables
  import opened TopRows
  import opened Pruning
  import opened Batches
  import opened Statements
  import opened Collector

  /** ORDER BY height DESC LIMIT limit. */
  method SelectPage(rows: set<RefKey>, limit: nat) returns (page: seq<RefKey>)
    ensures IsPage(rows, limit, page)
  {
    page := [];
    var rest := rows;
    while |page| < limit && rest != {}
      invariant |page| <= limit
      invariant rest == rows - RowSet(page) && RowSet(page) <= rows
      invariant |RowSet(page)| == |page|
      invariant forall i, j :: 0 <= i < j < |page| ==> page[i] != page[j] && page[i].height >= page[j].height
      invariant forall x, y :: x in page && y in rest ==> y.height <= x.height
      decreases rest
    {
      HighestExists(rest);
      var m :| m in rest && forall r :: r in rest ==> r.height <= m.height;
      assert RowSet(page + [m]) == RowSet(page) + {m};
      page := page + [m];
      rest := rest - {m};
    }
    PageIsFull(rows, limit, page);
  }

  /** A descending page that misses only rows below it, and none unless the limit is reached, answers the query. */
  lemma PageIsFull(rows: set<RefKey>, limit: nat, page: seq<RefKey>)
    requires |page| <= limit && RowSet(page) <= rows && |RowSet(page)| == |page|
    requires |page| == limit || rows - RowSet(page) == {}
    requires forall i, j :: 0 <= i < j < |page| ==> page[i] != page[j] && page[i].height >= page[j].height
    requires forall x, y :: x in page && y in rows - RowSet(page) ==> y.height <= x.height
    ensures IsPage(rows, limit, page)
  {
    SubsetCardinality(RowSet(page), rows);
    if rows - RowSet(page) == {} {
      assert rows == RowSet(page) + (rows - RowSet(page));
    }
  }

  lemma DistinctSoFar(rows: seq<AccountInsert>, i: nat)
    requires i < |rows| && DistinctAccounts(rows[..i])
    ensures DistinctAccounts(rows[..i + 1]) <==> rows[i].key !in set j | 0 <= j < i :: rows[j].key
    ensures rows[i].key in (set j | 0 <= j < i :: rows[j].key) ==> !DistinctAccounts(rows)
  {
    var less, more := rows[..i], rows[..i + 1];
    assert forall j :: 0 <= j < i ==> more[j] == less[j] == rows[j];
    assert more[i] == rows[i];
  }

  class Store {
    var keepSetting: map<string, Option<int>>
    var accounts: map<AccountKey, AccountRow>
    var recent: map<TxKey, RecentRow>
    var refs: map<RefKey, Flags>
    var pending: set<TxKey>
    var transactions: map<TransactionKey, Details>

    function State(): Db
      reads this
    {
      Db(keepSetting, accounts, recent, refs, pending, transactions)
    }

    constructor ()
      ensures State() == EMPTY
    {
      keepSetting, accounts, recent, refs, pending, transactions := map[], map[], map[], map[], {}, map[];
    }

    method Restore(db: Db)
      modifies this
      ensures State() == db
    {
      keepSetting, accounts, recent := db.keepSetting, db.accounts, db.recent;
      refs, pending, transactions := db.refs, db.pending, db.transactions;
    }

    /** What a statement reports and leaves behind: the specified tables, or an error and no change. */
    ghost predicate Did(before: Db, result: Result<Db>, error: Option<Error>)
      reads this
    {
      match result
      case Success(after) => error.None? && State() == after
      case Failure(e) => error == Some(e) && State() == before
    }

    // ---- account

    /** Row by row, until an account is touched a second time. */
    method MergeRows(rows: seq<AccountInsert>) returns (twice: bool)
      modifies this`accounts
      ensures twice == !DistinctAccounts(rows)
      ensures !twice ==> accounts == MergeAccounts(old(accounts), rows)
    {
      var touched: set<AccountKey> := {};
      for i := 0 to |rows|
        invariant accounts == MergeAccounts(old(accounts), rows[..i])
        invariant touched == set j | 0 <= j < i :: rows[j].key
        invariant true == DistinctAccounts(rows[..i])
      {
        var row := rows[i];
        assert rows[..i + 1] == rows[..i] + [row];
        DistinctSoFar(rows, i);
        if row.key in touched {
          return true;
        }
        touched := touched + {row.key};
        accounts := MergeAccount(accounts, row);
      }
      assert rows[..|rows|] == rows;
      return false;
    }

    method UpsertAccounts(rows: seq<AccountInsert>) returns (error: Option<Error>)
      modifies this
      ensures Did(old(State()), Statements.UpsertAccounts(old(State()), rows), error)
    {
      if rows == [] {
        return None;
      }
      if !ValidAccountBatch(rows) {
        return Some(InvalidBatch);
      }
      if !SendableAccounts(rows) {
        return Some(NotSendable);
      }
      var before := State();
      var twice := MergeRows(rows);
      if twice {
        Restore(before);
        return Some(RowTouchedTwice);
      }
      if exists i :: 0 <= i < |rows| && rows[i].key.chainId !in keepSetting {
        Restore(before);
        return Some(ForeignKeyViolation);
      }
      return None;
    }

    // ---- transaction

    method InsertTransactions(rows: seq<TransactionInsert>) returns (error: Option<Error>)
      modifies this
      ensures Did(old(State()), Statements.InsertTransactions(old(State()), rows), error)
    {
      if rows == [] {
        return None;
      }
      if !ValidTransactionBatch(rows) {
        return Some(InvalidBatch);
      }
      if !SendableTransactions(rows) {
        return Some(NotSendable);
      }
      if rows[0].key.chainId !in keepSetting {
        return Some(ForeignKeyViolation);
      }
      var before := State();
      for i := 0 to |rows|
        invariant State() == before.(transactions := LandTransactions(before.transactions, rows[..i]))
      {
        var row := rows[i];
        assert rows[..i + 1] == rows[..i] + [row];
        if row.key !in transactions {
          transactions := transactions[row.key := row.details];
        }
      }
      assert rows[..|rows|] == rows;
      return None;
    }

    // ---- recent_account_transaction

    /** The rows of the INSERT that are not there yet. */
    method LandRecentRows(rows: seq<RecentInsert>) returns (inserted: seq<TxKey>)
      modifies this
      ensures LandRecent(old(State()), rows) == State().(pending := pending + set t | t in inserted)
      ensures pending == old(pending)
    {
      ghost var before := State();
      inserted := [];
      for i := 0 to |rows|
        invariant pending == before.pending
        invariant LandRecent(before, rows[..i]) == State().(pending := pending + set t | t in inserted)
      {
        var row := rows[i];
        assert rows[..i + 1][..i] == rows[..i] && rows[..i + 1][i] == row;
        if row.key !in recent {
          recent := recent[row.key := RecentRow(0, row.details)];
          assert (set t | t in inserted + [row.key]) == (set t | t in inserted) + {row.key};
          inserted := inserted + [row.key];
        }
      }
      assert rows[..|rows|] == rows;
    }

    /** trigger_00100_after_insert_recent_account_transaction, for each inserted row. */
    method AddPending(inserted: seq<TxKey>)
      modifies this`pending
      ensures pending == old(pending) + set t | t in inserted
    {
      for i := 0 to |inserted|
        invariant pending == old(pending) + set j | 0 <= j < i :: inserted[j]
      {
        pending := pending + {inserted[i]};
      }
      assert (set j | 0 <= j < |inserted| :: inserted[j]) == set t | t in inserted;
    }

    method InsertRecent(rows: seq<RecentInsert>) returns (error: Option<Error>)
      modifies this
      ensures Did(old(State()), Statements.InsertRecent(old(State()), rows), error)
    {
      if rows == [] {
        return None;
      }
      var valid := ValidateRecentBatch(rows);
      if !valid {
        return Some(InvalidBatch);
      }
      if !SendableRecent(rows) {
        return Some(NotSendable);
      }
      var inserted := LandRecentRows(rows);
      AddPending(inserted);
      return None;
    }

    // ---- ref_account_to_recent_tx

    /** trigger_00100_after_insert_ref_account_to_recent_tx */
    method Fire00100(r: RefKey)
      modifies this
      ensures State() == After100(old(State()), r)
    {
      var a, t := r.Account(), r.Tx();
      if a in accounts {
        accounts := accounts[a := accounts[a].(counter := accounts[a].counter + 1)];
      }
      if t in recent {
        recent := recent[t := recent[t].(refCount := recent[t].refCount + 1)];
      }
    }

    /** trigger_00300_after_delete_ref_account_to_recent_tx */
    method Fire00300(r: RefKey)
      modifies this
      ensures State() == After300(old(State()), r)
    {
      var t := r.Tx();
      if t in recent {
        recent := recent[t := recent[t].(refCount := recent[t].refCount - 1)];
      }
      pending := pending + {t};
    }

    /** A DELETE and the 00300 triggers it fires before it returns. */
    method DeleteRefs(rows: set<RefKey>)
      requires rows <= refs.Keys
      modifies this
      ensures State() == Deleting(old(State()), rows, rows)
    {
      ghost var before := State();
      refs := refs - rows;
      var waiting := rows;
      NoneFired(before, rows);
      assert rows - waiting == {};
      while waiting != {}
        invariant waiting <= rows
        invariant State() == Deleting(before, rows, rows - waiting)
      {
        var r :| r in waiting;
        OneMoreFired(before, rows, rows - waiting, r);
        Fire00300(r);
        assert rows - waiting + {r} == rows - (waiting - {r});
        waiting := waiting - {r};
      }
      assert rows - waiting == rows;
    }

    /** trigger_00200_after_insert_ref_account_to_recent_tx */
    method Fire00200(r: RefKey)
      modifies this
      ensures State() == After200(old(State()), r)
    {
      ghost var before := State();
      var a := r.Account();
      if a in accounts && accounts[a].counter >= PRUNE_AFTER_INSERTS {
        if a.chainId in keepSetting {
          var keep := EffectiveKeep(keepSetting[a.chainId]);
          var normal := SelectPage(RowsOf(refs, a, All), keep);
          var sent := SelectPage(RowsOf(refs, a, Signer), keep);
          var erc20 := SelectPage(RowsOf(refs, a, Erc20), keep);
          var nft := SelectPage(RowsOf(refs, a, Nft), keep);
          PruneIgnoresTies(refs, a, keep, RowSet(normal), RowSet(sent), RowSet(erc20), RowSet(nft));
          var heights := HeightsOf(RowSet(normal)) + HeightsOf(RowSet(sent)) + HeightsOf(RowSet(erc20))
              + HeightsOf(RowSet(nft));
          DeleteRefs(OutsideHeights(refs, a, heights));
        } else {
          DeleteRefs({});
        }
        accounts := accounts[a := accounts[a].(counter := 0)];
      }
    }

    method InsertRefs(rows: seq<RefRow>) returns (error: Option<Error>)
      modifies this
      ensures Did(old(State()), Statements.InsertRefs(old(State()), rows), error)
    {
      if rows == [] {
        return None;
      }
      if !ValidRefBatch(rows) {
        return Some(InvalidBatch);
      }
      if !SendableRefs(rows) {
        return Some(NotSendable);
      }
      var before := State();
      var queue: seq<RefKey> := [];
      for i := 0 to |rows|
        invariant State() == before.(refs := LandRefs(before.refs, rows[..i]))
        invariant queue == LandQueue(before.refs, rows[..i])
      {
        var row := rows[i];
        assert rows[..i + 1] == rows[..i] + [row];
        if row.key !in refs {
          refs := refs[row.key := row.flags];
          queue := queue + [row.key];
        }
      }
      assert rows[..|rows|] == rows;
      ghost var landed := State();
      for i := 0 to |queue|
        invariant FireQueue(landed, queue) == FireQueue(State(), queue[i..])
      {
        var r := queue[i];
        assert queue[i..] != [] && queue[i..][0] == r && queue[i..][1..] == queue[i + 1..];
        if r in refs && !HasParents(State(), r) {
          Restore(before);
          return Some(ForeignKeyViolation);
        }
        Fire00100(r);
        Fire00200(r);
      }
      return None;
    }

    // ---- func_cleanup_zero_ref_count_recent_account_transaction

    method Cleanup() returns (error: Option<Error>)
      modifies this
      ensures Did(old(State()), Statements.Cleanup(old(State())), error)
    {
      var before := State();
      var reduced := pending;
      while reduced != {}
        invariant reduced <= before.pending
        invariant State() == before.(recent := before.recent - (Garbage(before) - reduced), pending := reduced)
        invariant forall r :: r in before.refs ==> r.Tx() !in Garbage(before) - reduced
      {
        var t :| t in reduced;
        if t in recent && recent[t].refCount < 1 {
          assert t in Garbage(before);
          if exists r :: r in refs && r.Tx() == t {
            Restore(before);
            return Some(ForeignKeyViolation);
          }
          recent := recent - {t};
        }
        pending := pending - {t};
        reduced := reduced - {t};
      }
      assert Garbage(before) - reduced == Garbage(before);
      return None;
    }

    // ---- transactions

    method Perform(s: Statement) returns (error: Option<Error>)
      modifies this
      ensures Did(old(State()), Execute(old(State()), s), error)
    {
      match s
      case SetKeep(chainId, setting) => keepSetting := keepSetting[chainId := setting]; error := None;
      case Transactions(rows) => error := InsertTransactions(rows);
      case Accounts(rows) => error := UpsertAccounts(rows);
      case Recent(rows) => error := InsertRecent(rows);
      case Refs(rows) => error := InsertRefs(rows);
      case CallCleanup => error := Cleanup();
    }

    /** The first statement that fails, or the caller's decision, rolls everything back. */
    method RunTransaction(t: Transaction) returns (committed: bool)
      modifies this
      ensures committed == Commits(old(State()), t)
      ensures State() == RunOne(old(State()), t)
    {
      var before := State();
      for i := 0 to |t.statements|
        invariant ExecuteAll(before, t.statements) == ExecuteAll(State(), t.statements[i..])
      {
        assert t.statements[i..][0] == t.statements[i] && t.statements[i..][1..] == t.statements[i + 1..];
        var error := Perform(t.statements[i]);
        if error.Some? {
          Restore(before);
          return false;
        }
      }
      if !t.commit {
        Restore(before);
      }
      return t.commit;
    }
  }

  lemma NoneFired(db: Db, rows: set<RefKey>)
    ensures Deleting(db, rows, {}) == db.(refs := db.refs - rows)
  {
    forall t | t in db.recent ensures Deleting(db, rows, {}).recent[t] == db.recent[t] {
      assert Toward({}, t) == {};
    }
  }

  lemma TowardOneMore(fired: set<RefKey>, r: RefKey, t: TxKey)
    requires r !in fired
    ensures |Toward(fired + {r}, t)| == |Toward(fired, t)| + if r.Tx() == t then 1 else 0
  {
    assert Toward(fired + {r}, t) == Toward(fired, t) + if r.Tx() == t then {r} else {};
  }

  lemma OneMoreFired(db: Db, rows: set<RefKey>, fired: set<RefKey>, r: RefKey)
    requires r in rows - fired
    ensures Deleting(db, rows, fired + {r}) == After300(Deleting(db, rows, fired), r)
  {
    forall t | t in db.recent
      ensures |Toward(fired + {r}, t)| == |Toward(fired, t)| + if r.Tx() == t then 1 else 0
    {
      TowardOneMore(fired, r, t);
    }
    assert (set q | q in fired + {r} :: q.Tx()) == (set q | q in fired :: q.Tx()) + {r.Tx()};
  }
}
