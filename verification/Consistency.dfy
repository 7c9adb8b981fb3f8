/** What every point of the trigger queue keeps: reference counts, the pending list, foreign keys, counters. */
module Consistency {
  import opened Common
  import opened Tables
  import opened TopRows
  import opened Pruning
  import opened Batches
  import opened Statements

  /** How many rows in the queue point to t. */
  function Mentions(queue: seq<RefKey>, t: TxKey): nat {
    if queue == [] then 0 else (if queue[0].Tx() == t then 1 else 0) + Mentions(queue[1..], t)
  }

  /** ref_count = references present - inserted rows whose 00100 has not fired + deleted rows whose 00300 has not
      fired. */
  ghost predicate CountsAgree(db: Db, unfired100: seq<RefKey>, unfired300: set<RefKey>) {
    forall t :: t in db.recent ==>
      db.recent[t].refCount == |RefsTo(db.refs, t)| - Mentions(unfired100, t) + |Toward(unfired300, t)|
  }

  /** Only rows that still wait for their foreign key check may lack a parent. */
  predicate ReferencesClosed(db: Db, unfired: seq<RefKey>) {
    forall r :: r in db.refs ==> HasParents(db, r) || r in unfired
  }

  /** The collector will look at every transaction nobody references. */
  predicate ZeroIsPending(db: Db) {
    forall t :: t in db.recent && db.recent[t].refCount < 1 ==> t in db.pending
  }

  predicate AccountsSound(db: Db) {
    forall a :: a in db.accounts ==>
      && a.chainId in db.keepSetting
      && 0 <= db.accounts[a].counter < PRUNE_AFTER_INSERTS
      && NoDuplicates(db.accounts[a].erc20)
      && NoDuplicates(db.accounts[a].nft)
  }

  /** The BEFORE UPDATE trigger of account also runs when only the counter changes, but then finds nothing to clean. */
  lemma CounterUpdatesStayClean(db: Db, r: RefKey, a: AccountKey)
    requires a in db.accounts
    requires NoDuplicates(db.accounts[a].erc20) && NoDuplicates(db.accounts[a].nft)
    ensures CleanAccount(After100(db, r).accounts[a]) == After100(db, r).accounts[a]
    ensures CleanAccount(ResetCounter(db, a).accounts[a]) == ResetCounter(db, a).accounts[a]
  {
    DistinctIsIdentity(db.accounts[a].erc20);
    DistinctIsIdentity(db.accounts[a].nft);
  }

  /** `queue` holds the inserted rows whose triggers have not fired; it is empty between statements. */
  ghost predicate Consistent(db: Db, queue: seq<RefKey>) {
    && CountsAgree(db, queue, {})
    && ReferencesClosed(db, queue)
    && ZeroIsPending(db)
    && AccountsSound(db)
  }

  lemma {:induction false} MentionsAppend(queue: seq<RefKey>, r: RefKey, t: TxKey)
    ensures Mentions(queue + [r], t) == Mentions(queue, t) + if r.Tx() == t then 1 else 0
  {
    if queue == [] {
      assert queue + [r] == [r];
    } else {
      MentionsAppend(queue[1..], r, t);
      assert (queue + [r])[1..] == queue[1..] + [r];
    }
  }

  // ---- the steps of one INSERT into ref_account_to_recent_tx

  lemma {:induction false} LandingKeepsCounts(db: Db, rows: seq<RefRow>)
    requires CountsAgree(db, [], {})
    ensures CountsAgree(db.(refs := LandRefs(db.refs, rows)), LandQueue(db.refs, rows), {})
  {
    if rows != [] {
      var init, row := rows[..|rows| - 1], rows[|rows| - 1];
      var before := LandRefs(db.refs, init);
      LandingKeepsCounts(db, init);
      forall t | t in db.recent
        ensures db.recent[t].refCount == |RefsTo(LandRefs(db.refs, rows), t)| - Mentions(LandQueue(db.refs, rows), t)
      {
        assert Toward({}, t) == {};
        if row.key in before {
          assert LandQueue(db.refs, rows) == LandQueue(db.refs, init);
        } else {
          MentionsAppend(LandQueue(db.refs, init), row.key, t);
          var after := before[row.key := row.flags];
          assert RefsTo(after, t) == RefsTo(before, t) + if row.key.Tx() == t then {row.key} else {};
        }
      }
    }
  }

  predicate HasRow(rows: seq<RefRow>, r: RefKey) {
    exists i :: 0 <= i < |rows| && rows[i].key == r
  }

  /** The table after landing holds what it held and the rows; what landed is queued. */
  lemma {:induction false} Landed(refs: map<RefKey, Flags>, rows: seq<RefRow>)
    ensures forall r :: r in LandRefs(refs, rows) <==> r in refs || r in LandQueue(refs, rows)
    ensures forall r :: r in LandRefs(refs, rows) <==> r in refs || HasRow(rows, r)
    ensures forall r :: r in refs ==> LandRefs(refs, rows)[r] == refs[r]
  {
    if rows != [] {
      var init, row := rows[..|rows| - 1], rows[|rows| - 1];
      Landed(refs, init);
      assert rows == init + [row];
      assert forall r :: HasRow(rows, r) <==> HasRow(init, r) || r == row.key by {
        assert rows[|init|] == row && forall i :: 0 <= i < |init| ==> rows[i] == init[i];
      }
    }
  }

  // ---- what the inserts store

  function RefKeys(rows: seq<RefRow>): seq<RefKey> { seq(|rows|, i requires 0 <= i < |rows| => rows[i].key) }

  function FlagsOf(rows: seq<RefRow>): seq<Flags> { seq(|rows|, i requires 0 <= i < |rows| => rows[i].flags) }

  lemma {:induction false} RefsInserted(table: map<RefKey, Flags>, rows: seq<RefRow>)
    ensures AbsentInserted(table, RefKeys(rows), FlagsOf(rows), LandRefs(table, rows))
  {
    if rows != [] {
      var init, row := rows[..|rows| - 1], rows[|rows| - 1];
      RefsInserted(table, init);
      OneMoreAbsent(table, RefKeys(init), FlagsOf(init), LandRefs(table, init), row.key, row.flags);
      assert RefKeys(rows) == RefKeys(init) + [row.key] && FlagsOf(rows) == FlagsOf(init) + [row.flags];
    }
  }

  /** The rows that land are queued in the order in which the statement lists them. */
  ghost predicate InRowOrder(table: map<RefKey, Flags>, keys: seq<RefKey>, queue: seq<RefKey>, at: seq<nat>) {
    && |at| == |queue|
    && (forall i, j :: 0 <= i < j < |at| ==> at[i] < at[j])
    && forall i :: 0 <= i < |at| ==>
      at[i] < |keys| && keys[at[i]] == queue[i] && queue[i] !in table && FirstAt(keys, at[i])
  }

  lemma {:induction false} QueueInRowOrder(table: map<RefKey, Flags>, rows: seq<RefRow>) returns (at: seq<nat>)
    ensures InRowOrder(table, RefKeys(rows), LandQueue(table, rows), at)
  {
    at := [];
    if rows != [] {
      var init, row := rows[..|rows| - 1], rows[|rows| - 1];
      at := QueueInRowOrder(table, init);
      OneMoreInOrder(table, RefKeys(init), LandQueue(table, init), at, row.key);
      assert RefKeys(rows) == RefKeys(init) + [row.key];
      if row.key in LandRefs(table, init) {
        assert LandQueue(table, rows) == LandQueue(table, init) + [] == LandQueue(table, init);
      } else {
        NotAmongKeys(table, init, row.key);
        at := at + [|init|];
      }
    }
  }

  lemma NotAmongKeys(table: map<RefKey, Flags>, rows: seq<RefRow>, k: RefKey)
    requires k !in LandRefs(table, rows)
    ensures k !in table && k !in RefKeys(rows)
  {
    RefsInserted(table, rows);
  }

  lemma OneMoreInOrder(table: map<RefKey, Flags>, keys: seq<RefKey>, queue: seq<RefKey>, at: seq<nat>, k: RefKey)
    requires InRowOrder(table, keys, queue, at)
    ensures InRowOrder(table, keys + [k], queue, at)
    ensures k !in table && k !in keys ==> InRowOrder(table, keys + [k], queue + [k], at + [|keys|])
  {
    var more := keys + [k];
    assert forall j :: 0 <= j < |keys| ==> more[j] == keys[j];
    forall i | 0 <= i < |at| ensures FirstAt(more, at[i]) && more[at[i]] == queue[i] {
      assert FirstAt(keys, at[i]);
    }
    if k !in keys {
      assert FirstAt(more, |keys|);
    }
  }

  function TransactionKeys(rows: seq<TransactionInsert>): seq<TransactionKey> {
    seq(|rows|, i requires 0 <= i < |rows| => rows[i].key)
  }

  function TransactionValues(rows: seq<TransactionInsert>): seq<Details> {
    seq(|rows|, i requires 0 <= i < |rows| => rows[i].details)
  }

  lemma {:induction false} TransactionsInserted(table: map<TransactionKey, Details>, rows: seq<TransactionInsert>)
    ensures AbsentInserted(table, TransactionKeys(rows), TransactionValues(rows), LandTransactions(table, rows))
  {
    if rows != [] {
      var init, row := rows[..|rows| - 1], rows[|rows| - 1];
      TransactionsInserted(table, init);
      OneMoreAbsent(table, TransactionKeys(init), TransactionValues(init), LandTransactions(table, init), row.key,
                    row.details);
      assert TransactionKeys(rows) == TransactionKeys(init) + [row.key];
      assert TransactionValues(rows) == TransactionValues(init) + [row.details];
    }
  }

  function RecentKeys(rows: seq<RecentInsert>): seq<TxKey> { seq(|rows|, i requires 0 <= i < |rows| => rows[i].key) }

  /** A transaction comes in without references. */
  function RecentValues(rows: seq<RecentInsert>): seq<RecentRow> {
    seq(|rows|, i requires 0 <= i < |rows| => RecentRow(0, rows[i].details))
  }

  lemma {:induction false} RecentInserted(db: Db, rows: seq<RecentInsert>)
    ensures AbsentInserted(db.recent, RecentKeys(rows), RecentValues(rows), LandRecent(db, rows).recent)
  {
    if rows != [] {
      var init, row := rows[..|rows| - 1], rows[|rows| - 1];
      RecentInserted(db, init);
      OneMoreAbsent(db.recent, RecentKeys(init), RecentValues(init), LandRecent(db, init).recent, row.key,
                    RecentRow(0, row.details));
      assert RecentKeys(rows) == RecentKeys(init) + [row.key];
      assert RecentValues(rows) == RecentValues(init) + [RecentRow(0, row.details)];
    }
  }

  /** Between 00100 and 00200 of one row. */
  lemma After100KeepsCounts(db: Db, r: RefKey, rest: seq<RefKey>)
    requires CountsAgree(db, [r] + rest, {})
    ensures CountsAgree(After100(db, r), rest, {})
  {
    assert ([r] + rest)[1..] == rest;
  }

  lemma DeletedTowards(refs: map<RefKey, Flags>, rows: set<RefKey>, fired: set<RefKey>, t: TxKey)
    requires rows <= refs.Keys && fired <= rows
    ensures |RefsTo(refs, t)| - |Toward(fired, t)| == |RefsTo(refs - rows, t)| + |Toward(rows - fired, t)|
  {
    assert RefsTo(refs, t) == RefsTo(refs - rows, t) + Toward(rows, t);
    assert Toward(rows, t) == Toward(fired, t) + Toward(rows - fired, t);
  }

  /** Inside the DELETE of 00200, whatever part of its 00300 triggers has fired. */
  lemma DeletingKeepsCounts(db: Db, rows: set<RefKey>, fired: set<RefKey>, queue: seq<RefKey>)
    requires rows <= db.refs.Keys && fired <= rows
    requires CountsAgree(db, queue, {})
    ensures CountsAgree(Deleting(db, rows, fired), queue, rows - fired)
  {
    forall t | t in db.recent
      ensures |RefsTo(db.refs, t)| - |Toward(fired, t)| == |RefsTo(db.refs - rows, t)| + |Toward(rows - fired, t)|
      ensures |Toward({}, t)| == 0
    {
      DeletedTowards(db.refs, rows, fired, t);
      assert Toward({}, t) == {};
    }
  }

  lemma After200Keeps(db: Db, r: RefKey, queue: seq<RefKey>)
    requires CountsAgree(db, queue, {}) && ReferencesClosed(db, queue) && ZeroIsPending(db)
    ensures CountsAgree(After200(db, r), queue, {})
    ensures ReferencesClosed(After200(db, r), queue)
    ensures ZeroIsPending(After200(db, r))
  {
    var a := r.Account();
    if PruneDue(db, a) {
      var rows := DoomedIn(db, a);
      DeletingKeepsCounts(db, rows, rows, queue);
      assert rows - rows == {};
      var deleted := Deleting(db, rows, rows);
      assert CountsAgree(deleted, queue, {});
      forall t | t in deleted.recent && deleted.recent[t].refCount < 1 ensures t in deleted.pending {
        if db.recent[t].refCount >= 1 {
          var q :| q in Toward(rows, t);
        }
      }
    }
  }

  lemma FireRowKeeps(db: Db, r: RefKey, rest: seq<RefKey>)
    requires Consistent(db, [r] + rest)
    requires FireRow(db, r).Success?
    ensures Consistent(FireRow(db, r).value, rest)
  {
    After100KeepsCounts(db, r, rest);
    var counted := After100(db, r);
    assert ReferencesClosed(counted, rest) by {
      forall q | q in counted.refs ensures HasParents(counted, q) || q in rest {
        assert HasParents(db, q) || q in [r] + rest;
      }
    }
    After200Keeps(counted, r, rest);
  }

  /** However far the queue has been worked off, the invariant holds with the rows still waiting. */
  lemma {:induction false} FiringKeeps(db: Db, fired: seq<RefKey>, waiting: seq<RefKey>)
    requires Consistent(db, fired + waiting)
    requires FireQueue(db, fired).Success?
    ensures Consistent(FireQueue(db, fired).value, waiting)
    decreases |fired|
  {
    if fired == [] {
      assert fired + waiting == waiting;
    } else {
      var rest := fired[1..] + waiting;
      assert fired + waiting == [fired[0]] + rest;
      FireRowKeeps(db, fired[0], rest);
      FiringKeeps(FireRow(db, fired[0]).value, fired[1..], waiting);
    }
  }

  lemma LandingKeeps(db: Db, rows: seq<RefRow>)
    requires Consistent(db, [])
    ensures Consistent(db.(refs := LandRefs(db.refs, rows)), LandQueue(db.refs, rows))
  {
    LandingKeepsCounts(db, rows);
    Landed(db.refs, rows);
  }

  /** Firing triggers changes counters, counts, references and the pending list, and nothing else. */
  ghost predicate OnlyCounters(before: Db, after: Db) {
    && after.keepSetting == before.keepSetting
    && after.transactions == before.transactions
    && after.recent.Keys == before.recent.Keys
    && (forall t :: t in before.recent ==> after.recent[t].details == before.recent[t].details)
    && after.accounts.Keys == before.accounts.Keys
    && forall a :: a in before.accounts ==>
         after.accounts[a].erc20 == before.accounts[a].erc20 && after.accounts[a].nft == before.accounts[a].nft
  }

  lemma FireRowOnlyCounts(db: Db, r: RefKey)
    requires FireRow(db, r).Success?
    ensures OnlyCounters(db, FireRow(db, r).value)
  {
    var counted := After100(db, r);
    assert OnlyCounters(db, counted);
    assert OnlyCounters(counted, After200(counted, r));
  }

  lemma {:induction false} FiringOnlyCounts(db: Db, queue: seq<RefKey>)
    requires FireQueue(db, queue).Success?
    ensures OnlyCounters(db, FireQueue(db, queue).value)
    decreases |queue|
  {
    if queue != [] {
      FireRowOnlyCounts(db, queue[0]);
      FiringOnlyCounts(FireRow(db, queue[0]).value, queue[1..]);
    }
  }

  /** Rows whose parents are all there fire without a foreign key violation. */
  lemma {:induction false} FiringSucceeds(db: Db, queue: seq<RefKey>)
    requires forall r :: r in db.refs ==> HasParents(db, r)
    ensures FireQueue(db, queue).Success?
    decreases |queue|
  {
    if queue != [] {
      FiringSucceeds(FireRow(db, queue[0]).value, queue[1..]);
    }
  }
}
