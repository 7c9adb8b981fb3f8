/** What working off a trigger queue does to one account, counted from outside: which of its inserts prunes, and what
    the prune leaves behind. */
module QueueEffects {
  import opened Common
  import opened Tables
  import opened TopRows
  import opened Pruning
  import opened Batches
  import opened Statements
  import opened Consistency
  import opened StorageBound

  function One(r: RefKey, a: AccountKey): nat { if r.Account() == a then 1 else 0 }

  /** Every tenth insert of an account starts its counter anew, whatever other accounts do in between. */
  lemma {:induction false} CounterCountsToTen(db: Db, queue: seq<RefKey>, a: AccountKey)
    requires a in db.accounts && 0 <= db.accounts[a].counter < 10 && FireQueue(db, queue).Success?
    ensures a in FireQueue(db, queue).value.accounts
    ensures FireQueue(db, queue).value.accounts[a].counter == (db.accounts[a].counter + Inserts(queue, a)) % 10
    decreases |queue|
  {
    if queue == [] {
      assert Inserts(queue, a) == 0;
    } else {
      var first := FireRow(db, queue[0]).value;
      OneInsertCounted(db, queue[0], a);
      CounterCountsToTen(first, queue[1..], a);
      CountOn(db.accounts[a].counter, One(queue[0], a), Inserts(queue[1..], a));
      assert Inserts(queue, a) == One(queue[0], a) + Inserts(queue[1..], a);
    }
  }

  lemma CountOn(c: int, now: nat, later: nat)
    ensures ((c + now) % 10 + later) % 10 == (c + (now + later)) % 10
  {
  }

  lemma OneInsertCounted(db: Db, r: RefKey, a: AccountKey)
    requires a in db.accounts && 0 <= db.accounts[a].counter < 10 && FireRow(db, r).Success?
    ensures var after := FireRow(db, r).value;
            && a in after.accounts
            && after.accounts[a].counter == (db.accounts[a].counter + One(r, a)) % 10
  {
  }

  /** As long as the counter does not reach ten, the account keeps all its references. */
  lemma {:induction false} NothingPrunedBeforeTen(db: Db, queue: seq<RefKey>, r: RefKey)
    requires r.Account() in db.accounts && r in db.refs && FireQueue(db, queue).Success?
    requires 0 <= db.accounts[r.Account()].counter
        && db.accounts[r.Account()].counter + Inserts(queue, r.Account()) < 10
    ensures r in FireQueue(db, queue).value.refs
    decreases |queue|
  {
    if queue != [] {
      OneInsertCounted(db, queue[0], r.Account());
      KeptByOneRow(db, queue[0], r);
      NothingPrunedBeforeTen(FireRow(db, queue[0]).value, queue[1..], r);
    }
  }

  lemma KeptByOneRow(db: Db, q: RefKey, r: RefKey)
    requires r.Account() in db.accounts && r in db.refs && FireRow(db, q).Success?
    requires q.Account() == r.Account() ==> db.accounts[r.Account()].counter < 9
    ensures r in FireRow(db, q).value.refs
  {
  }

  /** The tenth insert prunes: of each list it keeps as many rows as the setting says, 50 at least. */
  lemma TenthInsertPrunes(db: Db, r: RefKey, k: nat)
    requires r.Account() in db.accounts && db.accounts[r.Account()].counter == 9 && FireRow(db, r).Success?
    requires r.chainId in db.keepSetting && KeepsMany(db.keepSetting[r.chainId], k)
    requires KeepsFew(db.keepSetting[r.chainId], k)
    ensures FireRow(db, r).value.refs == db.refs - Doomed(db.refs, r.Account(), k)
  {
  }

  /** The transactions of deleted references are left for the collector to look at. */
  lemma {:induction false} DeletedArePending(db: Db, queue: seq<RefKey>)
    requires FireQueue(db, queue).Success?
    ensures var after := FireQueue(db, queue).value;
            && db.pending <= after.pending && after.refs.Keys <= db.refs.Keys
            && forall r :: r in db.refs && r !in after.refs ==> r.Tx() in after.pending
    decreases |queue|
  {
    if queue != [] {
      var first := FireRow(db, queue[0]).value;
      assert forall r :: r in db.refs && r !in first.refs ==> r.Tx() in first.pending;
      DeletedArePending(first, queue[1..]);
    }
  }
}
