/** End to end: what the web application reads after any run of the indexer, and the width of ref_count. */
module IndexerRuns {
  import opened Common
  import opened Tables
  import opened TopRows
  import opened Pruning
  import opened Batches
  import opened Statements
  import opened Consistency
  import opened Collector
  import opened History
  import opened StorageBound
  import opened RowBuilding
  import opened Limits
  import opened BlockIndexing
  import opened Acceptance
  import opened Convergence
  import opened Retention

  ghost predicate NeverKeepsLess(events: seq<Event>, chainId: string, k: nat) {
    forall i :: 0 <= i < |events| && events[i].Configure? && events[i].chainId == chainId ==>
      KeepsMany(events[i].setting, k)
  }

  lemma {:induction false} EventsAdmissible(src: Source, events: seq<Event>, chainId: string, k: nat)
    requires Sound(src) && NeverKeepsLess(events, chainId, k)
    requires forall i :: 0 <= i < |events| ==> FromSource(src, events[i])
    ensures AdmissibleRun(EMPTY, TransactionsOf(events), r => ContentFlags(src, r), chainId, k)
  {
    if events != [] {
      var init, last := events[..|events| - 1], events[|events| - 1];
      assert forall i :: 0 <= i < |init| ==> init[i] == events[i];
      assert TransactionsOf(events)[..|events| - 1] == TransactionsOf(init);
      EventsAdmissible(src, init, chainId, k);
      if last.Index? && LastCommits(events) {
        CommittedAdmissible(src, After(init), last.chainId, last.height, last.rows, chainId, k);
      }
    }
  }

  lemma CommittedAdmissible(src: Source, db: Db, chain: string, h: int, rows: Rows, chainId: string, k: nat)
    requires Sound(src) && AreRowsOf(src.convert(chain), chain, src.content(chain, h), rows)
    requires ExecuteAll(db, StatementsOf(rows)).Success?
    ensures forall s :: s in StatementsOf(rows) ==> Admissible(s, r => ContentFlags(src, r), chainId, k)
  {
    BlockStatements(db, rows);
    CommittedDistinguishable(src, db, chain, h, rows);
    ContentRows(src, chain, h, rows.refs);
  }

  /** The recent transactions shown for an account come from the committed blocks alone: a page of at most k rows read
      from the pruned table is a page of all references the committed blocks contain, and conversely. */
  lemma RecentListsFromBlocks(src: Source, events: seq<Event>, a: AccountKey, k: nat, c: Category, limit: nat,
                              page: seq<RefKey>)
    requires Sound(src) && NeverKeepsLess(events, a.chainId, k) && limit <= k
    requires forall i :: 0 <= i < |events| ==> FromSource(src, events[i])
    ensures var history := RunHistory(EMPTY, TransactionsOf(events));
            && HistoryConverged(src, history, Committed(events))
            && (IsPage(RowsOf(After(events).refs, a, c), limit, page) <==> IsPage(RowsOf(history, a, c), limit, page))
  {
    EventsAdmissible(src, events, a.chainId, k);
    TablesConverge(src, events);
    PrunedIndexAnswersLikeHistory(EMPTY, TransactionsOf(events), r => ContentFlags(src, r), a, k, c, limit, page);
  }

  /** Two indexers that committed the same blocks show the same pages, although they may have pruned at different
      moments and may store different rows. */
  lemma SameBlocksSamePages(src: Source, one: seq<Event>, two: seq<Event>, a: AccountKey, k: nat,
                            c: Category, limit: nat, page: seq<RefKey>)
    requires Sound(src) && limit <= k
    requires NeverKeepsLess(one, a.chainId, k) && NeverKeepsLess(two, a.chainId, k)
    requires forall i :: 0 <= i < |one| ==> FromSource(src, one[i])
    requires forall i :: 0 <= i < |two| ==> FromSource(src, two[i])
    requires Committed(one) == Committed(two)
    ensures IsPage(RowsOf(After(one).refs, a, c), limit, page) <==> IsPage(RowsOf(After(two).refs, a, c), limit, page)
  {
    RecentListsFromBlocks(src, one, a, k, c, limit, page);
    RecentListsFromBlocks(src, two, a, k, c, limit, page);
    SameHistory(src, RunHistory(EMPTY, TransactionsOf(one)), RunHistory(EMPTY, TransactionsOf(two)), Committed(one));
  }

  lemma SameHistory(src: Source, one: map<RefKey, Flags>, two: map<RefKey, Flags>, blocks: set<(string, int)>)
    requires HistoryConverged(src, one, blocks) && HistoryConverged(src, two, blocks)
    ensures one == two
  {
    forall r ensures r in one <==> r in two {
      assert r in one <==> (r.chainId, r.height) in blocks && ContentRef(src, r);
      assert r in two <==> (r.chainId, r.height) in blocks && ContentRef(src, r);
    }
    SameTable(one, two, r => ContentFlags(src, r));
  }

  lemma SameTable(one: map<RefKey, Flags>, two: map<RefKey, Flags>, content: RefKey -> Flags)
    requires one.Keys == two.Keys && Carries(one, content) && Carries(two, content)
    ensures one == two
  {
  }

  // ---- the width of ref_count

  lemma {:induction false} OneKeyPerAddress(keys: set<RefKey>, t: TxKey, addresses: set<string>)
    requires forall r :: r in keys ==> r.Tx() == t && r.address in addresses
    ensures |keys| <= |addresses|
  {
    if keys != {} {
      var r :| r in keys;
      forall q | q in keys - {r} ensures q.address in addresses - {r.address} {
        assert q.Tx() == r.Tx();
      }
      OneKeyPerAddress(keys - {r}, t, addresses - {r.address});
    }
  }

  ghost predicate ContentWithinLimits(src: Source) {
    forall chainId, h :: forall i :: 0 <= i < |src.content(chainId, h).txs| ==>
      WithinLimits(src.content(chainId, h).txs[i])
  }

  /** In a block whose hashes tell its transactions apart, every reference to a transaction is to an address it
      involves. */
  lemma InvolvesReferrer(src: Source, t: TxKey, i: nat, r: RefKey, q: RefKey)
    requires i < |src.content(t.chainId, t.height).txs| && r.Tx() == q.Tx() == t
    requires ContentRef(src, r) && RefersTo(src, r, i) && ContentRef(src, q)
    ensures Involved(src.convert(t.chainId), src.content(t.chainId, t.height).txs[i], q.address)
  {
    var convert, txs := src.convert(t.chainId), src.content(t.chainId, t.height).txs;
    var j :| 0 <= j < |txs| && RefersTo(src, q, j);
    assert Involves(convert, txs[i]) && Involves(convert, txs[j]);
  }

  /** However often its block is indexed, one transaction is referenced by at most 10760 different rows. */
  lemma RefsOfTxBound(src: Source, t: TxKey, keys: set<RefKey>)
    requires ContentWithinLimits(src)
    requires forall r :: r in keys ==> r.Tx() == t && ContentRef(src, r)
    ensures |keys| <= 10760
  {
    if keys != {} {
      var txs := src.content(t.chainId, t.height).txs;
      var r :| r in keys;
      assert r.Tx() == t;
      var i :| 0 <= i < |txs| && RefersTo(src, r, i);
      var addresses := set q | q in keys :: q.address;
      forall a | a in addresses ensures a in AddressesOf(src.convert(t.chainId), txs[i]) {
        var q :| q in keys && q.address == a;
        InvolvesReferrer(src, t, i, r, q);
        AddressesAreInvolved(src.convert(t.chainId), txs[i], a);
      }
      InvolvedBound(src.convert(t.chainId), txs[i]);
      SubsetCardinality(addresses, AddressesOf(src.convert(t.chainId), txs[i]));
      OneKeyPerAddress(keys, t, addresses);
    }
  }

  predicate FitsSmallint(n: int) {
    -0x8000 <= n < 0x8000
  }

  ghost predicate AllFromContent(src: Source, keys: set<RefKey>) {
    forall r :: r in keys ==> ContentRef(src, r)
  }

  function QueuedTo(queue: seq<RefKey>, t: TxKey): set<RefKey> {
    set r | r in queue && r.Tx() == t
  }

  lemma QueuedToStep(queue: seq<RefKey>, t: TxKey)
    requires NoDuplicates(queue) && queue != []
    ensures |QueuedTo(queue, t)| == |QueuedTo(queue[1..], t)| + if queue[0].Tx() == t then 1 else 0
  {
    assert queue[0] !in queue[1..];
    assert QueuedTo(queue, t) == QueuedTo(queue[1..], t) + if queue[0].Tx() == t then {queue[0]} else {};
  }

  lemma {:induction false} MentionsAreKeys(queue: seq<RefKey>, t: TxKey)
    requires NoDuplicates(queue)
    ensures Mentions(queue, t) == |QueuedTo(queue, t)|
  {
    if queue != [] {
      MentionsAreKeys(queue[1..], t);
      QueuedToStep(queue, t);
    }
  }

  lemma PresentAndUnfired(refs: map<RefKey, Flags>, unfired: set<RefKey>, t: TxKey)
    requires unfired !! refs.Keys
    ensures |RefsTo(refs, t) + Toward(unfired, t)| == |RefsTo(refs, t)| + |Toward(unfired, t)|
  {
  }

  /** Where the counts agree and all rows come from the chain's blocks, every ref_count fits its SMALLINT column. */
  lemma CountsFit(src: Source, db: Db, queue: seq<RefKey>, unfired: set<RefKey>, t: TxKey)
    requires Sound(src) && ContentWithinLimits(src)
    requires CountsAgree(db, queue, unfired) && NoDuplicates(queue) && unfired !! db.refs.Keys
    requires AllFromContent(src, db.refs.Keys) && AllFromContent(src, unfired) && QueueFromContent(src, queue)
    ensures t in db.recent ==> FitsSmallint(db.recent[t].refCount)
  {
    MentionsAreKeys(queue, t);
    RefsOfTxBound(src, t, QueuedTo(queue, t));
    RefsOfTxBound(src, t, RefsTo(db.refs, t) + Toward(unfired, t));
    PresentAndUnfired(db.refs, unfired, t);
  }

  ghost predicate QueueFromContent(src: Source, queue: seq<RefKey>) {
    forall r :: r in queue ==> ContentRef(src, r)
  }

  lemma {:induction false} LandQueueDistinct(refs: map<RefKey, Flags>, rows: seq<RefRow>)
    ensures NoDuplicates(LandQueue(refs, rows))
  {
    if rows != [] {
      LandQueueDistinct(refs, rows[..|rows| - 1]);
      Landed(refs, rows[..|rows| - 1]);
    }
  }

  lemma {:induction false} FiringShrinks(db: Db, queue: seq<RefKey>)
    requires FireQueue(db, queue).Success?
    ensures FireQueue(db, queue).value.refs.Keys <= db.refs.Keys
    decreases |queue|
  {
    if queue != [] {
      FiringShrinks(FireRow(db, queue[0]).value, queue[1..]);
    }
  }

  lemma {:induction false} LandedFromContent(src: Source, refs: map<RefKey, Flags>, rows: seq<RefRow>)
    requires AllFromContent(src, refs.Keys)
    requires forall i :: 0 <= i < |rows| ==> ContentRef(src, rows[i].key)
    ensures AllFromContent(src, LandRefs(refs, rows).Keys)
    ensures QueueFromContent(src, LandQueue(refs, rows))
  {
    Landed(refs, rows);
  }

  /** t's count before the triggers of row r, between its 00100 and 00200, and inside the DELETE of its 00200 after any
      part of the 00300 triggers. */
  ghost predicate FitsAroundRow(now: Db, r: RefKey, fired: set<RefKey>, t: TxKey) {
    var counted := After100(now, r);
    var doomed := DoomedIn(counted, r.Account());
    && (t in now.recent ==> FitsSmallint(now.recent[t].refCount))
    && (t in counted.recent ==> FitsSmallint(counted.recent[t].refCount))
    && (fired <= doomed && t in counted.recent ==> FitsSmallint(Deleting(counted, doomed, fired).recent[t].refCount))
  }

  /** Every ref_count fits 16 bits at every point of the trigger queue: before the triggers of a row, between its
      00100 and 00200, and inside the DELETE of its 00200, where counts may be negative for a moment. */
  lemma RefCountsFit(src: Source, db: Db, rows: seq<RefRow>, done: nat, fired: set<RefKey>, t: TxKey)
    requires Sound(src) && ContentWithinLimits(src)
    requires AtRest(db) && AllFromContent(src, db.refs.Keys)
    requires forall i :: 0 <= i < |rows| ==> ContentRef(src, rows[i].key)
    requires done < |LandQueue(db.refs, rows)|
    requires FireQueue(db.(refs := LandRefs(db.refs, rows)), LandQueue(db.refs, rows)[..done]).Success?
    ensures FitsAroundRow(FireQueue(db.(refs := LandRefs(db.refs, rows)), LandQueue(db.refs, rows)[..done]).value,
                          LandQueue(db.refs, rows)[done], fired, t)
  {
    var landed, queue := db.(refs := LandRefs(db.refs, rows)), LandQueue(db.refs, rows);
    CountsAtEveryPoint(db, rows, done);
    LandQueueDistinct(db.refs, rows);
    LandedFromContent(src, db.refs, rows);
    FiringShrinks(landed, queue[..done]);
    var now, r := FireQueue(landed, queue[..done]).value, queue[done];
    RowCountsFit(src, now, r, queue[done + 1..], fired, t);
  }

  lemma RowCountsFit(src: Source, now: Db, r: RefKey, waiting: seq<RefKey>, fired: set<RefKey>, t: TxKey)
    requires Sound(src) && ContentWithinLimits(src)
    requires CountsAroundRow(now, r, waiting) && NoDuplicates([r] + waiting)
    requires AllFromContent(src, now.refs.Keys) && QueueFromContent(src, [r] + waiting)
    ensures FitsAroundRow(now, r, fired, t)
  {
    var counted := After100(now, r);
    var doomed := DoomedIn(counted, r.Account());
    assert NoDuplicates(waiting) && QueueFromContent(src, waiting) by {
      assert forall i :: 0 <= i < |waiting| ==> ([r] + waiting)[i + 1] == waiting[i];
    }
    CountsFit(src, now, [r] + waiting, {}, t);
    CountsFit(src, counted, waiting, {}, t);
    if fired <= doomed {
      DeletingCountsFit(src, counted, doomed, fired, waiting, t);
    }
  }

  lemma DeletingCountsFit(src: Source, db: Db, doomed: set<RefKey>, fired: set<RefKey>, waiting: seq<RefKey>, t: TxKey)
    requires Sound(src) && ContentWithinLimits(src)
    requires doomed <= db.refs.Keys && fired <= doomed
    requires CountsAgree(Deleting(db, doomed, fired), waiting, doomed - fired)
    requires NoDuplicates(waiting) && QueueFromContent(src, waiting) && AllFromContent(src, db.refs.Keys)
    ensures t in db.recent ==> FitsSmallint(Deleting(db, doomed, fired).recent[t].refCount)
  {
    CountsFit(src, Deleting(db, doomed, fired), waiting, doomed - fired, t);
  }

  // ---- settings

  /** What the operator or the indexer last wrote for the chain. */
  function LastSetting(events: seq<Event>, chainId: string): Option<Option<int>> {
    if events == [] then None
    else
      var last := events[|events| - 1];
      if last.Configure? && last.chainId == chainId then Some(last.setting)
      else LastSetting(events[..|events| - 1], chainId)
  }

  lemma ChainsKept(db: Db, rows: Rows)
    requires ExecuteAll(db, StatementsOf(rows)).Success?
    ensures ExecuteAll(db, StatementsOf(rows)).value.keepSetting == db.keepSetting
  {
    BlockStatements(db, rows);
    var r1 := UpsertAccounts(InsertTransactions(db, rows.transactions).value, rows.accounts).value;
    LandRecentAdds(r1, rows.recent);
    var ready := FirstThree(db, rows).value;
    FiringOnlyCountsIfAny(ready, rows.refs);
  }

  lemma FiringOnlyCountsIfAny(db: Db, rows: seq<RefRow>)
    requires InsertRefs(db, rows).Success?
    ensures InsertRefs(db, rows).value.keepSetting == db.keepSetting
  {
    if rows != [] {
      FiringOnlyCounts(db.(refs := LandRefs(db.refs, rows)), LandQueue(db.refs, rows));
    }
  }

  /** A chain is registered exactly from its first setting on, and its last setting is in force. */
  lemma {:induction false} LastSettingHolds(events: seq<Event>, chainId: string)
    ensures chainId in After(events).keepSetting <==> LastSetting(events, chainId).Some?
    ensures LastSetting(events, chainId).Some? ==>
              After(events).keepSetting[chainId] == LastSetting(events, chainId).value
  {
    if events != [] {
      var init, last := events[..|events| - 1], events[|events| - 1];
      LastSettingHolds(init, chainId);
      AfterLast(events);
      if last.Configure? {
        SettingEffect(After(init), last.chainId, last.setting);
      } else if LastCommits(events) {
        ChainsKept(After(init), last.rows);
      }
    }
  }

  // ---- what is stored of a transaction

  /** Nothing is left for the collector, and exactly the referenced transactions are stored. */
  ghost predicate Collected(db: Db) {
    && db.pending == {}
    && forall t :: t in db.recent <==> exists r :: r in db.refs && r.Tx() == t
  }

  lemma BlockCollects(src: Source, db: Db, chainId: string, h: int, rows: Rows)
    requires AreRowsOf(src.convert(chainId), chainId, src.content(chainId, h), rows) && AtRest(db)
    requires ExecuteAll(db, StatementsOf(rows)).Success?
    ensures Collected(ExecuteAll(db, StatementsOf(rows)).value)
  {
    BlockStatements(db, rows);
    FirstThreeReady(src.convert(chainId), chainId, src.content(chainId, h), rows, db);
    var ready := FirstThree(db, rows).value;
    InsertRefsKeeps(ready, rows.refs);
    CleanupExact(InsertRefs(ready, rows.refs).value);
  }

  lemma {:induction false} RunCollects(src: Source, events: seq<Event>)
    requires forall i :: 0 <= i < |events| ==> FromSource(src, events[i])
    ensures Collected(After(events))
  {
    if events != [] {
      var init, last := events[..|events| - 1], events[|events| - 1];
      assert forall i :: 0 <= i < |init| ==> init[i] == events[i];
      RunCollects(src, init);
      AfterLast(events);
      EmptyAtRest();
      RunKeeps(EMPTY, TransactionsOf(init));
      if last.Index? && LastCommits(events) {
        BlockCollects(src, After(init), last.chainId, last.height, last.rows);
      } else if LastCommits(events) {
        SettingEffect(After(init), last.chainId, last.setting);
      }
    }
  }

  /** After any run: the transactions that accounts can be shown are exactly those with a reference, and each carries
      the epoch, the message types and the rest that its committed block has for it. */
  lemma StoredAsInBlocks(src: Source, events: seq<Event>, t: TxKey)
    requires Sound(src) && forall i :: 0 <= i < |events| ==> FromSource(src, events[i])
    ensures t in After(events).recent <==> exists r :: r in After(events).refs && r.Tx() == t
    ensures t in After(events).recent ==>
              && (t.chainId, t.height) in Committed(events)
              && IsContentTx(src, t, After(events).recent[t].details)
  {
    RunCollects(src, events);
    TablesConverge(src, events);
  }

  /** A stored transaction lies in the partition of its own time, and has what its checks demand. */
  lemma StoredInItsWeek(src: Source, events: seq<Event>, key: TransactionKey)
    requires Sound(src) && forall i :: 0 <= i < |events| ==> FromSource(src, events[i])
    requires key in After(events).transactions
    ensures var epoch := After(events).transactions[key].epoch;
            epoch >= 1 && key.week >= 0 && StoredIn(Partition(key.chainId, key.week), key.chainId, epoch)
    ensures key.height >= 1 && After(events).transactions[key].messageTypes != []
  {
    TablesConverge(src, events);
    var i :| FirstOf(src, key, i);
    assert StoresTx(src, key, i, After(events).transactions[key]);
    assert WellFormed(key.chainId, src.content(key.chainId, key.height));
  }

  /** Every reference a run leaves in the table is one its blocks contain. */
  lemma ReachableRefsFromContent(src: Source, events: seq<Event>)
    requires Sound(src) && forall i :: 0 <= i < |events| ==> FromSource(src, events[i])
    ensures AtRest(After(events)) && AllFromContent(src, After(events).refs.Keys)
  {
    EmptyAtRest();
    RunKeeps(EMPTY, TransactionsOf(events));
    TablesConverge(src, events);
    EventsAdmissible(src, events, "", 0);
    RunFaithful(EMPTY, TransactionsOf(events), r => ContentFlags(src, r), AccountKey("", ""), 0);
  }

  /** Each stored reference carries the flags of the roles that its account plays in its transaction. */
  lemma FlagsAsInBlocks(src: Source, events: seq<Event>, r: RefKey)
    requires Sound(src) && forall i :: 0 <= i < |events| ==> FromSource(src, events[i])
    requires r in After(events).refs
    ensures exists i :: 0 <= i < |src.content(r.chainId, r.height).txs| && RefersTo(src, r, i)
    ensures forall i :: 0 <= i < |src.content(r.chainId, r.height).txs| && RefersTo(src, r, i) ==>
              var convert, tx := src.convert(r.chainId), src.content(r.chainId, r.height).txs[i];
              var flags := After(events).refs[r];
              && (flags.signer <==> PlaysRole(convert, tx, Fact(r.address, SignerKind)))
              && (flags.erc20 <==> PlaysRole(convert, tx, Fact(r.address, Erc20Kind)))
              && (flags.nft <==> PlaysRole(convert, tx, Fact(r.address, NftKind)))
  {
    TablesConverge(src, events);
    EventsAdmissible(src, events, "", 0);
    RunFaithful(EMPTY, TransactionsOf(events), r => ContentFlags(src, r), AccountKey("", ""), 0);
    assert ContentRef(src, r);
    forall i | 0 <= i < |src.content(r.chainId, r.height).txs| && RefersTo(src, r, i)
      ensures After(events).refs[r]
           == RoleFlags(src.convert(r.chainId), src.content(r.chainId, r.height).txs[i], r.address)
    {
      RefFlags(src, r, i);
    }
  }

  /** The tables when a block's references are about to be inserted. */
  lemma ReadyForRefs(src: Source, db: Db, chainId: string, h: int, rows: Rows)
    requires Sound(src) && AreRowsOf(src.convert(chainId), chainId, src.content(chainId, h), rows)
    requires AtRest(db) && FirstThree(db, rows).Success?
    ensures var ready := FirstThree(db, rows).value;
            && AtRest(ready) && ready.refs == db.refs
            && (forall i :: 0 <= i < |rows.refs| ==>
                HasParents(ready, rows.refs[i].key) && ContentRef(src, rows.refs[i].key))
  {
    FirstThreeReady(src.convert(chainId), chainId, src.content(chainId, h), rows, db);
    FirstThreeEffect(db, rows);
    CommittedDistinguishable(src, db, chainId, h, rows);
    ContentRows(src, chainId, h, rows.refs);
    assert forall i :: 0 <= i < |rows.refs| ==> HasRow(rows.refs, rows.refs[i].key);
  }

  lemma QueueFires(db: Db, rows: seq<RefRow>, done: nat)
    requires AtRest(db) && forall i :: 0 <= i < |rows| ==> HasParents(db, rows[i].key)
    requires done <= |LandQueue(db.refs, rows)|
    ensures FireQueue(db.(refs := LandRefs(db.refs, rows)), LandQueue(db.refs, rows)[..done]).Success?
  {
    Landed(db.refs, rows);
    FiringSucceeds(db.(refs := LandRefs(db.refs, rows)), LandQueue(db.refs, rows)[..done]);
  }

  /** In any run of source blocks, whenever a block has got as far as its references: firing the queue cannot fail,
      and at every point of it every ref_count fits 16 bits. */
  lemma RunCountsFit(src: Source, events: seq<Event>, n: nat, done: nat, fired: set<RefKey>, t: TxKey)
    requires Sound(src) && ContentWithinLimits(src)
    requires forall i :: 0 <= i < |events| ==> FromSource(src, events[i])
    requires n < |events| && events[n].Index? && FirstThree(After(events[..n]), events[n].rows).Success?
    requires done < |LandQueue(FirstThree(After(events[..n]), events[n].rows).value.refs, events[n].rows.refs)|
    ensures var db, rows := FirstThree(After(events[..n]), events[n].rows).value, events[n].rows.refs;
            var firing := FireQueue(db.(refs := LandRefs(db.refs, rows)), LandQueue(db.refs, rows)[..done]);
            var r := LandQueue(db.refs, rows)[done];
            && firing.Success?
            && FitsAroundRow(firing.value, r, fired, t)
  {
    var e, before := events[n], After(events[..n]);
    assert forall i :: 0 <= i < n ==> events[..n][i] == events[i];
    ReachableRefsFromContent(src, events[..n]);
    ReadyForRefs(src, before, e.chainId, e.height, e.rows);
    var db := FirstThree(before, e.rows).value;
    QueueFires(db, e.rows.refs, done);
    RefCountsFit(src, db, e.rows.refs, done, fired, t);
  }

  // ---- the space one account takes

  ghost predicate NeverKeepsMore(events: seq<Event>, chainId: string, k: nat) {
    forall i :: 0 <= i < |events| && events[i].Configure? && events[i].chainId == chainId ==>
      KeepsFew(events[i].setting, k)
  }

  function TxsOfBlock(src: Source, chainId: string, h: int): set<TxKey> {
    set i | 0 <= i < |src.content(chainId, h).txs| :: TxKey(chainId, h, src.content(chainId, h).txs[i].hash)
  }

  lemma {:induction false} BlockTxsBound(chainId: string, h: int, txs: seq<BlockTx>, txKeys: set<TxKey>)
    requires forall t :: t in txKeys ==> exists i :: 0 <= i < |txs| && t == TxKey(chainId, h, txs[i].hash)
    ensures |txKeys| <= |txs|
  {
    if txs == [] {
      assert txKeys == {};
    } else {
      var init, last := txs[..|txs| - 1], TxKey(chainId, h, txs[|txs| - 1].hash);
      forall t | t in txKeys - {last} ensures exists i :: 0 <= i < |init| && t == TxKey(chainId, h, init[i].hash) {
        var i :| 0 <= i < |txs| && t == TxKey(chainId, h, txs[i].hash);
        assert init[i] == txs[i];
      }
      BlockTxsBound(chainId, h, init, txKeys - {last});
    }
  }

  lemma HeightsBound(events: seq<Event>, a: AccountKey, k: nat)
    requires NeverKeepsMore(events, a.chainId, k)
    ensures |AccountHeights(After(events).refs, a)| <= 4 * k + 9
  {
    var run := TransactionsOf(events);
    forall i | 0 <= i < |run| ensures forall s :: s in run[i].statements ==> KeepsAtMostIn(s, a.chainId, k) {
      assert run[i] == TransactionOf(events[i]);
    }
    RunWithinBudget(run, a, k);
    EmptyAtRest();
    RunKeeps(EMPTY, run);
    if a !in After(events).accounts {
      NoAccountNoHeights(After(events), a);
    }
  }

  lemma NoAccountNoHeights(db: Db, a: AccountKey)
    requires AtRest(db) && a !in db.accounts
    ensures AccountHeights(db.refs, a) == {}
  {
    forall r | r in db.refs ensures r.Account() != a {
      assert HasParents(db, r);
    }
  }

  function TxsAt(src: Source, chainId: string): int -> set<TxKey> {
    h => TxsOfBlock(src, chainId, h)
  }

  lemma RowsAreListed(src: Source, refs: map<RefKey, Flags>, a: AccountKey)
    requires AllFromContent(src, refs.Keys)
    ensures forall r :: r in RowsOf(refs, a, All) ==> r.Tx() in TxsAt(src, a.chainId)(r.height)
  {
    forall r | r in RowsOf(refs, a, All) ensures r.Tx() in TxsOfBlock(src, a.chainId, r.height) {
      assert ContentRef(src, r);
    }
  }

  lemma FewTxsPerHeight(src: Source, chainId: string)
    requires forall h :: |src.content(chainId, h).txs| <= 100
    ensures forall h :: |TxsAt(src, chainId)(h)| <= 100
  {
    forall h ensures |TxsOfBlock(src, chainId, h)| <= 100 {
      BlockTxsBound(chainId, h, src.content(chainId, h).txs, TxsOfBlock(src, chainId, h));
    }
  }

  /** With blocks of at most 100 transactions, after any run an account holds at most 100 * (4K + 9) references. */
  lemma AccountRowsBound(src: Source, events: seq<Event>, a: AccountKey, k: nat)
    requires Sound(src) && forall i :: 0 <= i < |events| ==> FromSource(src, events[i])
    requires forall h :: |src.content(a.chainId, h).txs| <= 100
    requires NeverKeepsMore(events, a.chainId, k)
    ensures |RowsOf(After(events).refs, a, All)| <= 100 * (4 * k + 9)
  {
    ReachableRefsFromContent(src, events);
    HeightsBound(events, a, k);
    RowsAreListed(src, After(events).refs, a);
    FewTxsPerHeight(src, a.chainId);
    RowsBound(After(events).refs, a, 4 * k + 9, 100, TxsAt(src, a.chainId));
  }
}
