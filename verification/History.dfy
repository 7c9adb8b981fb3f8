/** The pruned index answers like the full history: for every account and each of the four lists,
    the pages of up to K rows read from the pruned table are exactly the pages of the table that was never pruned. */
module History {
  import opened Common
  import opened Tables
  import opened TopRows
  import opened Pruning
  import opened Batches
  import opened Statements
  import opened Consistency
  import opened Collector

  /** `history` has every row ever inserted; a row of account a is missing from `refs` only if at least k rows
      of each of its categories are still there strictly above it. */
  ghost predicate Faithful(refs: map<RefKey, Flags>, history: map<RefKey, Flags>, a: AccountKey, k: nat) {
    && (forall r :: r in refs ==> r in history && refs[r] == history[r])
    && (forall r, c :: r in history && r !in refs && r.Account() == a && history[r].Has(c) ==>
          k <= |Above(RowsOf(refs, a, c), r.height)|)
  }

  // ---- reading

  lemma FaithfulAnswers(refs: map<RefKey, Flags>, history: map<RefKey, Flags>, a: AccountKey, k: nat,
                        c: Category, limit: nat, top: set<RefKey>)
    requires Faithful(refs, history, a, k) && limit <= k
    ensures IsTop(RowsOf(refs, a, c), limit, top) <==> IsTop(RowsOf(history, a, c), limit, top)
  {
    var rows, full := RowsOf(refs, a, c), RowsOf(history, a, c);
    assert MissesOnlyDeep(rows, full, limit);
    if IsTop(rows, limit, top) {
      AnswerIsFullAnswer(rows, full, limit, top);
    }
    if IsTop(full, limit, top) {
      FullAnswerIsAnswer(rows, full, limit, top);
    }
  }

  /** A LIMIT of at most k returns, as a page, the same possibilities from both tables. */
  lemma FaithfulPages(refs: map<RefKey, Flags>, history: map<RefKey, Flags>, a: AccountKey, k: nat,
                      c: Category, limit: nat, page: seq<RefKey>)
    requires Faithful(refs, history, a, k) && limit <= k
    ensures IsPage(RowsOf(refs, a, c), limit, page) <==> IsPage(RowsOf(history, a, c), limit, page)
  {
    FaithfulAnswers(refs, history, a, k, c, limit, RowSet(page));
  }

  function HeightsListed(page: seq<RefKey>): seq<int> {
    seq(|page|, i requires 0 <= i < |page| => page[i].height)
  }

  lemma {:induction false} PageSize(page: seq<RefKey>)
    requires forall i, j :: 0 <= i < j < |page| ==> page[i] != page[j]
    ensures |RowSet(page)| == |page|
  {
    if page != [] {
      PageSize(page[..|page| - 1]);
      assert RowSet(page) == RowSet(page[..|page| - 1]) + {page[|page| - 1]};
    }
  }

  lemma AboveComesBefore(rows: set<RefKey>, k: nat, page: seq<RefKey>, i: nat)
    requires IsPage(rows, k, page) && i < |page|
    ensures |Above(rows, page[i].height)| <= i
  {
    AboveInTop(rows, k, RowSet(page), page[i]);
    PageSize(page[..i]);
    forall r | r in Above(rows, page[i].height) ensures r in RowSet(page[..i]) {
      var j :| 0 <= j < |page| && page[j] == r;
      assert page[..i][j] == r;
    }
    SubsetCardinality(Above(rows, page[i].height), RowSet(page[..i]));
  }

  lemma BelowComesAfter(rows: set<RefKey>, k: nat, page: seq<RefKey>, i: nat)
    requires IsPage(rows, k, page) && i < |page|
    ensures i + 1 + |set r | r in rows && r.height < page[i].height| <= |rows|
  {
    var first, below := RowSet(page[..i + 1]), set r | r in rows && r.height < page[i].height;
    PageSize(page[..i + 1]);
    assert first !! below;
    assert first <= RowSet(page);
    SubsetCardinality(first + below, rows);
  }

  /** The heights before position i are those of the rows strictly above, so ties cannot show in a page's heights. */
  lemma PagePosition(rows: set<RefKey>, k: nat, page: seq<RefKey>, i: nat)
    requires IsPage(rows, k, page) && i < |page|
    ensures |Above(rows, page[i].height)| <= i < |rows| - |set r | r in rows && r.height < page[i].height|
  {
    AboveComesBefore(rows, k, page, i);
    BelowComesAfter(rows, k, page, i);
  }

  /** Any two answers to the same query list the same heights. */
  lemma PageHeightsUnique(rows: set<RefKey>, k: nat, p: seq<RefKey>, q: seq<RefKey>)
    requires IsPage(rows, k, p) && IsPage(rows, k, q)
    ensures HeightsListed(p) == HeightsListed(q)
  {
    PageSize(p);
    PageSize(q);
    forall i | 0 <= i < |p| ensures p[i].height == q[i].height {
      PagePosition(rows, k, p, i);
      PagePosition(rows, k, q, i);
      if p[i].height < q[i].height {
        HigherRankConflict(rows, p[i].height, q[i].height);
      } else if q[i].height < p[i].height {
        HigherRankConflict(rows, q[i].height, p[i].height);
      }
    }
  }

  lemma HigherRankConflict(rows: set<RefKey>, low: int, high: int)
    requires low < high
    ensures |rows| - |set r | r in rows && r.height < high| <= |Above(rows, low)|
  {
    var below := set r | r in rows && r.height < high;
    SubsetCardinality(rows, below + Above(rows, low));
    UnionCardinality(below, Above(rows, low));
  }

  // ---- writing

  predicate FlagsFrom(rows: seq<RefRow>, content: RefKey -> Flags) {
    forall i :: 0 <= i < |rows| ==> rows[i].flags == content(rows[i].key)
  }

  ghost predicate Carries(table: map<RefKey, Flags>, content: RefKey -> Flags) {
    forall r :: r in table ==> table[r] == content(r)
  }

  lemma {:induction false} LandedCarries(table: map<RefKey, Flags>, rows: seq<RefRow>, content: RefKey -> Flags)
    requires FlagsFrom(rows, content) && Carries(table, content)
    ensures Carries(LandRefs(table, rows), content)
  {
    if rows != [] {
      var init, row := rows[..|rows| - 1], rows[|rows| - 1];
      assert forall i :: 0 <= i < |init| ==> init[i] == rows[i];
      LandedCarries(table, init, content);
    }
  }

  lemma LandingFaithful(refs: map<RefKey, Flags>, history: map<RefKey, Flags>, a: AccountKey, k: nat,
                        rows: seq<RefRow>, content: RefKey -> Flags)
    requires Faithful(refs, history, a, k)
    requires FlagsFrom(rows, content) && Carries(history, content)
    ensures Faithful(LandRefs(refs, rows), LandRefs(history, rows), a, k)
  {
    Landed(refs, rows);
    Landed(history, rows);
    LandedCarries(history, rows, content);
    forall r, c | r in LandRefs(history, rows) && r !in LandRefs(refs, rows) && r.Account() == a
                  && LandRefs(history, rows)[r].Has(c)
      ensures k <= |Above(RowsOf(LandRefs(refs, rows), a, c), r.height)|
    {
      assert r in history && history[r].Has(c);
      MoreAbove(refs, LandRefs(refs, rows), a, c, r.height);
    }
  }

  lemma MoreAbove(before: map<RefKey, Flags>, after: map<RefKey, Flags>, a: AccountKey, c: Category, h: int)
    requires forall r :: r in before ==> r in after && after[r] == before[r]
    ensures |Above(RowsOf(before, a, c), h)| <= |Above(RowsOf(after, a, c), h)|
  {
    SubsetCardinality(Above(RowsOf(before, a, c), h), Above(RowsOf(after, a, c), h));
  }

  lemma PruneFaithful(refs: map<RefKey, Flags>, history: map<RefKey, Flags>, a: AccountKey, k: nat,
                      pruned: AccountKey, keep: nat)
    requires Faithful(refs, history, a, k) && (pruned == a ==> k <= keep)
    ensures Faithful(refs - Doomed(refs, pruned, keep), history, a, k)
  {
    var left := refs - Doomed(refs, pruned, keep);
    forall r, c | r in history && r !in left && r.Account() == a && history[r].Has(c)
      ensures k <= |Above(RowsOf(left, a, c), r.height)|
    {
      if pruned != a {
        assert RowsOf(left, a, c) == RowsOf(refs, a, c);
      } else {
        if r in refs {
          assert r in RowsOf(refs, a, c);
          assert r.height !in RecentHeights(refs, a, c, keep);
        }
        PruneKeepsDepth(refs, a, c, k, keep, r.height);
      }
    }
  }

  ghost predicate KeepsAtLeast(db: Db, chainId: string, k: nat) {
    chainId in db.keepSetting ==> KeepsMany(db.keepSetting[chainId], k)
  }

  lemma {:induction false} FiringFaithful(db: Db, queue: seq<RefKey>, history: map<RefKey, Flags>, a: AccountKey,
                                          k: nat)
    requires Faithful(db.refs, history, a, k) && KeepsAtLeast(db, a.chainId, k)
    requires FireQueue(db, queue).Success?
    ensures Faithful(FireQueue(db, queue).value.refs, history, a, k)
    ensures FireQueue(db, queue).value.keepSetting == db.keepSetting
    decreases |queue|
  {
    if queue != [] {
      var r := queue[0];
      var counted := After100(db, r);
      var b := r.Account();
      if PruneDue(counted, b) && b.chainId in db.keepSetting {
        PruneFaithful(db.refs, history, a, k, b, EffectiveKeep(db.keepSetting[b.chainId]));
      }
      assert counted.refs - {} == counted.refs;
      FiringFaithful(FireRow(db, r).value, queue[1..], history, a, k);
    }
  }

  /** The table of every reference ever inserted: the same inserts, no prune. */
  function Record(history: map<RefKey, Flags>, s: Statement): map<RefKey, Flags> {
    if s.Refs? then LandRefs(history, s.refs) else history
  }

  function RecordAll(history: map<RefKey, Flags>, statements: seq<Statement>): map<RefKey, Flags>
    decreases |statements|
  {
    if statements == [] then history else RecordAll(Record(history, statements[0]), statements[1..])
  }

  /** A statement re-inserts a reference only with the flags it always had, and never sets a's chain to keep less
      than k. */
  predicate Admissible(s: Statement, content: RefKey -> Flags, chainId: string, k: nat) {
    match s
    case Refs(rows) => FlagsFrom(rows, content)
    case SetKeep(chain, setting) => chain == chainId ==> KeepsMany(setting, k)
    case _ => true
  }

  lemma StatementFaithful(db: Db, s: Statement, history: map<RefKey, Flags>, content: RefKey -> Flags, a: AccountKey,
                          k: nat)
    requires Faithful(db.refs, history, a, k) && Carries(history, content) && KeepsAtLeast(db, a.chainId, k)
    requires Admissible(s, content, a.chainId, k) && Execute(db, s).Success?
    ensures Faithful(Execute(db, s).value.refs, Record(history, s), a, k) && Carries(Record(history, s), content)
    ensures KeepsAtLeast(Execute(db, s).value, a.chainId, k)
  {
    match s
    case Refs(rows) =>
      LandedCarries(history, rows, content);
      if rows != [] {
        LandingFaithful(db.refs, history, a, k, rows, content);
        FiringFaithful(db.(refs := LandRefs(db.refs, rows)), LandQueue(db.refs, rows), LandRefs(history, rows), a, k);
      }
    case Recent(rows) => LandRecentAdds(db, rows);
    case _ =>
  }

  lemma {:induction false} StatementsFaithful(db: Db, statements: seq<Statement>, history: map<RefKey, Flags>,
                                              content: RefKey -> Flags, a: AccountKey, k: nat)
    requires Faithful(db.refs, history, a, k) && Carries(history, content) && KeepsAtLeast(db, a.chainId, k)
    requires forall s :: s in statements ==> Admissible(s, content, a.chainId, k)
    requires ExecuteAll(db, statements).Success?
    ensures Faithful(ExecuteAll(db, statements).value.refs, RecordAll(history, statements), a, k)
    ensures Carries(RecordAll(history, statements), content)
    ensures KeepsAtLeast(ExecuteAll(db, statements).value, a.chainId, k)
    decreases |statements|
  {
    if statements != [] {
      var s := statements[0];
      StatementFaithful(db, s, history, content, a, k);
      StatementsFaithful(Execute(db, s).value, statements[1..], Record(history, s), content, a, k);
    }
  }

  /** Rolled back transactions leave no trace in the history either. */
  ghost function RunHistory(db: Db, run: seq<Transaction>): map<RefKey, Flags> {
    if run == [] then db.refs
    else
      var before, last := RunHistory(db, run[..|run| - 1]), run[|run| - 1];
      if Commits(Run(db, run[..|run| - 1]), last) then RecordAll(before, last.statements) else before
  }

  /** Every statement of every transaction that commits is admissible. */
  ghost predicate AdmissibleRun(db: Db, run: seq<Transaction>, content: RefKey -> Flags, chainId: string, k: nat) {
    run != [] ==>
      var init, last := run[..|run| - 1], run[|run| - 1];
      && AdmissibleRun(db, init, content, chainId, k)
      && (Commits(Run(db, init), last) ==> forall s :: s in last.statements ==> Admissible(s, content, chainId, k))
  }

  lemma {:induction false} RunFaithful(db: Db, run: seq<Transaction>, content: RefKey -> Flags, a: AccountKey, k: nat)
    requires Carries(db.refs, content) && KeepsAtLeast(db, a.chainId, k)
    requires AdmissibleRun(db, run, content, a.chainId, k)
    ensures Faithful(Run(db, run).refs, RunHistory(db, run), a, k)
    ensures Carries(RunHistory(db, run), content) && KeepsAtLeast(Run(db, run), a.chainId, k)
  {
    if run != [] {
      var init, last := run[..|run| - 1], run[|run| - 1];
      RunFaithful(db, init, content, a, k);
      if Commits(Run(db, init), last) {
        StatementsFaithful(Run(db, init), last.statements, RunHistory(db, init), content, a, k);
      }
    }
  }

  /** Over every run of transactions, committed or rolled back, in any height order and with any re-inserts:
      the pages of at most k rows agree with the full history, k being any count the chain never keeps less than. */
  lemma PrunedIndexAnswersLikeHistory(db: Db, run: seq<Transaction>, content: RefKey -> Flags, a: AccountKey, k: nat,
                                      c: Category, limit: nat, page: seq<RefKey>)
    requires Carries(db.refs, content) && KeepsAtLeast(db, a.chainId, k)
    requires AdmissibleRun(db, run, content, a.chainId, k)
    requires limit <= k
    ensures IsPage(RowsOf(Run(db, run).refs, a, c), limit, page)
       <==> IsPage(RowsOf(RunHistory(db, run), a, c), limit, page)
  {
    RunFaithful(db, run, content, a, k);
    FaithfulPages(Run(db, run).refs, RunHistory(db, run), a, k, c, limit, page);
  }

  // ---- the lists of the address page

  /** A column that must be true. A flag is stored as NULL when it is not set, so that asking for false finds
      nothing. */
  predicate Matches(asked: Option<bool>, flag: bool) {
    asked == None || (asked == Some(true) && flag)
  }

  /** The rows that the three optional filters of the web application select. */
  function Selected(refs: map<RefKey, Flags>, a: AccountKey, signer: Option<bool>, erc20: Option<bool>,
                    nft: Option<bool>): set<RefKey> {
    set r | r in refs && r.chainId == a.chainId && r.address == a.address
            && Matches(signer, refs[r].signer) && Matches(erc20, refs[r].erc20) && Matches(nft, refs[r].nft)
  }

  /** The address page asks for all transactions or for one flag: these are the four lists that the prune keeps. */
  lemma AddressPageLists(refs: map<RefKey, Flags>, a: AccountKey)
    ensures RowsOf(refs, a, All) == Selected(refs, a, None, None, None)
    ensures RowsOf(refs, a, Signer) == Selected(refs, a, Some(true), None, None)
    ensures RowsOf(refs, a, Erc20) == Selected(refs, a, None, Some(true), None)
    ensures RowsOf(refs, a, Nft) == Selected(refs, a, None, None, Some(true))
  {
  }

  // ---- later pages

  /** ORDER BY height DESC LIMIT take OFFSET skip: what is left of the first skip + take rows without the first skip. */
  ghost predicate IsPageAfter(rows: set<RefKey>, skip: nat, take: nat, page: seq<RefKey>) {
    exists first :: IsPage(rows, skip + take, first) && page == first[Min(skip, |first|)..]
  }

  lemma LaterFaithfulPages(refs: map<RefKey, Flags>, history: map<RefKey, Flags>, a: AccountKey, k: nat,
                           c: Category, skip: nat, take: nat, page: seq<RefKey>)
    requires Faithful(refs, history, a, k) && skip + take <= k
    ensures IsPageAfter(RowsOf(refs, a, c), skip, take, page) <==> IsPageAfter(RowsOf(history, a, c), skip, take, page)
  {
    var limit, rows, full := skip + take, RowsOf(refs, a, c), RowsOf(history, a, c);
    forall first ensures IsPage(rows, limit, first) <==> IsPage(full, limit, first) {
      FaithfulPages(refs, history, a, k, c, limit, first);
    }
    SamePagesAfter(rows, full, limit, skip, take, page);
    SamePagesAfter(full, rows, limit, skip, take, page);
  }

  lemma SamePagesAfter(rows: set<RefKey>, full: set<RefKey>, limit: nat, skip: nat, take: nat, page: seq<RefKey>)
    requires limit == skip + take && forall first :: IsPage(rows, limit, first) ==> IsPage(full, limit, first)
    ensures IsPageAfter(rows, skip, take, page) ==> IsPageAfter(full, skip, take, page)
  {
    if IsPageAfter(rows, skip, take, page) {
      var first :| IsPage(rows, limit, first) && page == first[Min(skip, |first|)..];
      assert IsPage(full, limit, first);
    }
  }

  /** The web application asks for page after page; those that end within the k newest rows are right too. */
  lemma LaterPagesAnswerLikeHistory(db: Db, run: seq<Transaction>, content: RefKey -> Flags, a: AccountKey, k: nat,
                                    c: Category, skip: nat, take: nat, page: seq<RefKey>)
    requires Carries(db.refs, content) && KeepsAtLeast(db, a.chainId, k)
    requires AdmissibleRun(db, run, content, a.chainId, k)
    requires skip + take <= k
    ensures IsPageAfter(RowsOf(Run(db, run).refs, a, c), skip, take, page)
       <==> IsPageAfter(RowsOf(RunHistory(db, run), a, c), skip, take, page)
  {
    RunFaithful(db, run, content, a, k);
    LaterFaithfulPages(Run(db, run).refs, RunHistory(db, run), a, k, c, skip, take, page);
  }

  /** The count by which the web application limits the page number: never above the true one, and right up to k. */
  lemma CountsLikeHistory(db: Db, run: seq<Transaction>, content: RefKey -> Flags, a: AccountKey, k: nat, c: Category)
    requires Carries(db.refs, content) && KeepsAtLeast(db, a.chainId, k)
    requires AdmissibleRun(db, run, content, a.chainId, k)
    ensures var shown, all := |RowsOf(Run(db, run).refs, a, c)|, |RowsOf(RunHistory(db, run), a, c)|;
            shown <= all && Min(k, shown) == Min(k, all)
  {
    RunFaithful(db, run, content, a, k);
    FaithfulCount(Run(db, run).refs, RunHistory(db, run), a, k, c);
  }

  lemma FaithfulCount(refs: map<RefKey, Flags>, history: map<RefKey, Flags>, a: AccountKey, k: nat, c: Category)
    requires Faithful(refs, history, a, k)
    ensures |RowsOf(refs, a, c)| <= |RowsOf(history, a, c)|
    ensures |RowsOf(refs, a, c)| == |RowsOf(history, a, c)| || k <= |RowsOf(refs, a, c)|
  {
    var rows, full := RowsOf(refs, a, c), RowsOf(history, a, c);
    SubsetCardinality(rows, full);
    if rows != full {
      var r :| r in full && r !in rows;
      SubsetCardinality(Above(rows, r.height), rows);
    }
  }

  ghost predicate FixedFlags(t: Transaction, content: RefKey -> Flags) {
    forall s :: s in t.statements && s.Refs? ==> FlagsFrom(s.refs, content)
  }

  lemma {:induction false} AnySettings(db: Db, run: seq<Transaction>, content: RefKey -> Flags, chainId: string)
    requires forall i :: 0 <= i < |run| ==> FixedFlags(run[i], content)
    ensures AdmissibleRun(db, run, content, chainId, 50)
  {
    if run != [] {
      var init, last := run[..|run| - 1], run[|run| - 1];
      AnySettings(db, init, content, chainId);
      assert FixedFlags(last, content);
    }
  }

  /** Whatever an operator writes to keep_recent_account_tx_count, 50 rows per list are always right. */
  lemma FiftyAlwaysKept(db: Db, run: seq<Transaction>, content: RefKey -> Flags, a: AccountKey,
                        c: Category, page: seq<RefKey>)
    requires Carries(db.refs, content)
    requires forall i :: 0 <= i < |run| ==> FixedFlags(run[i], content)
    ensures IsPage(RowsOf(Run(db, run).refs, a, c), 50, page)
       <==> IsPage(RowsOf(RunHistory(db, run), a, c), 50, page)
  {
    AnySettings(db, run, content, a.chainId);
    PrunedIndexAnswersLikeHistory(db, run, content, a, 50, c, 50, page);
  }
}
