/** The DELETE of trigger 00200 on ref_account_to_recent_tx: keep the heights of the most recent
    rows of each category, delete the account's other rows. */
module Pruning {
  import opened Common
  import opened Tables
  import opened TopRows

  /** Heights of the account's rows in category c that have fewer than k rows of it strictly higher. */
  ghost function RecentHeights(refs: map<RefKey, Flags>, a: AccountKey, c: Category, k: nat): set<int> {
    set h | h in HeightsOf(RowsOf(refs, a, c)) && |Above(RowsOf(refs, a, c), h)| < k
  }

  /** Some row of the account at r's height has, in one of its categories, fewer than k rows strictly higher. */
  ghost predicate Survives(refs: map<RefKey, Flags>, r: RefKey, k: nat) {
    exists c :: r.height in RecentHeights(refs, r.Account(), c, k)
  }

  ghost function Doomed(refs: map<RefKey, Flags>, a: AccountKey, k: nat): set<RefKey> {
    set r | r in refs && r.Account() == a && !Survives(refs, r, k)
  }

  /** What the DELETE statement says, given the answers its four LIMIT queries happened to return. */
  function OutsideHeights(refs: map<RefKey, Flags>, a: AccountKey, heights: set<int>): set<RefKey> {
    set r | r in refs && r.Account() == a && r.height !in heights
  }

  lemma TopIsRecent(refs: map<RefKey, Flags>, a: AccountKey, c: Category, k: nat, top: set<RefKey>)
    requires IsTop(RowsOf(refs, a, c), k, top)
    ensures HeightsOf(top) == RecentHeights(refs, a, c, k)
  {
    forall h ensures h in HeightsOf(top) <==> h in RecentHeights(refs, a, c, k) {
      TopHeights(RowsOf(refs, a, c), k, top, h);
    }
  }

  lemma SurvivesByCategory(refs: map<RefKey, Flags>, r: RefKey, k: nat)
    ensures Survives(refs, r, k)
       <==> r.height in RecentHeights(refs, r.Account(), All, k) + RecentHeights(refs, r.Account(), Signer, k)
                      + RecentHeights(refs, r.Account(), Erc20, k) + RecentHeights(refs, r.Account(), Nft, k)
  {
    if Survives(refs, r, k) {
      var c :| r.height in RecentHeights(refs, r.Account(), c, k);
      match c case All => case Signer => case Erc20 => case Nft =>
    }
  }

  lemma FewRecentHeights(refs: map<RefKey, Flags>, a: AccountKey, c: Category, k: nat)
    ensures |RecentHeights(refs, a, c, k)| <= k
  {
    FewTopHeights(RowsOf(refs, a, c), k, RecentHeights(refs, a, c, k));
  }

  /** Whichever rows the four LIMIT queries pick among ties, the rows deleted are the same. */
  lemma PruneIgnoresTies(refs: map<RefKey, Flags>, a: AccountKey, k: nat,
                         all: set<RefKey>, signer: set<RefKey>, erc20: set<RefKey>, nft: set<RefKey>)
    requires IsTop(RowsOf(refs, a, All), k, all)
    requires IsTop(RowsOf(refs, a, Signer), k, signer)
    requires IsTop(RowsOf(refs, a, Erc20), k, erc20)
    requires IsTop(RowsOf(refs, a, Nft), k, nft)
    ensures OutsideHeights(refs, a, HeightsOf(all) + HeightsOf(signer) + HeightsOf(erc20) + HeightsOf(nft))
         == Doomed(refs, a, k)
  {
    var kept := RecentHeights(refs, a, All, k) + RecentHeights(refs, a, Signer, k)
              + RecentHeights(refs, a, Erc20, k) + RecentHeights(refs, a, Nft, k);
    assert HeightsOf(all) + HeightsOf(signer) + HeightsOf(erc20) + HeightsOf(nft) == kept by {
      TopIsRecent(refs, a, All, k, all);
      TopIsRecent(refs, a, Signer, k, signer);
      TopIsRecent(refs, a, Erc20, k, erc20);
      TopIsRecent(refs, a, Nft, k, nft);
    }
    DoomedByHeight(refs, a, k, kept);
  }

  lemma DoomedByHeight(refs: map<RefKey, Flags>, a: AccountKey, k: nat, kept: set<int>)
    requires kept == RecentHeights(refs, a, All, k) + RecentHeights(refs, a, Signer, k)
                   + RecentHeights(refs, a, Erc20, k) + RecentHeights(refs, a, Nft, k)
    ensures OutsideHeights(refs, a, kept) == Doomed(refs, a, k)
  {
    forall r | r in refs && r.Account() == a ensures Survives(refs, r, k) <==> r.height in kept {
      SurvivesByCategory(refs, r, k);
    }
  }

  /** A second prune deletes nothing. */
  lemma PruneIdempotent(refs: map<RefKey, Flags>, a: AccountKey, k: nat)
    ensures Doomed(refs - Doomed(refs, a, k), a, k) == {}
  {
    var left := refs - Doomed(refs, a, k);
    forall r | r in left && r.Account() == a ensures Survives(left, r, k) {
      var c :| r.height in RecentHeights(refs, a, c, k);
      var q :| q in RowsOf(refs, a, c) && q.height == r.height;
      assert Survives(refs, q, k);
      assert q in RowsOf(left, a, c);
      SubsetCardinality(Above(RowsOf(left, a, c), r.height), Above(RowsOf(refs, a, c), r.height));
      assert r.height in RecentHeights(left, a, c, k);
    }
  }

  /** Rows already k deep in a category stay k deep after a prune that keeps at least k. */
  lemma PruneKeepsDepth(refs: map<RefKey, Flags>, a: AccountKey, c: Category, k: nat, keep: nat, h: int)
    requires k <= keep && k <= |Above(RowsOf(refs, a, c), h)|
    ensures k <= |Above(RowsOf(refs - Doomed(refs, a, keep), a, c), h)|
  {
    var rows, left := RowsOf(refs, a, c), RowsOf(refs - Doomed(refs, a, keep), a, c);
    TopExists(rows, keep);
    var top :| IsTop(rows, keep, top);
    forall x | x in top ensures x in left {
      AboveInTop(rows, keep, top, x);
      assert x.height in RecentHeights(refs, a, c, keep);
      assert Survives(refs, x, keep);
    }
    if top <= Above(rows, h) {
      SubsetCardinality(top, Above(left, h));
      if |top| < keep {
        SubsetCardinality(top, rows);
        SubsetCardinality(Above(rows, h), Above(left, h));
      }
    } else {
      var x :| x in top && x.height <= h;
      assert Above(rows, h) <= top;
      SubsetCardinality(Above(rows, h), Above(left, h));
    }
  }

  /** A prune leaves at most k heights per category, so at most 4k in all. */
  lemma PruneBoundsHeights(refs: map<RefKey, Flags>, a: AccountKey, k: nat)
    ensures |HeightsOf(RowsOf(refs - Doomed(refs, a, k), a, All))| <= 4 * k
  {
    var left := HeightsOf(RowsOf(refs - Doomed(refs, a, k), a, All));
    var all, signer := RecentHeights(refs, a, All, k), RecentHeights(refs, a, Signer, k);
    var erc20, nft := RecentHeights(refs, a, Erc20, k), RecentHeights(refs, a, Nft, k);
    assert left <= all + signer + erc20 + nft by {
      forall h | h in left ensures h in all + signer + erc20 + nft {
        var r :| r in RowsOf(refs - Doomed(refs, a, k), a, All) && r.height == h;
        SurvivesByCategory(refs, r, k);
      }
    }
    assert |all| <= k && |signer| <= k && |erc20| <= k && |nft| <= k by {
      FewRecentHeights(refs, a, All, k);
      FewRecentHeights(refs, a, Signer, k);
      FewRecentHeights(refs, a, Erc20, k);
      FewRecentHeights(refs, a, Nft, k);
    }
    FourSets(left, all, signer, erc20, nft, k);
  }

  lemma FourSets(whole: set<int>, a: set<int>, b: set<int>, c: set<int>, d: set<int>, k: nat)
    requires whole <= a + b + c + d
    requires |a| <= k && |b| <= k && |c| <= k && |d| <= k
    ensures |whole| <= 4 * k
  {
    SubsetCardinality(whole, a + b + c + d);
    UnionCardinality(a + b + c, d);
    UnionCardinality(a + b, c);
    UnionCardinality(a, b);
  }
}
