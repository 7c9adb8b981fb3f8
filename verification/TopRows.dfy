/** ORDER BY height DESC LIMIT k. Rows of one height may be taken in any order,
    so a query has several legal answers. */
module TopRows {
  import opened Common
  import opened Tables

  function Above(rows: set<RefKey>, h: int): set<RefKey> {
    set r | r in rows && r.height > h
  }

  function HeightsOf(rows: set<RefKey>): set<int> {
    set r | r in rows :: r.height
  }

  /** `top` is a legal answer to the query with LIMIT k over `rows`. */
  ghost predicate IsTop(rows: set<RefKey>, k: nat, top: set<RefKey>) {
    && top <= rows
    && |top| == Min(k, |rows|)
    && forall x, y :: x in top && y in rows - top ==> y.height <= x.height
  }

  function RowSet(page: seq<RefKey>): set<RefKey> {
    set r | r in page
  }

  /** One page as the web application receives it: a legal answer, listed from the highest height down. */
  ghost predicate IsPage(rows: set<RefKey>, k: nat, page: seq<RefKey>) {
    && (forall i, j :: 0 <= i < j < |page| ==> page[i] != page[j] && page[i].height >= page[j].height)
    && IsTop(rows, k, RowSet(page))
  }

  lemma AboveInTop(rows: set<RefKey>, k: nat, top: set<RefKey>, x: RefKey)
    requires IsTop(rows, k, top) && x in top
    ensures Above(rows, x.height) <= top - {x}
    ensures |Above(rows, x.height)| < k
  {
    SubsetCardinality(Above(rows, x.height), top - {x});
  }

  /** Ties do not matter for heights: a height is among the top k rows' heights exactly when a row
      has it and fewer than k rows are strictly higher. */
  lemma TopHeights(rows: set<RefKey>, k: nat, top: set<RefKey>, h: int)
    requires IsTop(rows, k, top)
    ensures h in HeightsOf(top) <==> h in HeightsOf(rows) && |Above(rows, h)| < k
  {
    if h in HeightsOf(top) {
      var x :| x in top && x.height == h;
      AboveInTop(rows, k, top, x);
    } else if h in HeightsOf(rows) {
      var r :| r in rows && r.height == h;
      assert r in rows - top;
      SubsetCardinality(top, rows - {r});
      assert |top| == k;
      assert top <= Above(rows, h) by {
        forall x | x in top ensures x in Above(rows, h) {
          assert r.height <= x.height;
        }
      }
      SubsetCardinality(top, Above(rows, h));
    }
  }

  lemma {:induction false} HeightsCardinality(rows: set<RefKey>)
    ensures |HeightsOf(rows)| <= |rows|
  {
    if rows != {} {
      var r :| r in rows;
      HeightsCardinality(rows - {r});
      assert HeightsOf(rows) == HeightsOf(rows - {r}) + {r.height};
    }
  }

  lemma {:induction false} HighestExists(rows: set<RefKey>)
    requires rows != {}
    ensures exists m :: m in rows && forall r :: r in rows ==> r.height <= m.height
  {
    var r :| r in rows;
    if rows == {r} {
    } else {
      HighestExists(rows - {r});
      var m :| m in rows - {r} && forall q :: q in rows - {r} ==> q.height <= m.height;
      if m.height < r.height {
        assert forall q :: q in rows ==> q.height <= r.height;
      } else {
        assert forall q :: q in rows ==> q.height <= m.height;
      }
    }
  }

  /** Taking one more of the highest remaining rows extends a legal answer. */
  lemma ExtendTop(rows: set<RefKey>, k: nat, top: set<RefKey>, m: RefKey)
    requires IsTop(rows, k, top)
    requires m in rows - top && forall r :: r in rows - top ==> r.height <= m.height
    ensures IsTop(rows, k + 1, top + {m})
  {
    SubsetCardinality(top + {m}, rows);
  }

  lemma {:induction false} TopExists(rows: set<RefKey>, k: nat)
    ensures exists top :: IsTop(rows, k, top)
  {
    if k == 0 {
      assert IsTop(rows, 0, {});
    } else {
      TopExists(rows, k - 1);
      var top :| IsTop(rows, k - 1, top);
      if rows - top == {} {
        assert rows == top + (rows - top) == top;
        assert IsTop(rows, k, top);
      } else {
        SubsetCardinality(top, rows);
        HighestExists(rows - top);
        var m :| m in rows - top && forall r :: r in rows - top ==> r.height <= m.height;
        ExtendTop(rows, k - 1, top, m);
      }
    }
  }

  /** The number of different heights a LIMIT k query can return. */
  lemma FewTopHeights(rows: set<RefKey>, k: nat, heights: set<int>)
    requires forall h :: h in heights ==> h in HeightsOf(rows) && |Above(rows, h)| < k
    ensures |heights| <= k
  {
    TopExists(rows, k);
    var top :| IsTop(rows, k, top);
    forall h | h in heights ensures h in HeightsOf(top) {
      TopHeights(rows, k, top, h);
    }
    SubsetCardinality(heights, HeightsOf(top));
    HeightsCardinality(top);
  }

  /** `rows` misses only rows of `full` that have at least k rows of `rows` strictly above them. */
  ghost predicate MissesOnlyDeep(rows: set<RefKey>, full: set<RefKey>, k: nat) {
    && rows <= full
    && forall y :: y in full - rows ==> k <= |Above(rows, y.height)|
  }

  lemma SameAnswerSize(rows: set<RefKey>, full: set<RefKey>, k: nat)
    requires MissesOnlyDeep(rows, full, k)
    ensures Min(k, |rows|) == Min(k, |full|)
  {
    SubsetCardinality(rows, full);
    if full - rows == {} {
      assert full == rows + (full - rows) == rows;
    } else {
      var gone :| gone in full - rows;
      SubsetCardinality(Above(rows, gone.height), rows);
    }
  }

  lemma FullAnswerIsAnswer(rows: set<RefKey>, full: set<RefKey>, k: nat, top: set<RefKey>)
    requires MissesOnlyDeep(rows, full, k) && IsTop(full, k, top)
    ensures IsTop(rows, k, top)
  {
    SameAnswerSize(rows, full, k);
    forall y | y in top ensures y in rows {
      if y !in rows {
        AboveInTop(full, k, top, y);
        SubsetCardinality(Above(rows, y.height), Above(full, y.height));
      }
    }
  }

  lemma AnswerIsFullAnswer(rows: set<RefKey>, full: set<RefKey>, k: nat, top: set<RefKey>)
    requires MissesOnlyDeep(rows, full, k) && IsTop(rows, k, top)
    ensures IsTop(full, k, top)
  {
    SameAnswerSize(rows, full, k);
    forall x, y | x in top && y in full - top ensures y.height <= x.height {
      if y !in rows && x.height < y.height {
        AboveInTop(rows, k, top, x);
        SubsetCardinality(Above(rows, y.height), Above(rows, x.height));
      }
    }
  }
}
