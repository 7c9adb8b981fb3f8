/** The next run of heights that are not excluded (indexer/utils/number.go). */
module RangeFinder {
  import opened Common

  datatype Range = NoRange | Range(from: int, to: int)

  /** What the search promises: the least height of the window that is not excluded, and the longest run from there. */
  predicate IsClosest(lo: int, hi: int, excluded: seq<int>, r: Range) {
    match r
    case NoRange => forall h :: lo <= h <= hi ==> h in excluded
    case Range(from, to) =>
      && lo <= from <= to <= hi
      && (forall h :: lo <= h < from ==> h in excluded)
      && (forall h :: from <= h <= to ==> h !in excluded)
      && (to == hi || to + 1 in excluded)
  }

  /** Where the run of heights starting at `h` ends. */
  function RunEnd(h: int, hi: int, excluded: seq<int>): (to: int)
    requires h <= hi && h !in excluded
    ensures h <= to <= hi
    ensures forall g :: h <= g <= to ==> g !in excluded
    ensures to == hi || to + 1 in excluded
    decreases hi - h
  {
    if h == hi || h + 1 in excluded then h else RunEnd(h + 1, hi, excluded)
  }

  function Closest(lo: int, hi: int, excluded: seq<int>): (r: Range)
    requires lo <= hi
    ensures IsClosest(lo, hi, excluded, r)
    decreases hi - lo
  {
    if lo !in excluded then Range(lo, RunEnd(lo, hi, excluded))
    else if lo == hi then NoRange
    else Closest(lo + 1, hi, excluded)
  }

  lemma ClosestUnique(lo: int, hi: int, excluded: seq<int>, r: Range)
    requires lo <= hi && IsClosest(lo, hi, excluded, r)
    ensures r == Closest(lo, hi, excluded)
  {
    var c := Closest(lo, hi, excluded);
    assert r.Range? ==> r.from !in excluded;
    assert c.Range? ==> c.from !in excluded;
    if r.Range? && c.Range? {
      assert r.from == c.from;
      assert r.to < hi ==> r.to + 1 in excluded;
      assert c.to < hi ==> c.to + 1 in excluded;
    }
  }

  // ---- GetClosesRange

  lemma SomeNumber(s: set<int>)
    requires s != {}
    ensures exists h: int :: h in s
  {
    if forall h: int :: h !in s {
      assert false;
    }
  }

  predicate Ascending(s: seq<int>) {
    forall i, j :: 0 <= i < j < |s| ==> s[i] < s[j]
  }

  function Insert(s: seq<int>, x: int): (t: seq<int>)
    requires Ascending(s) && x !in s
    ensures Ascending(t) && |t| == |s| + 1
    ensures forall y :: y in t <==> y in s || y == x
  {
    if s == [] || x < s[0] then [x] + s
    else
      var rest := Insert(s[1..], x);
      assert s == [s[0]] + s[1..];
      assert forall i :: 0 <= i < |rest| ==> s[0] < rest[i] by {
        forall i | 0 <= i < |rest| ensures s[0] < rest[i] {
          assert rest[i] in rest;
          if rest[i] != x {
            var k :| 0 <= k < |s| - 1 && s[1..][k] == rest[i];
          }
        }
      }
      [s[0]] + rest
  }

  /** slices.Sort on distinct numbers, in whatever order the map yielded them. */
  function Sort(s: seq<int>): (t: seq<int>)
    requires forall i, j :: 0 <= i < j < |s| ==> s[i] != s[j]
    ensures Ascending(t) && |t| == |s|
    ensures forall y :: y in t <==> y in s
  {
    if s == [] then [] else Insert(Sort(s[..|s| - 1]), s[|s| - 1])
  }

  method GetClosestRange(fromNumber: int, toNumber: int, excludeNumbers: seq<int>) returns (r: Range)
    requires 1 <= fromNumber <= toNumber
    ensures r == Closest(fromNumber, toNumber, excludeNumbers)
  {
    if |excludeNumbers| == 0 {
      ClosestUnique(fromNumber, toNumber, excludeNumbers, Range(fromNumber, toNumber));
      return Range(fromNumber, toNumber);
    }
    var mapInput: set<int> := {};
    for input := fromNumber to toNumber + 1
      invariant forall h :: h in mapInput <==> fromNumber <= h < input
    {
      mapInput := mapInput + {input};
    }
    for i := 0 to |excludeNumbers|
      invariant forall h :: h in mapInput <==> fromNumber <= h <= toNumber && h !in excludeNumbers[..i]
    {
      assert excludeNumbers[..i + 1] == excludeNumbers[..i] + [excludeNumbers[i]];
      mapInput := mapInput - {excludeNumbers[i]};
    }
    assert excludeNumbers[..|excludeNumbers|] == excludeNumbers;
    if mapInput == {} {
      ClosestUnique(fromNumber, toNumber, excludeNumbers, NoRange);
      return NoRange;
    }
    var input: seq<int> := [];
    var waiting := mapInput;
    while waiting != {}
      invariant forall h :: h in mapInput <==> h in input || h in waiting
      invariant forall h :: h in input ==> h !in waiting
      invariant forall i, j :: 0 <= i < j < |input| ==> input[i] != input[j]
    {
      SomeNumber(waiting);
      var n: int :| n in waiting;
      input := input + [n];
      waiting := waiting - {n};
    }
    input := Sort(input);
    SomeNumber(mapInput);
    assert input != [];
    var from, to := input[0], input[0];
    var t := 1;
    while t < |input|
      invariant 1 <= t <= |input|
      invariant to == input[t - 1] == from + t - 1
      invariant forall i :: 0 <= i < t ==> input[i] == from + i
    {
      if input[t] - input[t - 1] > 1 {
        break;
      }
      to := input[t];
      t := t + 1;
    }
    ScanResult(fromNumber, toNumber, excludeNumbers, input, t);
    return Range(from, to);
  }

  /** The first t sorted candidates are consecutive and the next one, if any, is not. */
  lemma ScanResult(lo: int, hi: int, excluded: seq<int>, input: seq<int>, t: nat)
    requires lo <= hi && Ascending(input) && 1 <= t <= |input|
    requires forall h :: h in input <==> lo <= h <= hi && h !in excluded
    requires forall i :: 0 <= i < t ==> input[i] == input[0] + i
    requires t < |input| ==> input[t] - input[t - 1] > 1
    ensures Range(input[0], input[t - 1]) == Closest(lo, hi, excluded)
  {
    var from, to := input[0], input[t - 1];
    assert from in input && to in input;
    assert forall h :: h in input ==> exists i :: 0 <= i < |input| && input[i] == h;
    assert forall h :: h in input ==> from <= h;
    assert forall h :: h in input && to < h ==> t < |input| && input[t] <= h;
    forall h | from <= h <= to ensures h !in excluded {
      assert input[h - from] == h;
    }
    ClosestUnique(lo, hi, excluded, Range(from, to));
  }

  // ---- GetClosesRangeWithExtensible

  /** The heights excluded in a window, or None when the query fails. */
  type Query = (int, int) -> Option<seq<int>>

  /** None when a query failed. */
  function Extend(lo: int, hi: int, query: Query, upTo: int, size: int): Option<Range>
    requires 1 <= lo <= hi && size >= 1
    decreases upTo - hi
  {
    if lo > upTo then Some(NoRange)
    else
      var nextLo := hi + 1;
      var nextHi := Min(upTo, nextLo + size - 1);
      if nextLo > upTo || nextLo > nextHi then Some(NoRange)
      else match query(nextLo, nextHi)
           case None => None
           case Some(excluded) =>
             var r := Closest(nextLo, nextHi, excluded);
             if r.Range? then Some(r) else Extend(nextLo, nextHi, query, upTo, size)
  }

  function ClosestExtended(lo: int, hi: int, query: Query, upTo: int, size: int): Option<Range>
    requires 1 <= lo <= hi
  {
    match query(lo, hi)
    case None => None
    case Some(excluded) =>
      var r := Closest(lo, hi, excluded);
      if r.Range? then Some(r)
      else if upTo < 1 || size < 1 then Some(NoRange)
      else Extend(lo, hi, query, upTo, size)
  }

  method GetClosestRangeWithExtensible(fromNumber: int, toNumber: int, query: Query, upTo: int, size: int)
    returns (result: Option<Range>)
    requires 1 <= fromNumber <= toNumber
    ensures result == ClosestExtended(fromNumber, toNumber, query, upTo, size)
  {
    var lo, hi := fromNumber, toNumber;
    var excluded := query(lo, hi);
    if excluded.None? {
      return None;
    }
    var r := GetClosestRange(lo, hi, excluded.value);
    if r.Range? {
      return Some(r);
    }
    if upTo < 1 || size < 1 {
      return Some(NoRange);
    }
    while !r.Range? && lo <= upTo
      invariant 1 <= lo <= hi
      invariant ClosestExtended(fromNumber, toNumber, query, upTo, size)
             == if r.Range? then Some(r) else Extend(lo, hi, query, upTo, size)
      decreases if r.Range? then 0 else 1, upTo - hi
    {
      lo := hi + 1;
      hi := Min(upTo, lo + size - 1);
      if lo > upTo || lo > hi {
        return Some(NoRange);
      }
      excluded := query(lo, hi);
      if excluded.None? {
        return None;
      }
      r := GetClosestRange(lo, hi, excluded.value);
    }
    return Some(r);
  }

  /** The query answers truthfully whenever it answers. */
  ghost predicate Truthful(query: Query, excluded: int -> bool) {
    forall lo, hi :: query(lo, hi).Some? ==> forall h :: lo <= h <= hi ==> (h in query(lo, hi).value <==> excluded(h))
  }

  /** The last height the search looks at when it finds nothing. */
  function SearchEnd(lo: int, hi: int, upTo: int, size: int): int {
    if upTo >= 1 && size >= 1 && lo <= upTo then Max(hi, upTo) else hi
  }

  /** One of the windows, the first of which ends at `hi`, ends at t. */
  predicate WindowEnd(hi: int, upTo: int, size: int, t: int)
    decreases upTo - hi
  {
    t == hi || (size >= 1 && hi < upTo && WindowEnd(Min(upTo, hi + size), upTo, size, t))
  }

  lemma {:induction false} NextWindowEnd(hi: int, upTo: int, size: int, t: int)
    requires WindowEnd(hi, upTo, size, t) && size >= 1 && t < upTo
    ensures WindowEnd(hi, upTo, size, Min(upTo, t + size))
    decreases upTo - hi
  {
    if t != hi {
      NextWindowEnd(Min(upTo, hi + size), upTo, size, t);
    }
  }

  predicate IsClosestExtended(lo: int, hi: int, excluded: int -> bool, upTo: int, size: int, r: Range) {
    match r
    case NoRange => forall h :: lo <= h <= SearchEnd(lo, hi, upTo, size) ==> excluded(h)
    case Range(from, to) =>
      && lo <= from <= to <= SearchEnd(lo, hi, upTo, size)
      && (forall h :: lo <= h < from ==> excluded(h))
      && (forall h :: from <= h <= to ==> !excluded(h))
      && (excluded(to + 1) || WindowEnd(hi, upTo, size, to))
      && to - from < Max(hi - lo + 1, size)
  }

  /** A run found in the window that follows one or more exhausted windows. */
  lemma NextWindowRange(first: int, start: int, hi: int, window: seq<int>, excluded: int -> bool, upTo: int, size: int)
    requires first <= start <= hi < upTo && size >= 1 && 1 <= upTo
    requires forall h :: hi < h <= Min(upTo, hi + size) ==> (h in window <==> excluded(h))
    requires forall h :: first <= h <= hi ==> excluded(h)
    requires WindowEnd(start, upTo, size, Min(upTo, hi + size))
    ensures var r := Closest(hi + 1, Min(upTo, hi + size), window);
            && (r.Range? ==> IsClosestExtended(first, start, excluded, upTo, size, r))
            && (r.NoRange? ==> forall h :: first <= h <= Min(upTo, hi + size) ==> excluded(h))
  {
    var r, nextHi := Closest(hi + 1, Min(upTo, hi + size), window), Min(upTo, hi + size);
    if r.Range? {
      forall h | first <= h < r.from ensures excluded(h) {
        assert hi < h ==> h in window;
      }
      forall h | r.from <= h <= r.to ensures !excluded(h) {
        assert h !in window;
      }
      assert r.to < nextHi ==> excluded(r.to + 1);
    } else {
      forall h | first <= h <= nextHi ensures excluded(h) {
        assert hi < h ==> h in window;
      }
    }
  }

  /** A window was asked for in vain: everything from `first` up to it is excluded. */
  ghost predicate AsksInVain(first: int, query: Query, excluded: int -> bool, from: int, to: int) {
    first <= from <= to && query(from, to).None? && forall h :: first <= h < from ==> excluded(h)
  }

  ghost predicate SearchFails(first: int, query: Query, excluded: int -> bool) {
    exists from, to :: AsksInVain(first, query, excluded, from, to)
  }

  ghost predicate IsSearchResult(lo: int, hi: int, query: Query, excluded: int -> bool, upTo: int, size: int,
                                 result: Option<Range>) {
    match result
    case Some(r) => IsClosestExtended(lo, hi, excluded, upTo, size, r)
    case None => SearchFails(lo, query, excluded)
  }

  lemma {:induction false} ExtendCorrect(first: int, start: int, lo: int, hi: int, query: Query, excluded: int -> bool,
                                         upTo: int, size: int)
    requires 1 <= first <= lo <= hi && first <= start <= hi && size >= 1 && 1 <= upTo && first <= upTo
    requires Truthful(query, excluded)
    requires forall h :: first <= h <= hi ==> excluded(h)
    requires WindowEnd(start, upTo, size, hi)
    ensures IsSearchResult(first, start, query, excluded, upTo, size, Extend(lo, hi, query, upTo, size))
    decreases upTo - hi
  {
    var nextLo := hi + 1;
    var nextHi := Min(upTo, nextLo + size - 1);
    if lo <= upTo && nextLo <= upTo {
      if query(nextLo, nextHi).None? {
        assert AsksInVain(first, query, excluded, nextLo, nextHi);
        assert Extend(lo, hi, query, upTo, size).None?;
      } else {
        NextWindowEnd(start, upTo, size, hi);
        NextWindowRange(first, start, hi, query(nextLo, nextHi).value, excluded, upTo, size);
        if Closest(nextLo, nextHi, query(nextLo, nextHi).value).NoRange? {
          ExtendCorrect(first, start, nextLo, nextHi, query, excluded, upTo, size);
        }
      }
    }
  }

  /** A range is found exactly if some height of the first window, or up to the extension limit, is not excluded; it
      starts at the least such height and runs as far as its window and the exclusions let it. The search itself fails
      only on a query that failed, before any such height was seen. */
  lemma ClosestExtendedCorrect(lo: int, hi: int, query: Query, excluded: int -> bool, upTo: int, size: int)
    requires 1 <= lo <= hi && Truthful(query, excluded)
    ensures IsSearchResult(lo, hi, query, excluded, upTo, size, ClosestExtended(lo, hi, query, upTo, size))
  {
    if query(lo, hi).None? {
      assert AsksInVain(lo, query, excluded, lo, hi);
    } else {
      var r := Closest(lo, hi, query(lo, hi).value);
      if r.NoRange? && upTo >= 1 && size >= 1 && lo <= upTo {
        ExtendCorrect(lo, hi, lo, hi, query, excluded, upTo, size);
      }
    }
  }

  // ---- as the indexer uses it

  const MAX_BLOCKS_PER_BATCH := 100

  /** determineBlockRangeToIndex */
  function DetermineRange(latest: int, upstream: int, query: Query): Option<Range>
    requires 0 <= latest < upstream
  {
    ClosestExtended(latest + 1, Min(upstream, latest + MAX_BLOCKS_PER_BATCH), query, upstream, MAX_BLOCKS_PER_BATCH)
  }

  method DetermineBlockRangeToIndex(latest: int, upstream: int, query: Query) returns (result: Option<Range>)
    requires 0 <= latest < upstream
    ensures result == DetermineRange(latest, upstream, query)
  {
    var from := latest + 1;
    var to := Min(upstream, from + MAX_BLOCKS_PER_BATCH - 1);
    result := GetClosestRangeWithExtensible(from, to, query, upstream, MAX_BLOCKS_PER_BATCH);
  }

  /** The range lies above the latest block and within upstream, holds at most 100 heights, none of them failed, and
      only failed heights are passed over; there is none exactly if all heights up to upstream have failed. The search
      fails only on a query that failed, with nothing but failed heights before it. */
  lemma DeterminedRange(latest: int, upstream: int, query: Query, failed: int -> bool)
    requires 0 <= latest < upstream && Truthful(query, failed)
    ensures match DetermineRange(latest, upstream, query)
            case None => SearchFails(latest + 1, query, failed)
            case Some(NoRange) => forall h :: latest < h <= upstream ==> failed(h)
            case Some(Range(from, to)) =>
              && latest < from <= to <= upstream && to - from < 100
              && (forall h :: latest < h < from ==> failed(h))
              && (forall h :: from <= h <= to ==> !failed(h))
              && (failed(to + 1) || WindowEnd(Min(upstream, latest + 100), upstream, 100, to))
  {
    ClosestExtendedCorrect(latest + 1, Min(upstream, latest + MAX_BLOCKS_PER_BATCH), query, failed, upstream,
                           MAX_BLOCKS_PER_BATCH);
  }
}
