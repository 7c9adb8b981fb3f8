/** Comparing two URL lists regardless of order, which sorts both of them in place (indexer/utils/strings.go). */
module UrlLists {

  /** Go's order of strings. */
  predicate Le(a: string, b: string) {
    a == [] || (b != [] && (a[0] < b[0] || (a[0] == b[0] && Le(a[1..], b[1..]))))
  }

  lemma {:induction false} LeTotal(a: string, b: string)
    ensures Le(a, b) || Le(b, a)
  {
    if a != [] && b != [] && a[0] == b[0] {
      LeTotal(a[1..], b[1..]);
    }
  }

  lemma {:induction false} LeAntisymmetric(a: string, b: string)
    requires Le(a, b) && Le(b, a)
    ensures a == b
  {
    if a != [] && b != [] {
      LeAntisymmetric(a[1..], b[1..]);
      assert a == [a[0]] + a[1..] && b == [b[0]] + b[1..];
    }
  }

  lemma {:induction false} LeTransitive(a: string, b: string, c: string)
    requires Le(a, b) && Le(b, c)
    ensures Le(a, c)
  {
    if a != [] && a[0] == b[0] == c[0] {
      LeTransitive(a[1..], b[1..], c[1..]);
    }
  }

  /** Equal up to place k, where a ends or has the smaller character. */
  predicate PartAt(a: string, b: string, k: int) {
    0 <= k <= |a| && k <= |b| && a[..k] == b[..k] && (k == |a| || (k < |b| && a[k] < b[k]))
  }

  /** The order is that of dictionaries. */
  lemma {:induction false} LeIff(a: string, b: string)
    ensures Le(a, b) <==> exists k :: PartAt(a, b, k)
  {
    if a != [] && b != [] && a[0] == b[0] {
      LeIff(a[1..], b[1..]);
      if k :| PartAt(a[1..], b[1..], k) {
        assert a[..k + 1] == [a[0]] + a[1..][..k] && b[..k + 1] == [b[0]] + b[1..][..k];
        assert PartAt(a, b, k + 1);
      }
      if k :| PartAt(a, b, k) {
        assert k > 0;
        assert a[1..][..k - 1] == a[..k][1..] && b[1..][..k - 1] == b[..k][1..];
        assert PartAt(a[1..], b[1..], k - 1);
      }
    } else {
      forall k | PartAt(a, b, k) ensures k == 0 || (a != [] && b != [] && a[0] == b[0]) {
        SameFirst(a, b, k);
      }
      assert Le(a, b) ==> PartAt(a, b, 0);
    }
  }

  lemma SameFirst(a: string, b: string, k: int)
    requires PartAt(a, b, k)
    ensures k == 0 || (a != [] && b != [] && a[0] == b[0])
  {
    if k > 0 {
      assert a[..k][0] == b[..k][0];
    }
  }

  predicate Ordered(s: seq<string>) {
    forall i, j :: 0 <= i < j < |s| ==> Le(s[i], s[j])
  }

  function Insert(s: seq<string>, x: string): (t: seq<string>)
    requires Ordered(s)
    ensures Ordered(t) && multiset(t) == multiset(s) + multiset{x}
  {
    if s == [] then [x]
    else if Le(x, s[0]) then
      assert forall i :: 0 <= i < |s| ==> Le(x, s[i]) by {
        forall i | 0 <= i < |s| ensures Le(x, s[i]) {
          if i > 0 {
            LeTransitive(x, s[0], s[i]);
          }
        }
      }
      [x] + s
    else
      var rest := Insert(s[1..], x);
      assert s == [s[0]] + s[1..];
      assert forall i :: 0 <= i < |rest| ==> Le(s[0], rest[i]) by {
        LeTotal(x, s[0]);
        forall i | 0 <= i < |rest| ensures Le(s[0], rest[i]) {
          assert rest[i] in multiset(rest);
          assert rest[i] == x || rest[i] in s[1..];
        }
      }
      [s[0]] + rest
  }

  function Sorted(s: seq<string>): (t: seq<string>)
    ensures Ordered(t) && multiset(t) == multiset(s) && |t| == |s|
  {
    if s == [] then []
    else
      assert s == s[..|s| - 1] + [s[|s| - 1]];
      var t := Insert(Sorted(s[..|s| - 1]), s[|s| - 1]);
      assert |multiset(t)| == |t| && |multiset(s)| == |s|;
      t
  }

  lemma FirstIsLeast(a: seq<string>, x: string)
    requires Ordered(a) && x in multiset(a)
    ensures a != [] && Le(a[0], x)
  {
    var i :| 0 <= i < |a| && a[i] == x;
    LeTotal(x, x);
    assert i > 0 ==> Le(a[0], a[i]);
  }

  lemma RestOf(a: seq<string>)
    requires a != [] && Ordered(a)
    ensures multiset(a[1..]) == multiset(a) - multiset{a[0]} && Ordered(a[1..]) && a == [a[0]] + a[1..]
  {
    assert a == [a[0]] + a[1..];
  }

  /** Two ordered lists with the same strings are the same list. */
  lemma {:induction false} OrderedUnique(a: seq<string>, b: seq<string>)
    requires Ordered(a) && Ordered(b) && multiset(a) == multiset(b)
    ensures a == b
  {
    if a == [] || b == [] {
      assert |multiset(a)| == |a| && |multiset(b)| == |b|;
    } else {
      FirstIsLeast(b, a[0]);
      FirstIsLeast(a, b[0]);
      LeAntisymmetric(a[0], b[0]);
      RestOf(a);
      RestOf(b);
      OrderedUnique(a[1..], b[1..]);
    }
  }

  /** sort.Strings */
  method Sort(a: array<string>)
    modifies a
    ensures a[..] == Sorted(old(a[..]))
  {
    var sorted := Sorted(a[..]);
    forall i | 0 <= i < a.Length {
      a[i] := sorted[i];
    }
    assert a[..] == sorted;
  }

  lemma SameStringsIffSameOrder(s: seq<string>, t: seq<string>)
    ensures multiset(s) == multiset(t) <==> Sorted(s) == Sorted(t)
    ensures Sorted(Sorted(s)) == Sorted(s)
    ensures multiset(s) == multiset(t) ==> |s| == |t|
  {
    if multiset(s) == multiset(t) {
      OrderedUnique(Sorted(s), Sorted(t));
    }
    OrderedUnique(Sorted(Sorted(s)), Sorted(s));
    assert |multiset(s)| == |s| && |multiset(t)| == |t|;
  }

  method SameElements(arr1: array<string>, arr2: array<string>) returns (equal: bool)
    requires arr1.Length == arr2.Length
    ensures equal <==> arr1[..] == arr2[..]
  {
    for i := 0 to arr1.Length
      invariant arr1[..i] == arr2[..i]
    {
      if arr1[i] != arr2[i] {
        assert arr1[..][i] != arr2[..][i];
        return false;
      }
    }
    assert arr1[..] == arr1[..arr1.Length] && arr2[..] == arr2[..arr2.Length];
    return true;
  }

  /** Equal as multisets. Lists of different lengths are left alone; others end up sorted. */
  method AreSortedStringArraysEquals(arr1: array<string>, arr2: array<string>) returns (equal: bool)
    modifies arr1, arr2
    ensures equal <==> multiset(old(arr1[..])) == multiset(old(arr2[..]))
    ensures arr1[..] == if arr1.Length == arr2.Length then Sorted(old(arr1[..])) else old(arr1[..])
    ensures arr2[..] == if arr1.Length == arr2.Length then Sorted(old(arr2[..])) else old(arr2[..])
  {
    SameStringsIffSameOrder(arr1[..], arr2[..]);
    SameStringsIffSameOrder(arr2[..], arr1[..]);
    if arr1.Length != arr2.Length {
      return false;
    }
    if arr1.Length == 0 {
      return true;
    }
    assert arr1 == arr2 ==> Sorted(arr1[..]) == Sorted(Sorted(arr2[..]));
    Sort(arr1);
    Sort(arr2);
    equal := SameElements(arr1, arr2);
  }
}
