/** Python's list.sort(key=...): a stable sort by a string key. */
module Sorting {

  /** The order of strings by code points. */
  predicate AtMost(a: string, b: string)
  {
    |a| == 0 || (|b| > 0 && (a[0] < b[0] || (a[0] == b[0] && AtMost(a[1..], b[1..]))))
  }

  lemma {:induction false} AtMostTotal(a: string, b: string)
    ensures AtMost(a, b) || AtMost(b, a)
  {
    if |a| > 0 && |b| > 0 && a[0] == b[0] { AtMostTotal(a[1..], b[1..]); }
  }

  /** Before the first element whose key is not smaller. */
  function Insert<T>(x: T, s: seq<T>, key: T -> string): (r: seq<T>)
    ensures multiset(r) == multiset{x} + multiset(s)
    ensures |r| == |s| + 1 && (r[0] == x || (|s| > 0 && r[0] == s[0]))
  {
    if |s| == 0 || AtMost(key(x), key(s[0])) then [x] + s
    else
      assert s == [s[0]] + s[1..];
      [s[0]] + Insert(x, s[1..], key)
  }

  function SortBy<T>(s: seq<T>, key: T -> string): (r: seq<T>)
    ensures multiset(r) == multiset(s)
    ensures |r| == |s|
  {
    if |s| == 0 then []
    else
      assert s == [s[0]] + s[1..];
      Insert(s[0], SortBy(s[1..], key), key)
  }

  predicate Sorted<T>(s: seq<T>, key: T -> string)
  {
    |s| > 1 ==> AtMost(key(s[0]), key(s[1])) && Sorted(s[1..], key)
  }

  lemma {:induction false} InsertSorted<T>(x: T, s: seq<T>, key: T -> string)
    requires Sorted(s, key)
    ensures Sorted(Insert(x, s, key), key)
  {
    var r := Insert(x, s, key);
    if |s| == 0 || AtMost(key(x), key(s[0])) {
      assert r[1..] == s;
    } else {
      AtMostTotal(key(x), key(s[0]));
      InsertSorted(x, s[1..], key);
      assert r[1..] == Insert(x, s[1..], key);
    }
  }

  lemma {:induction false} SortSorts<T>(s: seq<T>, key: T -> string)
    ensures Sorted(SortBy(s, key), key)
  {
    if |s| > 0 {
      SortSorts(s[1..], key);
      InsertSorted(s[0], SortBy(s[1..], key), key);
    }
  }

  /** The order is that of the first character in which the strings differ; a prefix comes first. */
  lemma {:induction false} AtMostAtDifference(a: string, b: string, k: nat)
    requires k <= |a| && k <= |b| && a[..k] == b[..k]
    requires k < |a| && k < |b| ==> a[k] != b[k]
    ensures AtMost(a, b) <==> k == |a| || (k < |b| && a[k] < b[k])
  {
    if k > 0 {
      assert a[0] == a[..k][0] == b[..k][0] == b[0];
      assert a[1..][..k - 1] == a[..k][1..] && b[1..][..k - 1] == b[..k][1..];
      AtMostAtDifference(a[1..], b[1..], k - 1);
    }
  }

  lemma {:induction false} AtMostTransitive(a: string, b: string, c: string)
    requires AtMost(a, b) && AtMost(b, c)
    ensures AtMost(a, c)
  {
    if |a| > 0 && a[0] == b[0] == c[0] { AtMostTransitive(a[1..], b[1..], c[1..]); }
  }

  lemma {:induction false} SortedPair<T>(s: seq<T>, key: T -> string, i: nat, j: nat)
    requires Sorted(s, key) && i <= j < |s|
    ensures AtMost(key(s[i]), key(s[j]))
  {
    if i == j {
      AtMostReflexive(key(s[i]));
    } else if i > 0 {
      SortedPair(s[1..], key, i - 1, j - 1);
    } else {
      SortedPair(s[1..], key, 0, j - 1);
      AtMostTransitive(key(s[0]), key(s[1]), key(s[j]));
    }
  }

  /** Sorting what is sorted changes nothing. */
  lemma {:induction false} SortedStays<T>(s: seq<T>, key: T -> string)
    requires Sorted(s, key)
    ensures SortBy(s, key) == s
  {
    if |s| > 0 {
      if |s| > 1 { SortedStays(s[1..], key); }
      assert s == [s[0]] + s[1..];
    }
  }

  /** The elements with a given key, in order. */
  function Having<T>(s: seq<T>, key: T -> string, k: string): seq<T>
  {
    if |s| == 0 then [] else (if key(s[0]) == k then [s[0]] else []) + Having(s[1..], key, k)
  }

  lemma {:induction false} AtMostReflexive(a: string)
    ensures AtMost(a, a)
  {
    if |a| > 0 { AtMostReflexive(a[1..]); }
  }

  lemma {:induction false} InsertKeepsOrder<T>(x: T, s: seq<T>, key: T -> string, k: string)
    ensures Having(Insert(x, s, key), key, k) == Having([x] + s, key, k)
  {
    assert ([x] + s)[1..] == s;
    if !(|s| == 0 || AtMost(key(x), key(s[0]))) {
      AtMostReflexive(key(x));
      InsertKeepsOrder(x, s[1..], key, k);
      var r := Insert(x, s, key);
      assert r[0] == s[0] && r[1..] == Insert(x, s[1..], key);
      assert ([x] + s[1..])[1..] == s[1..];
    }
  }

  /** The sort is stable: elements with equal keys stay in their order. */
  lemma {:induction false} SortKeepsOrder<T>(s: seq<T>, key: T -> string, k: string)
    ensures Having(SortBy(s, key), key, k) == Having(s, key, k)
  {
    if |s| > 0 {
      SortKeepsOrder(s[1..], key, k);
      InsertKeepsOrder(s[0], SortBy(s[1..], key), key, k);
      assert ([s[0]] + SortBy(s[1..], key))[1..] == SortBy(s[1..], key);
    }
  }
}
