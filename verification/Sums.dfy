/** Weighted sums over sequences: the counting vocabulary of the other modules.
    Sums grow at the right end, the way the program's loops scan their arrays. */
module Sums {

  ghost function Sum<T>(s: seq<T>, f: T -> int): int
  {
    if |s| == 0 then 0 else Sum(s[..|s| - 1], f) + f(s[|s| - 1])
  }

  lemma SumAppend<T>(s: seq<T>, x: T, f: T -> int)
    ensures Sum(s + [x], f) == Sum(s, f) + f(x)
  {
    assert (s + [x])[..|s|] == s;
  }

  lemma SumTake<T>(s: seq<T>, i: nat, f: T -> int)
    requires i < |s|
    ensures Sum(s[..i + 1], f) == Sum(s[..i], f) + f(s[i])
  {
    assert s[..i + 1][..i] == s[..i];
  }

  lemma {:induction false} SumUpdate<T>(s: seq<T>, k: nat, x: T, f: T -> int)
    requires k < |s|
    ensures Sum(s[k := x], f) == Sum(s, f) - f(s[k]) + f(x)
  {
    var n := |s| - 1;
    if k < n {
      assert s[k := x][..n] == s[..n][k := x];
      SumUpdate(s[..n], k, x, f);
    } else {
      assert s[k := x][..n] == s[..n];
    }
  }

  lemma {:induction false} SumConcat<T>(a: seq<T>, b: seq<T>, f: T -> int)
    ensures Sum(a + b, f) == Sum(a, f) + Sum(b, f)
  {
    if |b| == 0 {
      assert a + b == a;
    } else {
      assert (a + b)[..|a + b| - 1] == a + b[..|b| - 1];
      SumConcat(a, b[..|b| - 1], f);
    }
  }

  /** Removing the first element removes its weight. */
  lemma SumTail<T>(s: seq<T>, f: T -> int)
    requires |s| > 0
    ensures Sum(s, f) == f(s[0]) + Sum(s[1..], f)
  {
    assert s == [s[0]] + s[1..];
    SumConcat([s[0]], s[1..], f);
    assert [s[0]][..0] == [];
    assert Sum([s[0]], f) == f(s[0]);
  }

  /** Equal-length sequences whose weights agree position by position have equal sums. */
  lemma {:induction false} SumEq<S, T>(s: seq<S>, t: seq<T>, f: S -> int, g: T -> int)
    requires |s| == |t|
    requires forall i :: 0 <= i < |s| ==> f(s[i]) == g(t[i])
    ensures Sum(s, f) == Sum(t, g)
  {
    if |s| > 0 {
      SumEq(s[..|s| - 1], t[..|t| - 1], f, g);
    }
  }

  lemma {:induction false} SumLe<S, T>(s: seq<S>, t: seq<T>, f: S -> int, g: T -> int)
    requires |s| == |t|
    requires forall i :: 0 <= i < |s| ==> f(s[i]) <= g(t[i])
    ensures Sum(s, f) <= Sum(t, g)
  {
    if |s| > 0 {
      SumLe(s[..|s| - 1], t[..|t| - 1], f, g);
    }
  }

  lemma {:induction false} SumNonNeg<T>(s: seq<T>, f: T -> int)
    requires forall i :: 0 <= i < |s| ==> f(s[i]) >= 0
    ensures Sum(s, f) >= 0
    ensures forall i :: 0 <= i < |s| ==> f(s[i]) <= Sum(s, f)
  {
    if |s| > 0 {
      var r := s[..|s| - 1];
      SumNonNeg(r, f);
      forall i | 0 <= i < |s| ensures f(s[i]) <= Sum(s, f) {
        if i < |r| { assert r[i] == s[i]; }
      }
    }
  }

  /** With weights of at least 0, a positive sum has a positive contributor. */
  lemma {:induction false} SumPositive<T>(s: seq<T>, f: T -> int) returns (i: nat)
    requires Sum(s, f) > 0
    ensures i < |s| && f(s[i]) > 0
  {
    if f(s[|s| - 1]) > 0 {
      i := |s| - 1;
    } else {
      i := SumPositive(s[..|s| - 1], f);
    }
  }

  lemma {:induction false} SumZero<T>(s: seq<T>, f: T -> int)
    requires forall i :: 0 <= i < |s| ==> f(s[i]) == 0
    ensures Sum(s, f) == 0
  {
    if |s| > 0 { SumZero(s[..|s| - 1], f); }
  }

  /** At most one contributor: the sum is that contributor's weight. */
  lemma {:induction false} SumSingle<T>(s: seq<T>, k: nat, f: T -> int)
    requires k < |s|
    requires forall i :: 0 <= i < |s| && i != k ==> f(s[i]) == 0
    ensures Sum(s, f) == f(s[k])
  {
    var n := |s| - 1;
    if k == n {
      SumZero(s[..n], f);
    } else {
      SumSingle(s[..n], k, f);
    }
  }

  /** The sequence without its k-th element. */
  function Without<T>(s: seq<T>, k: nat): (r: seq<T>)
    requires k < |s|
    ensures multiset(s) == multiset(r) + multiset{s[k]}
  {
    assert s == s[..k] + [s[k]] + s[k + 1..];
    s[..k] + s[k + 1..]
  }

  lemma SumWithout<T>(s: seq<T>, k: nat, f: T -> int)
    requires k < |s|
    ensures Sum(s, f) == Sum(Without(s, k), f) + f(s[k])
  {
    assert s == s[..k] + s[k..];
    SumConcat(s[..k], s[k..], f);
    SumTail(s[k..], f);
    assert s[k..][1..] == s[k + 1..];
    SumConcat(s[..k], s[k + 1..], f);
  }

  /** A sum does not depend on the order of its terms. */
  lemma {:induction false} SumPermutation<T>(a: seq<T>, b: seq<T>, f: T -> int)
    requires multiset(a) == multiset(b)
    ensures Sum(a, f) == Sum(b, f)
    decreases |a|
  {
    if |a| == 0 {
      assert |multiset(b)| == 0;
    } else {
      var n := |a| - 1;
      assert a[n] in multiset(b);
      var k :| 0 <= k < |b| && b[k] == a[n];
      assert multiset(Without(a, n)) == multiset(a) - multiset{a[n]} == multiset(Without(b, k));
      assert |Without(a, n)| == n;
      SumPermutation(Without(a, n), Without(b, k), f);
      SumWithout(a, n, f);
      SumWithout(b, k, f);
    }
  }
}
