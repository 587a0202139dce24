/** The domain and tag counters of a bookmark database: edited by plus or minus one while bookmarks
    change (adjust_counters in marks2json.py), or counted afresh (recalc_counters). */
module BookmarkCounters {
  import opened Sums
  import opened BookmarkLine

  datatype Counters = Counters(domains: map<string, int>, tags: map<string, int>)

  const EMPTY := Counters(map[], map[])

  function Get(m: map<string, int>, k: string): int { if k in m then m[k] else 0 }

  /** Adds delta to one key and drops the key when nothing positive is left. */
  function Bump(m: map<string, int>, k: string, delta: int): map<string, int>
  {
    if Get(m, k) + delta <= 0 then m - {k} else m[k := Get(m, k) + delta]
  }

  function BumpAll(m: map<string, int>, ks: seq<string>, delta: int): map<string, int>
  {
    if |ks| == 0 then m else Bump(BumpAll(m, ks[..|ks| - 1], delta), ks[|ks| - 1], delta)
  }

  function Adjust(c: Counters, bm: Bookmark, delta: int): Counters
  {
    Counters(if bm.domain != "" then Bump(c.domains, bm.domain, delta) else c.domains,
             BumpAll(c.tags, bm.tags, delta))
  }

  /** Adding one to a key, as counting afresh does. */
  function Inc(m: map<string, int>, k: string): map<string, int> { m[k := Get(m, k) + 1] }

  function IncAll(m: map<string, int>, ks: seq<string>): map<string, int>
  {
    if |ks| == 0 then m else Inc(IncAll(m, ks[..|ks| - 1]), ks[|ks| - 1])
  }

  function Count(c: Counters, bm: Bookmark): Counters
  {
    Counters(if bm.domain != "" then Inc(c.domains, bm.domain) else c.domains, IncAll(c.tags, bm.tags))
  }

  function Recalc(bms: seq<Bookmark>): Counters
  {
    if |bms| == 0 then EMPTY else Count(Recalc(bms[..|bms| - 1]), bms[|bms| - 1])
  }

  // ---------------------------------------------------------------- what the counters mean

  function HasDomain(d: string): Bookmark -> int
  {
    (bm: Bookmark) => if bm.domain == d && d != "" then 1 else 0
  }

  /** A tag repeated in one bookmark counts each time. */
  function TagTimes(t: string): Bookmark -> int { (bm: Bookmark) => multiset(bm.tags)[t] }

  /** The key has exactly the value n, and is there only if n is positive. */
  predicate Holds(m: map<string, int>, k: string, n: int)
  {
    if n > 0 then k in m && m[k] == n else k !in m
  }

  /** The counters count the bookmarks. */
  ghost predicate Agree(c: Counters, bms: seq<Bookmark>)
  {
    && (forall d :: Holds(c.domains, d, Sum(bms, HasDomain(d))))
    && (forall t :: Holds(c.tags, t, Sum(bms, TagTimes(t))))
  }

  lemma AgreeNonNeg(bms: seq<Bookmark>, k: string)
    ensures Sum(bms, HasDomain(k)) >= 0 && Sum(bms, TagTimes(k)) >= 0
    ensures forall i :: 0 <= i < |bms| ==> HasDomain(k)(bms[i]) <= Sum(bms, HasDomain(k))
    ensures forall i :: 0 <= i < |bms| ==> TagTimes(k)(bms[i]) <= Sum(bms, TagTimes(k))
  {
    SumNonNeg(bms, HasDomain(k));
    SumNonNeg(bms, TagTimes(k));
  }

  /** No stored counter is ever zero or negative. */
  lemma AgreePositive(c: Counters, bms: seq<Bookmark>)
    requires Agree(c, bms)
    ensures forall k :: k in c.domains ==> c.domains[k] > 0
    ensures forall k :: k in c.tags ==> c.tags[k] > 0
  {
    forall k | k in c.domains ensures c.domains[k] > 0 { assert Holds(c.domains, k, Sum(bms, HasDomain(k))); }
    forall k | k in c.tags ensures c.tags[k] > 0 { assert Holds(c.tags, k, Sum(bms, TagTimes(k))); }
  }

  lemma HoldsUnique(m: map<string, int>, n: map<string, int>, count: string -> int)
    requires forall k :: Holds(m, k, count(k)) && Holds(n, k, count(k))
    ensures m == n
  {
    forall k ensures k in m <==> k in n { assert Holds(m, k, count(k)) && Holds(n, k, count(k)); }
    forall k | k in m ensures m[k] == n[k] { assert Holds(m, k, count(k)) && Holds(n, k, count(k)); }
  }

  /** Counters that count the same bookmarks are equal. */
  lemma AgreeUnique(a: Counters, b: Counters, bms: seq<Bookmark>)
    requires Agree(a, bms) && Agree(b, bms)
    ensures a == b
  {
    var domain: string -> int := d => Sum(bms, HasDomain(d));
    var tag: string -> int := t => Sum(bms, TagTimes(t));
    HoldsUnique(a.domains, b.domains, domain);
    HoldsUnique(a.tags, b.tags, tag);
  }

  /** Counters do not depend on the order of the bookmarks. */
  lemma AgreePermuted(c: Counters, bms: seq<Bookmark>, other: seq<Bookmark>)
    requires Agree(c, bms) && multiset(bms) == multiset(other)
    ensures Agree(c, other)
  {
    forall d ensures Holds(c.domains, d, Sum(other, HasDomain(d))) {
      SumPermutation(bms, other, HasDomain(d));
      assert Holds(c.domains, d, Sum(bms, HasDomain(d)));
    }
    forall t ensures Holds(c.tags, t, Sum(other, TagTimes(t))) {
      SumPermutation(bms, other, TagTimes(t));
      assert Holds(c.tags, t, Sum(bms, TagTimes(t)));
    }
  }

  // ---------------------------------------------------------------- adjusting

  lemma {:induction false} BumpAllHolds(m: map<string, int>, ks: seq<string>, delta: int, k: string, n: int)
    requires Holds(m, k, n) && n >= 0
    requires delta == 1 || (delta == -1 && multiset(ks)[k] <= n)
    ensures Holds(BumpAll(m, ks, delta), k, n + delta * multiset(ks)[k])
  {
    if |ks| > 0 {
      var init, last := ks[..|ks| - 1], ks[|ks| - 1];
      assert ks == init + [last];
      assert multiset(ks)[k] == multiset(init)[k] + if last == k then 1 else 0;
      BumpAllHolds(m, init, delta, k, n);
    }
  }

  /** Adjusting for a bookmark moves each key by what the bookmark contributes, repeated tags
      included. */
  lemma AdjustHolds(c: Counters, bm: Bookmark, delta: int, k: string, d: int, t: int)
    requires Holds(c.domains, k, d) && d >= 0 && Holds(c.tags, k, t) && t >= 0
    requires delta == 1 || (delta == -1 && HasDomain(k)(bm) <= d && TagTimes(k)(bm) <= t)
    ensures Holds(Adjust(c, bm, delta).domains, k, d + delta * HasDomain(k)(bm))
    ensures Holds(Adjust(c, bm, delta).tags, k, t + delta * TagTimes(k)(bm))
  {
    BumpAllHolds(c.tags, bm.tags, delta, k, t);
  }

  lemma AdjustForNew(c: Counters, bms: seq<Bookmark>, bm: Bookmark)
    requires Agree(c, bms)
    ensures Agree(Adjust(c, bm, 1), bms + [bm])
  {
    forall k ensures Holds(Adjust(c, bm, 1).domains, k, Sum(bms + [bm], HasDomain(k)))
                  && Holds(Adjust(c, bm, 1).tags, k, Sum(bms + [bm], TagTimes(k))) {
      AgreeNonNeg(bms, k);
      SumAppend(bms, bm, HasDomain(k));
      SumAppend(bms, bm, TagTimes(k));
      AdjustHolds(c, bm, 1, k, Sum(bms, HasDomain(k)), Sum(bms, TagTimes(k)));
    }
  }

  /** Taking the old bookmark out and putting its replacement in. */
  lemma AdjustForOverride(c: Counters, bms: seq<Bookmark>, i: nat, bm: Bookmark)
    requires Agree(c, bms) && i < |bms|
    ensures Agree(Adjust(Adjust(c, bms[i], -1), bm, 1), bms[i := bm])
  {
    var out := Adjust(c, bms[i], -1);
    var done := Adjust(out, bm, 1);
    forall k ensures Holds(done.domains, k, Sum(bms[i := bm], HasDomain(k)))
                  && Holds(done.tags, k, Sum(bms[i := bm], TagTimes(k))) {
      AgreeNonNeg(bms, k);
      SumUpdate(bms, i, bm, HasDomain(k));
      SumUpdate(bms, i, bm, TagTimes(k));
      var d, t := Sum(bms, HasDomain(k)), Sum(bms, TagTimes(k));
      AdjustHolds(c, bms[i], -1, k, d, t);
      AdjustHolds(out, bm, 1, k, d - HasDomain(k)(bms[i]), t - TagTimes(k)(bms[i]));
    }
  }

  // ---------------------------------------------------------------- counting afresh

  lemma {:induction false} IncAllHolds(m: map<string, int>, ks: seq<string>, k: string, n: int)
    requires Holds(m, k, n) && n >= 0
    ensures Holds(IncAll(m, ks), k, n + multiset(ks)[k])
  {
    if |ks| > 0 {
      var init, last := ks[..|ks| - 1], ks[|ks| - 1];
      assert ks == init + [last];
      assert multiset(ks)[k] == multiset(init)[k] + if last == k then 1 else 0;
      IncAllHolds(m, init, k, n);
    }
  }

  lemma CountAgrees(c: Counters, bms: seq<Bookmark>, bm: Bookmark)
    requires Agree(c, bms)
    ensures Agree(Count(c, bm), bms + [bm])
  {
    forall k ensures Holds(Count(c, bm).domains, k, Sum(bms + [bm], HasDomain(k)))
                  && Holds(Count(c, bm).tags, k, Sum(bms + [bm], TagTimes(k))) {
      AgreeNonNeg(bms, k);
      SumAppend(bms, bm, HasDomain(k));
      SumAppend(bms, bm, TagTimes(k));
      IncAllHolds(c.tags, bm.tags, k, Sum(bms, TagTimes(k)));
    }
  }

  lemma {:induction false} RecalcAgrees(bms: seq<Bookmark>)
    ensures Agree(Recalc(bms), bms)
  {
    if |bms| > 0 {
      var init := bms[..|bms| - 1];
      RecalcAgrees(init);
      CountAgrees(Recalc(init), init, bms[|bms| - 1]);
      assert init + [bms[|bms| - 1]] == bms;
    }
  }

  /** Counters agree with the bookmarks exactly when they are what recalc_counters gives. */
  lemma AgreeIsRecalc(c: Counters, bms: seq<Bookmark>)
    ensures Agree(c, bms) <==> c == Recalc(bms)
  {
    RecalcAgrees(bms);
    if Agree(c, bms) { AgreeUnique(c, Recalc(bms), bms); }
  }
}
