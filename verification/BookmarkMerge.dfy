/** The inner loop of cmd_update in marks2json.py: merging parsed bookmarks into a loaded database.
    Python's bookmark dicts are shared between the category lists and the url index, so a bookmark
    is named by its position in `store`, the list of all dicts the command works on. */
module BookmarkMerge {
  import opened Sums
  import opened BookmarkLine
  import opened BookmarkCounters

  /** byUrl is existing_by_url, known is known_bookmarks; a bookmark serves as its own key, as the
      JSON text that is the key determines it. */
  datatype Core = Core(
    store: seq<Bookmark>,
    byUrl: map<string, nat>,
    known: set<Bookmark>,
    counters: Counters,
    updated: nat)

  /** The dict comprehension: the last bookmark with a url wins, an empty url is not indexed. */
  function Index(s: seq<Bookmark>): map<string, nat>
  {
    if |s| == 0 then map[]
    else
      var n := |s| - 1;
      if s[n].url != "" then Index(s[..n])[s[n].url := n] else Index(s[..n])
  }

  /** The index names, for every url that is not empty and for no other, the last bookmark with it. */
  lemma {:induction false} IndexIsLast(s: seq<Bookmark>)
    ensures forall u :: u in Index(s) ==> PointsAt(s, u, Index(s)[u])
    ensures forall i :: 0 <= i < |s| && s[i].url != "" ==> s[i].url in Index(s)
  {
    if |s| > 0 { IndexIsLast(s[..|s| - 1]); }
  }

  predicate PointsAt(s: seq<Bookmark>, u: string, id: nat)
  {
    u != "" && id < |s| && s[id].url == u && forall j :: id < j < |s| ==> s[j].url != u
  }

  function Load(s: seq<Bookmark>, counters: Counters): (c: Core)
    ensures Indexed(c)
  {
    IndexIsLast(s);
    var byUrl := Index(s);
    Core(s, byUrl, set u | u in byUrl :: s[byUrl[u]], counters, 0)
  }

  predicate Indexed(c: Core)
  {
    && (forall u :: u in c.byUrl ==> c.byUrl[u] < |c.store| && c.store[c.byUrl[u]].url == u)
    && (forall i :: 0 <= i < |c.store| && c.store[i].url != "" ==> c.store[i].url in c.byUrl)
    && (forall k :: k in c.known ==> k.url in c.byUrl)
  }

  /** The stored bookmark a url stands for. */
  function Current(c: Core, u: string): Bookmark
    requires Indexed(c) && u in c.byUrl
  {
    c.store[c.byUrl[u]]
  }

  /** dict.update: every field of bm, but a stored icon survives when bm has none. */
  function Updated(was: Bookmark, bm: Bookmark): Bookmark
  {
    bm.(icon := if bm.icon.Some? then bm.icon else was.icon)
  }

  function Merge(c: Core, bm: Bookmark, override: bool): (r: Core)
    requires Indexed(c)
    ensures Indexed(r)
  {
    if bm in c.known then c
    else if bm.url in c.byUrl then
      if !override then c
      else
        var id := c.byUrl[bm.url];
        var now := Updated(c.store[id], bm);
        Core(c.store[id := now], c.byUrl, c.known + {now},
             Adjust(Adjust(c.counters, c.store[id], -1), now, 1), c.updated + 1)
    else
      Core(c.store + [bm], c.byUrl[bm.url := |c.store|], c.known + {bm}, Adjust(c.counters, bm, 1), c.updated)
  }

  function MergeAll(c: Core, bms: seq<Bookmark>, override: bool): (r: Core)
    requires Indexed(c)
    ensures Indexed(r)
  {
    if |bms| == 0 then c else Merge(MergeAll(c, bms[..|bms| - 1], override), bms[|bms| - 1], override)
  }

  lemma MergeAllSnoc(c: Core, bms: seq<Bookmark>, bm: Bookmark, override: bool)
    requires Indexed(c)
    ensures MergeAll(c, bms + [bm], override) == Merge(MergeAll(c, bms, override), bm, override)
  {
    assert (bms + [bm])[..|bms|] == bms;
  }

  lemma InitOfSum<T>(a: seq<T>, b: seq<T>)
    requires |b| > 0
    ensures var s := a + b; s[..|s| - 1] == a + b[..|b| - 1] && s[|s| - 1] == b[|b| - 1]
  {
  }

  lemma {:induction false} MergeAllConcat(c: Core, a: seq<Bookmark>, b: seq<Bookmark>, override: bool)
    requires Indexed(c)
    ensures MergeAll(c, a + b, override) == MergeAll(MergeAll(c, a, override), b, override)
  {
    if |b| == 0 {
      assert a + b == a;
    } else {
      InitOfSum(a, b);
      MergeAllConcat(c, a, b[..|b| - 1], override);
    }
  }

  // ---------------------------------------------------------------- the loop, state by state

  /** The states a loop over bs goes through. */
  predicate Path<C, B>(trace: seq<C>, bs: seq<B>, step: (C, B, C) -> bool)
  {
    |trace| == |bs| + 1 && forall i :: 0 <= i < |bs| ==> step(trace[i], bs[i], trace[i + 1])
  }

  lemma PathSnoc<C, B>(trace: seq<C>, bs: seq<B>, b: B, step: (C, B, C) -> bool, next: C)
    requires Path(trace, bs, step) && step(trace[|bs|], b, next)
    ensures Path(trace + [next], bs + [b], step)
  {
  }

  function MergeStep(override: bool): (Core, Bookmark, Core) -> bool
  {
    (c: Core, bm: Bookmark, d: Core) =>
      Indexed(c) && d == Merge(c, bm, override) && Indexed(d) && |c.store| <= |d.store|
  }

  lemma {:induction false} MergeTrace(c: Core, bms: seq<Bookmark>, override: bool) returns (trace: seq<Core>)
    requires Indexed(c)
    ensures Path(trace, bms, MergeStep(override)) && trace[0] == c && trace[|bms|] == MergeAll(c, bms, override)
  {
    if |bms| == 0 {
      trace := [c];
    } else {
      var n := |bms| - 1;
      var init := MergeTrace(c, bms[..n], override);
      var next := Merge(init[n], bms[n], override);
      PathSnoc(init, bms[..n], bms[n], MergeStep(override), next);
      InitAndLast(bms);
      trace := init + [next];
    }
  }

  lemma InitAndLast<T>(s: seq<T>)
    requires |s| > 0
    ensures s[..|s| - 1] + [s[|s| - 1]] == s
  {
  }

  // ---------------------------------------------------------------- the counters

  /** Merging keeps the counters right, also when it overrides a bookmark added a moment ago. */
  lemma {:induction false} MergeKeepsCounters(c: Core, bms: seq<Bookmark>, override: bool)
    requires Indexed(c) && Agree(c.counters, c.store)
    ensures var r := MergeAll(c, bms, override); Agree(r.counters, r.store)
  {
    if |bms| > 0 {
      var bm := bms[|bms| - 1];
      MergeKeepsCounters(c, bms[..|bms| - 1], override);
      var d := MergeAll(c, bms[..|bms| - 1], override);
      if bm.url in d.byUrl {
        AdjustForOverride(d.counters, d.store, d.byUrl[bm.url], Updated(Current(d, bm.url), bm));
      } else {
        AdjustForNew(d.counters, d.store, bm);
      }
    }
  }

  // ---------------------------------------------------------------- the urls

  function UrlsOf(bms: seq<Bookmark>): set<string> { set i | 0 <= i < |bms| :: bms[i].url }

  function HasUrl(u: string): Bookmark -> int { (bm: Bookmark) => if bm.url == u then 1 else 0 }

  /** How many bookmarks have the url. */
  ghost function UrlCount(s: seq<Bookmark>, u: string): int { Sum(s, HasUrl(u)) }

  lemma UrlsSnoc(bms: seq<Bookmark>)
    requires |bms| > 0
    ensures UrlsOf(bms) == UrlsOf(bms[..|bms| - 1]) + {bms[|bms| - 1].url}
  {
    var init := bms[..|bms| - 1];
    forall u | u in UrlsOf(init) ensures u in UrlsOf(bms) {
      var i :| 0 <= i < |init| && init[i].url == u;
      assert bms[i].url == u;
    }
    forall u | u in UrlsOf(bms) ensures u in UrlsOf(init) + {bms[|bms| - 1].url} {
      var i :| 0 <= i < |bms| && bms[i].url == u;
      if i < |init| { assert init[i].url == u; }
    }
  }

  lemma MergeOneUrl(c: Core, bm: Bookmark, override: bool, u: string)
    requires Indexed(c)
    ensures UrlsAdded(c, Merge(c, bm, override), {bm.url}, u)
  {
    if bm.url in c.byUrl {
      SumUpdate(c.store, c.byUrl[bm.url], Updated(Current(c, bm.url), bm), HasUrl(u));
    } else {
      SumAppend(c.store, bm, HasUrl(u));
    }
  }

  /** What merging does to the urls: each that was not there is added exactly once, none is removed
      or added again, with or without override. */
  lemma {:induction false} MergeUrls(c: Core, bms: seq<Bookmark>, override: bool, u: string)
    requires Indexed(c)
    ensures UrlsAdded(c, MergeAll(c, bms, override), UrlsOf(bms), u)
  {
    if |bms| == 0 {
      assert UrlsOf(bms) == {};
    } else {
      var init, bm := bms[..|bms| - 1], bms[|bms| - 1];
      MergeUrls(c, init, override, u);
      UrlsSnoc(bms);
      var d := MergeAll(c, init, override);
      MergeOneUrl(d, bm, override, u);
      UrlsAddedTwice(c, d, Merge(d, bm, override), UrlsOf(init), bm.url, u);
    }
  }

  ghost predicate UrlsAdded(c: Core, r: Core, urls: set<string>, u: string)
  {
    && r.byUrl.Keys == c.byUrl.Keys + urls
    && UrlCount(r.store, u) == UrlCount(c.store, u) + if u in urls && u !in c.byUrl then 1 else 0
  }

  lemma UrlsAddedTwice(c: Core, d: Core, r: Core, urls: set<string>, v: string, u: string)
    requires UrlsAdded(c, d, urls, u) && UrlsAdded(d, r, {v}, u)
    ensures UrlsAdded(c, r, urls + {v}, u)
  {
    assert u in d.byUrl <==> u in d.byUrl.Keys;
  }

  lemma UrlIndexedIff(c: Core, u: string)
    requires Indexed(c) && u != ""
    ensures u in c.byUrl <==> UrlCount(c.store, u) > 0
  {
    SumNonNeg(c.store, HasUrl(u));
    if u in c.byUrl {
      assert HasUrl(u)(Current(c, u)) == 1;
    } else if UrlCount(c.store, u) > 0 {
      var i := SumPositive(c.store, HasUrl(u));
    }
  }

  // ---------------------------------------------------------------- without override

  /** The bookmarks whose url is neither seen nor carried by an earlier one. */
  function Fresh(bms: seq<Bookmark>, seen: set<string>): seq<Bookmark>
  {
    if |bms| == 0 then []
    else
      var init, bm := bms[..|bms| - 1], bms[|bms| - 1];
      Fresh(init, seen) + if bm.url in seen || bm.url in UrlsOf(init) then [] else [bm]
  }

  lemma MergeOneAppends(c: Core, bm: Bookmark)
    requires Indexed(c)
    ensures var r := Merge(c, bm, false);
      && r.store == (if bm.url in c.byUrl then c.store else c.store + [bm])
      && r.updated == c.updated
  {
  }

  lemma AppendMaybe(s: seq<Bookmark>, t: seq<Bookmark>, skip: bool, bm: Bookmark)
    ensures (if skip then s + t else s + t + [bm]) == s + (t + if skip then [] else [bm])
  {
  }

  /** Merging without override appends exactly the fresh bookmarks and touches nothing else. */
  lemma {:induction false} MergeAppends(c: Core, bms: seq<Bookmark>)
    requires Indexed(c)
    ensures var r := MergeAll(c, bms, false);
      && r.store == c.store + Fresh(bms, c.byUrl.Keys)
      && r.updated == c.updated
  {
    if |bms| > 0 {
      var init, bm := bms[..|bms| - 1], bms[|bms| - 1];
      var d := MergeAll(c, init, false);
      MergeAppends(c, init);
      MergeUrls(c, init, false, bm.url);
      MergeOneAppends(d, bm);
      assert bm.url in d.byUrl <==> bm.url in c.byUrl.Keys || bm.url in UrlsOf(init);
      AppendMaybe(c.store, Fresh(init, c.byUrl.Keys), bm.url in d.byUrl, bm);
    }
  }

  lemma UrlsConcat(a: seq<Bookmark>, b: seq<Bookmark>)
    ensures UrlsOf(a + b) == UrlsOf(a) + UrlsOf(b)
  {
    forall u | u in UrlsOf(a) + UrlsOf(b) ensures u in UrlsOf(a + b) {
      if u in UrlsOf(a) {
        var i :| 0 <= i < |a| && a[i].url == u;
        assert (a + b)[i].url == u;
      } else {
        var i :| 0 <= i < |b| && b[i].url == u;
        assert (a + b)[|a| + i].url == u;
      }
    }
    forall u | u in UrlsOf(a + b) ensures u in UrlsOf(a) + UrlsOf(b) {
      var i :| 0 <= i < |a + b| && (a + b)[i].url == u;
      if i < |a| { assert a[i].url == u; } else { assert b[i - |a|].url == u; }
    }
  }

  lemma {:induction false} NothingFresh(bms: seq<Bookmark>, seen: set<string>)
    requires UrlsOf(bms) <= seen
    ensures Fresh(bms, seen) == []
  {
    if |bms| > 0 {
      UrlsSnoc(bms);
      NothingFresh(bms[..|bms| - 1], seen);
    }
  }

  // ---------------------------------------------------------------- with override

  /** Every field bm gives is stored in e: title, url, description, tags, domain, and icon if it has one. */
  predicate Stores(e: Bookmark, bm: Bookmark)
  {
    && e.title == bm.title && e.url == bm.url && e.description == bm.description && e.tags == bm.tags
    && e.domain == bm.domain && (bm.icon.Some? ==> e.icon == bm.icon)
  }

  /** Right after its turn a bookmark's fields are stored, unless the same bookmark was known from
      before and something else has replaced it since. */
  lemma StoredIff(c: Core, bm: Bookmark)
    requires Indexed(c)
    ensures var r := Merge(c, bm, true);
      && bm.url in r.byUrl
      && (Stores(Current(r, bm.url), bm) <==> bm !in c.known || Stores(Current(c, bm.url), bm))
  {
  }

  /** The entry of a url, and what is known about it, are the same. */
  ghost predicate SameFor(c: Core, r: Core, u: string)
    requires Indexed(c) && Indexed(r)
  {
    && (u in r.byUrl <==> u in c.byUrl)
    && (u in c.byUrl ==> Current(r, u) == Current(c, u))
    && forall k: Bookmark :: k.url == u ==> (k in r.known <==> k in c.known)
  }

  lemma OtherLeavesAlone(c: Core, bm: Bookmark, u: string)
    requires Indexed(c) && bm.url != u
    ensures SameFor(c, Merge(c, bm, true), u)
  {
  }

  lemma SameForTransitive(c: Core, d: Core, r: Core, u: string)
    requires Indexed(c) && Indexed(d) && Indexed(r) && SameFor(c, d, u) && SameFor(d, r, u)
    ensures SameFor(c, r, u)
  {
  }

  /** Bookmarks with other urls leave an entry as it is. */
  lemma {:induction false} OthersLeaveAlone(c: Core, bms: seq<Bookmark>, u: string)
    requires Indexed(c) && u !in UrlsOf(bms)
    ensures SameFor(c, MergeAll(c, bms, true), u)
  {
    if |bms| > 0 {
      var d := MergeAll(c, bms[..|bms| - 1], true);
      UrlsSnoc(bms);
      OthersLeaveAlone(c, bms[..|bms| - 1], u);
      OtherLeavesAlone(d, bms[|bms| - 1], u);
      SameForTransitive(c, d, MergeAll(c, bms, true), u);
    }
  }

  /** For every input: the last line with a url is what the database holds in the end exactly when
      at its turn it was not known, or was stored already. */
  lemma LastLineStoredIff(c: Core, before: seq<Bookmark>, bm: Bookmark, after: seq<Bookmark>)
    requires Indexed(c) && bm.url !in UrlsOf(after)
    ensures var d, r := MergeAll(c, before, true), MergeAll(c, before + [bm] + after, true);
      && bm.url in r.byUrl
      && (Stores(Current(r, bm.url), bm) <==> bm !in d.known || Stores(Current(d, bm.url), bm))
  {
    MergeAllConcat(c, before + [bm], after, true);
    MergeAllSnoc(c, before, bm, true);
    StoredIff(MergeAll(c, before, true), bm);
    OthersLeaveAlone(MergeAll(c, before + [bm], true), after, bm.url);
  }

  predicate DistinctUrls(bms: seq<Bookmark>)
  {
    forall i, j :: 0 <= i < j < |bms| ==> bms[i].url != bms[j].url
  }

  /** Nothing is known about a url but its current entry. */
  predicate NoHistory(c: Core, u: string)
    requires Indexed(c)
  {
    forall k :: k in c.known && k.url == u ==> k == Current(c, u)
  }

  /** With distinct urls in the input every line ends up stored. */
  lemma DistinctLinesStored(c: Core, bms: seq<Bookmark>, i: nat)
    requires Indexed(c) && DistinctUrls(bms) && i < |bms| && NoHistory(c, bms[i].url)
    ensures var r := MergeAll(c, bms, true); bms[i].url in r.byUrl && Stores(Current(r, bms[i].url), bms[i])
  {
    var before, after := bms[..i], bms[i + 1..];
    assert before + [bms[i]] + after == bms;
    assert bms[i].url !in UrlsOf(after) && bms[i].url !in UrlsOf(before);
    OthersLeaveAlone(c, before, bms[i].url);
    LastLineStoredIff(c, before, bms[i], after);
  }

  /** Why distinct urls are needed: a stored bookmark a, overridden by b, is not put back by a later
      line a, because known_bookmarks still holds the overwritten key. */
  lemma OverwrittenKeyIsNotForgotten(a: Bookmark, b: Bookmark, counters: Counters)
    requires a.url == b.url != "" && a.title != b.title
    ensures var r := MergeAll(Load([a], counters), [b, a], true);
      a.url in r.byUrl && !Stores(Current(r, a.url), a)
  {
    var c := Load([a], counters);
    assert [a][..0] == [] && c.byUrl == map[a.url := 0];
    assert c.known == {a};
    MergeAllSnoc(c, [b], a, true);
    MergeAllSnoc(c, [], b, true);
    assert [] + [b] == [b] && [b] + [a] == [b, a];
  }

  // ---------------------------------------------------------------- merging what is stored already

  predicate AllStored(c: Core, bms: seq<Bookmark>)
    requires Indexed(c)
  {
    forall i :: 0 <= i < |bms| ==> bms[i].url in c.byUrl && Stores(Current(c, bms[i].url), bms[i])
  }

  /** Merging bookmarks whose fields are stored changes neither data nor counters. */
  lemma {:induction false} MergeStored(c: Core, bms: seq<Bookmark>)
    requires Indexed(c) && Agree(c.counters, c.store) && AllStored(c, bms)
    ensures var r := MergeAll(c, bms, true);
      r.store == c.store && r.byUrl == c.byUrl && r.counters == c.counters
  {
    if |bms| > 0 {
      var init, bm := bms[..|bms| - 1], bms[|bms| - 1];
      MergeStored(c, init);
      assert MergeAll(c, bms, true).store == c.store;
      MergeKeepsCounters(c, bms, true);
      AgreeUnique(MergeAll(c, bms, true).counters, c.counters, c.store);
    }
  }

  /** A merge that reports neither an addition nor an update has changed nothing. */
  lemma {:induction false} QuietMerge(c: Core, bms: seq<Bookmark>, override: bool)
    requires Indexed(c)
    ensures var r := MergeAll(c, bms, override);
      && r.updated >= c.updated && |r.store| >= |c.store|
      && (r.updated == c.updated && |r.store| == |c.store| ==> r == c)
  {
    if |bms| > 0 { QuietMerge(c, bms[..|bms| - 1], override); }
  }

  // ---------------------------------------------------------------- what stays in its place

  /** From store a to store b: a stored bookmark keeps its url for ever, and its content too unless its
      url comes in; the new ones have the urls of `added`, in order. */
  predicate Grown(a: seq<Bookmark>, b: seq<Bookmark>, added: seq<Bookmark>, urls: set<string>)
  {
    && |b| == |a| + |added|
    && (forall id :: 0 <= id < |a| ==> b[id].url == a[id].url)
    && (forall id :: 0 <= id < |a| ==> b[id] == a[id] || a[id].url in urls)
    && (forall k :: 0 <= k < |added| ==> b[|a| + k].url == added[k].url && added[k].url in urls)
  }

  lemma GrowBySet(a: seq<Bookmark>, b: seq<Bookmark>, added: seq<Bookmark>, urls: set<string>, id: nat, bm: Bookmark)
    requires Grown(a, b, added, urls) && id < |b| && b[id].url == bm.url
    ensures Grown(a, b[id := bm], added, urls + {bm.url})
  {
    if id >= |a| { assert b[|a| + (id - |a|)].url == added[id - |a|].url; }
  }

  lemma GrowByAppend(a: seq<Bookmark>, b: seq<Bookmark>, added: seq<Bookmark>, urls: set<string>, bm: Bookmark)
    requires Grown(a, b, added, urls)
    ensures Grown(a, b + [bm], added + [bm], urls + {bm.url})
  {
  }

  lemma {:induction false} MergeGrows(c: Core, bms: seq<Bookmark>, override: bool)
    requires Indexed(c)
    ensures Grown(c.store, MergeAll(c, bms, override).store, Fresh(bms, c.byUrl.Keys), UrlsOf(bms))
  {
    if |bms| > 0 {
      var init, bm := bms[..|bms| - 1], bms[|bms| - 1];
      MergeGrows(c, init, override);
      MergeUrls(c, init, override, bm.url);
      UrlsSnoc(bms);
      MergeGrowsOnce(c, MergeAll(c, init, override), init, bm, override);
    }
  }

  lemma MergeGrowsOnce(c: Core, d: Core, init: seq<Bookmark>, bm: Bookmark, override: bool)
    requires Indexed(d) && Grown(c.store, d.store, Fresh(init, c.byUrl.Keys), UrlsOf(init))
    requires d.byUrl.Keys == c.byUrl.Keys + UrlsOf(init)
    ensures Grown(c.store, Merge(d, bm, override).store,
                  Fresh(init, c.byUrl.Keys) + if bm.url in c.byUrl.Keys || bm.url in UrlsOf(init) then [] else [bm],
                  UrlsOf(init) + {bm.url})
  {
    var added := Fresh(init, c.byUrl.Keys);
    assert added + [] == added;
    assert bm.url in d.byUrl <==> bm.url in c.byUrl.Keys || bm.url in UrlsOf(init);
    if bm.url in d.byUrl {
      GrowBySet(c.store, d.store, added, UrlsOf(init), d.byUrl[bm.url], Updated(Current(d, bm.url), bm));
    } else {
      GrowByAppend(c.store, d.store, added, UrlsOf(init), bm);
    }
  }
}
