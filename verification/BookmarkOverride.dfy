/** What an update with override leaves for a url, told from the input alone, however often the url comes
    in or is stored (the merge loop of cmd_update in marks2json.py). Of several stored bookmarks with
    one url only the last is in the url index, so only it is updated. */
module BookmarkOverride {
  import opened Wrappers
  import opened BookmarkLine
  import opened BookmarkCounters
  import opened BookmarkFile
  import opened BookmarkMerge
  import opened BookmarkUpdate
  import opened BookmarkHistory

  /** The forms the entry of a url takes, in order, as bookmarks come in: a bookmark equal to a form the
      entry has had is ignored; any other gives the next form, in which the icon of the last survives
      if the bookmark brings none. */
  function Forms(s: seq<Bookmark>, u: string): seq<Bookmark>
  {
    if |s| == 0 then [] else NextForm(Forms(s[..|s| - 1], u), s[|s| - 1], u)
  }

  function NextForm(forms: seq<Bookmark>, bm: Bookmark, u: string): seq<Bookmark>
  {
    if bm.url != u || bm in forms then forms
    else forms + [if forms == [] then bm else Updated(forms[|forms| - 1], bm)]
  }

  lemma FormsSnoc(s: seq<Bookmark>, bm: Bookmark, u: string)
    ensures Forms(s + [bm], u) == NextForm(Forms(s, u), bm, u)
  {
    assert (s + [bm])[..|s|] == s;
  }

  /** The merge knows exactly these forms of the url, and holds the last. */
  ghost predicate Tracks(c: Core, forms: seq<Bookmark>, u: string)
    requires Indexed(c)
  {
    && (forall x: Bookmark :: x.url == u ==> (x in c.known <==> x in forms))
    && (u in c.byUrl <==> forms != [])
    && (u in c.byUrl ==> Current(c, u) == forms[|forms| - 1])
  }

  lemma MergeTracks(c: Core, forms: seq<Bookmark>, bm: Bookmark, u: string)
    requires Indexed(c) && Tracks(c, forms, u)
    ensures Tracks(Merge(c, bm, true), NextForm(forms, bm, u), u)
  {
    var next := NextForm(forms, bm, u);
    if next != forms {
      var now := next[|forms|];
      assert forall x :: x in next <==> x in forms || x == now;
    }
  }

  ghost predicate TracksInput(c: Core, s: seq<Bookmark>, u: string)
    requires Indexed(c)
  {
    Tracks(c, Forms(s, u), u)
  }

  lemma MergeTracksInput(c: Core, s: seq<Bookmark>, bm: Bookmark, u: string, r: Core)
    requires Indexed(c) && TracksInput(c, s, u) && r == Merge(c, bm, true)
    ensures TracksInput(r, s + [bm], u)
  {
    MergeTracks(c, Forms(s, u), bm, u);
    FormsSnoc(s, bm, u);
  }

  /** What each step of a path keeps holds at its end. */
  lemma {:induction false} PathKeeps<C(!new), B(!new)>(
      trace: seq<C>, bs: seq<B>, step: (C, B, C) -> bool, inv: (C, seq<B>) -> bool, n: nat)
    requires Path(trace, bs, step) && n <= |bs| && inv(trace[0], [])
    requires forall c, b, d, p :: inv(c, p) && step(c, b, d) ==> inv(d, p + [b])
    ensures inv(trace[n], bs[..n])
  {
    if n == 0 {
      assert bs[..0] == [];
    } else {
      PathKeeps(trace, bs, step, inv, n - 1);
      assert step(trace[n - 1], bs[n - 1], trace[n - 1 + 1]);
      assert bs[..n - 1] + [bs[n - 1]] == bs[..n];
    }
  }

  // ---------------------------------------------------------------- the stored bookmarks with a url

  function WithUrl(s: seq<Bookmark>, u: string): seq<Bookmark>
  {
    if |s| == 0 then []
    else WithUrl(s[..|s| - 1], u) + if s[|s| - 1].url == u then [s[|s| - 1]] else []
  }

  /** The one the url index names: the last. */
  function Entry(s: seq<Bookmark>, u: string): (e: seq<Bookmark>)
    ensures |e| <= 1
  {
    var own := WithUrl(s, u);
    if own == [] then [] else [own[|own| - 1]]
  }

  /** The earlier ones, which the update does not reach. */
  function Earlier(s: seq<Bookmark>, u: string): seq<Bookmark>
  {
    var own := WithUrl(s, u);
    if own == [] then [] else own[..|own| - 1]
  }

  lemma {:induction false} WithUrlCounts(s: seq<Bookmark>, u: string, x: Bookmark)
    ensures multiset(WithUrl(s, u))[x] == if x.url == u then multiset(s)[x] else 0
  {
    if |s| > 0 {
      WithUrlCounts(s[..|s| - 1], u, x);
      assert s == s[..|s| - 1] + [s[|s| - 1]];
    }
  }

  lemma WithUrlPermuted(a: seq<Bookmark>, b: seq<Bookmark>, u: string)
    requires multiset(a) == multiset(b)
    ensures multiset(WithUrl(a, u)) == multiset(WithUrl(b, u))
  {
    forall x ensures multiset(WithUrl(a, u))[x] == multiset(WithUrl(b, u))[x] {
      WithUrlCounts(a, u, x);
      WithUrlCounts(b, u, x);
    }
  }

  /** Changes to bookmarks with other urls do not show. */
  lemma {:induction false} WithUrlSame(a: seq<Bookmark>, b: seq<Bookmark>, u: string)
    requires |a| == |b|
    requires forall i :: 0 <= i < |a| ==> a[i] == b[i] || (a[i].url != u && b[i].url != u)
    ensures WithUrl(a, u) == WithUrl(b, u)
  {
    if |a| > 0 { WithUrlSame(a[..|a| - 1], b[..|b| - 1], u); }
  }

  lemma {:induction false} NoneWithUrl(s: seq<Bookmark>, u: string)
    requires forall i :: 0 <= i < |s| ==> s[i].url != u
    ensures WithUrl(s, u) == []
  {
    if |s| > 0 { NoneWithUrl(s[..|s| - 1], u); }
  }

  lemma {:induction false} WithUrlUpTo(s: seq<Bookmark>, u: string, id: nat)
    requires PointsAt(s, u, id)
    ensures WithUrl(s, u) == WithUrl(s[..id], u) + [s[id]]
  {
    var n := |s| - 1;
    if id < n {
      assert s[..n][..id] == s[..id];
      WithUrlUpTo(s[..n], u, id);
      assert WithUrl(s[..n], u) + [] == WithUrl(s[..n], u);
    }
  }

  /** The index names the last bookmark with the url, and those before it are the given ones. */
  predicate KeepsEarlier(c: Core, earlier: seq<Bookmark>, u: string)
  {
    if u in c.byUrl then PointsAt(c.store, u, c.byUrl[u]) && WithUrl(c.store[..c.byUrl[u]], u) == earlier
    else earlier == [] && WithUrl(c.store, u) == []
  }

  lemma EarlierKeptByChange(c: Core, id: nat, now: Bookmark, earlier: seq<Bookmark>, u: string, r: Core)
    requires KeepsEarlier(c, earlier, u) && id < |c.store| && c.store[id].url == now.url != u
    requires r.store == c.store[id := now] && r.byUrl == c.byUrl
    ensures KeepsEarlier(r, earlier, u)
  {
    if u in c.byUrl {
      WithUrlSame(c.store[..c.byUrl[u]], r.store[..c.byUrl[u]], u);
    } else {
      WithUrlSame(c.store, r.store, u);
    }
  }

  lemma EarlierKeptByOverride(c: Core, now: Bookmark, earlier: seq<Bookmark>, u: string, r: Core)
    requires KeepsEarlier(c, earlier, u) && u in c.byUrl && now.url == u
    requires r.store == c.store[c.byUrl[u] := now] && r.byUrl == c.byUrl
    ensures KeepsEarlier(r, earlier, u)
  {
    assert r.store[..c.byUrl[u]] == c.store[..c.byUrl[u]];
  }

  lemma EarlierKeptByAppend(c: Core, bm: Bookmark, earlier: seq<Bookmark>, u: string, r: Core)
    requires KeepsEarlier(c, earlier, u) && u != "" && bm.url !in c.byUrl
    requires r.store == c.store + [bm] && r.byUrl == c.byUrl[bm.url := |c.store|]
    ensures KeepsEarlier(r, earlier, u)
  {
    assert r.store[..|c.store|] == c.store;
    assert WithUrl(c.store, u) + [] == WithUrl(c.store, u);
    if u in c.byUrl { assert r.store[..c.byUrl[u]] == c.store[..c.byUrl[u]]; }
  }

  lemma MergeKeepsEarlier(c: Core, bm: Bookmark, earlier: seq<Bookmark>, u: string, r: Core)
    requires Indexed(c) && KeepsEarlier(c, earlier, u) && u != "" && r == Merge(c, bm, true)
    ensures KeepsEarlier(r, earlier, u)
  {
    if bm !in c.known {
      if bm.url !in c.byUrl {
        EarlierKeptByAppend(c, bm, earlier, u, r);
      } else if bm.url == u {
        EarlierKeptByOverride(c, Updated(Current(c, u), bm), earlier, u, r);
      } else {
        EarlierKeptByChange(c, c.byUrl[bm.url], Updated(Current(c, bm.url), bm), earlier, u, r);
      }
    }
  }

  /** A loaded database keeps its own earlier bookmarks, and has had one form of each entry. */
  lemma LoadKeepsEarlier(db: Database, u: string)
    requires u != ""
    ensures var s := All(db.listings); var c := Open(db).core;
      && KeepsEarlier(c, Earlier(s, u), u)
      && Entry(s, u) == if u in c.byUrl then [Current(c, u)] else []
  {
    var s := All(db.listings);
    var c := Open(db).core;
    IndexIsLast(s);
    if u in c.byUrl {
      WithUrlUpTo(s, u, c.byUrl[u]);
    } else {
      NoneWithUrl(s, u);
    }
  }

  lemma FormsOfEntry(e: seq<Bookmark>, u: string)
    requires |e| <= 1 && forall i :: 0 <= i < |e| ==> e[i].url == u
    ensures Forms(e, u) == e
  {
    if |e| == 1 {
      assert e[..0] == [];
      assert Forms(e[..0], u) == [];
    }
  }

  lemma LoadTracks(db: Database, u: string)
    requires u != ""
    ensures TracksInput(Open(db).core, Entry(All(db.listings), u), u)
  {
    LoadKeepsEarlier(db, u);
    FormsOfEntry(Entry(All(db.listings), u), u);
  }

  // ---------------------------------------------------------------- what the file holds

  ghost function Follows(entry: seq<Bookmark>, earlier: seq<Bookmark>, u: string): (Core, seq<Bookmark>) -> bool
  {
    (c: Core, p: seq<Bookmark>) => Indexed(c) && TracksInput(c, entry + p, u) && KeepsEarlier(c, earlier, u)
  }

  lemma PathFollows(trace: seq<Core>, bms: seq<Bookmark>, entry: seq<Bookmark>, earlier: seq<Bookmark>, u: string)
    requires Path(trace, bms, MergeStep(true)) && Indexed(trace[0]) && u != ""
    requires TracksInput(trace[0], entry, u) && KeepsEarlier(trace[0], earlier, u)
    ensures Indexed(trace[|bms|]) && TracksInput(trace[|bms|], entry + bms, u) && KeepsEarlier(trace[|bms|], earlier, u)
  {
    var inv := Follows(entry, earlier, u);
    forall c, b, d, p | inv(c, p) && MergeStep(true)(c, b, d) ensures inv(d, p + [b]) {
      MergeTracksInput(c, entry + p, b, u, d);
      MergeKeepsEarlier(c, b, earlier, u, d);
      assert entry + p + [b] == entry + (p + [b]);
    }
    assert entry + [] == entry && bms[..|bms|] == bms;
    PathKeeps(trace, bms, MergeStep(true), inv, |bms|);
    assert inv(trace[|bms|], bms);
  }

  /** The forms the entry of a url takes during an update. */
  function FormsIn(db: Database, cats: seq<Listing>, u: string): seq<Bookmark>
  {
    Forms(Entry(All(db.listings), u) + All(cats), u)
  }

  function LastOf(s: seq<Bookmark>): seq<Bookmark> { if s == [] then [] else [s[|s| - 1]] }

  /** What the file holds for a url after an update with override. */
  function Held(db: Database, cats: seq<Listing>, lower: Lower, u: string): seq<Bookmark>
  {
    WithUrl(All(Update(db, cats, true, lower).db.listings), u)
  }

  lemma StoreHolds(c: Core, forms: seq<Bookmark>, earlier: seq<Bookmark>, u: string)
    requires Indexed(c) && Tracks(c, forms, u) && KeepsEarlier(c, earlier, u)
    ensures WithUrl(c.store, u) == earlier + LastOf(forms)
  {
    if u in c.byUrl { WithUrlUpTo(c.store, u, c.byUrl[u]); }
  }

  /** The merged store the file holds, which follows the database and the lines. */
  lemma FollowedStore(db: Database, cats: seq<Listing>, lower: Lower, u: string) returns (c: Core)
    requires u != ""
    ensures c == MergeAll(Open(db).core, All(cats), true)
    ensures Indexed(c) && Tracks(c, FormsIn(db, cats, u), u) && KeepsEarlier(c, Earlier(All(db.listings), u), u)
    ensures multiset(All(Update(db, cats, true, lower).db.listings)) == multiset(c.store)
  {
    var bms := All(cats);
    LoadTracks(db, u);
    LoadKeepsEarlier(db, u);
    var trace := MergeTrace(Open(db).core, bms, true);
    PathFollows(trace, bms, Entry(All(db.listings), u), Earlier(All(db.listings), u), u);
    FileHoldsStore(db, cats, true, lower);
    c := trace[|bms|];
  }

  /** For every database and every input: after an update with override the file holds, for a url,
      exactly the earlier bookmarks with it, unchanged, and the last form of its entry. */
  lemma OverrideLeavesLastForm(db: Database, cats: seq<Listing>, lower: Lower, u: string)
    requires u != ""
    ensures multiset(Held(db, cats, lower, u)) == multiset(Earlier(All(db.listings), u) + LastOf(FormsIn(db, cats, u)))
  {
    var c := FollowedStore(db, cats, lower, u);
    WithUrlPermuted(All(Update(db, cats, true, lower).db.listings), c.store, u);
    StoreHolds(c, FormsIn(db, cats, u), Earlier(All(db.listings), u), u);
  }

  // ---------------------------------------------------------------- is the last line in force

  /** Every stored bookmark with its url has the fields of bm. */
  predicate InForce(held: seq<Bookmark>, bm: Bookmark) { forall i :: 0 <= i < |held| ==> Stores(held[i], bm) }

  lemma InForcePermuted(a: seq<Bookmark>, b: seq<Bookmark>, bm: Bookmark)
    requires multiset(a) == multiset(b) && InForce(a, bm)
    ensures InForce(b, bm)
  {
    forall i | 0 <= i < |b| ensures Stores(b[i], bm) {
      assert b[i] in multiset(b);
      assert b[i] in multiset(a);
      var k :| 0 <= k < |a| && a[k] == b[i];
    }
  }

  lemma InForceConcat(a: seq<Bookmark>, e: Bookmark, bm: Bookmark)
    ensures InForce(a + [e], bm) <==> InForce(a, bm) && Stores(e, bm)
  {
    assert forall i :: 0 <= i < |a| ==> (a + [e])[i] == a[i];
    assert (a + [e])[|a|] == e;
  }

  lemma HeldInForce(db: Database, cats: seq<Listing>, lower: Lower, bm: Bookmark)
    requires bm.url != "" && bm.url in MergeAll(Open(db).core, All(cats), true).byUrl
    ensures InForce(Held(db, cats, lower, bm.url), bm) <==>
      && InForce(Earlier(All(db.listings), bm.url), bm)
      && Stores(Current(MergeAll(Open(db).core, All(cats), true), bm.url), bm)
  {
    var c := FollowedStore(db, cats, lower, bm.url);
    HeldByStore(c, All(Update(db, cats, true, lower).db.listings), Earlier(All(db.listings), bm.url), bm);
  }

  lemma HeldByStore(c: Core, r: seq<Bookmark>, earlier: seq<Bookmark>, bm: Bookmark)
    requires Indexed(c) && KeepsEarlier(c, earlier, bm.url) && bm.url in c.byUrl && multiset(r) == multiset(c.store)
    ensures InForce(WithUrl(r, bm.url), bm) <==> InForce(earlier, bm) && Stores(Current(c, bm.url), bm)
  {
    var own := WithUrl(c.store, bm.url);
    WithUrlUpTo(c.store, bm.url, c.byUrl[bm.url]);
    WithUrlPermuted(r, c.store, bm.url);
    InForceConcat(earlier, Current(c, bm.url), bm);
    if InForce(own, bm) { InForcePermuted(own, WithUrl(r, bm.url), bm); }
    if InForce(WithUrl(r, bm.url), bm) { InForcePermuted(WithUrl(r, bm.url), own, bm); }
  }

  /** For every database and every input: every bookmark the file holds for a url has the fields of its
      last line exactly when at its turn that line was not in known_bookmarks or was stored already,
      and every earlier bookmark with the url had those fields before. */
  lemma LastLineIsStoredIff(
      db: Database, cats: seq<Listing>, lower: Lower, before: seq<Bookmark>, bm: Bookmark, after: seq<Bookmark>)
    requires bm.url != "" && All(cats) == before + [bm] + after && bm.url !in UrlsOf(after)
    ensures var d := MergeAll(Open(db).core, before, true);
      InForce(Held(db, cats, lower, bm.url), bm) <==>
        && (bm !in d.known || Stores(Current(d, bm.url), bm))
        && InForce(Earlier(All(db.listings), bm.url), bm)
  {
    LastLineStoredIff(Open(db).core, before, bm, after);
    HeldInForce(db, cats, lower, bm);
  }

  /** With distinct incoming urls only the second condition is left: a line is in force exactly when no
      earlier bookmark with its url had other fields. */
  lemma DistinctLineIsStoredIff(db: Database, cats: seq<Listing>, lower: Lower, i: nat)
    requires DistinctUrls(All(cats)) && i < |All(cats)| && All(cats)[i].url != ""
    ensures var bm := All(cats)[i];
      InForce(Held(db, cats, lower, bm.url), bm) <==> InForce(Earlier(All(db.listings), bm.url), bm)
  {
    var bm := All(cats)[i];
    LoadedHasNoHistory(All(db.listings), db.counters, bm.url);
    DistinctLinesStored(Open(db).core, All(cats), i);
    HeldInForce(db, cats, lower, bm);
  }

  /** A url stored twice, and one line that overrides it: the earlier bookmark stays as it was. */
  lemma EarlierCopyStaysStale(
      name: string, a: Bookmark, b: Bookmark, counters: Counters, cats: seq<Listing>, bm: Bookmark, lower: Lower)
    requires a.url == b.url == bm.url != "" && a.title != bm.title && All(cats) == [bm]
    ensures var db := Database([Listing(name, [a, b])], counters);
      a in Held(db, cats, lower, bm.url) && !InForce(Held(db, cats, lower, bm.url), bm)
  {
    var db := Database([Listing(name, [a, b])], counters);
    var s := All(db.listings);
    AllOne(Listing(name, [a, b]));
    TwoWithUrl(a, b);
    OverrideLeavesLastForm(db, cats, lower, bm.url);
    var held := Held(db, cats, lower, bm.url);
    assert a in multiset(Earlier(s, bm.url) + LastOf(FormsIn(db, cats, bm.url)));
    assert a in multiset(held);
    var k :| 0 <= k < |held| && held[k] == a;
    assert !Stores(held[k], bm);
  }

  lemma AllOne(l: Listing)
    ensures All([l]) == l.bookmarks
  {
    assert [l][1..] == [] && l.bookmarks + [] == l.bookmarks;
  }

  lemma TwoWithUrl(a: Bookmark, b: Bookmark)
    requires a.url == b.url
    ensures Earlier([a, b], a.url) == [a]
  {
    assert [a, b][..1] == [a] && [a][..0] == [];
    assert WithUrl([a], a.url) == [a];
  }

  // ---------------------------------------------------------------- without icons

  predicate NoIcons(s: seq<Bookmark>) { forall i :: 0 <= i < |s| ==> s[i].icon == None }

  /** The last bookmark with the url that had not occurred before in the same form. */
  function LastNew(s: seq<Bookmark>, u: string): Option<Bookmark>
  {
    if |s| == 0 then None
    else
      var init, bm := s[..|s| - 1], s[|s| - 1];
      if bm.url == u && bm !in init then Some(bm) else LastNew(init, u)
  }

  lemma {:induction false} FormsWithoutIcons(s: seq<Bookmark>, u: string)
    requires NoIcons(s)
    ensures forall x: Bookmark :: x in Forms(s, u) <==> x in s && x.url == u
    ensures LastNew(s, u) == if Forms(s, u) == [] then None else Some(Forms(s, u)[|Forms(s, u)| - 1])
  {
    if |s| > 0 {
      var init, bm := s[..|s| - 1], s[|s| - 1];
      FormsWithoutIcons(init, u);
      var forms := Forms(init, u);
      assert bm in forms <==> bm in init && bm.url == u;
      if forms != [] {
        assert forms[|forms| - 1] in init;
        assert forms[|forms| - 1].icon == None;
        assert Updated(forms[|forms| - 1], bm) == bm;
      }
      assert forall x :: x in s <==> x in init || x == bm;
    }
  }

  /** Without icons the last form is the last bookmark that was new when it came, counting the entry in
      the database first and then the lines in order. */
  lemma OverrideLeavesLastNew(db: Database, cats: seq<Listing>, lower: Lower, u: string)
    requires u != "" && NoIcons(Entry(All(db.listings), u)) && NoIcons(All(cats))
    ensures var newest := LastNew(Entry(All(db.listings), u) + All(cats), u);
      multiset(Held(db, cats, lower, u)) ==
        multiset(Earlier(All(db.listings), u) + if newest == None then [] else [newest.value])
  {
    OverrideLeavesLastForm(db, cats, lower, u);
    FormsWithoutIcons(Entry(All(db.listings), u) + All(cats), u);
  }

  // ---------------------------------------------------------------- an entry with an icon

  /** The last bookmark with the url. */
  function LastWith(s: seq<Bookmark>, u: string): Option<Bookmark>
  {
    if |s| == 0 then None
    else if s[|s| - 1].url == u then Some(s[|s| - 1]) else LastWith(s[..|s| - 1], u)
  }

  lemma {:induction false} FormsKeepIcon(s: seq<Bookmark>, entry: Bookmark, bms: seq<Bookmark>, u: string)
    requires Forms(s, u) == [entry] && entry.icon.Some? && NoIcons(bms)
    ensures var forms := Forms(s + bms, u);
      && (forall i :: 0 <= i < |forms| ==> forms[i].icon == entry.icon)
      && forms != []
      && forms[|forms| - 1] == match LastWith(bms, u) case None => entry case Some(bm) => bm.(icon := entry.icon)
  {
    if |bms| == 0 {
      assert s + bms == s;
    } else {
      var init, bm := bms[..|bms| - 1], bms[|bms| - 1];
      FormsKeepIcon(s, entry, init, u);
      FormsSnoc(s + init, bm, u);
      assert s + init + [bm] == s + bms;
      NextKeepsIcon(Forms(s + init, u), bm, u, entry.icon);
    }
  }

  lemma NextKeepsIcon(forms: seq<Bookmark>, bm: Bookmark, u: string, icon: Option<string>)
    requires forms != [] && icon.Some? && bm.icon == None
    requires forall i :: 0 <= i < |forms| ==> forms[i].icon == icon
    ensures NextForm(forms, bm, u) == if bm.url == u then forms + [bm.(icon := icon)] else forms
  {
  }

  /** An entry with an icon, and lines without: the last line of the url is always in force in the entry,
      with the stored icon. No line is ever ignored, as none equals a form that has the icon. */
  lemma StoredIconSurvives(db: Database, cats: seq<Listing>, lower: Lower, entry: Bookmark)
    requires Entry(All(db.listings), entry.url) == [entry] && entry.url != "" && entry.icon.Some?
    requires NoIcons(All(cats))
    ensures var u := entry.url;
      multiset(Held(db, cats, lower, u)) == multiset(Earlier(All(db.listings), u) + [WithIcon(entry, All(cats))])
  {
    OverrideLeavesLastForm(db, cats, lower, entry.url);
    LastFormWithIcon(entry, All(cats));
  }

  /** The last of the bookmarks with the url of the entry, with the entry's icon; the entry if none. */
  function WithIcon(entry: Bookmark, bms: seq<Bookmark>): Bookmark
  {
    match LastWith(bms, entry.url)
    case None => entry
    case Some(bm) => bm.(icon := entry.icon)
  }

  lemma LastFormWithIcon(entry: Bookmark, bms: seq<Bookmark>)
    requires entry.icon.Some? && NoIcons(bms)
    ensures LastOf(Forms([entry] + bms, entry.url)) == [WithIcon(entry, bms)]
  {
    FormsOfEntry([entry], entry.url);
    FormsKeepIcon([entry], entry, bms, entry.url);
  }
}
