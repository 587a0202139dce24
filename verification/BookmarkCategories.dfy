/** Which categories a database file has, in what order, and when an update writes it (marks2json.py). */
module BookmarkCategories {
  import opened Sums
  import opened PyString
  import opened Sorting
  import opened BookmarkLine
  import opened BookmarkFile
  import opened BookmarkMerge
  import opened BookmarkUpdate
  import opened BookmarkHistory

  // ---------------------------------------------------------------- the order

  /** What a bookmark is sorted by: the first of title, description and url that is not empty. */
  predicate HasHeading(bm: Bookmark, heading: string)
  {
    || (heading != "" && heading == bm.title)
    || (heading != "" && bm.title == "" && heading == bm.description)
    || (bm.title == "" && bm.description == "" && heading == bm.url)
  }

  /** The stripped, lower-cased headings of the bookmarks ascend. */
  ghost predicate ByHeading(bms: seq<Bookmark>, lower: Lower)
  {
    forall i, j, a, b ::
      0 <= i <= j < |bms| && HasHeading(bms[i], a) && HasHeading(bms[j], b) ==> AtMost(lower(Strip(a)), lower(Strip(b)))
  }

  lemma SortedByHeading(bms: seq<Bookmark>, lower: Lower)
    requires Sorted(bms, SortKey(lower))
    ensures ByHeading(bms, lower)
  {
    forall i, j, a, b | 0 <= i <= j < |bms| && HasHeading(bms[i], a) && HasHeading(bms[j], b)
      ensures AtMost(lower(Strip(a)), lower(Strip(b)))
    {
      SortedPair(bms, SortKey(lower), i, j);
    }
  }

  /** In a sorted file the stripped, lower-cased names of the categories ascend by code points, and so do
      the headings of the bookmarks within each. */
  lemma OrderedMeans(ls: seq<Listing>, lower: Lower)
    requires Ordered(ls, lower)
    ensures forall i, j :: 0 <= i <= j < |ls| ==> AtMost(lower(Strip(ls[i].name)), lower(Strip(ls[j].name)))
    ensures forall c :: 0 <= c < |ls| ==> ByHeading(ls[c].bookmarks, lower)
  {
    forall i, j | 0 <= i <= j < |ls| ensures AtMost(lower(Strip(ls[i].name)), lower(Strip(ls[j].name))) {
      SortedPair(ls, NameKey(lower), i, j);
    }
    forall c | 0 <= c < |ls| ensures ByHeading(ls[c].bookmarks, lower) {
      SortedByHeading(ls[c].bookmarks, lower);
    }
  }

  // ---------------------------------------------------------------- the categories of a created file

  function Named(name: string): Listing -> int { (l: Listing) => if l.name == name then 1 else 0 }

  function Hollow(): Listing -> int { (l: Listing) => if l.bookmarks == [] then 1 else 0 }

  /** How many categories have the name. */
  ghost function NameCount(ls: seq<Listing>, name: string): int { Sum(ls, Named(name)) }

  ghost predicate NoneHollow(ls: seq<Listing>) { Sum(ls, Hollow()) == 0 }

  lemma NoneHollowMeans(ls: seq<Listing>)
    ensures NoneHollow(ls) <==> forall i :: 0 <= i < |ls| ==> ls[i].bookmarks != []
  {
    SumNonNeg(ls, Hollow());
    if NoneHollow(ls) {
      forall i | 0 <= i < |ls| ensures ls[i].bookmarks != [] { assert Hollow()(ls[i]) <= 0; }
    }
    if forall i :: 0 <= i < |ls| ==> ls[i].bookmarks != [] { SumZero(ls, Hollow()); }
  }

  lemma SortKeepsNames(ls: seq<Listing>, lower: Lower, name: string)
    ensures NameCount(SortListings(ls, lower), name) == NameCount(ls, name)
    ensures NoneHollow(SortListings(ls, lower)) <==> NoneHollow(ls)
  {
    var arranged := ArrangeAll(ls, lower);
    SumPermutation(SortListings(ls, lower), arranged, Named(name));
    SumPermutation(SortListings(ls, lower), arranged, Hollow());
    SumEq(arranged, ls, Named(name), Named(name));
    SumEq(arranged, ls, Hollow(), Hollow());
  }

  /** The file has the category and gives at least one bookmark. */
  function FileFor(name: string, domainOf: DomainOf): TextFile -> int
  {
    (f: TextFile) => if f.category == name && Entries(f.lines, domainOf) != [] then 1 else 0
  }

  lemma {:induction false} FilesCategories(files: seq<TextFile>, domainOf: DomainOf, name: string)
    ensures NameCount(ProcessFiles(files, domainOf), name) == Sum(files, FileFor(name, domainOf))
    ensures NoneHollow(ProcessFiles(files, domainOf))
  {
    if |files| > 0 {
      var init, last := files[..|files| - 1], files[|files| - 1];
      var ls, bms := ProcessFiles(init, domainOf), Entries(last.lines, domainOf);
      FilesCategories(init, domainOf, name);
      if bms == [] {
        assert ls + [] == ls;
      } else {
        SumAppend(ls, Listing(last.category, bms), Named(name));
        SumAppend(ls, Listing(last.category, bms), Hollow());
      }
    }
  }

  /** A created file has exactly one category for every text file that gives a bookmark, and none that is
      empty. */
  lemma CreateCategories(files: seq<TextFile>, domainOf: DomainOf, lower: Lower, name: string)
    ensures var r := Create(files, domainOf, lower);
      && NameCount(r.listings, name) == Sum(files, FileFor(name, domainOf))
      && forall i :: 0 <= i < |r.listings| ==> r.listings[i].bookmarks != []
  {
    FilesCategories(files, domainOf, name);
    SortKeepsNames(ProcessFiles(files, domainOf), lower, name);
    NoneHollowMeans(Create(files, domainOf, lower).listings);
  }

  // ---------------------------------------------------------------- the categories that stay healthy

  predicate AnyHealthy(bms: seq<Bookmark>, healthy: set<string>)
  {
    exists i :: 0 <= i < |bms| && bms[i].url in healthy
  }

  function HealthyFor(name: string, healthy: set<string>): Listing -> int
  {
    (l: Listing) => if l.name == name && AnyHealthy(l.bookmarks, healthy) then 1 else 0
  }

  lemma {:induction false} SomeKept(bms: seq<Bookmark>, healthy: set<string>)
    ensures KeepHealthy(bms, healthy) != [] <==> AnyHealthy(bms, healthy)
  {
    if |bms| > 0 {
      var init := bms[..|bms| - 1];
      SomeKept(init, healthy);
      if AnyHealthy(init, healthy) {
        var i :| 0 <= i < |init| && init[i].url in healthy;
        assert bms[i].url in healthy;
      }
    }
  }

  lemma {:induction false} HealthyCategories(ls: seq<Listing>, healthy: set<string>, name: string)
    ensures NameCount(HealthyListings(ls, healthy), name) == Sum(ls, HealthyFor(name, healthy))
    ensures NoneHollow(HealthyListings(ls, healthy))
  {
    if |ls| > 0 {
      var init, last := ls[..|ls| - 1], ls[|ls| - 1];
      var kept := KeepHealthy(last.bookmarks, healthy);
      var r := HealthyListings(init, healthy);
      HealthyCategories(init, healthy, name);
      SomeKept(last.bookmarks, healthy);
      if kept == [] {
        assert r + [] == r;
      } else {
        SumAppend(r, Listing(last.name, kept), Named(name));
        SumAppend(r, Listing(last.name, kept), Hollow());
      }
    }
  }

  /** Filtering keeps exactly the categories with a healthy bookmark. */
  lemma HealthyKeepsCategories(db: Database, healthy: set<string>, lower: Lower, name: string)
    ensures var r := Healthy(db, healthy, lower);
      && NameCount(r.listings, name) == Sum(db.listings, HealthyFor(name, healthy))
      && forall i :: 0 <= i < |r.listings| ==> r.listings[i].bookmarks != []
  {
    HealthyCategories(db.listings, healthy, name);
    SortKeepsNames(HealthyListings(db.listings, healthy), lower, name);
    NoneHollowMeans(Healthy(db, healthy, lower).listings);
  }

  /** Filtering leaves what it keeps in order. */
  lemma {:induction false} KeepsOrder(a: seq<Bookmark>, b: seq<Bookmark>, healthy: set<string>)
    ensures KeepHealthy(a + b, healthy) == KeepHealthy(a, healthy) + KeepHealthy(b, healthy)
  {
    if |b| == 0 {
      assert a + b == a && KeepHealthy(a, healthy) + [] == KeepHealthy(a, healthy);
    } else {
      InitOfSum(a, b);
      KeepsOrder(a, b[..|b| - 1], healthy);
    }
  }

  // ---------------------------------------------------------------- the categories of an updated file

  function GroupNamed(name: string): Group -> int { (g: Group) => if g.name == name then 1 else 0 }

  ghost function GroupCount(groups: seq<Group>, name: string): int { Sum(groups, GroupNamed(name)) }

  /** Additions go to the end of the first category with the name, or to a new category at the end. */
  lemma {:induction false} ShelvesFirst(groups: seq<Group>, name: string, ids: seq<nat>, k: nat)
    requires k <= |groups| && forall i :: 0 <= i < k ==> groups[i].name != name
    requires k < |groups| ==> groups[k].name == name
    ensures Shelve(groups, name, ids)
         == if k < |groups| then groups[k := Group(name, groups[k].ids + ids)] else groups + [Group(name, ids)]
  {
    if k > 0 {
      ShelvesFirst(groups[1..], name, ids, k - 1);
    } else if |groups| > 0 {
      assert [Group(name, groups[0].ids + ids)] + groups[1..] == groups[0 := Group(name, groups[0].ids + ids)];
    }
  }

  lemma {:induction false} ShelveCounts(groups: seq<Group>, name: string, ids: seq<nat>, n: string)
    ensures GroupCount(groups, n) >= 0
    ensures GroupCount(Shelve(groups, name, ids), n)
         == GroupCount(groups, n) + if n == name && GroupCount(groups, n) == 0 then 1 else 0
  {
    SumNonNeg(groups, GroupNamed(n));
    if |groups| == 0 {
      SumAppend([], Group(name, ids), GroupNamed(n));
      assert [] + [Group(name, ids)] == [Group(name, ids)];
    } else {
      ShelveCounts(groups[1..], name, ids, n);
      SumTail(groups, GroupNamed(n));
      SumTail(Shelve(groups, name, ids), GroupNamed(n));
      SumNonNeg(groups[1..], GroupNamed(n));
    }
  }

  /** Some incoming category with the name brings a new url. */
  predicate Adds(cats: seq<Listing>, seen: set<string>, name: string)
  {
    exists k :: 0 <= k < |FreshListings(cats, seen)| &&
      FreshListings(cats, seen)[k].name == name && FreshListings(cats, seen)[k].bookmarks != []
  }

  lemma AddsSnoc(cats: seq<Listing>, seen: set<string>, name: string)
    requires |cats| > 0
    ensures var init, cat := cats[..|cats| - 1], cats[|cats| - 1];
      Adds(cats, seen, name) <==>
        Adds(init, seen, name) || (cat.name == name && Fresh(cat.bookmarks, seen + UrlsOf(All(init))) != [])
  {
    var init, cat := cats[..|cats| - 1], cats[|cats| - 1];
    var f, g := FreshListings(init, seen), FreshListings(cats, seen);
    assert g == f + [cat.(bookmarks := Fresh(cat.bookmarks, seen + UrlsOf(All(init))))];
    if Adds(init, seen, name) {
      var k :| 0 <= k < |f| && f[k].name == name && f[k].bookmarks != [];
      assert g[k] == f[k];
    }
    if Adds(cats, seen, name) {
      var k :| 0 <= k < |g| && g[k].name == name && g[k].bookmarks != [];
      if k < |f| { assert f[k] == g[k]; }
    }
    assert g[|f|].name == cat.name;
  }

  /** How many categories of the name there are after categories that do or do not add to it. */
  function Kept(before: int, adds: bool): int { if before > 0 then before else if adds then 1 else 0 }

  lemma AbsorbCategories(s: Session, cat: Listing, override: bool, n: string)
    requires Good(s)
    ensures GroupCount(Absorb(s, cat, override).groups, n)
         == Kept(GroupCount(s.groups, n), cat.name == n && Fresh(cat.bookmarks, s.core.byUrl.Keys) != [])
  {
    var core := MergeAll(s.core, cat.bookmarks, override);
    MergeGrows(s.core, cat.bookmarks, override);
    ShelveCounts(s.groups, cat.name, Range(|s.core.store|, |core.store|), n);
  }

  lemma {:induction false} AbsorbAllCategories(s: Session, cats: seq<Listing>, override: bool, n: string)
    requires Good(s)
    ensures GroupCount(AbsorbAll(s, cats, override).groups, n)
         == Kept(GroupCount(s.groups, n), Adds(cats, s.core.byUrl.Keys, n))
  {
    SumNonNeg(s.groups, GroupNamed(n));
    if |cats| > 0 {
      var init, cat := cats[..|cats| - 1], cats[|cats| - 1];
      var d := AbsorbAll(s, init, override);
      AbsorbAllCategories(s, init, override, n);
      AddsSnoc(cats, s.core.byUrl.Keys, n);
      AbsorbAllMerges(s, init, override);
      MergeUrls(s.core, All(init), override, "");
      AbsorbCategories(d, cat, override, n);
    }
  }

  lemma DumpNames(groups: seq<Group>, store: seq<Bookmark>, n: string)
    requires GroupsInStore(groups, |store|)
    ensures NameCount(Dump(groups, store), n) == GroupCount(groups, n)
  {
    SumEq(Dump(groups, store), groups, Named(n), GroupNamed(n));
  }

  /** An update keeps every category there is, and makes a new one exactly for each new name that a new url
      comes in under: one, however many files have the name. */
  lemma UpdateCategories(db: Database, cats: seq<Listing>, override: bool, lower: Lower, n: string)
    ensures NameCount(Update(db, cats, override, lower).db.listings, n)
         == Kept(NameCount(db.listings, n), Adds(cats, Open(db).core.byUrl.Keys, n))
  {
    var o := Open(db);
    var s := AbsorbAll(o, cats, override);
    OpenDumps(db);
    DumpNames(o.groups, o.core.store, n);
    DumpNames(s.groups, s.core.store, n);
    AbsorbAllCategories(o, cats, override, n);
    if Update(db, cats, override, lower).written {
      SortKeepsNames(Dump(s.groups, s.core.store), lower, n);
    } else {
      AbsorbAllMerges(o, cats, override);
      QuietMerge(o.core, All(cats), override);
      QuietCategories(o, cats, override);
    }
  }

  // ---------------------------------------------------------------- when the file is written

  /** At its turn the line is neither known nor, without override, of a url there is already. */
  predicate Changes(c: Core, bm: Bookmark, override: bool) { bm !in c.known && (override || bm.url !in c.byUrl) }

  /** Some element satisfies q together with those before it. */
  predicate SomeTurn<T>(s: seq<T>, q: (seq<T>, T) -> bool) { exists i :: 0 <= i < |s| && q(s[..i], s[i]) }

  lemma SomeTurnSnoc<T>(s: seq<T>, q: (seq<T>, T) -> bool)
    requires |s| > 0
    ensures SomeTurn(s, q) <==> SomeTurn(s[..|s| - 1], q) || q(s[..|s| - 1], s[|s| - 1])
  {
    var n := |s| - 1;
    forall i | 0 <= i < n ensures s[..n][..i] == s[..i] && s[..n][i] == s[i] {}
    if SomeTurn(s[..n], q) {
      var i :| 0 <= i < n && q(s[..n][..i], s[..n][i]);
      assert q(s[..i], s[i]);
    }
    if SomeTurn(s, q) {
      var i :| 0 <= i < |s| && q(s[..i], s[i]);
      if i < n { assert q(s[..n][..i], s[..n][i]); }
    }
  }

  function ChangesAfter(c: Core, override: bool): (seq<Bookmark>, Bookmark) -> bool
    requires Indexed(c)
  {
    (before: seq<Bookmark>, bm: Bookmark) => Changes(MergeAll(c, before, override), bm, override)
  }

  ghost predicate Moved(c: Core, r: Core) { r.updated > c.updated || |r.store| > |c.store| }

  lemma MergeMoves(c: Core, d: Core, bm: Bookmark, override: bool)
    requires Indexed(d) && d.updated >= c.updated && |d.store| >= |c.store|
    ensures Moved(c, Merge(d, bm, override)) <==> Moved(c, d) || Changes(d, bm, override)
  {
  }

  lemma {:induction false} MovesIff(c: Core, bms: seq<Bookmark>, override: bool)
    requires Indexed(c)
    ensures Moved(c, MergeAll(c, bms, override)) <==> SomeTurn(bms, ChangesAfter(c, override))
  {
    if |bms| > 0 {
      var n := |bms| - 1;
      MovesIff(c, bms[..n], override);
      SomeTurnSnoc(bms, ChangesAfter(c, override));
      QuietMerge(c, bms[..n], override);
      MergeMoves(c, MergeAll(c, bms[..n], override), bms[n], override);
    }
  }

  /** The file is written exactly when some line, at its turn, is not known and is of a new url or comes with
      override; otherwise it is left as it is. */
  lemma WrittenIff(db: Database, cats: seq<Listing>, override: bool, lower: Lower)
    ensures Update(db, cats, override, lower).written <==>
      SomeTurn(All(cats), ChangesAfter(Open(db).core, override))
    ensures !Update(db, cats, override, lower).written ==> Update(db, cats, override, lower).db == db
  {
    var o := Open(db);
    AbsorbAllMerges(o, cats, override);
    MovesIff(o.core, All(cats), override);
    QuietMerge(o.core, All(cats), override);
  }
}
