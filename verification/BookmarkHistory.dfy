/** What create, update and find-dead guarantee about a bookmark database, over one command and over
    any sequence of them. */
module BookmarkHistory {
  import opened Sums
  import opened BookmarkLine
  import opened BookmarkCounters
  import opened BookmarkFile
  import opened BookmarkMerge
  import opened BookmarkUpdate

  // ---------------------------------------------------------------- the file holds the merged store

  lemma SumOfTwoParts(s: seq<Bookmark>, lo: nat, mid: nat, hi: nat, w: Bookmark -> int)
    requires lo <= mid <= hi <= |s|
    ensures Sum(s[lo..hi], w) == Sum(s[lo..mid], w) + Sum(s[mid..hi], w)
  {
    assert s[lo..hi] == s[lo..mid] + s[mid..hi];
    SumConcat(s[lo..mid], s[mid..hi], w);
  }

  lemma {:induction false} GroupsCover(ls: seq<Listing>, base: nat, store: seq<Bookmark>, w: Bookmark -> int)
    requires base + |All(ls)| <= |store|
    ensures GroupsInStore(Groups(ls, base), |store|)
    ensures Amount(Dump(Groups(ls, base), store), Any(), w) == Sum(store[base..base + |All(ls)|], w)
  {
    if |ls| > 0 {
      var next := base + |ls[0].bookmarks|;
      var g := Group(ls[0].name, Range(base, next));
      GroupsCover(ls[1..], next, store, w);
      AmountCons(g, Groups(ls[1..], next), store, Any(), w);
      DerefRange(base, next, store);
      SumOfTwoParts(store, base, next, base + |All(ls)|, w);
    }
  }

  lemma CoverGrows(groups: seq<Group>, name: string, n: nat, store: seq<Bookmark>, w: Bookmark -> int)
    requires n < |store| && GroupsInStore(groups, n)
    requires Amount(Dump(groups, store[..n]), Any(), w) == Sum(store[..n], w)
    ensures GroupsInStore(Shelve(groups, name, Range(n, |store|)), |store|)
    ensures Amount(Dump(Shelve(groups, name, Range(n, |store|)), store), Any(), w) == Sum(store, w)
  {
    var added := Range(n, |store|);
    DumpWeighs(groups, store[..n], store, Any(), w);
    ShelveWeighs(groups, name, added, store, Any(), w);
    DerefRange(n, |store|, store);
    assert store[n..] == store[n..|store|];
    SumOfTwoParts(store, 0, n, |store|, w);
    assert store[0..|store|] == store;
  }

  /** Every place of the store is in exactly one category, whatever is stored there. */
  lemma {:induction false} CategoriesCover(
      db: Database, cats: seq<Listing>, override: bool, store: seq<Bookmark>, w: Bookmark -> int)
    requires |store| == |AbsorbAll(Open(db), cats, override).core.store|
    ensures Amount(Dump(AbsorbAll(Open(db), cats, override).groups, store), Any(), w) == Sum(store, w)
  {
    if |cats| == 0 {
      GroupsCover(db.listings, 0, store, w);
      assert store[0..|store|] == store;
    } else {
      var s := AbsorbAll(Open(db), cats[..|cats| - 1], override);
      var n := |s.core.store|;
      CategoriesCover(db, cats[..|cats| - 1], override, store[..n], w);
      if n < |store| {
        CoverGrows(s.groups, cats[|cats| - 1].name, n, store, w);
      } else {
        assert store[..n] == store;
      }
    }
  }

  lemma {:induction false} QuietCategories(s: Session, cats: seq<Listing>, override: bool)
    requires Good(s) && |AbsorbAll(s, cats, override).core.store| == |s.core.store|
    ensures AbsorbAll(s, cats, override).groups == s.groups
  {
    if |cats| > 0 { QuietCategories(s, cats[..|cats| - 1], override); }
  }

  /** Whether or not it is written, the file is up to date with the session. */
  lemma FileIsCurrent(db: Database, cats: seq<Listing>, override: bool, lower: Lower)
    ensures var r := Update(db, cats, override, lower).db;
      var s := AbsorbAll(Open(db), cats, override);
      SameContent(r.listings, Dump(s.groups, s.core.store)) && r.counters == s.core.counters
  {
    var o := Open(db);
    var s := AbsorbAll(o, cats, override);
    if Update(db, cats, override, lower).written {
      SortKeepsContent(Dump(s.groups, s.core.store), lower);
    } else {
      AbsorbAllMerges(o, cats, override);
      QuietMerge(o.core, All(cats), override);
      QuietCategories(o, cats, override);
      OpenDumps(db);
    }
  }

  /** The file's bookmarks are those of the merged store, and its counters are the merged ones. */
  lemma FileHoldsStore(db: Database, cats: seq<Listing>, override: bool, lower: Lower)
    ensures var r := Update(db, cats, override, lower).db;
      var c := MergeAll(Open(db).core, All(cats), override);
      multiset(All(r.listings)) == multiset(c.store) && r.counters == c.counters
  {
    var r := Update(db, cats, override, lower).db;
    var s := AbsorbAll(Open(db), cats, override);
    var dumped := Dump(s.groups, s.core.store);
    FileIsCurrent(db, cats, override, lower);
    SameContentAll(r.listings, dumped);
    AbsorbAllMerges(Open(db), cats, override);
    forall x ensures multiset(All(dumped))[x] == multiset(s.core.store)[x] {
      CountIs(All(dumped), x);
      CountIs(s.core.store, x);
      AmountAll(dumped, Is(x));
      CategoriesCover(db, cats, override, s.core.store, Is(x));
    }
  }

  /** Counters that count the bookmarks before an update count them after it. */
  lemma UpdateKeepsConsistent(db: Database, cats: seq<Listing>, override: bool, lower: Lower)
    requires Consistent(db)
    ensures Consistent(Update(db, cats, override, lower).db)
  {
    var r := Update(db, cats, override, lower).db;
    FileHoldsStore(db, cats, override, lower);
    MergeKeepsCounters(Open(db).core, All(cats), override);
    AgreePermuted(r.counters, MergeAll(Open(db).core, All(cats), override).store, All(r.listings));
  }

  // ---------------------------------------------------------------- where bookmarks and urls go

  /** The incoming categories cut down to the urls that are new. */
  function FreshListings(cats: seq<Listing>, seen: set<string>): seq<Listing>
  {
    if |cats| == 0 then []
    else
      var init, cat := cats[..|cats| - 1], cats[|cats| - 1];
      FreshListings(init, seen) + [cat.(bookmarks := Fresh(cat.bookmarks, seen + UrlsOf(All(init))))]
  }

  /** The weight depends on the url alone for the urls that come in. */
  ghost predicate UrlDecides(w: Bookmark -> int, urls: set<string>)
  {
    forall a: Bookmark, b: Bookmark :: a.url == b.url && a.url in urls ==> w(a) == w(b)
  }

  lemma MergeWeighs(c: Core, bms: seq<Bookmark>, override: bool, w: Bookmark -> int)
    requires Indexed(c) && (override ==> UrlDecides(w, UrlsOf(bms)))
    ensures var r := MergeAll(c, bms, override);
      && SameWeight(c.store, r.store, w)
      && Sum(r.store[|c.store|..], w) == Sum(Fresh(bms, c.byUrl.Keys), w)
  {
    var r := MergeAll(c, bms, override);
    var added := Fresh(bms, c.byUrl.Keys);
    if override {
      MergeGrows(c, bms, override);
      SumEq(r.store[|c.store|..], added, w, w);
    } else {
      MergeAppends(c, bms);
      assert r.store[|c.store|..] == added;
    }
  }

  lemma UrlDecidesFewer(w: Bookmark -> int, urls: set<string>, more: set<string>)
    requires UrlDecides(w, more) && urls <= more
    ensures UrlDecides(w, urls)
  {
  }

  lemma UrlsOfInit(cats: seq<Listing>)
    requires |cats| > 0
    ensures UrlsOf(All(cats)) == UrlsOf(All(cats[..|cats| - 1])) + UrlsOf(cats[|cats| - 1].bookmarks)
  {
    var n := |cats| - 1;
    AllSnoc(cats, n);
    assert cats[..n + 1] == cats;
    UrlsConcat(All(cats[..n]), cats[n].bookmarks);
  }

  lemma {:induction false} AbsorbAllWeighs(
      s: Session, cats: seq<Listing>, override: bool, pick: string -> bool, w: Bookmark -> int)
    requires Good(s) && (override ==> UrlDecides(w, UrlsOf(All(cats))))
    ensures var r := AbsorbAll(s, cats, override);
      Amount(Dump(r.groups, r.core.store), pick, w)
        == Amount(Dump(s.groups, s.core.store), pick, w) + Amount(FreshListings(cats, s.core.byUrl.Keys), pick, w)
  {
    if |cats| > 0 {
      var init, cat := cats[..|cats| - 1], cats[|cats| - 1];
      var d := AbsorbAll(s, init, override);
      UrlsOfInit(cats);
      if override {
        UrlDecidesFewer(w, UrlsOf(All(init)), UrlsOf(All(cats)));
        UrlDecidesFewer(w, UrlsOf(cat.bookmarks), UrlsOf(All(cats)));
      }
      AbsorbAllWeighs(s, init, override, pick, w);
      AbsorbAllMerges(s, init, override);
      MergeUrls(s.core, All(init), override, "");
      MergeWeighs(d.core, cat.bookmarks, override, w);
      AbsorbWeighs(d, cat, override, pick, w);
      SumAppend(FreshListings(init, s.core.byUrl.Keys),
                cat.(bookmarks := Fresh(cat.bookmarks, s.core.byUrl.Keys + UrlsOf(All(init)))), InPicked(pick, w));
    }
  }

  lemma UpdateWeighs(
      db: Database, cats: seq<Listing>, override: bool, lower: Lower, pick: string -> bool, w: Bookmark -> int)
    requires override ==> UrlDecides(w, UrlsOf(All(cats)))
    ensures Amount(Update(db, cats, override, lower).db.listings, pick, w)
         == Amount(db.listings, pick, w) + Amount(FreshListings(cats, Open(db).core.byUrl.Keys), pick, w)
  {
    var s := AbsorbAll(Open(db), cats, override);
    FileIsCurrent(db, cats, override, lower);
    OpenDumps(db);
    AbsorbAllWeighs(Open(db), cats, override, pick, w);
    assert Amount(Dump(s.groups, s.core.store), pick, w)
        == Amount(Update(db, cats, override, lower).db.listings, pick, w);
  }

  /** An update without override leaves every stored bookmark in its category as it is, and adds to
      the category of its file the first line of every url the database does not have: nothing else. */
  lemma UpdateAddsExactlyTheNew(db: Database, cats: seq<Listing>, lower: Lower)
    ensures forall pick: string -> bool, x ::
      Copies(Update(db, cats, false, lower).db.listings, pick, x)
        == Copies(db.listings, pick, x) + Copies(FreshListings(cats, Open(db).core.byUrl.Keys), pick, x)
  {
    forall pick: string -> bool, x: Bookmark
      ensures Copies(Update(db, cats, false, lower).db.listings, pick, x)
           == Copies(db.listings, pick, x) + Copies(FreshListings(cats, Open(db).core.byUrl.Keys), pick, x)
    {
      UpdateWeighs(db, cats, false, lower, pick, Is(x));
    }
  }

  /** With or without override a url stays in the category it is in, and a new one goes to the
      category of the first file that has it. */
  lemma UrlsKeepTheirCategory(db: Database, cats: seq<Listing>, override: bool, lower: Lower,
                              pick: string -> bool, u: string)
    ensures Amount(Update(db, cats, override, lower).db.listings, pick, HasUrl(u))
         == Amount(db.listings, pick, HasUrl(u))
          + Amount(FreshListings(cats, Open(db).core.byUrl.Keys), pick, HasUrl(u))
  {
    UpdateWeighs(db, cats, override, lower, pick, HasUrl(u));
  }

  lemma {:induction false} FreshWithout(bms: seq<Bookmark>, seen: set<string>, x: Bookmark)
    requires x.url !in UrlsOf(bms)
    ensures Sum(Fresh(bms, seen), Is(x)) == 0
  {
    if |bms| > 0 {
      UrlsSnoc(bms);
      var init, bm := bms[..|bms| - 1], bms[|bms| - 1];
      FreshWithout(init, seen, x);
      SumAppend(Fresh(init, seen), bm, Is(x));
      assert Fresh(init, seen) + [] == Fresh(init, seen);
    }
  }

  lemma {:induction false} FreshListingsWithout(cats: seq<Listing>, seen: set<string>, pick: string -> bool,
                                                x: Bookmark)
    requires x.url !in UrlsOf(All(cats))
    ensures Copies(FreshListings(cats, seen), pick, x) == 0
  {
    if |cats| > 0 {
      var init, cat := cats[..|cats| - 1], cats[|cats| - 1];
      UrlsOfInit(cats);
      FreshListingsWithout(init, seen, pick, x);
      FreshWithout(cat.bookmarks, seen + UrlsOf(All(init)), x);
      SumAppend(FreshListings(init, seen), cat.(bookmarks := Fresh(cat.bookmarks, seen + UrlsOf(All(init)))),
                InPicked(pick, Is(x)));
    }
  }

  /** No update, with or without override, touches a bookmark whose url does not come in. */
  lemma OtherBookmarksUntouched(
      db: Database, cats: seq<Listing>, override: bool, lower: Lower, pick: string -> bool, x: Bookmark)
    requires x.url !in UrlsOf(All(cats))
    ensures Copies(Update(db, cats, override, lower).db.listings, pick, x) == Copies(db.listings, pick, x)
  {
    UpdateWeighs(db, cats, override, lower, pick, Is(x));
    FreshListingsWithout(cats, Open(db).core.byUrl.Keys, pick, x);
  }

  // ---------------------------------------------------------------- urls stay unique

  lemma PermutedUrlCount(a: seq<Bookmark>, b: seq<Bookmark>, u: string)
    requires multiset(a) == multiset(b)
    ensures UrlCount(a, u) == UrlCount(b, u)
  {
    SumPermutation(a, b, HasUrl(u));
  }

  lemma FileUrlCount(db: Database, cats: seq<Listing>, override: bool, lower: Lower, u: string)
    ensures UrlCount(All(Update(db, cats, override, lower).db.listings), u)
         == UrlCount(MergeAll(Open(db).core, All(cats), override).store, u)
  {
    FileHoldsStore(db, cats, override, lower);
    PermutedUrlCount(All(Update(db, cats, override, lower).db.listings),
                     MergeAll(Open(db).core, All(cats), override).store, u);
  }

  /** A url that comes in and is new is stored exactly once; the count of every other url stays. */
  lemma UpdateUrlCount(db: Database, cats: seq<Listing>, override: bool, lower: Lower, u: string)
    requires u != ""
    ensures UrlCount(All(Update(db, cats, override, lower).db.listings), u)
         == if u in UrlsOf(All(cats)) && UrlCount(All(db.listings), u) == 0 then 1 else UrlCount(All(db.listings), u)
  {
    var c := Open(db).core;
    FileUrlCount(db, cats, override, lower, u);
    MergeUrls(c, All(cats), override, u);
    UrlIndexedIff(c, u);
    SumNonNeg(c.store, HasUrl(u));
  }

  ghost predicate UniqueUrls(db: Database)
  {
    forall u :: u != "" ==> UrlCount(All(db.listings), u) <= 1
  }

  lemma UpdateKeepsUrlsUnique(db: Database, cats: seq<Listing>, override: bool, lower: Lower)
    requires UniqueUrls(db)
    ensures UniqueUrls(Update(db, cats, override, lower).db)
  {
    forall u | u != "" ensures UrlCount(All(Update(db, cats, override, lower).db.listings), u) <= 1 {
      UpdateUrlCount(db, cats, override, lower, u);
    }
  }

  lemma IncomingUrlsIndexed(db: Database, cats: seq<Listing>, override: bool, lower: Lower)
    requires AllHaveUrl(All(cats))
    ensures UrlsOf(All(cats)) <= Open(Update(db, cats, override, lower).db).core.byUrl.Keys
  {
    var r := Update(db, cats, override, lower).db;
    forall u | u in UrlsOf(All(cats)) ensures u in Open(r).core.byUrl {
      assert u != "";
      UpdateUrlCount(db, cats, override, lower, u);
      SumNonNeg(All(db.listings), HasUrl(u));
      UrlIndexedIff(Open(r).core, u);
    }
  }

  /** Without override a second run on the same files writes nothing. */
  lemma SecondUpdateWritesNothing(db: Database, files: seq<TextFile>, domainOf: DomainOf, lower: Lower)
    ensures var cats := ProcessFiles(files, domainOf);
      var r := Update(db, cats, false, lower).db;
      Update(r, cats, false, lower) == Outcome(false, r)
  {
    var cats := ProcessFiles(files, domainOf);
    FilesHaveUrl(files, domainOf);
    var r := Update(db, cats, false, lower).db;
    var c := Open(r).core;
    IncomingUrlsIndexed(db, cats, false, lower);
    MergeAppends(c, All(cats));
    NothingFresh(All(cats), c.byUrl.Keys);
    AbsorbAllMerges(Open(r), cats, false);
  }

  // ---------------------------------------------------------------- override

  lemma OneWithUrl(s: seq<Bookmark>, i: nat, j: nat)
    requires i < |s| && j < |s| && s[i].url == s[j].url && UrlCount(s, s[i].url) <= 1
    ensures i == j
  {
    if i != j {
      var w := HasUrl(s[i].url);
      SumWithout(s, j, w);
      var rest := Without(s, j);
      assert s[i] in multiset(s) && rest == s[..j] + s[j + 1..];
      var k := if i < j then i else i - 1;
      assert rest[k] == s[i];
      SumNonNeg(rest, w);
    }
  }

  lemma LoadedHasNoHistory(s: seq<Bookmark>, counters: Counters, u: string)
    ensures NoHistory(Load(s, counters), u)
  {
  }

  lemma OneStoresForAll(c: Core, bms: seq<Bookmark>, bm: Bookmark)
    requires Indexed(c) && bm.url in c.byUrl && Stores(Current(c, bm.url), bm)
    requires multiset(bms) == multiset(c.store) && UrlCount(bms, bm.url) <= 1
    ensures forall e :: e in bms && e.url == bm.url ==> Stores(e, bm)
  {
    PermutedUrlCount(bms, c.store, bm.url);
    forall e | e in bms && e.url == bm.url ensures Stores(e, bm) {
      assert e in multiset(c.store);
      var k :| 0 <= k < |c.store| && c.store[k] == e;
      OneWithUrl(c.store, k, c.byUrl[bm.url]);
    }
  }

  /** With override and distinct urls on both sides, every incoming line's url is stored exactly once,
      with the fields of the line. */
  lemma OverrideStoresEveryLine(db: Database, cats: seq<Listing>, lower: Lower, i: nat)
    requires UniqueUrls(db) && DistinctUrls(All(cats)) && AllHaveUrl(All(cats)) && i < |All(cats)|
    ensures var r := Update(db, cats, true, lower).db; var bm := All(cats)[i];
      && UrlCount(All(r.listings), bm.url) == 1
      && forall e :: e in All(r.listings) && e.url == bm.url ==> Stores(e, bm)
  {
    var r := Update(db, cats, true, lower).db;
    var bms := All(cats);
    var bm := bms[i];
    LoadedHasNoHistory(All(db.listings), db.counters, bm.url);
    DistinctLinesStored(Open(db).core, bms, i);
    FileHoldsStore(db, cats, true, lower);
    assert bm.url in UrlsOf(bms);
    UpdateUrlCount(db, cats, true, lower, bm.url);
    SumNonNeg(All(db.listings), HasUrl(bm.url));
    OneStoresForAll(MergeAll(Open(db).core, bms, true), All(r.listings), bm);
  }

  /** After the first run every line is stored, as the next run will find it. */
  lemma OverrideLeavesAllStored(db: Database, cats: seq<Listing>, lower: Lower)
    requires UniqueUrls(db) && DistinctUrls(All(cats)) && AllHaveUrl(All(cats))
    ensures AllStored(Open(Update(db, cats, true, lower).db).core, All(cats))
  {
    var c := Open(Update(db, cats, true, lower).db).core;
    IncomingUrlsIndexed(db, cats, true, lower);
    forall i | 0 <= i < |All(cats)|
      ensures All(cats)[i].url in c.byUrl && Stores(Current(c, All(cats)[i].url), All(cats)[i])
    {
      assert All(cats)[i].url in UrlsOf(All(cats));
      OverrideStoresEveryLine(db, cats, lower, i);
    }
  }

  /** A merge that changes no data leaves a sorted file as it is. */
  lemma SameDataSameFile(db: Database, cats: seq<Listing>, lower: Lower)
    requires Ordered(db.listings, lower)
    requires var r := MergeAll(Open(db).core, All(cats), true);
      r.store == Open(db).core.store && r.counters == db.counters
    ensures Update(db, cats, true, lower).db == db
  {
    var o := Open(db);
    AbsorbAllMerges(o, cats, true);
    QuietCategories(o, cats, true);
    OpenDumps(db);
    OrderedStays(db.listings, lower);
  }

  /** Running the same update with override again leaves the file's data equal. */
  lemma SecondOverrideChangesNothing(db: Database, cats: seq<Listing>, lower: Lower)
    requires Consistent(db) && UniqueUrls(db) && DistinctUrls(All(cats)) && AllHaveUrl(All(cats))
    ensures var r := Update(db, cats, true, lower).db; Update(r, cats, true, lower).db == r
  {
    var first := Update(db, cats, true, lower);
    var r := first.db;
    if first.written {
      OverrideLeavesAllStored(db, cats, lower);
      UpdateKeepsConsistent(db, cats, true, lower);
      MergeStored(Open(r).core, All(cats));
      var s := AbsorbAll(Open(db), cats, true);
      SortOrders(Dump(s.groups, s.core.store), lower);
      SameDataSameFile(r, cats, lower);
    }
  }

  // ---------------------------------------------------------------- whole histories

  datatype Command =
    | UpdateFrom(files: seq<TextFile>, override: bool)
    | KeepOnly(healthy: set<string>)

  function Apply(db: Database, cmd: Command, domainOf: DomainOf, lower: Lower): Database
  {
    match cmd
    case UpdateFrom(files, override) => Update(db, ProcessFiles(files, domainOf), override, lower).db
    case KeepOnly(healthy) => Healthy(db, healthy, lower)
  }

  function Run(db: Database, cmds: seq<Command>, domainOf: DomainOf, lower: Lower): Database
  {
    if |cmds| == 0 then db
    else Apply(Run(db, cmds[..|cmds| - 1], domainOf, lower), cmds[|cmds| - 1], domainOf, lower)
  }

  lemma UpdateKeepsOrdered(db: Database, cats: seq<Listing>, override: bool, lower: Lower)
    requires Ordered(db.listings, lower)
    ensures Ordered(Update(db, cats, override, lower).db.listings, lower)
  {
    var s := AbsorbAll(Open(db), cats, override);
    SortOrders(Dump(s.groups, s.core.store), lower);
  }

  lemma {:induction false} RunKeeps(db: Database, cmds: seq<Command>, domainOf: DomainOf, lower: Lower)
    requires Consistent(db) && Ordered(db.listings, lower)
    ensures var r := Run(db, cmds, domainOf, lower); Consistent(r) && Ordered(r.listings, lower)
  {
    if |cmds| > 0 {
      var before := Run(db, cmds[..|cmds| - 1], domainOf, lower);
      RunKeeps(db, cmds[..|cmds| - 1], domainOf, lower);
      match cmds[|cmds| - 1]
      case UpdateFrom(files, override) =>
        UpdateKeepsConsistent(before, ProcessFiles(files, domainOf), override, lower);
        UpdateKeepsOrdered(before, ProcessFiles(files, domainOf), override, lower);
      case KeepOnly(healthy) =>
        HealthyIsExact(before, healthy, lower);
    }
  }

  /** After create and any sequence of updates and healthy filterings the stored counters are what
      recalc_counters would give, none of them is zero or negative, and the file is sorted. */
  lemma CountersNeverDrift(files: seq<TextFile>, cmds: seq<Command>, domainOf: DomainOf, lower: Lower)
    ensures var r := Run(Create(files, domainOf, lower), cmds, domainOf, lower);
      && r.counters == Recalc(All(r.listings))
      && (forall k :: k in r.counters.domains ==> r.counters.domains[k] > 0)
      && (forall k :: k in r.counters.tags ==> r.counters.tags[k] > 0)
      && Ordered(r.listings, lower)
  {
    var ls := ProcessFiles(files, domainOf);
    RecountedIsConsistent(ls, lower);
    SortOrders(ls, lower);
    RunKeeps(Create(files, domainOf, lower), cmds, domainOf, lower);
    var r := Run(Create(files, domainOf, lower), cmds, domainOf, lower);
    AgreeIsRecalc(r.counters, All(r.listings));
    AgreePositive(r.counters, All(r.listings));
  }
}
