/** A bookmark database file: categories of bookmarks with their counters. How create builds one,
    how every command sorts it, and how find-dead filters it (marks2json.py). */
module BookmarkFile {
  import opened Wrappers
  import opened Sums
  import opened PyString
  import opened Sorting
  import opened BookmarkLine
  import opened BookmarkCounters

  datatype Listing = Listing(name: string, bookmarks: seq<Bookmark>)

  datatype Database = Database(listings: seq<Listing>, counters: Counters)

  /** Every bookmark, category by category. */
  function All(ls: seq<Listing>): seq<Bookmark>
  {
    if |ls| == 0 then [] else ls[0].bookmarks + All(ls[1..])
  }

  lemma {:induction false} AllConcat(a: seq<Listing>, b: seq<Listing>)
    ensures All(a + b) == All(a) + All(b)
  {
    if |a| == 0 {
      assert a + b == b;
    } else {
      assert (a + b)[1..] == a[1..] + b;
      AllConcat(a[1..], b);
    }
  }

  lemma AllSnoc(ls: seq<Listing>, i: nat)
    requires i < |ls|
    ensures All(ls[..i + 1]) == All(ls[..i]) + ls[i].bookmarks
  {
    assert ls[..i + 1] == ls[..i] + [ls[i]];
    AllConcat(ls[..i], [ls[i]]);
    assert [ls[i]][1..] == [];
    assert ls[i].bookmarks + [] == ls[i].bookmarks;
  }

  // ---------------------------------------------------------------- what is stored where

  ghost function InPicked(pick: string -> bool, w: Bookmark -> int): Listing -> int
  {
    (l: Listing) => if pick(l.name) then Sum(l.bookmarks, w) else 0
  }

  /** The summed weight of the bookmarks in the categories with a picked name. */
  ghost function Amount(ls: seq<Listing>, pick: string -> bool, w: Bookmark -> int): int
  {
    Sum(ls, InPicked(pick, w))
  }

  function Is(x: Bookmark): Bookmark -> int { (bm: Bookmark) => if bm == x then 1 else 0 }

  /** How many copies of x the picked categories hold. */
  ghost function Copies(ls: seq<Listing>, pick: string -> bool, x: Bookmark): int { Amount(ls, pick, Is(x)) }

  function Any(): string -> bool { (name: string) => true }

  lemma {:induction false} AmountAll(ls: seq<Listing>, w: Bookmark -> int)
    ensures Amount(ls, Any(), w) == Sum(All(ls), w)
  {
    if |ls| > 0 {
      SumTail(ls, InPicked(Any(), w));
      AmountAll(ls[1..], w);
      SumConcat(ls[0].bookmarks, All(ls[1..]), w);
    }
  }

  lemma {:induction false} CountIs(s: seq<Bookmark>, x: Bookmark)
    ensures multiset(s)[x] == Sum(s, Is(x))
  {
    if |s| > 0 {
      CountIs(s[..|s| - 1], x);
      assert s == s[..|s| - 1] + [s[|s| - 1]];
    }
  }

  /** Two lists of categories hold the same bookmarks under the same names. */
  ghost predicate SameContent(a: seq<Listing>, b: seq<Listing>)
  {
    forall pick: string -> bool, w: Bookmark -> int :: Amount(a, pick, w) == Amount(b, pick, w)
  }

  lemma SameContentAll(a: seq<Listing>, b: seq<Listing>)
    requires SameContent(a, b)
    ensures multiset(All(a)) == multiset(All(b))
  {
    forall x ensures multiset(All(a))[x] == multiset(All(b))[x] {
      CountIs(All(a), x);
      CountIs(All(b), x);
      AmountAll(a, Is(x));
      AmountAll(b, Is(x));
      assert Amount(a, Any(), Is(x)) == Amount(b, Any(), Is(x));
    }
  }

  // ---------------------------------------------------------------- sort_database

  /** str.lower is a parameter everywhere below. */
  type Lower = string -> string

  function SortKey(lower: Lower): Bookmark -> string
  {
    (bm: Bookmark) =>
      lower(Strip(if bm.title != "" then bm.title else if bm.description != "" then bm.description else bm.url))
  }

  function NameKey(lower: Lower): Listing -> string { (l: Listing) => lower(Strip(l.name)) }

  function Arrange(l: Listing, lower: Lower): Listing { l.(bookmarks := SortBy(l.bookmarks, SortKey(lower))) }

  function ArrangeAll(ls: seq<Listing>, lower: Lower): (r: seq<Listing>)
    ensures |r| == |ls|
  {
    seq(|ls|, i requires 0 <= i < |ls| => Arrange(ls[i], lower))
  }

  function SortListings(ls: seq<Listing>, lower: Lower): seq<Listing>
  {
    SortBy(ArrangeAll(ls, lower), NameKey(lower))
  }

  /** Sorting moves bookmarks only inside their category. */
  lemma SortKeepsContent(ls: seq<Listing>, lower: Lower)
    ensures SameContent(SortListings(ls, lower), ls)
  {
    var arranged := ArrangeAll(ls, lower);
    forall pick: string -> bool, w: Bookmark -> int
      ensures Amount(SortListings(ls, lower), pick, w) == Amount(ls, pick, w)
    {
      var f := InPicked(pick, w);
      forall i | 0 <= i < |ls| ensures f(arranged[i]) == f(ls[i]) {
        SumPermutation(arranged[i].bookmarks, ls[i].bookmarks, w);
      }
      SumEq(arranged, ls, f, f);
      SumPermutation(SortListings(ls, lower), arranged, f);
    }
  }

  /** Categories in order of name, bookmarks in order of title within each. */
  ghost predicate Ordered(ls: seq<Listing>, lower: Lower)
  {
    Sorted(ls, NameKey(lower)) && forall i :: 0 <= i < |ls| ==> Sorted(ls[i].bookmarks, SortKey(lower))
  }

  lemma SortOrders(ls: seq<Listing>, lower: Lower)
    ensures Ordered(SortListings(ls, lower), lower)
  {
    var arranged := ArrangeAll(ls, lower);
    var r := SortListings(ls, lower);
    SortSorts(arranged, NameKey(lower));
    forall i | 0 <= i < |r| ensures Sorted(r[i].bookmarks, SortKey(lower)) {
      assert r[i] in multiset(r);
      assert r[i] in multiset(arranged);
      var k :| 0 <= k < |arranged| && arranged[k] == r[i];
      SortSorts(ls[k].bookmarks, SortKey(lower));
    }
  }

  lemma OrderedStays(ls: seq<Listing>, lower: Lower)
    requires Ordered(ls, lower)
    ensures SortListings(ls, lower) == ls
  {
    forall i | 0 <= i < |ls| ensures ArrangeAll(ls, lower)[i] == ls[i] {
      SortedStays(ls[i].bookmarks, SortKey(lower));
    }
    assert ArrangeAll(ls, lower) == ls;
    SortedStays(ls, NameKey(lower));
  }

  // ---------------------------------------------------------------- reading text files

  /** A line with the icon address a lookup gave for it, if any. */
  datatype SourceLine = SourceLine(text: string, icon: Option<string>)

  datatype TextFile = TextFile(category: string, lines: seq<SourceLine>)

  /** get_domain is a parameter. */
  type DomainOf = string -> string

  predicate HasChannelIcon(url: string) { "https://www.youtube.com/@" <= url }

  function Entry(line: SourceLine, domainOf: DomainOf): Option<Bookmark>
  {
    match ParseFields(line.text)
    case None => None
    case Some(f) =>
      Some(Bookmark(f.title, f.url, f.description, f.tags, domainOf(f.url),
                    if HasChannelIcon(f.url) then line.icon else None))
  }

  function Entries(lines: seq<SourceLine>, domainOf: DomainOf): seq<Bookmark>
  {
    if |lines| == 0 then []
    else
      var rest := Entries(lines[..|lines| - 1], domainOf);
      match Entry(lines[|lines| - 1], domainOf)
      case None => rest
      case Some(bm) => rest + [bm]
  }

  /** process_files: one category for every file that yields a bookmark. */
  function ProcessFiles(files: seq<TextFile>, domainOf: DomainOf): seq<Listing>
  {
    if |files| == 0 then []
    else
      var last := files[|files| - 1];
      var bms := Entries(last.lines, domainOf);
      ProcessFiles(files[..|files| - 1], domainOf) + if bms == [] then [] else [Listing(last.category, bms)]
  }

  predicate AllHaveUrl(bms: seq<Bookmark>) { forall i :: 0 <= i < |bms| ==> bms[i].url != "" }

  lemma {:induction false} EntriesHaveUrl(lines: seq<SourceLine>, domainOf: DomainOf)
    ensures AllHaveUrl(Entries(lines, domainOf))
  {
    if |lines| > 0 { EntriesHaveUrl(lines[..|lines| - 1], domainOf); }
  }

  /** Every bookmark read from text files has a url. */
  lemma {:induction false} FilesHaveUrl(files: seq<TextFile>, domainOf: DomainOf)
    ensures AllHaveUrl(All(ProcessFiles(files, domainOf)))
  {
    if |files| > 0 {
      var init, last := files[..|files| - 1], files[|files| - 1];
      var bms := Entries(last.lines, domainOf);
      FilesHaveUrl(init, domainOf);
      EntriesHaveUrl(last.lines, domainOf);
      var more := if bms == [] then [] else [Listing(last.category, bms)];
      AllConcat(ProcessFiles(init, domainOf), more);
      assert more != [] ==> more[1..] == [];
    }
  }

  // ---------------------------------------------------------------- create

  function Create(files: seq<TextFile>, domainOf: DomainOf, lower: Lower): Database
  {
    var ls := ProcessFiles(files, domainOf);
    Database(SortListings(ls, lower), Recalc(All(ls)))
  }

  /** The stored counters count the stored bookmarks. */
  ghost predicate Consistent(db: Database) { Agree(db.counters, All(db.listings)) }

  lemma RecountedIsConsistent(ls: seq<Listing>, lower: Lower)
    ensures Consistent(Database(SortListings(ls, lower), Recalc(All(ls))))
  {
    RecalcAgrees(All(ls));
    SortKeepsContent(ls, lower);
    SameContentAll(SortListings(ls, lower), ls);
    AgreePermuted(Recalc(All(ls)), All(ls), All(SortListings(ls, lower)));
  }

  function Gives(domainOf: DomainOf, x: Bookmark): SourceLine -> int
  {
    (line: SourceLine) => if Entry(line, domainOf) == Some(x) then 1 else 0
  }

  /** How many lines of a file with a picked category give x. */
  ghost function LinesGiving(pick: string -> bool, domainOf: DomainOf, x: Bookmark): TextFile -> int
  {
    (f: TextFile) => if pick(f.category) then Sum(f.lines, Gives(domainOf, x)) else 0
  }

  lemma {:induction false} EntriesCount(lines: seq<SourceLine>, domainOf: DomainOf, x: Bookmark)
    ensures Sum(Entries(lines, domainOf), Is(x)) == Sum(lines, Gives(domainOf, x))
  {
    if |lines| > 0 {
      var init, last := lines[..|lines| - 1], lines[|lines| - 1];
      EntriesCount(init, domainOf, x);
      if Entry(last, domainOf).Some? {
        SumAppend(Entries(init, domainOf), Entry(last, domainOf).value, Is(x));
      }
    }
  }

  lemma {:induction false} FilesCount(files: seq<TextFile>, domainOf: DomainOf, pick: string -> bool, x: Bookmark)
    ensures Copies(ProcessFiles(files, domainOf), pick, x) == Sum(files, LinesGiving(pick, domainOf, x))
  {
    if |files| > 0 {
      var init, last := files[..|files| - 1], files[|files| - 1];
      var bms := Entries(last.lines, domainOf);
      FilesCount(init, domainOf, pick, x);
      EntriesCount(last.lines, domainOf, x);
      var before := ProcessFiles(init, domainOf);
      if bms == [] {
        assert before + [] == before;
        assert Sum(bms, Is(x)) == 0;
      } else {
        SumAppend(before, Listing(last.category, bms), InPicked(pick, Is(x)));
      }
    }
  }

  /** The created file holds, in the category of its file, one bookmark for every line that gives
      one, repeated lines included, and no other; its counters count them. */
  lemma CreateIsExact(files: seq<TextFile>, domainOf: DomainOf, lower: Lower)
    ensures var r := Create(files, domainOf, lower);
      && Consistent(r) && Ordered(r.listings, lower)
      && forall pick: string -> bool, x ::
           Copies(r.listings, pick, x) == Sum(files, LinesGiving(pick, domainOf, x))
  {
    var ls := ProcessFiles(files, domainOf);
    RecountedIsConsistent(ls, lower);
    SortOrders(ls, lower);
    SortKeepsContent(ls, lower);
    forall pick: string -> bool, x: Bookmark
      ensures Copies(SortListings(ls, lower), pick, x) == Sum(files, LinesGiving(pick, domainOf, x))
    {
      FilesCount(files, domainOf, pick, x);
    }
  }

  // ---------------------------------------------------------------- find-dead --healthy

  function KeepHealthy(bms: seq<Bookmark>, healthy: set<string>): seq<Bookmark>
  {
    if |bms| == 0 then []
    else KeepHealthy(bms[..|bms| - 1], healthy) + if bms[|bms| - 1].url in healthy then [bms[|bms| - 1]] else []
  }

  function HealthyListings(ls: seq<Listing>, healthy: set<string>): seq<Listing>
  {
    if |ls| == 0 then []
    else
      var last := ls[|ls| - 1];
      var kept := KeepHealthy(last.bookmarks, healthy);
      HealthyListings(ls[..|ls| - 1], healthy) + if kept == [] then [] else [Listing(last.name, kept)]
  }

  function Healthy(db: Database, healthy: set<string>, lower: Lower): Database
  {
    var ls := HealthyListings(db.listings, healthy);
    Database(SortListings(ls, lower), Recalc(All(ls)))
  }

  lemma {:induction false} KeepHealthyKeeps(bms: seq<Bookmark>, healthy: set<string>, x: Bookmark)
    ensures Sum(KeepHealthy(bms, healthy), Is(x)) == if x.url in healthy then Sum(bms, Is(x)) else 0
  {
    if |bms| > 0 {
      var init, last := bms[..|bms| - 1], bms[|bms| - 1];
      KeepHealthyKeeps(init, healthy, x);
      if last.url in healthy {
        SumAppend(KeepHealthy(init, healthy), last, Is(x));
      } else {
        assert KeepHealthy(init, healthy) + [] == KeepHealthy(init, healthy);
      }
    }
  }

  lemma {:induction false} HealthyListingsKeep(ls: seq<Listing>, healthy: set<string>, pick: string -> bool,
                                               x: Bookmark)
    ensures Copies(HealthyListings(ls, healthy), pick, x) == if x.url in healthy then Copies(ls, pick, x) else 0
  {
    if |ls| > 0 {
      var init, last := ls[..|ls| - 1], ls[|ls| - 1];
      var kept := KeepHealthy(last.bookmarks, healthy);
      HealthyListingsKeep(init, healthy, pick, x);
      KeepHealthyKeeps(last.bookmarks, healthy, x);
      if kept == [] {
        assert Sum(kept, Is(x)) == 0;
        assert HealthyListings(init, healthy) + [] == HealthyListings(init, healthy);
      } else {
        SumAppend(HealthyListings(init, healthy), Listing(last.name, kept), InPicked(pick, Is(x)));
      }
    }
  }

  /** Filtering keeps every copy of every bookmark with a healthy url, in its category, drops every
      other, and leaves counters that count what is kept. */
  lemma HealthyIsExact(db: Database, healthy: set<string>, lower: Lower)
    ensures var r := Healthy(db, healthy, lower);
      && Consistent(r) && Ordered(r.listings, lower)
      && forall pick: string -> bool, x ::
           Copies(r.listings, pick, x) == if x.url in healthy then Copies(db.listings, pick, x) else 0
  {
    var ls := HealthyListings(db.listings, healthy);
    RecountedIsConsistent(ls, lower);
    SortOrders(ls, lower);
    SortKeepsContent(ls, lower);
    forall pick: string -> bool, x: Bookmark
      ensures Copies(SortListings(ls, lower), pick, x) == if x.url in healthy then Copies(db.listings, pick, x) else 0
    {
      HealthyListingsKeep(db.listings, healthy, pick, x);
    }
  }
}
