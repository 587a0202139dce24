/** From the text of a bookmark file to what the database holds: the fields, the categories and the order
    in which lines are taken (marks2json.py). */
module BookmarkStored {
  import opened Wrappers
  import opened Sums
  import opened PyString
  import opened BookmarkLine
  import opened BookmarkFile
  import opened BookmarkMerge
  import opened BookmarkUpdate
  import opened BookmarkHistory

  // ---------------------------------------------------------------- the fields of one line

  /** What any line stores: its first two texts as title and description, its last url, all its tags, the
      url's domain, and the icon looked up for it if the url is that of a channel. */
  lemma EntryOfLine(line: SourceLine, domainOf: DomainOf)
    ensures var parts := Parts(SplitBar(line.text));
      match Entry(line, domainOf)
      case None => "#" <= Strip(line.text) || |parts| > 4 || Urls(parts) == []
      case Some(bm) =>
        && !("#" <= Strip(line.text)) && |parts| <= 4 && Urls(parts) != []
        && bm.title == Nth(Texts(parts), 0) && bm.description == Nth(Texts(parts), 1)
        && bm.url == Last(Urls(parts)) && bm.tags == AllTags(TagFields(parts))
        && bm.domain == domainOf(bm.url)
        && bm.icon == if "https://www.youtube.com/@" <= bm.url then line.icon else None
  {
    ParsedByKind(line.text);
  }

  /** A line in the documented form, before it is printed, and the icon looked up for it. */
  datatype Draft = Draft(title: string, url: string, description: string, tags: seq<string>, icon: Option<string>)

  predicate Clean(p: Draft)
  {
    && CleanText(p.title) && CleanUrl(p.url) && CleanText(p.description) && CleanTags(p.tags)
    && (p.description != "" ==> p.title != "")
  }

  function Printed(p: Draft): SourceLine
  {
    SourceLine(JoinBar(Pieces(p.title, p.url, p.description, p.tags)), p.icon)
  }

  function Stored(p: Draft, domainOf: DomainOf): Bookmark
  {
    Bookmark(p.title, p.url, p.description, p.tags, domainOf(p.url),
             if "https://www.youtube.com/@" <= p.url then p.icon else None)
  }

  lemma PrintedIsStored(p: Draft, domainOf: DomainOf)
    requires Clean(p)
    ensures Entry(Printed(p), domainOf) == Some(Stored(p, domainOf))
  {
    PrintedLineParses(p.title, p.url, p.description, p.tags);
  }

  // ---------------------------------------------------------------- lines and files in order

  /** Lines are taken one by one, in order. */
  lemma {:induction false} EntriesConcat(a: seq<SourceLine>, b: seq<SourceLine>, domainOf: DomainOf)
    ensures Entries(a + b, domainOf) == Entries(a, domainOf) + Entries(b, domainOf)
  {
    if |b| == 0 {
      assert a + b == a && Entries(a, domainOf) + [] == Entries(a, domainOf);
    } else {
      InitOfSum(a, b);
      EntriesConcat(a, b[..|b| - 1], domainOf);
    }
  }

  function AllPrinted(ps: seq<Draft>): (r: seq<SourceLine>)
    ensures |r| == |ps|
  {
    seq(|ps|, i requires 0 <= i < |ps| => Printed(ps[i]))
  }

  function AllStoredAs(ps: seq<Draft>, domainOf: DomainOf): (r: seq<Bookmark>)
    ensures |r| == |ps|
  {
    seq(|ps|, i requires 0 <= i < |ps| => Stored(ps[i], domainOf))
  }

  predicate AllClean(ps: seq<Draft>) { forall i :: 0 <= i < |ps| ==> Clean(ps[i]) }

  lemma EntriesOne(line: SourceLine, bm: Bookmark, domainOf: DomainOf)
    requires Entry(line, domainOf) == Some(bm)
    ensures Entries([line], domainOf) == [bm]
  {
    assert [line][..0] == [] && Entries([], domainOf) == [] && [] + [bm] == [bm];
  }

  /** The entry a list of drafts gives line by line. */
  predicate Give(ps: seq<Draft>, domainOf: DomainOf) { Entries(AllPrinted(ps), domainOf) == AllStoredAs(ps, domainOf) }

  lemma GiveSnoc(ps: seq<Draft>, p: Draft, domainOf: DomainOf)
    requires Give(ps, domainOf) && Clean(p)
    ensures Give(ps + [p], domainOf)
  {
    PrintedIsStored(p, domainOf);
    EntriesOne(Printed(p), Stored(p, domainOf), domainOf);
    EntriesConcat(AllPrinted(ps), [Printed(p)], domainOf);
    assert AllPrinted(ps + [p]) == AllPrinted(ps) + [Printed(p)];
    assert AllStoredAs(ps + [p], domainOf) == AllStoredAs(ps, domainOf) + [Stored(p, domainOf)];
  }

  /** What holds of the empty list and of one element more holds of every list. */
  lemma {:induction false} Snocs<T(!new)>(s: seq<T>, ok: T -> bool, q: seq<T> -> bool)
    requires q([]) && forall i :: 0 <= i < |s| ==> ok(s[i])
    requires forall p, x :: q(p) && ok(x) ==> q(p + [x])
    ensures q(s)
  {
    if |s| > 0 {
      var n := |s| - 1;
      Snocs(s[..n], ok, q);
      assert s[..n] + [s[n]] == s;
    }
  }

  /** A file of printed lines gives exactly their bookmarks, in order. */
  lemma PrintedFileEntries(ps: seq<Draft>, domainOf: DomainOf)
    requires AllClean(ps)
    ensures Entries(AllPrinted(ps), domainOf) == AllStoredAs(ps, domainOf)
  {
    var q: seq<Draft> -> bool := (s: seq<Draft>) => Give(s, domainOf);
    forall s, p: Draft | q(s) && Clean(p) ensures q(s + [p]) { GiveSnoc(s, p, domainOf); }
    assert AllPrinted([]) == [] && AllStoredAs([], domainOf) == [];
    Snocs(ps, Clean, q);
    assert q(ps);
  }

  lemma OneFile(name: string, ps: seq<Draft>, domainOf: DomainOf)
    requires AllClean(ps)
    ensures ProcessFiles([TextFile(name, AllPrinted(ps))], domainOf)
         == if ps == [] then [] else [Listing(name, AllStoredAs(ps, domainOf))]
  {
    var f := TextFile(name, AllPrinted(ps));
    PrintedFileEntries(ps, domainOf);
    assert [f][..0] == [] && ProcessFiles([], domainOf) == [];
    var ls := if ps == [] then [] else [Listing(name, AllStoredAs(ps, domainOf))];
    assert [] + ls == ls;
  }

  /** Files are taken one by one, in order. */
  lemma {:induction false} FilesConcat(a: seq<TextFile>, b: seq<TextFile>, domainOf: DomainOf)
    ensures ProcessFiles(a + b, domainOf) == ProcessFiles(a, domainOf) + ProcessFiles(b, domainOf)
  {
    if |b| == 0 {
      assert a + b == a && ProcessFiles(a, domainOf) + [] == ProcessFiles(a, domainOf);
    } else {
      InitOfSum(a, b);
      FilesConcat(a, b[..|b| - 1], domainOf);
    }
  }

  // ---------------------------------------------------------------- create

  /** A text file of printed lines becomes one category, under its name, holding for every line exactly one
      bookmark with the fields of the line. */
  lemma CreateStoresPrinted(name: string, ps: seq<Draft>, domainOf: DomainOf, lower: Lower)
    requires AllClean(ps)
    ensures var r := Create([TextFile(name, AllPrinted(ps))], domainOf, lower);
      && Consistent(r)
      && (ps == [] ==> r.listings == [])
      && (ps != [] ==>
            && |r.listings| == 1 && r.listings[0].name == name
            && multiset(r.listings[0].bookmarks) == multiset(AllStoredAs(ps, domainOf)))
  {
    OneFile(name, ps, domainOf);
    var ls := ProcessFiles([TextFile(name, AllPrinted(ps))], domainOf);
    RecountedIsConsistent(ls, lower);
    var r := SortListings(ls, lower);
    if ps != [] {
      assert r[0] in multiset(r);
      assert r[0] in multiset(ArrangeAll(ls, lower));
    }
  }

  lemma LineGiving(files: seq<TextFile>, i: nat, j: nat, bm: Bookmark, pick: string -> bool, domainOf: DomainOf)
    requires i < |files| && j < |files[i].lines| && Gives(domainOf, bm)(files[i].lines[j]) == 1
    requires pick(files[i].category)
    ensures Sum(files, LinesGiving(pick, domainOf, bm)) > 0
  {
    forall k | 0 <= k < |files| ensures LinesGiving(pick, domainOf, bm)(files[k]) >= 0 {
      SumNonNeg(files[k].lines, Gives(domainOf, bm));
    }
    SumNonNeg(files[i].lines, Gives(domainOf, bm));
    SumNonNeg(files, LinesGiving(pick, domainOf, bm));
    assert LinesGiving(pick, domainOf, bm)(files[i]) > 0;
  }

  lemma CreateCounts(files: seq<TextFile>, x: Bookmark, pick: string -> bool, domainOf: DomainOf, lower: Lower)
    ensures Copies(Create(files, domainOf, lower).listings, pick, x) == Sum(files, LinesGiving(pick, domainOf, x))
  {
    CreateIsExact(files, domainOf, lower);
  }

  /** In a database created from any files, every printed line is stored in the category of its file. */
  lemma CreateStoresEveryPrinted(files: seq<TextFile>, i: nat, j: nat, p: Draft, domainOf: DomainOf, lower: Lower)
    requires i < |files| && j < |files[i].lines| && files[i].lines[j] == Printed(p) && Clean(p)
    ensures var pick := (n: string) => n == files[i].category;
      Copies(Create(files, domainOf, lower).listings, pick, Stored(p, domainOf)) > 0
  {
    var pick := (n: string) => n == files[i].category;
    CreateCounts(files, Stored(p, domainOf), pick, domainOf, lower);
    PrintedIsStored(p, domainOf);
    LineGiving(files, i, j, Stored(p, domainOf), pick, domainOf);
  }

  // ---------------------------------------------------------------- update

  lemma MergeOneNew(c: Core, bm: Bookmark, override: bool)
    requires Indexed(c) && bm.url !in c.byUrl
    ensures MergeAll(c, [bm], override) == MergeAll(c, [bm], false)
    ensures |MergeAll(c, [bm], override).store| == |c.store| + 1
  {
    assert [bm][..0] == [];
  }

  lemma AbsorbOne(s: Session, l: Listing, override: bool)
    requires Good(s)
    ensures AbsorbAll(s, [l], override) == Absorb(s, l, override)
  {
    assert [l][..0] == [];
  }

  lemma AbsorbEitherWay(s: Session, l: Listing, bm: Bookmark, override: bool)
    requires Good(s) && l.bookmarks == [bm] && bm.url !in s.core.byUrl
    ensures Absorb(s, l, override) == Absorb(s, l, false)
    ensures |Absorb(s, l, override).core.store| == |s.core.store| + 1
  {
    MergeOneNew(s.core, bm, override);
  }

  lemma NewUrlEitherWay(db: Database, l: Listing, bm: Bookmark, override: bool, lower: Lower)
    requires l.bookmarks == [bm] && bm.url !in Open(db).core.byUrl
    ensures Update(db, [l], override, lower) == Update(db, [l], false, lower)
    ensures Update(db, [l], override, lower).written
  {
    AbsorbOne(Open(db), l, override);
    AbsorbOne(Open(db), l, false);
    AbsorbEitherWay(Open(db), l, bm, override);
  }

  lemma FreshOne(l: Listing, bm: Bookmark, seen: set<string>)
    requires l.bookmarks == [bm] && bm.url !in seen
    ensures FreshListings([l], seen) == [l]
  {
    assert [l][..0] == [] && [bm][..0] == [] && UrlsOf([]) == {};
    assert FreshListings([], seen) == [] && Fresh([], seen) == [];
    assert All([]) == [] && seen + {} == seen;
    assert Fresh([bm], seen) == [bm];
  }

  lemma CopiesOne(l: Listing, bm: Bookmark, pick: string -> bool, x: Bookmark)
    requires l.bookmarks == [bm]
    ensures Copies([l], pick, x) == if pick(l.name) && x == bm then 1 else 0
  {
    SumAppend([], bm, Is(x));
    SumAppend([], l, InPicked(pick, Is(x)));
    assert [] + [bm] == [bm] && [] + [l] == [l];
  }

  lemma UpdateAddsOne(db: Database, l: Listing, bm: Bookmark, override: bool, lower: Lower)
    requires l.bookmarks == [bm] && bm.url !in Open(db).core.byUrl
    ensures var r := Update(db, [l], override, lower);
      r.written && forall pick: string -> bool, x ::
        Copies(r.db.listings, pick, x) == Copies(db.listings, pick, x) + if pick(l.name) && x == bm then 1 else 0
  {
    NewUrlEitherWay(db, l, bm, override, lower);
    FreshOne(l, bm, Open(db).core.byUrl.Keys);
    UpdateAddsExactlyTheNew(db, [l], lower);
    forall pick: string -> bool, x: Bookmark
      ensures Copies([l], pick, x) == if pick(l.name) && x == bm then 1 else 0
    {
      CopiesOne(l, bm, pick, x);
    }
  }

  /** A printed line whose url the database does not have is added by an update, with or without override,
      exactly once, under the category of its file, with its fields; nothing else changes. */
  lemma UpdateStoresPrinted(db: Database, name: string, p: Draft, override: bool, domainOf: DomainOf, lower: Lower)
    requires Clean(p) && p.url !in Open(db).core.byUrl
    ensures var r := Update(db, ProcessFiles([TextFile(name, [Printed(p)])], domainOf), override, lower);
      r.written && forall pick: string -> bool, x ::
        Copies(r.db.listings, pick, x)
          == Copies(db.listings, pick, x) + if pick(name) && x == Stored(p, domainOf) then 1 else 0
  {
    assert AllPrinted([p]) == [Printed(p)] && AllStoredAs([p], domainOf) == [Stored(p, domainOf)];
    OneFile(name, [p], domainOf);
    UpdateAddsOne(db, Listing(name, [Stored(p, domainOf)]), Stored(p, domainOf), override, lower);
  }
}
