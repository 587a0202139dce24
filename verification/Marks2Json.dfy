/** The commands of marks2json.py as they run: loops over categories and lines, counters edited in
    place, and bookmark objects shared between the category lists and the url index. */
module Marks2Json {
  import opened BookmarkLine
  import opened BookmarkCounters
  import opened BookmarkFile

  /** The counting both recalc_counters and the parser do for one bookmark. */
  method CountOne(bm: Bookmark, domains: map<string, int>, tags: map<string, int>)
    returns (d: map<string, int>, t: map<string, int>)
    ensures Counters(d, t) == Count(Counters(domains, tags), bm)
  {
    d, t := domains, tags;
    if bm.domain != "" {
      d := d[bm.domain := Get(d, bm.domain) + 1];
    }
    for i := 0 to |bm.tags|
      invariant t == IncAll(tags, bm.tags[..i])
    {
      assert bm.tags[..i + 1][..i] == bm.tags[..i];
      t := t[bm.tags[i] := Get(t, bm.tags[i]) + 1];
    }
    assert bm.tags[..|bm.tags|] == bm.tags;
  }

  lemma RecalcSnoc(bms: seq<Bookmark>, bm: Bookmark)
    ensures Recalc(bms + [bm]) == Count(Recalc(bms), bm)
  {
    assert (bms + [bm])[..|bms|] == bms;
  }

  /** The inner loop of recalc_counters, after the bookmarks in `prior`. */
  method CountAll(bms: seq<Bookmark>, domains: map<string, int>, tags: map<string, int>, ghost prior: seq<Bookmark>)
    returns (d: map<string, int>, t: map<string, int>)
    requires Counters(domains, tags) == Recalc(prior)
    ensures Counters(d, t) == Recalc(prior + bms)
  {
    d, t := domains, tags;
    assert prior + bms[..0] == prior;
    for j := 0 to |bms|
      invariant Counters(d, t) == Recalc(prior + bms[..j])
    {
      d, t := CountOne(bms[j], d, t);
      RecalcSnoc(prior + bms[..j], bms[j]);
      assert prior + bms[..j] + [bms[j]] == prior + bms[..j + 1];
    }
    assert bms[..|bms|] == bms;
  }

  method RecalcCounters(ls: seq<Listing>) returns (c: Counters)
    ensures c == Recalc(All(ls))
  {
    var domains, tags := map[], map[];
    for i := 0 to |ls|
      invariant Counters(domains, tags) == Recalc(All(ls[..i]))
    {
      domains, tags := CountAll(ls[i].bookmarks, domains, tags, All(ls[..i]));
      AllSnoc(ls, i);
    }
    assert ls[..|ls|] == ls;
    c := Counters(domains, tags);
  }

  lemma EntriesSnoc(lines: seq<SourceLine>, i: nat, domainOf: DomainOf)
    requires i < |lines|
    ensures Entries(lines[..i + 1], domainOf) == Entries(lines[..i], domainOf)
      + match Entry(lines[i], domainOf) case None => [] case Some(bm) => [bm]
  {
    assert lines[..i + 1][..i] == lines[..i];
    assert Entries(lines[..i], domainOf) + [] == Entries(lines[..i], domainOf);
  }

  lemma FilesSnoc(files: seq<TextFile>, i: nat, domainOf: DomainOf)
    requires i < |files|
    ensures var bms := Entries(files[i].lines, domainOf);
      ProcessFiles(files[..i + 1], domainOf)
        == ProcessFiles(files[..i], domainOf) + if bms == [] then [] else [Listing(files[i].category, bms)]
  {
    assert files[..i + 1][..i] == files[..i];
  }

  /** The lines of one file, after the bookmarks in `prior`. */
  method ReadLines(lines: seq<SourceLine>, domainOf: DomainOf, domains: map<string, int>, tags: map<string, int>,
                   ghost prior: seq<Bookmark>)
    returns (bms: seq<Bookmark>, d: map<string, int>, t: map<string, int>)
    requires Counters(domains, tags) == Recalc(prior)
    ensures bms == Entries(lines, domainOf) && Counters(d, t) == Recalc(prior + bms)
  {
    bms, d, t := [], domains, tags;
    assert prior + bms == prior;
    for j := 0 to |lines|
      invariant bms == Entries(lines[..j], domainOf)
      invariant Counters(d, t) == Recalc(prior + bms)
    {
      EntriesSnoc(lines, j, domainOf);
      var entry := Entry(lines[j], domainOf);
      if entry.Some? {
        d, t := CountOne(entry.value, d, t);
        RecalcSnoc(prior + bms, entry.value);
        assert prior + bms + [entry.value] == prior + (bms + [entry.value]);
        bms := bms + [entry.value];
      }
    }
    assert lines[..|lines|] == lines;
  }

  lemma AllAppend(ls: seq<Listing>, name: string, bms: seq<Bookmark>)
    ensures All(ls + [Listing(name, bms)]) == All(ls) + bms
  {
    var more := ls + [Listing(name, bms)];
    AllSnoc(more, |ls|);
    assert more[..|ls| + 1] == more && more[..|ls|] == ls;
  }

  /** process_files counts while it parses; the counters are those of the bookmarks it returns. */
  method ReadFiles(files: seq<TextFile>, domainOf: DomainOf) returns (ls: seq<Listing>, c: Counters)
    ensures ls == ProcessFiles(files, domainOf) && c == Recalc(All(ls))
  {
    ls := [];
    var domains, tags := map[], map[];
    for i := 0 to |files|
      invariant ls == ProcessFiles(files[..i], domainOf)
      invariant Counters(domains, tags) == Recalc(All(ls))
    {
      var bms;
      bms, domains, tags := ReadLines(files[i].lines, domainOf, domains, tags, All(ls));
      FilesSnoc(files, i, domainOf);
      assert ls + [] == ls && All(ls) + [] == All(ls);
      if bms != [] {
        AllAppend(ls, files[i].category, bms);
        ls := ls + [Listing(files[i].category, bms)];
      }
    }
    assert files[..|files|] == files;
    c := Counters(domains, tags);
  }

  method CreateDatabase(files: seq<TextFile>, domainOf: DomainOf, lower: Lower) returns (db: Database)
    ensures db == Create(files, domainOf, lower)
  {
    var ls, c := ReadFiles(files, domainOf);
    db := Database(SortListings(ls, lower), c);
  }

  method WriteHealthy(db: Database, healthy: set<string>, lower: Lower) returns (r: Database)
    ensures r == Healthy(db, healthy, lower)
  {
    var ls := [];
    for i := 0 to |db.listings|
      invariant ls == HealthyListings(db.listings[..i], healthy)
    {
      var bms := db.listings[i].bookmarks;
      var kept := [];
      for j := 0 to |bms|
        invariant kept == KeepHealthy(bms[..j], healthy)
      {
        assert bms[..j + 1][..j] == bms[..j];
        if bms[j].url in healthy { kept := kept + [bms[j]]; }
      }
      assert bms[..|bms|] == bms;
      assert db.listings[..i + 1][..i] == db.listings[..i];
      if kept != [] { ls := ls + [Listing(db.listings[i].name, kept)]; }
    }
    assert db.listings[..|db.listings|] == db.listings;
    var c := RecalcCounters(ls);
    r := Database(SortListings(ls, lower), c);
  }
}
