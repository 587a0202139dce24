/** cmd_update as it runs: bookmark objects changed in place and shared between the category lists
    and existing_by_url. */
module UpdateCommand {
  import opened BookmarkLine
  import opened BookmarkCounters
  import opened BookmarkFile
  import opened BookmarkMerge
  import opened BookmarkUpdate

  /** A bookmark dict, with its place among all of them. */
  class Item {
    var value: Bookmark
    ghost const place: nat

    constructor (value: Bookmark, ghost place: nat)
      ensures this.value == value && this.place == place
    {
      this.value := value;
      this.place := place;
    }
  }

  /** A category dict, holding the very objects the index holds. */
  datatype Shelf = Shelf(name: string, items: seq<Item>)

  /** The objects, in the order they came up, hold the bookmarks of the store. */
  ghost predicate HoldsStore(items: seq<Item>, store: seq<Bookmark>, repr: set<Item>)
    reads repr
  {
    |items| == |store| &&
    forall i :: 0 <= i < |items| ==> items[i] in repr && items[i].place == i && items[i].value == store[i]
  }

  predicate ShelfMatches(shelf: Shelf, group: Group, items: seq<Item>)
  {
    && shelf.name == group.name && |shelf.items| == |group.ids|
    && forall i :: 0 <= i < |shelf.items| ==> group.ids[i] < |items| && shelf.items[i] == items[group.ids[i]]
  }

  predicate ShelvesMatch(shelves: seq<Shelf>, groups: seq<Group>, items: seq<Item>)
  {
    |shelves| == |groups| && forall i :: 0 <= i < |shelves| ==> ShelfMatches(shelves[i], groups[i], items)
  }

  predicate IndexMatches(index: map<string, Item>, byUrl: map<string, nat>, items: seq<Item>)
  {
    index.Keys == byUrl.Keys && forall u :: u in index ==> byUrl[u] < |items| && index[u] == items[byUrl[u]]
  }

  lemma AppendAppend<T>(was: seq<T>, added: seq<T>, more: seq<T>)
    ensures was + added + more == was + (added + more)
  {
  }

  function AbsorbStep(override: bool): (Session, Listing, Session) -> bool
  {
    (s: Session, cat: Listing, t: Session) => Good(s) && t == Absorb(s, cat, override)
  }

  lemma {:induction false} AbsorbTrace(s: Session, cats: seq<Listing>, override: bool) returns (trace: seq<Session>)
    requires Good(s)
    ensures Path(trace, cats, AbsorbStep(override)) && trace[0] == s && trace[|cats|] == AbsorbAll(s, cats, override)
  {
    trace := [s];
    if |cats| > 0 {
      var n := |cats| - 1;
      var init := AbsorbTrace(s, cats[..n], override);
      var next := Absorb(init[n], cats[n], override);
      PathSnoc(init, cats[..n], cats[n], AbsorbStep(override), next);
      assert cats[..n] + [cats[n]] == cats;
      trace := init + [next];
    }
  }

  /** What has been loaded: the bookmarks, and the categories by their places. */
  type Found = (seq<Bookmark>, seq<Group>)

  function LoadStep(): (Found, Listing, Found) -> bool
  {
    (f: Found, l: Listing, g: Found) =>
      g.0 == f.0 + l.bookmarks && g.1 == f.1 + [Group(l.name, Range(|f.0|, |g.0|))]
  }

  lemma {:induction false} LoadTrace(ls: seq<Listing>) returns (trace: seq<Found>)
    ensures Path(trace, ls, LoadStep()) && trace[0] == ([], []) && trace[|ls|] == (All(ls), Groups(ls, 0))
  {
    trace := [([], [])];
    if |ls| > 0 {
      var n := |ls| - 1;
      var init := LoadTrace(ls[..n]);
      AllSnoc(ls, n);
      GroupsSnoc(ls, n);
      assert ls[..n + 1] == ls && ls[..n] + [ls[n]] == ls;
      PathSnoc(init, ls[..n], ls[n], LoadStep(), (All(ls), Groups(ls, 0)));
      trace := init + [(All(ls), Groups(ls, 0))];
    }
  }

  lemma KnownValues(index: map<string, Item>, byUrl: map<string, nat>, items: seq<Item>, store: seq<Bookmark>,
                    repr: set<Item>)
    requires HoldsStore(items, store, repr) && IndexMatches(index, byUrl, items)
    ensures (set u | u in index :: index[u].value) == set u | u in byUrl :: store[byUrl[u]]
  {
    forall u | u in index ensures index[u].value == store[byUrl[u]] {
    }
    assert forall u :: u in index <==> u in byUrl;
  }

  lemma IndexGrows(index: map<string, Item>, items: seq<Item>, item: Item, store: seq<Bookmark>, bm: Bookmark)
    requires |items| == |store| && IndexMatches(index, Index(store), items)
    ensures IndexMatches(if bm.url != "" then index[bm.url := item] else index, Index(store + [bm]), items + [item])
  {
    IndexSnoc(store, bm);
  }

  /** What an override makes of the store. */
  lemma OverrideFields(c: Core, bm: Bookmark, id: nat)
    requires Indexed(c) && bm !in c.known && bm.url in c.byUrl && c.byUrl[bm.url] == id
    ensures id < |c.store|
    ensures var now := Updated(c.store[id], bm); var r := Merge(c, bm, true);
      && r.store == c.store[id := now] && r.byUrl == c.byUrl && r.known == c.known + {now}
      && r.counters == Adjust(Adjust(c.counters, c.store[id], -1), now, 1) && r.updated == c.updated + 1
  {
  }

  lemma AddFields(c: Core, bm: Bookmark, override: bool)
    requires Indexed(c) && bm !in c.known && bm.url !in c.byUrl
    ensures var r := Merge(c, bm, override);
      && r.store == c.store + [bm] && r.byUrl == c.byUrl[bm.url := |c.store|] && r.known == c.known + {bm}
      && r.counters == Adjust(c.counters, bm, 1) && r.updated == c.updated
  {
  }

  class Updater {
    var shelves: seq<Shelf>
    var domains: map<string, int>
    var tags: map<string, int>
    var existingByUrl: map<string, Item>
    var known: set<Bookmark>
    var updated: nat
    /** Every bookmark object, and the value the fields stand for. */
    ghost var items: seq<Item>
    ghost var repr: set<Item>
    ghost var session: Session

    ghost predicate Valid()
      reads this, repr
    {
      Good(session) && Matches(session.core) && ShelvesMatch(shelves, session.groups, items)
    }

    ghost predicate Matches(c: Core)
      reads this, repr
    {
      && HoldsStore(items, c.store, repr)
      && IndexMatches(existingByUrl, c.byUrl, items)
      && known == c.known
      && Counters(domains, tags) == c.counters
      && updated == c.updated
    }

    /** Loads the file and indexes it by url. */
    constructor (db: Database)
      ensures Valid() && session == Open(db) && fresh(repr)
    {
      shelves, items, repr, existingByUrl, known, updated := [], [], {}, map[], {}, 0;
      domains, tags := db.counters.domains, db.counters.tags;
      session := Open(db);
      new;
      LoadCategories(db.listings);
      IndexKnown(db);
    }

    method IndexKnown(db: Database)
      requires Loaded(All(db.listings)) && ShelvesMatch(shelves, Groups(db.listings, 0), items)
      requires Counters(domains, tags) == db.counters && updated == 0 && session == Open(db)
      modifies this`known
      ensures Valid()
    {
      known := set u | u in existingByUrl :: existingByUrl[u].value;
      KnownValues(existingByUrl, Index(All(db.listings)), items, All(db.listings), repr);
      assert Matches(Load(All(db.listings), db.counters));
    }

    ghost predicate Loaded(store: seq<Bookmark>)
      reads this, repr
    {
      HoldsStore(items, store, repr) && IndexMatches(existingByUrl, Index(store), items)
    }

    method LoadCategories(ls: seq<Listing>)
      requires items == [] && repr == {} && existingByUrl == map[] && shelves == []
      modifies this`shelves, this`items, this`repr, this`existingByUrl
      ensures fresh(repr) && Loaded(All(ls)) && ShelvesMatch(shelves, Groups(ls, 0), items)
    {
      ghost var trace := LoadTrace(ls);
      for i := 0 to |ls|
        invariant fresh(repr) && Loaded(trace[i].0) && ShelvesMatch(shelves, trace[i].1, items)
      {
        LoadCategory(ls[i], trace[i].0);
        assert LoadStep()(trace[i], ls[i], trace[i + 1]);
      }
    }

    method LoadCategory(cat: Listing, ghost store: seq<Bookmark>)
      requires Loaded(store)
      modifies this`shelves, this`items, this`repr, this`existingByUrl
      ensures Loaded(store + cat.bookmarks) && fresh(repr - old(repr))
      ensures old(items) <= items && shelves == old(shelves) + [Shelf(cat.name, items[|store|..])]
    {
      var held: seq<Item> := [];
      ghost var was := items;
      assert store + cat.bookmarks[..0] == store && was + held == was;
      for j := 0 to |cat.bookmarks|
        invariant items == was + held && fresh(repr - old(repr)) && shelves == old(shelves)
        invariant Loaded(store + cat.bookmarks[..j])
      {
        var item := LoadOne(cat.bookmarks[j], store + cat.bookmarks[..j]);
        TakeOneMore(store, cat.bookmarks, j);
        AppendAppend(was, held, [item]);
        held := held + [item];
      }
      assert cat.bookmarks[..|cat.bookmarks|] == cat.bookmarks;
      shelves := shelves + [Shelf(cat.name, held)];
    }

    method LoadOne(bm: Bookmark, ghost store: seq<Bookmark>) returns (item: Item)
      requires Loaded(store)
      modifies this`items, this`repr, this`existingByUrl
      ensures Loaded(store + [bm]) && items == old(items) + [item] && fresh(repr - old(repr))
    {
      item := new Item(bm, |items|);
      IndexGrows(existingByUrl, items, item, store, bm);
      items := items + [item];
      repr := repr + {item};
      if bm.url != "" { existingByUrl := existingByUrl[bm.url := item]; }
      assert HoldsStore(items, store + [bm], repr);
    }

    method AdjustCounters(bm: Bookmark, delta: int)
      modifies this`domains, this`tags
      ensures Counters(domains, tags) == Adjust(Counters(old(domains), old(tags)), bm, delta)
    {
      if bm.domain != "" {
        domains := domains[bm.domain := Get(domains, bm.domain) + delta];
        if domains[bm.domain] <= 0 { domains := domains - {bm.domain}; }
        assert domains == Bump(old(domains), bm.domain, delta);
      }
      for i := 0 to |bm.tags|
        invariant domains == Adjust(Counters(old(domains), old(tags)), bm, delta).domains
        invariant tags == BumpAll(old(tags), bm.tags[..i], delta)
      {
        assert bm.tags[..i + 1][..i] == bm.tags[..i];
        var tag := bm.tags[i];
        ghost var was := tags;
        tags := tags[tag := Get(tags, tag) + delta];
        if tags[tag] <= 0 { tags := tags - {tag}; }
        assert tags == Bump(was, tag, delta);
      }
      assert bm.tags[..|bm.tags|] == bm.tags;
    }

    /** The url is known and may be overridden: the shared object changes in place. */
    method OverrideItem(bm: Bookmark)
      requires Valid() && bm !in known && bm.url in existingByUrl
      modifies this, repr
      ensures Matches(Merge(old(session.core), bm, true))
      ensures shelves == old(shelves) && items == old(items) && repr == old(repr) && session == old(session)
    {
      var was := existingByUrl[bm.url];
      ghost var c, id := session.core, session.core.byUrl[bm.url];
      OverrideFields(c, bm, id);
      AdjustCounters(was.value, -1);
      was.value := Updated(was.value, bm);
      AdjustCounters(was.value, 1);
      known := known + {was.value};
      updated := updated + 1;
      assert HoldsStore(items, c.store[id := was.value], repr);
    }

    /** A new url: a new object, in the index at once and in its category later. */
    method AddItem(bm: Bookmark, ghost override: bool) returns (item: Item)
      requires Valid() && bm !in known && bm.url !in existingByUrl
      modifies this
      ensures Matches(Merge(old(session.core), bm, override))
      ensures shelves == old(shelves) && session == old(session)
      ensures items == old(items) + [item] && fresh(repr - old(repr))
    {
      ghost var c := session.core;
      AddFields(c, bm, override);
      item := new Item(bm, |items|);
      AdjustCounters(bm, 1);
      existingByUrl := existingByUrl[bm.url := item];
      known := known + {bm};
      items := items + [item];
      repr := repr + {item};
      assert HoldsStore(items, c.store + [bm], repr);
    }

    /** One turn of the merge loop. */
    method MergeOne(bm: Bookmark, override: bool) returns (added: seq<Item>)
      requires Valid()
      modifies this, repr
      ensures Matches(Merge(old(session.core), bm, override))
      ensures shelves == old(shelves) && session == old(session)
      ensures items == old(items) + added && fresh(repr - old(repr))
    {
      added := [];
      assert items + [] == items;
      if bm in known { return; }
      if bm.url in existingByUrl {
        if override { OverrideItem(bm); }
      } else {
        var item := AddItem(bm, override);
        added := [item];
      }
    }

    /** The value the fields stand for moves on. */
    ghost method Advance(core: Core)
      requires Matches(core) && Indexed(core) && |session.core.store| <= |core.store|
      requires Good(session) && ShelvesMatch(shelves, session.groups, items)
      modifies this`session
      ensures Valid() && session == old(session).(core := core)
    {
      session := session.(core := core);
    }

    method MergeNext(bm: Bookmark, override: bool, ghost next: Core) returns (added: seq<Item>)
      requires Valid() && MergeStep(override)(session.core, bm, next)
      modifies this, repr
      ensures Valid() && shelves == old(shelves) && session == old(session).(core := next)
      ensures items == old(items) + added && fresh(repr - old(repr))
    {
      added := MergeOne(bm, override);
      Advance(next);
    }

    /** The merge loop over one new category; `added` are the objects that came up. */
    method MergeBookmarks(bms: seq<Bookmark>, override: bool, ghost trace: seq<Core>) returns (added: seq<Item>)
      requires Valid() && Path(trace, bms, MergeStep(override)) && trace[0] == session.core
      modifies this, repr
      ensures Valid() && shelves == old(shelves)
      ensures session == old(session).(core := trace[|bms|])
      ensures items == old(items) + added && fresh(repr - old(repr))
    {
      added := [];
      assert items + [] == items;
      ghost var was := items;
      for i := 0 to |bms|
        invariant Valid() && shelves == old(shelves)
        invariant session == old(session).(core := trace[i])
        invariant items == was + added && fresh(repr - old(repr))
      {
        assert MergeStep(override)(trace[i], bms[i], trace[i + 1]);
        var more := MergeNext(bms[i], override, trace[i + 1]);
        AppendAppend(was, added, more);
        added := added + more;
      }
    }

    /** Into the first category with the name, or a new category at the end. */
    method PutOnShelf(name: string, added: seq<Item>, ghost lo: nat)
      requires Valid() && lo <= |items| && added == items[lo..]
      modifies this`shelves, this`session
      ensures Valid()
      ensures session == old(session).(groups := Shelve(old(session.groups), name, Range(lo, |items|)))
    {
      ghost var ids := Range(lo, |items|);
      var at := 0;
      while at < |shelves| && shelves[at].name != name
        invariant at <= |shelves| && forall j :: 0 <= j < at ==> shelves[j].name != name
      {
        at := at + 1;
      }
      ShelveAt(session.groups, name, ids, at);
      ShelveFits(session.groups, name, ids, |items|);
      ShelvesMatchAt(shelves, session.groups, items, name, lo, at);
      if at < |shelves| {
        shelves := shelves[at := Shelf(name, shelves[at].items + added)];
      } else {
        shelves := shelves + [Shelf(name, added)];
      }
      session := session.(groups := Shelve(session.groups, name, ids));
    }

    /** One new category; `count` is what it adds. */
    method AbsorbCategory(cat: Listing, override: bool) returns (count: nat)
      requires Valid()
      modifies this, repr
      ensures Valid() && session == Absorb(old(session), cat, override)
      ensures fresh(repr - old(repr)) && |items| == |old(items)| + count
    {
      ghost var n := |items|;
      ghost var trace := MergeTrace(session.core, cat.bookmarks, override);
      var added := MergeBookmarks(cat.bookmarks, override, trace);
      assert items[n..] == added;
      if added != [] { PutOnShelf(cat.name, added, n); }
      count := |added|;
    }

    method AbsorbCategories(cats: seq<Listing>, override: bool) returns (addedTotal: nat)
      requires Valid()
      modifies this, repr
      ensures Valid() && session == AbsorbAll(old(session), cats, override)
      ensures fresh(repr - old(repr)) && |items| == |old(items)| + addedTotal
    {
      addedTotal := 0;
      ghost var trace := AbsorbTrace(session, cats, override);
      for i := 0 to |cats|
        invariant Valid() && fresh(repr - old(repr)) && |items| == |old(items)| + addedTotal
        invariant session == trace[i]
      {
        assert AbsorbStep(override)(trace[i], cats[i], trace[i + 1]);
        var count := AbsorbCategory(cats[i], override);
        addedTotal := addedTotal + count;
      }
    }

    /** The category lists as they are written. */
    method Listings() returns (ls: seq<Listing>)
      requires Valid()
      ensures ls == Dump(session.groups, session.core.store)
    {
      ls := [];
      for i := 0 to |shelves|
        invariant |ls| == i && forall k :: 0 <= k < i ==> ls[k] == Dump(session.groups, session.core.store)[k]
      {
        var held := shelves[i].items;
        assert ShelfMatches(shelves[i], session.groups[i], items);
        var bms := seq(|held|, j requires 0 <= j < |held| reads held => held[j].value);
        assert bms == Deref(session.groups[i].ids, session.core.store);
        ls := ls + [Listing(shelves[i].name, bms)];
      }
    }
  }

  lemma ShelvesMatchAt(
      shelves: seq<Shelf>, groups: seq<Group>, items: seq<Item>, name: string, lo: nat, at: nat)
    requires ShelvesMatch(shelves, groups, items) && lo <= |items| && at <= |shelves|
    ensures var ids := Range(lo, |items|);
      if at < |shelves| then
        ShelvesMatch(shelves[at := Shelf(name, shelves[at].items + items[lo..])],
                     groups[at := Group(name, groups[at].ids + ids)], items)
      else
        ShelvesMatch(shelves + [Shelf(name, items[lo..])], groups + [Group(name, ids)], items)
  {
    if at < |shelves| { assert ShelfMatches(shelves[at], groups[at], items); }
  }

  /** cmd_update on a loaded file. */
  method UpdateDatabase(db: Database, cats: seq<Listing>, override: bool, lower: Lower) returns (r: Outcome)
    ensures r == Update(db, cats, override, lower)
  {
    var u := new Updater(db);
    var addedTotal := u.AbsorbCategories(cats, override);
    if addedTotal == 0 && u.updated == 0 {
      r := Outcome(false, db);
    } else {
      var ls := u.Listings();
      r := Outcome(true, Database(SortListings(ls, lower), Counters(u.domains, u.tags)));
    }
  }

  lemma TakeOneMore(store: seq<Bookmark>, bms: seq<Bookmark>, j: nat)
    requires j < |bms|
    ensures store + bms[..j] + [bms[j]] == store + bms[..j + 1]
  {
  }

  lemma IndexSnoc(s: seq<Bookmark>, bm: Bookmark)
    ensures Index(s + [bm]) == if bm.url != "" then Index(s)[bm.url := |s|] else Index(s)
  {
    assert (s + [bm])[..|s|] == s;
  }

  lemma {:induction false} GroupsAppend(ls: seq<Listing>, l: Listing, base: nat)
    ensures var n := base + |All(ls)|;
      Groups(ls + [l], base) == Groups(ls, base) + [Group(l.name, Range(n, n + |l.bookmarks|))]
  {
    if |ls| == 0 {
      assert ls + [l] == [l] && [l][1..] == [];
    } else {
      assert (ls + [l])[1..] == ls[1..] + [l];
      GroupsAppend(ls[1..], l, base + |ls[0].bookmarks|);
    }
  }

  lemma GroupsSnoc(ls: seq<Listing>, i: nat)
    requires i < |ls|
    ensures var n := |All(ls[..i])|;
      Groups(ls[..i + 1], 0) == Groups(ls[..i], 0) + [Group(ls[i].name, Range(n, n + |ls[i].bookmarks|))]
  {
    assert ls[..i + 1] == ls[..i] + [ls[i]];
    GroupsAppend(ls[..i], ls[i], 0);
  }

  /** Shelving in terms of the position the search stops at. */
  lemma {:induction false} ShelveAt(groups: seq<Group>, name: string, ids: seq<nat>, at: nat)
    requires at <= |groups| && forall j :: 0 <= j < at ==> groups[j].name != name
    requires at < |groups| ==> groups[at].name == name
    ensures Shelve(groups, name, ids)
         == if at < |groups| then groups[at := Group(name, groups[at].ids + ids)] else groups + [Group(name, ids)]
  {
    if |groups| > 0 {
      if at > 0 { ShelveAt(groups[1..], name, ids, at - 1); }
      assert groups == [groups[0]] + groups[1..];
    }
  }
}
