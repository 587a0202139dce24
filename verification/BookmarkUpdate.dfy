/** cmd_update in marks2json.py as a whole: load a database file, merge the new categories into it and
    write it back sorted, or not write at all. */
module BookmarkUpdate {
  import opened Sums
  import opened BookmarkLine
  import opened BookmarkFile
  import opened BookmarkMerge

  /** A category whose list holds bookmarks by their place in the store. */
  datatype Group = Group(name: string, ids: seq<nat>)

  datatype Session = Session(core: Core, groups: seq<Group>)

  function Range(lo: nat, hi: nat): (r: seq<nat>)
    requires lo <= hi
    ensures |r| == hi - lo && forall i :: 0 <= i < |r| ==> r[i] == lo + i
  {
    seq(hi - lo, i requires 0 <= i => (lo + i) as nat)
  }

  predicate InStore(ids: seq<nat>, n: nat) { forall i :: 0 <= i < |ids| ==> ids[i] < n }

  predicate GroupsInStore(groups: seq<Group>, n: nat)
  {
    forall i :: 0 <= i < |groups| ==> InStore(groups[i].ids, n)
  }

  predicate Good(s: Session) { Indexed(s.core) && GroupsInStore(s.groups, |s.core.store|) }

  function Groups(ls: seq<Listing>, base: nat): seq<Group>
  {
    if |ls| == 0 then []
    else
      var next := base + |ls[0].bookmarks|;
      [Group(ls[0].name, Range(base, next))] + Groups(ls[1..], next)
  }

  lemma {:induction false} GroupsFit(ls: seq<Listing>, base: nat)
    ensures GroupsInStore(Groups(ls, base), base + |All(ls)|)
  {
    if |ls| > 0 { GroupsFit(ls[1..], base + |ls[0].bookmarks|); }
  }

  function Open(db: Database): (s: Session)
    ensures Good(s)
  {
    GroupsFit(db.listings, 0);
    Session(Load(All(db.listings), db.counters), Groups(db.listings, 0))
  }

  /** Into the first category with the name, or a new category at the end. */
  function Shelve(groups: seq<Group>, name: string, ids: seq<nat>): seq<Group>
  {
    if |groups| == 0 then [Group(name, ids)]
    else if groups[0].name == name then [Group(name, groups[0].ids + ids)] + groups[1..]
    else [groups[0]] + Shelve(groups[1..], name, ids)
  }

  lemma {:induction false} ShelveFits(groups: seq<Group>, name: string, ids: seq<nat>, n: nat)
    requires GroupsInStore(groups, n) && InStore(ids, n)
    ensures GroupsInStore(Shelve(groups, name, ids), n)
  {
    if |groups| > 0 { ShelveFits(groups[1..], name, ids, n); }
  }

  /** One new category: merge its bookmarks, then put those added into the category list. */
  function Absorb(s: Session, cat: Listing, override: bool): (r: Session)
    requires Good(s)
    ensures Good(r) && |r.core.store| >= |s.core.store|
  {
    var core := MergeAll(s.core, cat.bookmarks, override);
    QuietMerge(s.core, cat.bookmarks, override);
    var added := Range(|s.core.store|, |core.store|);
    ShelveFits(s.groups, cat.name, added, |core.store|);
    Session(core, if added == [] then s.groups else Shelve(s.groups, cat.name, added))
  }

  function AbsorbAll(s: Session, cats: seq<Listing>, override: bool): (r: Session)
    requires Good(s)
    ensures Good(r) && |r.core.store| >= |s.core.store|
  {
    if |cats| == 0 then s else Absorb(AbsorbAll(s, cats[..|cats| - 1], override), cats[|cats| - 1], override)
  }

  function Deref(ids: seq<nat>, store: seq<Bookmark>): (r: seq<Bookmark>)
    requires InStore(ids, |store|)
    ensures |r| == |ids|
  {
    seq(|ids|, i requires 0 <= i < |ids| && ids[i] < |store| => store[ids[i]])
  }

  function Dump(groups: seq<Group>, store: seq<Bookmark>): (r: seq<Listing>)
    requires GroupsInStore(groups, |store|)
    ensures |r| == |groups|
  {
    seq(|groups|, i requires 0 <= i < |groups| && InStore(groups[i].ids, |store|) =>
      Listing(groups[i].name, Deref(groups[i].ids, store)))
  }

  lemma DerefRange(lo: nat, hi: nat, store: seq<Bookmark>)
    requires lo <= hi <= |store|
    ensures InStore(Range(lo, hi), |store|) && Deref(Range(lo, hi), store) == store[lo..hi]
  {
  }

  datatype Outcome = Outcome(written: bool, db: Database)

  /** The file after the command; it is not written when nothing was added or updated. */
  function Update(db: Database, cats: seq<Listing>, override: bool, lower: Lower): Outcome
  {
    var s := AbsorbAll(Open(db), cats, override);
    if |s.core.store| == |All(db.listings)| && s.core.updated == 0 then Outcome(false, db)
    else Outcome(true, Database(SortListings(Dump(s.groups, s.core.store), lower), s.core.counters))
  }

  // ---------------------------------------------------------------- loading and dumping

  lemma DumpFits(ls: seq<Listing>, base: nat, store: seq<Bookmark>)
    requires base + |All(ls)| <= |store|
    ensures GroupsInStore(Groups(ls, base), |store|)
  {
    GroupsFit(ls, base);
    var groups := Groups(ls, base);
    forall i | 0 <= i < |groups| ensures InStore(groups[i].ids, |store|) {
      assert InStore(groups[i].ids, base + |All(ls)|);
    }
  }

  lemma SliceOfSlice(store: seq<Bookmark>, lo: nat, mid: nat, hi: nat, a: seq<Bookmark>, b: seq<Bookmark>)
    requires lo <= mid <= hi <= |store| && |a| == mid - lo && store[lo..hi] == a + b
    ensures store[lo..mid] == a && store[mid..hi] == b
  {
    assert store[lo..mid] == store[lo..hi][..|a|];
    assert store[mid..hi] == store[lo..hi][|a|..];
  }

  lemma {:induction false} OpenDump(ls: seq<Listing>, base: nat, store: seq<Bookmark>)
    requires base + |All(ls)| <= |store| && store[base..base + |All(ls)|] == All(ls)
    requires GroupsInStore(Groups(ls, base), |store|)
    ensures Dump(Groups(ls, base), store) == ls
  {
    if |ls| > 0 {
      var bms, next, hi := ls[0].bookmarks, base + |ls[0].bookmarks|, base + |All(ls)|;
      SliceOfSlice(store, base, next, hi, bms, All(ls[1..]));
      DumpFits(ls[1..], next, store);
      OpenDump(ls[1..], next, store);
      DerefRange(base, next, store);
      DumpCons(Group(ls[0].name, Range(base, next)), Groups(ls[1..], next), store);
      HeadAndTail(ls);
    }
  }

  lemma HeadAndTail(ls: seq<Listing>)
    requires |ls| > 0
    ensures ls == [Listing(ls[0].name, ls[0].bookmarks)] + ls[1..]
  {
  }

  /** What was loaded is what would be dumped. */
  lemma OpenDumps(db: Database)
    ensures Dump(Open(db).groups, Open(db).core.store) == db.listings
  {
    var store := All(db.listings);
    assert store[0..0 + |store|] == store;
    DumpFits(db.listings, 0, store);
    OpenDump(db.listings, 0, store);
  }

  lemma {:induction false} AbsorbAllMerges(s: Session, cats: seq<Listing>, override: bool)
    requires Good(s)
    ensures AbsorbAll(s, cats, override).core == MergeAll(s.core, All(cats), override)
  {
    if |cats| > 0 {
      var n := |cats| - 1;
      AbsorbAllMerges(s, cats[..n], override);
      AllSnoc(cats, n);
      assert cats[..n + 1] == cats;
      MergeAllConcat(s.core, All(cats[..n]), cats[n].bookmarks, override);
    }
  }

  // ---------------------------------------------------------------- what the categories weigh

  predicate SameWeight(a: seq<Bookmark>, b: seq<Bookmark>, w: Bookmark -> int)
  {
    |a| <= |b| && forall id :: 0 <= id < |a| ==> w(b[id]) == w(a[id])
  }

  lemma DumpWeighs(groups: seq<Group>, a: seq<Bookmark>, b: seq<Bookmark>, pick: string -> bool, w: Bookmark -> int)
    requires GroupsInStore(groups, |a|) && GroupsInStore(groups, |b|) && SameWeight(a, b, w)
    ensures Amount(Dump(groups, b), pick, w) == Amount(Dump(groups, a), pick, w)
  {
    var f := InPicked(pick, w);
    var x, y := Dump(groups, a), Dump(groups, b);
    forall i | 0 <= i < |groups| ensures f(y[i]) == f(x[i]) {
      SumEq(Deref(groups[i].ids, b), Deref(groups[i].ids, a), w, w);
    }
    SumEq(y, x, f, f);
  }

  lemma DumpCons(g: Group, groups: seq<Group>, store: seq<Bookmark>)
    requires GroupsInStore([g] + groups, |store|)
    ensures InStore(g.ids, |store|) && GroupsInStore(groups, |store|)
    ensures Dump([g] + groups, store) == [Listing(g.name, Deref(g.ids, store))] + Dump(groups, store)
  {
    assert ([g] + groups)[0] == g;
    assert forall i :: 0 <= i < |groups| ==> ([g] + groups)[i + 1] == groups[i];
  }

  lemma AmountCons(g: Group, groups: seq<Group>, store: seq<Bookmark>, pick: string -> bool, w: Bookmark -> int)
    requires GroupsInStore([g] + groups, |store|)
    ensures InStore(g.ids, |store|) && GroupsInStore(groups, |store|)
    ensures Amount(Dump([g] + groups, store), pick, w)
         == (if pick(g.name) then Sum(Deref(g.ids, store), w) else 0) + Amount(Dump(groups, store), pick, w)
  {
    DumpCons(g, groups, store);
    SumTail(Dump([g] + groups, store), InPicked(pick, w));
  }

  lemma {:induction false} ShelveWeighs(
      groups: seq<Group>, name: string, ids: seq<nat>, store: seq<Bookmark>, pick: string -> bool, w: Bookmark -> int)
    requires GroupsInStore(groups, |store|) && InStore(ids, |store|)
    ensures GroupsInStore(Shelve(groups, name, ids), |store|)
    ensures Amount(Dump(Shelve(groups, name, ids), store), pick, w)
         == Amount(Dump(groups, store), pick, w) + if pick(name) then Sum(Deref(ids, store), w) else 0
  {
    ShelveFits(groups, name, ids, |store|);
    if |groups| == 0 {
      assert [Group(name, ids)] + [] == [Group(name, ids)];
      AmountCons(Group(name, ids), [], store, pick, w);
    } else {
      var g, rest := groups[0], groups[1..];
      assert [g] + rest == groups;
      AmountCons(g, rest, store, pick, w);
      if g.name == name {
        AmountCons(Group(name, g.ids + ids), rest, store, pick, w);
        assert Deref(g.ids + ids, store) == Deref(g.ids, store) + Deref(ids, store);
        SumConcat(Deref(g.ids, store), Deref(ids, store), w);
      } else {
        ShelveWeighs(rest, name, ids, store, pick, w);
        AmountCons(g, Shelve(rest, name, ids), store, pick, w);
      }
    }
  }

  /** When the stored bookmarks keep their weight, a category gains just what was added to it. */
  lemma AbsorbWeighs(s: Session, cat: Listing, override: bool, pick: string -> bool, w: Bookmark -> int)
    requires Good(s) && SameWeight(s.core.store, Absorb(s, cat, override).core.store, w)
    ensures var r := Absorb(s, cat, override);
      Amount(Dump(r.groups, r.core.store), pick, w) == Amount(Dump(s.groups, s.core.store), pick, w)
        + if pick(cat.name) then Sum(r.core.store[|s.core.store|..], w) else 0
  {
    var r := Absorb(s, cat, override);
    var n := |s.core.store|;
    var added := Range(n, |r.core.store|);
    DumpWeighs(s.groups, s.core.store, r.core.store, pick, w);
    if added == [] {
      assert r.core.store[n..] == [];
    } else {
      ShelveWeighs(s.groups, cat.name, added, r.core.store, pick, w);
      assert Deref(added, r.core.store) == r.core.store[n..];
    }
  }
}
