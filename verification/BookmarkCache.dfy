/** The bookmark cache (src/bookmark_cache.c): one entry validated by the file's modification time,
    read and refilled by any number of calls under a read-write lock, beside a file that any
    number of writes may replace at any moment. */
module BookmarkCache {
  import opened Wrappers

  /** What the file held, one version after another; the last one is current. Writes give strictly
      increasing modification times. */
  datatype Version = Version(content: string, mtime: int)

  datatype Entry = Entry(json: Option<string>, mtime: int)

  /** Where a call of get_cached_bookmark_json_copy is. Numbers are versions of the file: the one a
      stat or a load of this call met. */
  datatype Place =
    | Calling
    | Peeking                                    // read lock held
    | Matched(at: nat)                           // read lock held, mtime found equal, about to copy
    | Upgrading                                  // no lock, on the slow path
    | Ensuring                                   // write lock held, entering ensure_loaded
    | FirstLoaded(at: nat)                       // write lock held, loaded an empty entry, about to stat
    | Outdated(at: nat)                          // write lock held, mtime found different, about to load
    | Fresh(at: nat)                             // write lock held, about to copy
    | Returned(copy: Option<string>, at: nat)

  /** since is the version that was current when the call began. */
  datatype Call = Call(since: nat, place: Place)

  datatype Cache = Cache(file: seq<Version>, entry: Entry, calls: seq<Call>)

  predicate Reading(p: Place) { p.Peeking? || p.Matched? }

  predicate Writing(p: Place) { p.Ensuring? || p.FirstLoaded? || p.Outdated? || p.Fresh? }

  datatype Action =
    | WriteFile(content: string, mtime: int)
    | Begin
    | LockShared(i: nat)
    | Peek(i: nat)
    | CopyShared(i: nat)
    | LockExclusive(i: nat)
    | Ensure(i: nat)
    | StatAfterLoad(i: nat)
    | LoadAfterStat(i: nat)
    | LoadFails(i: nat, cleared: bool)
    | CopyExclusive(i: nat)

  function Now(s: Cache): nat requires |s.file| > 0 { |s.file| - 1 }

  function Current(s: Cache): Version requires |s.file| > 0 { s.file[|s.file| - 1] }

  predicate Enabled(s: Cache, a: Action)
  {
    && |s.file| > 0
    && match a
       case WriteFile(_, mtime) => mtime > Current(s).mtime
       case Begin => true
       case LockShared(i) =>
         i < |s.calls| && s.calls[i].place == Calling
         && forall j :: 0 <= j < |s.calls| ==> !Writing(s.calls[j].place)
       case Peek(i) => i < |s.calls| && s.calls[i].place == Peeking
       case CopyShared(i) => i < |s.calls| && s.calls[i].place.Matched? && s.entry.json.Some?
       case LockExclusive(i) =>
         i < |s.calls| && s.calls[i].place == Upgrading
         && forall j :: 0 <= j < |s.calls| ==> !Writing(s.calls[j].place) && !Reading(s.calls[j].place)
       case Ensure(i) => i < |s.calls| && s.calls[i].place == Ensuring
       case StatAfterLoad(i) => i < |s.calls| && s.calls[i].place.FirstLoaded?
       case LoadAfterStat(i) => i < |s.calls| && s.calls[i].place.Outdated?
       case LoadFails(i, _) =>
         i < |s.calls| && (s.calls[i].place.Outdated? || (s.calls[i].place == Ensuring && s.entry.json == None))
       case CopyExclusive(i) => i < |s.calls| && s.calls[i].place.Fresh? && s.entry.json.Some?
  }

  function Move(s: Cache, i: nat, p: Place): Cache
    requires i < |s.calls|
  {
    s.(calls := s.calls[i := s.calls[i].(place := p)])
  }

  function Apply(s: Cache, a: Action): Cache
    requires Enabled(s, a)
  {
    match a
    case WriteFile(content, mtime) => s.(file := s.file + [Version(content, mtime)])
    case Begin => s.(calls := s.calls + [Call(Now(s), Calling)])
    case LockShared(i) => Move(s, i, Peeking)
    case Peek(i) =>
      if s.entry.json.Some? && |s.entry.json.value| > 0 && Current(s).mtime == s.entry.mtime
      then Move(s, i, Matched(Now(s))) else Move(s, i, Upgrading)
    case CopyShared(i) => Move(s, i, Returned(s.entry.json, s.calls[i].place.at))
    case LockExclusive(i) => Move(s, i, Ensuring)
    case Ensure(i) =>
      if s.entry.json == None then
        Move(s, i, FirstLoaded(Now(s))).(entry := s.entry.(json := Some(Current(s).content)))
      else if Current(s).mtime != s.entry.mtime then Move(s, i, Outdated(Now(s)))
      else Move(s, i, Fresh(Now(s)))
    case StatAfterLoad(i) =>
      Move(s, i, Fresh(s.calls[i].place.at)).(entry := s.entry.(mtime := Current(s).mtime))
    case LoadAfterStat(i) =>
      Move(s, i, Fresh(Now(s))).(entry := Entry(Some(Current(s).content), s.file[StatVersion(s, i)].mtime))
    case LoadFails(i, cleared) =>
      Move(s, i, Returned(None, Now(s))).(entry := if cleared then s.entry.(json := None) else s.entry)
    case CopyExclusive(i) => Move(s, i, Returned(s.entry.json, s.calls[i].place.at))
  }

  /** The version whose modification time a reload stores. */
  function StatVersion(s: Cache, i: nat): (v: nat)
    requires |s.file| > 0 && i < |s.calls| && s.calls[i].place.Outdated?
    ensures v < |s.file|
  {
    if s.calls[i].place.at < |s.file| then s.calls[i].place.at else 0
  }

  // ---------------------------------------------------------------- the invariant

  predicate Increasing(file: seq<Version>)
  {
    |file| > 0 && forall i, j :: 0 <= i < j < |file| ==> file[i].mtime < file[j].mtime
  }

  /** If the file's modification time is the entry's, the entry holds the file's content. */
  predicate CoherentWith(file: seq<Version>, e: Entry)
    requires |file| > 0
  {
    var current := file[|file| - 1];
    e.json.Some? ==>
      && e.mtime <= current.mtime
      && (e.mtime == current.mtime ==> e.json.value == current.content)
  }

  predicate Coherent(s: Cache)
    requires |s.file| > 0
  {
    CoherentWith(s.file, s.entry)
  }

  /** Version v was current at some moment since the call began. */
  predicate Met(s: Cache, c: Call, v: nat) { c.since <= v < |s.file| }

  predicate CallOk(s: Cache, c: Call)
  {
    && c.since < |s.file|
    && match c.place
       case Matched(at) => Met(s, c, at) && s.entry.json == Some(s.file[at].content)
       case FirstLoaded(at) => Met(s, c, at) && s.entry.json == Some(s.file[at].content)
       case Fresh(at) => Met(s, c, at) && s.entry.json == Some(s.file[at].content)
       case Outdated(at) => Met(s, c, at) && s.entry.mtime < s.file[at].mtime && s.entry.json.Some?
       case Returned(copy, at) => copy.Some? ==> Met(s, c, at) && copy == Some(s.file[at].content)
       case _ => true
  }

  predicate Exclusive(s: Cache)
  {
    forall i, j :: 0 <= i < |s.calls| && 0 <= j < |s.calls| && i != j && Writing(s.calls[i].place) ==>
      !Writing(s.calls[j].place) && !Reading(s.calls[j].place)
  }

  /** No call is between loading an empty entry and recording its modification time. */
  predicate Settled(s: Cache)
  {
    forall i :: 0 <= i < |s.calls| ==> !s.calls[i].place.FirstLoaded?
  }

  predicate Inv(s: Cache)
  {
    && Increasing(s.file)
    && Exclusive(s)
    && (forall i :: 0 <= i < |s.calls| ==> CallOk(s, s.calls[i]))
    && (Settled(s) ==> Coherent(s))
    && (s.entry.mtime <= Current(s).mtime)
  }

  function Init(first: Version): Cache
  {
    Cache([first], Entry(None, 0), [])
  }

  /** The one step that can do harm: recording, after a first load, the modification time of a version
      with other content. FirstLoadCoherentIff says that this is when it does. */
  predicate Harmless(s: Cache, a: Action)
    requires Enabled(s, a)
  {
    a.StatAfterLoad? ==>
      var at := s.calls[a.i].place.at; at < |s.file| && s.file[at].content == Current(s).content
  }

  lemma InitInv(first: Version)
    requires first.mtime >= 0
    ensures Inv(Init(first))
  {
  }

  lemma ExclusiveKept(s: Cache, a: Action)
    requires Exclusive(s) && Enabled(s, a)
    ensures Exclusive(Apply(s, a))
  {
  }

  lemma CoherentKept(s: Cache, a: Action)
    requires Inv(s) && Enabled(s, a) && Harmless(s, a)
    ensures Settled(Apply(s, a)) ==> Coherent(Apply(s, a))
    ensures Apply(s, a).entry.mtime <= Current(Apply(s, a)).mtime
  {
    var s' := Apply(s, a);
    match a
    case StatAfterLoad(i) =>
      assert CallOk(s, s.calls[i]);
    case LoadAfterStat(i) =>
      assert CallOk(s, s.calls[i]);
      assert s.calls[i].place.at < Now(s) ==> s.file[s.calls[i].place.at].mtime < Current(s).mtime;
    case _ =>
      if Settled(s') {
        forall j | 0 <= j < |s.calls| ensures !s.calls[j].place.FirstLoaded? {
          assert !s'.calls[j].place.FirstLoaded?;
        }
      }
  }

  lemma CallOkKept(s: Cache, a: Action, j: nat)
    requires Inv(s) && Enabled(s, a) && j < |Apply(s, a).calls|
    ensures CallOk(Apply(s, a), Apply(s, a).calls[j])
  {
    if a.WriteFile? || a.Begin? {
    } else if a.i == j {
      MoverOk(s, a);
    } else {
      OthersOk(s, a, j);
    }
  }

  lemma MoverOk(s: Cache, a: Action)
    requires Inv(s) && Enabled(s, a) && !a.WriteFile? && !a.Begin?
    ensures CallOk(Apply(s, a), Apply(s, a).calls[a.i])
  {
    assert CallOk(s, s.calls[a.i]);
  }

  /** A call that changes the entry is the only one that reads or writes it. */
  lemma OthersOk(s: Cache, a: Action, j: nat)
    requires Inv(s) && Enabled(s, a) && !a.WriteFile? && !a.Begin? && j < |s.calls| && j != a.i
    ensures CallOk(Apply(s, a), Apply(s, a).calls[j])
  {
    assert CallOk(s, s.calls[j]);
  }

  lemma StepKeepsInv(s: Cache, a: Action)
    requires Inv(s) && Enabled(s, a) && Harmless(s, a)
    ensures Inv(Apply(s, a))
  {
    ExclusiveKept(s, a);
    CoherentKept(s, a);
    forall j | 0 <= j < |Apply(s, a).calls| ensures CallOk(Apply(s, a), Apply(s, a).calls[j]) {
      CallOkKept(s, a, j);
    }
  }

  // ---------------------------------------------------------------- whole runs

  /** A run in which no write changes the content between the two halves of a first load. */
  predicate Reaches(s: Cache, actions: seq<Action>, r: Cache)
    decreases |actions|
  {
    if |actions| == 0 then r == s else
      Enabled(s, actions[0]) && Harmless(s, actions[0]) && Reaches(Apply(s, actions[0]), actions[1..], r)
  }

  lemma {:induction false} ReachedInv(s: Cache, actions: seq<Action>, r: Cache)
    requires Inv(s) && Reaches(s, actions, r)
    ensures Inv(r)
    decreases |actions|
  {
    if |actions| > 0 {
      StepKeepsInv(s, actions[0]);
      ReachedInv(Apply(s, actions[0]), actions[1..], r);
    }
  }

  /** Under any number of concurrent calls and writes, each copy returned is content the file held
      at some moment between the start of the call and its return. */
  lemma CopiesAreCurrent(first: Version, actions: seq<Action>, r: Cache, i: nat)
    requires first.mtime >= 0 && Reaches(Init(first), actions, r)
    requires i < |r.calls| && r.calls[i].place.Returned? && r.calls[i].place.copy.Some?
    ensures var c := r.calls[i];
      c.since <= c.place.at < |r.file| && c.place.copy.value == r.file[c.place.at].content
  {
    InitInv(first);
    ReachedInv(Init(first), actions, r);
    assert CallOk(r, r.calls[i]);
  }

  /** Reload, which stats before it loads, keeps the entry coherent whatever was written between its
      two steps. */
  lemma ReloadKeepsCoherence(s: Cache, i: nat)
    requires Inv(s) && Enabled(s, LoadAfterStat(i))
    ensures Coherent(Apply(s, LoadAfterStat(i)))
  {
    assert CallOk(s, s.calls[i]);
    assert s.calls[i].place.at < Now(s) ==> s.file[s.calls[i].place.at].mtime < Current(s).mtime;
  }

  /** First load, which loads before it stats, leaves a coherent entry exactly when the content has
      not changed between its two steps; when it has, the stale content will pass for current until
      the next write. */
  lemma FirstLoadCoherentIff(s: Cache, i: nat)
    requires Inv(s) && Enabled(s, StatAfterLoad(i))
    ensures Coherent(Apply(s, StatAfterLoad(i))) <==> s.file[s.calls[i].place.at].content == Current(s).content
  {
    assert CallOk(s, s.calls[i]);
  }

  /** A run with no restriction on writes. */
  predicate RunsTo(s: Cache, actions: seq<Action>, r: Cache)
    decreases |actions|
  {
    if |actions| == 0 then r == s else
      Enabled(s, actions[0]) && RunsTo(Apply(s, actions[0]), actions[1..], r)
  }

  lemma {:induction false} Extend(s: Cache, actions: seq<Action>, m: Cache, a: Action)
    returns (r: Cache, longer: seq<Action>)
    requires RunsTo(s, actions, m) && Enabled(m, a)
    ensures r == Apply(m, a) && longer == actions + [a] && RunsTo(s, longer, r)
    decreases |actions|
  {
    r, longer := Apply(m, a), actions + [a];
    if |actions| > 0 {
      var _, rest := Extend(Apply(s, actions[0]), actions[1..], m, a);
      assert longer[1..] == rest;
    }
  }

  /** A call after the first finds the entry filled and its modification time current. */
  lemma FastPath(s: Cache, actions: seq<Action>, m: Cache) returns (longer: seq<Action>, r: Cache)
    requires RunsTo(s, actions, m) && |m.file| > 0 && |m.calls| == 1 && m.calls[0].place.Returned?
    requires m.entry.json.Some? && |m.entry.json.value| > 0 && m.entry.mtime == Current(m).mtime
    ensures RunsTo(s, longer, r) && r.file == m.file && |r.calls| == 2
    ensures r.calls[1] == Call(Now(m), Returned(m.entry.json, Now(m)))
  {
    var m1, m2, m3;
    m1, longer := Extend(s, actions, m, Begin);
    m2, longer := Extend(s, longer, m1, LockShared(1));
    m3, longer := Extend(s, longer, m2, Peek(1));
    r, longer := Extend(s, longer, m3, CopyShared(1));
  }

  lemma SlowPath(before: Version) returns (actions: seq<Action>, r: Cache)
    ensures RunsTo(Init(before), actions, r)
    ensures r == Cache([before], Entry(Some(before.content), 0), [Call(0, FirstLoaded(0))])
  {
    var s := Init(before);
    var m1, m2, m3, m4;
    m1, actions := Extend(s, [], s, Begin);
    m2, actions := Extend(s, actions, m1, LockShared(0));
    m3, actions := Extend(s, actions, m2, Peek(0));
    m4, actions := Extend(s, actions, m3, LockExclusive(0));
    r, actions := Extend(s, actions, m4, Ensure(0));
  }

  /** A run that serves stale content: a write falls between the load and the stat of the first
      call, and a second call, begun after it, is given the old content. */
  lemma StaleAfterFirstLoad(before: Version, later: Version) returns (actions: seq<Action>, r: Cache)
    requires 0 <= before.mtime < later.mtime && |before.content| > 0
    ensures RunsTo(Init(before), actions, r) && r.file == [before, later] && |r.calls| == 2
    ensures r.calls[1].since == 1 && r.calls[1].place.Returned? && r.calls[1].place.copy == Some(before.content)
  {
    var s := Init(before);
    var m1, m2, m3, m4;
    actions, m1 := SlowPath(before);
    m2, actions := Extend(s, actions, m1, WriteFile(later.content, later.mtime));
    m3, actions := Extend(s, actions, m2, StatAfterLoad(0));
    m4, actions := Extend(s, actions, m3, CopyExclusive(0));
    actions, r := FastPath(s, actions, m4);
  }

  // ---------------------------------------------------------------- later copies

  /** Call k's copy, if it returned one, is content the file held since the call began. */
  ghost predicate CopyCurrent(s: Cache, k: nat)
  {
    k < |s.calls| && s.calls[k].place.Returned? && s.calls[k].place.copy.Some? ==>
      exists v: nat :: Met(s, s.calls[k], v) && s.file[v].content == s.calls[k].place.copy.value
  }

  /** However the calls and writes go on, without another harmful step, every call begun from now on gets a
      current copy. */
  ghost predicate LaterCopiesCurrent(s: Cache)
  {
    forall actions, r, k: nat :: Reaches(s, actions, r) && |s.calls| <= k ==> CopyCurrent(r, k)
  }

  lemma {:induction false} ReachOne(s: Cache, actions: seq<Action>, m: Cache, a: Action)
    returns (longer: seq<Action>, r: Cache)
    requires Reaches(s, actions, m) && Enabled(m, a) && !a.StatAfterLoad?
    ensures r == Apply(m, a) && longer == actions + [a] && Reaches(s, longer, r)
    decreases |actions|
  {
    r, longer := Apply(m, a), actions + [a];
    if |actions| > 0 {
      var rest, _ := ReachOne(Apply(s, actions[0]), actions[1..], m, a);
      assert longer[1..] == rest;
    }
  }

  /** No call holds the lock but k, if at all. */
  predicate Unlocked(s: Cache, k: nat)
  {
    forall j :: 0 <= j < |s.calls| && j != k ==> !Writing(s.calls[j].place) && !Reading(s.calls[j].place)
  }

  /** What stays the same while call k, begun at the current version, goes its way alone. */
  predicate CallAlone(s: Cache, t: Cache, k: nat, p: Place)
    requires |s.file| > 0
  {
    && t.file == s.file && t.entry == s.entry && |t.calls| == k + 1
    && t.calls[k] == Call(Now(s), p) && Unlocked(t, k)
  }

  lemma AloneStep(s: Cache, t: Cache, k: nat, p: Place, a: Action)
    requires |s.file| > 0 && CallAlone(s, t, k, p) && Enabled(t, a)
    requires a == LockShared(k) || a == Peek(k) || a == CopyShared(k) || a == LockExclusive(k)
          || (a == Ensure(k) && s.entry.json.Some?) || a == CopyExclusive(k)
    ensures var r := Apply(t, a); |r.calls| == k + 1 && CallAlone(s, r, k, r.calls[k].place)
  {
  }

  /** A call that finds the entry filled and its modification time current returns its content, by the
      fast path, or for empty content by the slow one. */
  lemma NextCallCopies(s: Cache, actions: seq<Action>, m: Cache) returns (longer: seq<Action>, r: Cache)
    requires Reaches(s, actions, m) && |m.file| > 0 && Unlocked(m, |m.calls|)
    requires m.entry.json.Some? && m.entry.mtime == Current(m).mtime
    ensures Reaches(s, longer, r) && r.file == m.file && |r.calls| == |m.calls| + 1
    ensures r.calls[|m.calls|] == Call(Now(m), Returned(m.entry.json, Now(m)))
  {
    var k := |m.calls|;
    var m1, m2, m3;
    longer, m1 := ReachOne(s, actions, m, Begin);
    assert CallAlone(m, m1, k, Calling);
    AloneStep(m, m1, k, Calling, LockShared(k));
    longer, m2 := ReachOne(s, longer, m1, LockShared(k));
    AloneStep(m, m2, k, Peeking, Peek(k));
    longer, m3 := ReachOne(s, longer, m2, Peek(k));
    if |m.entry.json.value| > 0 {
      AloneStep(m, m3, k, Matched(Now(m)), CopyShared(k));
      longer, r := ReachOne(s, longer, m3, CopyShared(k));
    } else {
      longer, r := SlowCallCopies(s, longer, m3, m, k);
    }
  }

  lemma SlowCallCopies(s: Cache, actions: seq<Action>, t: Cache, m: Cache, k: nat)
    returns (longer: seq<Action>, r: Cache)
    requires Reaches(s, actions, t) && |m.file| > 0 && CallAlone(m, t, k, Upgrading)
    requires m.entry.json.Some? && m.entry.mtime == Current(m).mtime
    ensures Reaches(s, longer, r) && r.file == m.file && |r.calls| == k + 1
    ensures r.calls[k] == Call(Now(m), Returned(m.entry.json, Now(m)))
  {
    var t1, t2;
    AloneStep(m, t, k, Upgrading, LockExclusive(k));
    longer, t1 := ReachOne(s, actions, t, LockExclusive(k));
    AloneStep(m, t1, k, Ensuring, Ensure(k));
    longer, t2 := ReachOne(s, longer, t1, Ensure(k));
    AloneStep(m, t2, k, Fresh(Now(m)), CopyExclusive(k));
    longer, r := ReachOne(s, longer, t2, CopyExclusive(k));
  }

  /** After the second half of a first load the entry's content is what the next call is given. */
  lemma EntryIsGivenOut(s: Cache, i: nat) returns (longer: seq<Action>, r: Cache)
    requires Inv(s) && Enabled(s, StatAfterLoad(i))
    ensures Reaches(Apply(s, StatAfterLoad(i)), longer, r) && r.file == s.file && |r.calls| == |s.calls| + 1
    ensures r.calls[|s.calls|] == Call(Now(s), Returned(s.entry.json, Now(s)))
  {
    var s' := Apply(s, StatAfterLoad(i));
    assert CallOk(s, s.calls[i]);
    var m;
    longer, m := ReachOne(s', [], s', CopyExclusive(i));
    assert Unlocked(m, |m.calls|);
    longer, r := NextCallCopies(s', longer, m);
  }

  lemma CurrentAfterHarmless(s: Cache, actions: seq<Action>, r: Cache, k: nat)
    requires Inv(s) && Reaches(s, actions, r)
    ensures CopyCurrent(r, k)
  {
    ReachedInv(s, actions, r);
    if k < |r.calls| { assert CallOk(r, r.calls[k]); }
  }

  /** The second half of a first load, with any other calls under way: every copy given to a call begun
      afterwards is current, however things go on without another such harmful step, if and only if the
      content did not change between the halves. */
  lemma LaterCopiesCurrentIff(s: Cache, i: nat)
    requires Inv(s) && Enabled(s, StatAfterLoad(i))
    ensures LaterCopiesCurrent(Apply(s, StatAfterLoad(i)))
       <==> s.file[s.calls[i].place.at].content == Current(s).content
  {
    var s' := Apply(s, StatAfterLoad(i));
    assert CallOk(s, s.calls[i]);
    if s.file[s.calls[i].place.at].content == Current(s).content {
      StepKeepsInv(s, StatAfterLoad(i));
      forall actions, r, k: nat | Reaches(s', actions, r) && |s'.calls| <= k ensures CopyCurrent(r, k) {
        CurrentAfterHarmless(s', actions, r, k);
      }
    } else {
      var longer, r := EntryIsGivenOut(s, i);
      assert !CopyCurrent(r, |s.calls|);
    }
  }

  // ---------------------------------------------------------------- the code under the write lock

  /** The file beside the cache; writes by other processes come between any two steps. */
  class File {
    var versions: seq<Version>

    constructor (first: Version)
      ensures versions == [first]
    {
      versions := [first];
    }

    /** Any number of writes. */
    method OthersWrite()
      requires Increasing(versions)
      modifies this
      ensures Increasing(versions) && old(versions) <= versions
    {
      var more: seq<Version> :| Increasing(versions + more);
      versions := versions + more;
    }
  }

  /** With an empty entry a call holding the write lock, in any cache with this file and entry, takes its two
      steps, writes in between, to this file and entry; or its one failing step. */
  ghost predicate FirstLoads(met: seq<Version>, before: Entry, file: seq<Version>, after: Entry, ok: bool)
  {
    |met| > 0 && |file| > 0 && before.json == None &&
    forall s: Cache, i: nat :: s.file == met && s.entry == before && i < |s.calls| && s.calls[i].place == Ensuring ==>
      if !ok then EndsAt(s, LoadFails(i, after.json == None), i, after, false)
      else
        var t := Apply(s, Ensure(i)).(file := file);
        t.calls[i].place.FirstLoaded? && EndsAt(t, StatAfterLoad(i), i, after, true)
  }

  /** Likewise with a filled entry: one step if its modification time is current, two if not. */
  ghost predicate Revalidates(met: seq<Version>, before: Entry, file: seq<Version>, after: Entry, ok: bool)
  {
    |met| > 0 && |file| > 0 && before.json.Some? &&
    forall s: Cache, i: nat :: s.file == met && s.entry == before && i < |s.calls| && s.calls[i].place == Ensuring ==>
      var t := Apply(s, Ensure(i)).(file := file);
      if t.calls[i].place.Fresh? then ok && after == before
      else
        && t.calls[i].place.Outdated?
        && EndsAt(t, if ok then LoadAfterStat(i) else LoadFails(i, after.json == None), i, after, ok)
  }

  predicate EndsAt(s: Cache, a: Action, i: nat, after: Entry, ok: bool)
  {
    && Enabled(s, a) && i < |Apply(s, a).calls| && Apply(s, a).entry == after
    && if ok then Apply(s, a).calls[i].place.Fresh? else Apply(s, a).calls[i].place.Returned?
  }

  lemma LoadingIsTwoSteps(met: seq<Version>, before: Entry, file: seq<Version>)
    requires |met| > 0 && |file| > 0 && before.json == None
    ensures FirstLoads(met, before, file, Entry(Some(met[|met| - 1].content), file[|file| - 1].mtime), true)
  {
  }

  lemma FailingToLoadIsOneStep(met: seq<Version>, before: Entry, file: seq<Version>)
    requires |met| > 0 && |file| > 0 && before.json == None
    ensures FirstLoads(met, before, file, before, false)
  {
    forall s: Cache, i: nat | s.file == met && s.entry == before && i < |s.calls| && s.calls[i].place == Ensuring
      ensures EndsAt(s, LoadFails(i, true), i, before, false)
    {
      assert before.(json := None) == before;
    }
  }

  lemma KeepingIsOneStep(met: seq<Version>, before: Entry)
    requires |met| > 0 && before.json.Some? && before.mtime == met[|met| - 1].mtime
    ensures Revalidates(met, before, met, before, true)
  {
  }

  lemma ReloadingIsTwoSteps(met: seq<Version>, before: Entry, file: seq<Version>)
    requires 0 < |met| && met <= file && before.json.Some? && before.mtime != met[|met| - 1].mtime
    ensures Revalidates(met, before, file, Entry(Some(file[|file| - 1].content), met[|met| - 1].mtime), true)
  {
    assert file[|met| - 1] == met[|met| - 1];
  }

  lemma FailingToReloadIsTwoSteps(met: seq<Version>, before: Entry, file: seq<Version>, cleared: bool)
    requires 0 < |met| && met <= file && before.json.Some? && before.mtime != met[|met| - 1].mtime
    ensures Revalidates(met, before, file, if cleared then before.(json := None) else before, false)
  {
  }

  /** Content kept, or loaded under the modification time met, is coherent. */
  lemma RevalidatedOk(start: seq<Version>, met: seq<Version>, file: seq<Version>, before: Entry)
    requires Increasing(file) && 0 < |start| && start <= met <= file
    requires CoherentWith(start, before) && before.json.Some?
    ensures before.mtime == met[|met| - 1].mtime ==> before.json == Some(met[|met| - 1].content)
    ensures CoherentWith(file, Entry(Some(file[|file| - 1].content), met[|met| - 1].mtime))
    ensures CoherentWith(file, before)
  {
    var last := |start| - 1;
    assert met[|met| - 1] == file[|met| - 1] && start[last] == file[last] == met[last];
    assert last < |met| - 1 ==> file[last].mtime < file[|met| - 1].mtime;
    assert last < |file| - 1 ==> file[last].mtime < file[|file| - 1].mtime;
    assert |met| < |file| ==> file[|met| - 1].mtime < file[|file| - 1].mtime;
  }

  class CacheEntry {
    var entry: Entry

    constructor ()
      ensures entry == Entry(None, 0)
    {
      entry := Entry(None, 0);
    }

    /** load_bookmark_json: reads the whole file at once; a failure to open it (opens is false)
        leaves the entry alone, a short read empties it. */
    method Load(f: File, opens: bool, readsAll: bool) returns (ok: bool)
      requires |f.versions| > 0
      modifies this
      ensures ok == (opens && readsAll)
      ensures entry.mtime == old(entry.mtime)
      ensures ok ==> entry.json == Some(f.versions[|f.versions| - 1].content)
      ensures !opens ==> entry == old(entry)
      ensures opens && !readsAll ==> entry.json == None
    {
      if !opens {
        return false;
      }
      entry := entry.(json := None);
      if !readsAll {
        return false;
      }
      entry := entry.(json := Some(f.versions[|f.versions| - 1].content));
      return true;
    }

    /** The branch for an entry that holds nothing. */
    method LoadEmpty(f: File, opens: bool, readsAll: bool) returns (ok: bool, ghost met: seq<Version>)
      requires Increasing(f.versions) && entry.json == None
      modifies this, f
      ensures Increasing(f.versions) && old(f.versions) <= met <= f.versions
      ensures ok == (opens && readsAll)
      ensures ok ==> entry == Entry(Some(met[|met| - 1].content), f.versions[|f.versions| - 1].mtime)
      ensures !ok ==> entry == old(entry)
    {
      f.OthersWrite();
      met := f.versions;
      ok := Load(f, opens, readsAll);
      if ok {
        f.OthersWrite();
        entry := entry.(mtime := f.versions[|f.versions| - 1].mtime);
      }
    }

    /** The branch for an entry that holds something: it is kept, or loaded anew. */
    method Revalidate(f: File, opens: bool, readsAll: bool) returns (ok: bool, ghost met: seq<Version>)
      requires Increasing(f.versions) && entry.json.Some?
      modifies this, f
      ensures Increasing(f.versions) && old(f.versions) <= met <= f.versions
      ensures old(entry).mtime == met[|met| - 1].mtime ==> ok && entry == old(entry) && f.versions == met
      ensures old(entry).mtime != met[|met| - 1].mtime ==>
        && ok == (opens && readsAll)
        && entry == if ok then Entry(Some(f.versions[|f.versions| - 1].content), met[|met| - 1].mtime)
                    else if opens then old(entry).(json := None) else old(entry)
    {
      f.OthersWrite();
      met := f.versions;
      var statted := f.versions[|f.versions| - 1].mtime;
      ok := true;
      if statted != entry.mtime {
        f.OthersWrite();
        ok := Load(f, opens, readsAll);
        if ok {
          entry := entry.(mtime := statted);
        }
      }
    }

    /** Called with the write lock held, so only the file changes meanwhile. What it leaves is
        content the file held during the call; and a coherent entry that was already filled is
        coherent again afterwards, whatever was written between the stat and the load. */
    method EnsureLoaded(f: File, opens: bool, readsAll: bool) returns (ok: bool, ghost met: seq<Version>)
      requires Increasing(f.versions) && CoherentWith(f.versions, entry)
      modifies this, f
      ensures Increasing(f.versions) && old(f.versions) <= met <= f.versions
      ensures ok ==> exists v :: |old(f.versions)| - 1 <= v < |f.versions| && entry.json == Some(f.versions[v].content)
      ensures old(entry.json).Some? ==> CoherentWith(f.versions, entry)
      ensures opens && readsAll ==> ok
      ensures old(entry.json) == None && ok ==> entry.mtime == f.versions[|f.versions| - 1].mtime
      ensures old(entry.json) == None ==> FirstLoads(met, old(entry), f.versions, entry, ok)
      ensures old(entry.json).Some? ==> Revalidates(met, old(entry), f.versions, entry, ok)
    {
      if entry.json == None {
        ok, met := LoadEmpty(f, opens, readsAll);
        LoadingIsTwoSteps(met, old(entry), f.versions);
        FailingToLoadIsOneStep(met, old(entry), f.versions);
        assert met[|met| - 1] == f.versions[|met| - 1];
      } else {
        ok, met := Revalidate(f, opens, readsAll);
        RevalidatedOk(old(f.versions), met, f.versions, old(entry));
        if old(entry).mtime == met[|met| - 1].mtime {
          KeepingIsOneStep(met, entry);
        } else {
          ReloadingIsTwoSteps(met, old(entry), f.versions);
          FailingToReloadIsTwoSteps(met, old(entry), f.versions, opens);
        }
      }
    }
  }
}
