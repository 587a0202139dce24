/** What becomes of every call of get_cached_bookmark_json_copy (src/bookmark_cache.c): it returns, it
    comes back empty-handed only when a load failed, and it leaves an entry the next call can copy. */
module BookmarkCacheCalls {
  import opened Wrappers
  import opened Sums
  import opened BookmarkCache

  // ---------------------------------------------------------------- coming back empty-handed

  predicate CameBack(s: Cache, i: nat) { i < |s.calls| && s.calls[i].place.Returned? }

  predicate EmptyHanded(s: Cache, i: nat) { CameBack(s, i) && s.calls[i].place.copy == None }

  /** A load of call i failed. */
  predicate LoadFailed(actions: seq<Action>, i: nat)
  {
    exists k :: 0 <= k < |actions| && actions[k].LoadFails? && actions[k].i == i
  }

  lemma StepToEmpty(s: Cache, a: Action, i: nat)
    requires Enabled(s, a) && EmptyHanded(Apply(s, a), i) && !EmptyHanded(s, i)
    ensures a.LoadFails? && a.i == i
  {
  }

  /** On every run, whatever is written meanwhile, a call that has returned nothing had a load fail. */
  lemma {:induction false} EmptyMeansFailed(s: Cache, actions: seq<Action>, r: Cache, i: nat)
    requires RunsTo(s, actions, r) && EmptyHanded(r, i) && !EmptyHanded(s, i)
    ensures LoadFailed(actions, i)
    decreases |actions|
  {
    var a, rest := actions[0], actions[1..];
    if EmptyHanded(Apply(s, a), i) {
      StepToEmpty(s, a, i);
    } else {
      EmptyMeansFailed(Apply(s, a), rest, r, i);
      var k :| 0 <= k < |rest| && rest[k].LoadFails? && rest[k].i == i;
      assert actions[k + 1] == rest[k];
    }
  }

  lemma {:induction false} ReachesRuns(s: Cache, actions: seq<Action>, r: Cache)
    requires Reaches(s, actions, r)
    ensures RunsTo(s, actions, r)
    decreases |actions|
  {
    if |actions| > 0 { ReachesRuns(Apply(s, actions[0]), actions[1..], r); }
  }

  /** A call whose loads succeed is given content the file held since the call began; the current content
      if nothing was written since. */
  lemma CallGetsContent(first: Version, actions: seq<Action>, r: Cache, i: nat)
    requires first.mtime >= 0 && Reaches(Init(first), actions, r)
    requires CameBack(r, i) && !LoadFailed(actions, i)
    ensures var c := r.calls[i];
      && c.place.copy.Some? && c.since <= c.place.at < |r.file|
      && c.place.copy.value == r.file[c.place.at].content
      && (c.since == Now(r) ==> c.place.copy.value == Current(r).content)
  {
    ReachesRuns(Init(first), actions, r);
    if EmptyHanded(r, i) { EmptyMeansFailed(Init(first), actions, r, i); }
    CopiesAreCurrent(first, actions, r, i);
  }

  // ---------------------------------------------------------------- every call returns

  /** How many steps a call has before it. */
  function StepsLeft(): Call -> int
  {
    (c: Call) =>
      match c.place
      case Calling => 6
      case Peeking => 5
      case Matched(_) => 1
      case Upgrading => 4
      case Ensuring => 3
      case FirstLoaded(_) => 2
      case Outdated(_) => 2
      case Fresh(_) => 1
      case Returned(_, _) => 0
  }

  ghost function AllStepsLeft(s: Cache): int { Sum(s.calls, StepsLeft()) }

  predicate OfCall(a: Action) { !a.WriteFile? && !a.Begin? }

  /** Every step of a call brings it nearer to its return, and a write delays none. */
  lemma EveryStepAdvances(s: Cache, a: Action)
    requires Enabled(s, a)
    ensures OfCall(a) ==> AllStepsLeft(Apply(s, a)) < AllStepsLeft(s)
    ensures a.WriteFile? ==> AllStepsLeft(Apply(s, a)) == AllStepsLeft(s)
    ensures a.Begin? ==> AllStepsLeft(Apply(s, a)) == AllStepsLeft(s) + 6
  {
    var r := Apply(s, a);
    if OfCall(a) {
      assert r.calls == s.calls[a.i := r.calls[a.i]];
      SumUpdate(s.calls, a.i, r.calls[a.i], StepsLeft());
    } else if a.Begin? {
      SumAppend(s.calls, Call(Now(s), Calling), StepsLeft());
    }
  }

  /** No call can take a step that is not a failure. */
  ghost predicate Stuck(s: Cache) { forall a :: Enabled(s, a) ==> !OfCall(a) || a.LoadFails? }

  /** Calls that hold a lock can always go on, and when none does those that want it can: only when every
      call has returned can none go on. */
  lemma StuckMeansReturned(s: Cache, i: nat)
    requires Inv(s) && Stuck(s) && i < |s.calls|
    ensures CameBack(s, i)
  {
    forall j: nat | j < |s.calls| ensures !Reading(s.calls[j].place) && !Writing(s.calls[j].place) {
      assert CallOk(s, s.calls[j]);
      assert Enabled(s, Peek(j)) ==> !OfCall(Peek(j));
      assert Enabled(s, CopyShared(j)) ==> !OfCall(CopyShared(j));
      assert Enabled(s, Ensure(j)) ==> !OfCall(Ensure(j));
      assert Enabled(s, StatAfterLoad(j)) ==> !OfCall(StatAfterLoad(j));
      assert Enabled(s, LoadAfterStat(j)) ==> !OfCall(LoadAfterStat(j));
      assert Enabled(s, CopyExclusive(j)) ==> !OfCall(CopyExclusive(j));
    }
    assert Enabled(s, LockShared(i)) ==> !OfCall(LockShared(i));
    assert Enabled(s, LockExclusive(i)) ==> !OfCall(LockExclusive(i));
  }

  predicate NoneBegins(actions: seq<Action>) { forall k :: 0 <= k < |actions| ==> !actions[k].Begin? }

  function CallSteps(actions: seq<Action>): nat
  {
    if |actions| == 0 then 0 else (if OfCall(actions[0]) then 1 else 0) + CallSteps(actions[1..])
  }

  /** However calls and writes are interleaved, a schedule without new calls has only so many steps of
      calls. With StuckMeansReturned: every call returns. */
  lemma {:induction false} CallsReturn(s: Cache, actions: seq<Action>, r: Cache)
    requires RunsTo(s, actions, r) && NoneBegins(actions)
    ensures CallSteps(actions) <= AllStepsLeft(s) - AllStepsLeft(r) && AllStepsLeft(r) >= 0
    decreases |actions|
  {
    if |actions| == 0 {
      SumNonNeg(s.calls, StepsLeft());
    } else {
      assert !actions[0].Begin?;
      assert forall k :: 0 <= k < |actions| - 1 ==> actions[1..][k] == actions[k + 1];
      EveryStepAdvances(s, actions[0]);
      CallsReturn(Apply(s, actions[0]), actions[1..], r);
    }
  }

  // ---------------------------------------------------------------- the entry a call leaves

  /** A call on the slow path, since whose beginning nothing was written, has made the entry current. */
  predicate FreshIsCurrent(s: Cache)
    requires |s.file| > 0
  {
    forall i :: 0 <= i < |s.calls| && s.calls[i].place.Fresh? && s.calls[i].since == Now(s) ==>
      s.entry.mtime == Current(s).mtime
  }

  lemma StepKeepsFresh(s: Cache, a: Action)
    requires Inv(s) && FreshIsCurrent(s) && Enabled(s, a)
    ensures FreshIsCurrent(Apply(s, a))
  {
    var r := Apply(s, a);
    forall i | 0 <= i < |r.calls| && r.calls[i].place.Fresh? && r.calls[i].since == Now(r)
      ensures r.entry.mtime == Current(r).mtime
    {
      assert CallOk(s, s.calls[i]);
    }
  }

  lemma {:induction false} RunKeepsFresh(s: Cache, actions: seq<Action>, r: Cache)
    requires Inv(s) && FreshIsCurrent(s) && Reaches(s, actions, r)
    ensures Inv(r) && FreshIsCurrent(r)
    decreases |actions|
  {
    if |actions| > 0 {
      StepKeepsInv(s, actions[0]);
      StepKeepsFresh(s, actions[0]);
      RunKeepsFresh(Apply(s, actions[0]), actions[1..], r);
    }
  }

  /** A call that copies on the slow path leaves, if nothing was written since it began, the current
      content under the current modification time: the next call finds nothing to load. */
  lemma SlowCallRefreshes(first: Version, actions: seq<Action>, r: Cache, i: nat)
    requires first.mtime >= 0 && Reaches(Init(first), actions, r)
    requires Enabled(r, CopyExclusive(i)) && r.calls[i].since == Now(r)
    ensures r.entry == Entry(Some(Current(r).content), Current(r).mtime)
  {
    InitInv(first);
    RunKeepsFresh(Init(first), actions, r);
    assert CallOk(r, r.calls[i]);
  }

  /** The second half of a reload: the call holds the write lock. */
  lemma AloneReloads(s: Cache, actions: seq<Action>, t: Cache, m: Cache, k: nat)
    returns (longer: seq<Action>, r: Cache)
    requires Reaches(s, actions, t) && |m.file| > 0 && CallAlone(m, t, k, Ensuring)
    requires m.entry.json.Some? && m.entry.mtime != Current(m).mtime
    ensures longer == actions + [Ensure(k)] + [LoadAfterStat(k)] + [CopyExclusive(k)]
    ensures Reaches(s, longer, r) && r.file == m.file && |r.calls| == k + 1
    ensures r.entry == Entry(Some(Current(m).content), Current(m).mtime)
    ensures r.calls[k] == Call(Now(m), Returned(Some(Current(m).content), Now(m)))
  {
    var t1, t2;
    longer, t1 := ReachOne(s, actions, t, Ensure(k));
    assert t1.calls[k] == Call(Now(m), Outdated(Now(m)));
    longer, t2 := ReachOne(s, longer, t1, LoadAfterStat(k));
    longer, r := ReachOne(s, longer, t2, CopyExclusive(k));
  }

  /** A call that finds another modification time than the entry's reloads, and is given the current
      content. */
  lemma NextCallReloads(s: Cache, actions: seq<Action>, m: Cache) returns (longer: seq<Action>, r: Cache)
    requires Reaches(s, actions, m) && |m.file| > 0 && Unlocked(m, |m.calls|)
    requires m.entry.json.Some? && m.entry.mtime != Current(m).mtime
    ensures Reaches(s, longer, r) && r.file == m.file && |r.calls| == |m.calls| + 1
    ensures r.entry == Entry(Some(Current(m).content), Current(m).mtime)
    ensures r.calls[|m.calls|] == Call(Now(m), Returned(Some(Current(m).content), Now(m)))
  {
    var k := |m.calls|;
    var m1, m2, m3, m4;
    longer, m1 := ReachOne(s, actions, m, Begin);
    AloneStep(m, m1, k, Calling, LockShared(k));
    longer, m2 := ReachOne(s, longer, m1, LockShared(k));
    AloneStep(m, m2, k, Peeking, Peek(k));
    longer, m3 := ReachOne(s, longer, m2, Peek(k));
    AloneStep(m, m3, k, Upgrading, LockExclusive(k));
    longer, m4 := ReachOne(s, longer, m3, LockExclusive(k));
    longer, r := AloneReloads(s, longer, m4, m, k);
  }
}
