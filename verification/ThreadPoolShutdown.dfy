/** Progress before shutdown, and exactly when the wakeups of thread_pool_destroy reach everyone. */
module ThreadPoolShutdown {
  import opened Wrappers
  import opened ThreadPoolMachine
  import opened ThreadPoolInvariants

  /** Steps of code that is running: not a new call, not a spurious wakeup, not the destroyer. */
  predicate IsProgress(a: Action)
  {
    !ByDestroyer(a) && !a.CallStarts? && !a.WorkerWakesSpuriously? && !a.CallWakesSpuriously?
  }

  lemma LockHolderMoves(s: Pool) returns (a: Action)
    requires Inv(s) && s.lock.Some?
    ensures Enabled(s, a) && IsProgress(a)
  {
    match s.lock.value
    case WorkerHolds(w) =>
      a := match s.workers[w]
        case Testing => WorkerTests(w)
        case Parking => WorkerParks(w)
        case Deciding => WorkerDecides(w)
        case _ => WorkerSignals(w, None);
      if a.WorkerSignals? && SomeSleeping(s) {
        var c :| 0 <= c < |s.calls| && s.calls[c].place == Sleeping;
        a := WorkerSignals(w, Some(c));
      }
    case CallHolds(c) =>
      a := match s.calls[c].place
        case Trying => CallTests(c)
        case Yielding => CallYields(c)
        case Choosing => CallChooses(c)
        case Storing => CallStores(c)
        case _ => CallSignals(c, None);
      if a.CallSignals? && SomeBlocked(s) {
        var w :| 0 <= w < |s.workers| && s.workers[w] == Blocked;
        a := CallSignals(c, Some(w));
      }
  }

  predicate SomeParking(s: Pool) { exists w :: 0 <= w < |s.workers| && s.workers[w] == Parking }

  predicate SomeYielding(s: Pool) { exists c :: 0 <= c < |s.calls| && s.calls[c].place == Yielding }

  /** No worker is asleep or on its way to sleep; likewise no call. */
  predicate WorkersUp(s: Pool) { !SomeParking(s) && !SomeBlocked(s) }

  predicate CallsUp(s: Pool) { !SomeYielding(s) && !SomeSleeping(s) }

  lemma WorkersStayUp(s: Pool, a: Action)
    requires RingOk(s.ring) && Enabled(s, a) && s.stop && WorkersUp(s)
    ensures WorkersUp(Apply(s, a))
  {
    var r := Apply(s, a);
    forall w | 0 <= w < |r.workers| ensures r.workers[w] != Parking && r.workers[w] != Blocked {
      assert s.workers[w] != Parking && s.workers[w] != Blocked;
    }
  }

  lemma CallsStayUp(s: Pool, a: Action)
    requires RingOk(s.ring) && Enabled(s, a) && s.stop && CallsUp(s)
    ensures CallsUp(Apply(s, a))
  {
    var r := Apply(s, a);
    forall c | 0 <= c < |r.calls| ensures r.calls[c].place != Yielding && r.calls[c].place != Sleeping {
      if c < |s.calls| { assert s.calls[c].place != Yielding && s.calls[c].place != Sleeping; }
    }
  }

  lemma StopStays(s: Pool, a: Action)
    requires RingOk(s.ring) && Enabled(s, a) && s.stop
    ensures Apply(s, a).stop
  {
  }

  lemma {:induction false} AwakeStayAwake(s: Pool, actions: seq<Action>, r: Pool)
    requires Inv(s) && s.stop && Reaches(s, actions, r)
    ensures WorkersUp(s) ==> WorkersUp(r)
    ensures CallsUp(s) ==> CallsUp(r)
    decreases |actions|
  {
    if |actions| > 0 {
      StopStays(s, actions[0]);
      if WorkersUp(s) { WorkersStayUp(s, actions[0]); }
      if CallsUp(s) { CallsStayUp(s, actions[0]); }
      StepKeepsInv(s, actions[0]);
      AwakeStayAwake(Apply(s, actions[0]), actions[1..], r);
    }
  }

  lemma Prepend(s: Pool, a: Action, actions: seq<Action>, r: Pool)
    requires Inv(s) && Enabled(s, a) && Inv(Apply(s, a)) && Reaches(Apply(s, a), actions, r)
    ensures Reaches(s, [a] + actions, r)
  {
    assert ([a] + actions)[1..] == actions;
  }

  /** No later state has a sleeping worker, or a sleeping call. */
  ghost predicate NoWorkerSleepsAgain(s: Pool)
    requires Inv(s)
  {
    forall actions, r :: Reaches(s, actions, r) ==> !SomeBlocked(r)
  }

  ghost predicate NoCallSleepsAgain(s: Pool)
    requires Inv(s)
  {
    forall actions, r :: Reaches(s, actions, r) ==> !SomeSleeping(r)
  }

  lemma ParkingSleeps(s: Pool, w: nat)
    requires Inv(s) && AtWorker(s, w, Parking)
    ensures !NoWorkerSleepsAgain(s)
  {
    var r := Apply(s, WorkerParks(w));
    StepKeepsInv(s, WorkerParks(w));
    assert r.workers[w] == Blocked;
    Prepend(s, WorkerParks(w), [], r);
  }

  lemma YieldingSleeps(s: Pool, c: nat)
    requires Inv(s) && AtCall(s, c, Yielding)
    ensures !NoCallSleepsAgain(s)
  {
    var r := Apply(s, CallYields(c));
    StepKeepsInv(s, CallYields(c));
    assert r.calls[c].place == Sleeping;
    Prepend(s, CallYields(c), [], r);
  }

  /** The broadcast of destroy reaches every worker for good exactly when no worker is caught
      between reading stop and going to sleep: the flag is set without the lock. */
  lemma WorkersAllWokenIff(s: Pool)
    requires Inv(s) && s.destroyer == StopSet
    ensures Inv(Apply(s, WakeWorkers))
    ensures NoWorkerSleepsAgain(Apply(s, WakeWorkers)) <==> !SomeParking(s)
  {
    var s' := Apply(s, WakeWorkers);
    StepKeepsInv(s, WakeWorkers);
    if SomeParking(s) {
      var w :| 0 <= w < |s.workers| && s.workers[w] == Parking;
      ParkingSleeps(s', w);
    } else {
      assert WorkersUp(s');
      forall actions, r | Reaches(s', actions, r) ensures !SomeBlocked(r) {
        AwakeStayAwake(s', actions, r);
      }
    }
  }

  /** Likewise for the second broadcast and the calls of submit. */
  lemma CallsAllWokenIff(s: Pool)
    requires Inv(s) && s.destroyer == WorkersWoken
    ensures Inv(Apply(s, WakeCalls))
    ensures NoCallSleepsAgain(Apply(s, WakeCalls)) <==> !SomeYielding(s)
  {
    var s' := Apply(s, WakeCalls);
    StepKeepsInv(s, WakeCalls);
    if SomeYielding(s) {
      var c :| 0 <= c < |s.calls| && s.calls[c].place == Yielding;
      YieldingSleeps(s', c);
    } else {
      assert CallsUp(s');
      forall actions, r | Reaches(s', actions, r) ensures !SomeSleeping(r) {
        AwakeStayAwake(s', actions, r);
      }
    }
  }

  /** Worker w sleeps after the broadcast that was to wake it, and no call is left that could
      still signal. */
  predicate Stranded(s: Pool, w: nat)
  {
    && AtWorker(s, w, Blocked) && s.stop
    && s.destroyer != NotCalled && s.destroyer != StopSet && s.destroyer != Joined
    && forall c :: 0 <= c < |s.calls| ==> s.calls[c].place != Storing && s.calls[c].place != Stored
  }

  lemma StrandedKeptByWorker(s: Pool, a: Action, w: nat)
    requires RingOk(s.ring) && Stranded(s, w) && Enabled(s, a) && ByWorker(a) && a != WorkerWakesSpuriously(w)
    ensures Stranded(Apply(s, a), w)
  {
  }

  lemma StrandedKeptByCall(s: Pool, a: Action, w: nat)
    requires RingOk(s.ring) && Stranded(s, w) && Enabled(s, a) && ByCall(a)
    ensures Stranded(Apply(s, a), w)
  {
  }

  lemma StrandedStays(s: Pool, a: Action, w: nat)
    requires RingOk(s.ring) && Stranded(s, w) && Enabled(s, a) && a != WorkerWakesSpuriously(w)
    ensures Stranded(Apply(s, a), w)
  {
    if ByWorker(a) {
      StrandedKeptByWorker(s, a, w);
    } else if ByCall(a) {
      StrandedKeptByCall(s, a, w);
    }
  }

  /** Worker w misses the broadcast: it is asleep after it, or holds the lock on its way to sleep. */
  predicate Doomed(s: Pool, w: nat)
  {
    && (AtWorker(s, w, Parking) || AtWorker(s, w, Blocked)) && s.stop
    && s.destroyer != NotCalled && s.destroyer != StopSet && s.destroyer != Joined
    && forall c :: 0 <= c < |s.calls| ==> s.calls[c].place != Storing && s.calls[c].place != Stored
  }

  /** A worker on its way to sleep at the broadcast misses it, and as it holds the lock no call is left
      that could still signal. */
  lemma ParkingIsDoomed(s: Pool, w: nat)
    requires Inv(s) && s.destroyer == StopSet && AtWorker(s, w, Parking)
    ensures Doomed(Apply(s, WakeWorkers), w)
  {
    forall c | 0 <= c < |s.calls| ensures s.calls[c].place != Storing && s.calls[c].place != Stored {
      assert !CallHasLock(s.calls[c].place);
    }
  }

  lemma DoomedStays(s: Pool, a: Action, w: nat)
    requires RingOk(s.ring) && Doomed(s, w) && Enabled(s, a) && a != WorkerWakesSpuriously(w)
    ensures Doomed(Apply(s, a), w)
  {
    if AtWorker(s, w, Blocked) {
      StrandedStays(s, a, w);
    } else if ByWorker(a) {
      DoomedKeptByWorker(s, a, w);
    } else if ByCall(a) {
      DoomedKeptByCall(s, a, w);
    }
  }

  lemma DoomedKeptByWorker(s: Pool, a: Action, w: nat)
    requires RingOk(s.ring) && Doomed(s, w) && AtWorker(s, w, Parking) && Enabled(s, a) && ByWorker(a)
    ensures Doomed(Apply(s, a), w)
  {
  }

  lemma DoomedKeptByCall(s: Pool, a: Action, w: nat)
    requires RingOk(s.ring) && Doomed(s, w) && AtWorker(s, w, Parking) && Enabled(s, a) && ByCall(a)
    ensures Doomed(Apply(s, a), w)
  {
  }

  /** A worker that misses the broadcast never exits, so destroy's joins never return, unless it wakes
      spuriously. */
  lemma {:induction false} DoomedForever(s: Pool, actions: seq<Action>, r: Pool, w: nat)
    requires Inv(s) && Doomed(s, w) && Reaches(s, actions, r)
    requires WorkerWakesSpuriously(w) !in actions
    ensures Doomed(r, w) && !Enabled(r, Join) && r.destroyer != Joined
    decreases |actions|
  {
    if |actions| > 0 {
      StepKeepsInv(s, actions[0]);
      DoomedStays(s, actions[0], w);
      DoomedForever(Apply(s, actions[0]), actions[1..], r, w);
    }
  }

  /** From a worker about to sleep: destroy sets stop and broadcasts, then the worker sleeps. */
  lemma StrandingTail(s: Pool) returns (actions: seq<Action>, r: Pool)
    requires Inv(s) && AtWorker(s, 0, Parking) && s.calls == [] && s.destroyer == NotCalled
    ensures Reaches(s, actions, r) && Stranded(r, 0)
  {
    var s' := StepTo(s, SetStop);
    var s'' := StepTo(s', WakeWorkers);
    r := StepTo(s'', WorkerParks(0));
    Prepend(s'', WorkerParks(0), [], r);
    actions := [WorkerParks(0)] + [];
    Prepend(s', WakeWorkers, actions, r);
    actions := [WakeWorkers] + actions;
    Prepend(s, SetStop, actions, r);
    actions := [SetStop] + actions;
  }

  lemma FirstWorkerParks(s: Pool) returns (s': Pool, s'': Pool)
    requires Inv(s) && s.lock == None && AtWorker(s, 0, Outside) && s.ring.count == 0 && !s.stop && s.calls == []
    ensures Enabled(s, WorkerLocks(0)) && s' == Apply(s, WorkerLocks(0)) && Inv(s')
    ensures Enabled(s', WorkerTests(0)) && s'' == Apply(s', WorkerTests(0)) && Inv(s'')
    ensures AtWorker(s'', 0, Parking) && s''.calls == [] && s''.destroyer == NotCalled
  {
    s' := StepTo(s, WorkerLocks(0));
    s'' := StepTo(s', WorkerTests(0));
  }

  /** A run of one worker and no submits that strands it: stop is set, and the broadcast made,
      while the worker holds the lock on its way to sleep. */
  lemma StrandingRun() returns (actions: seq<Action>, r: Pool)
    ensures Reachable(1, actions, r) && Stranded(r, 0)
  {
    var s := Init(1);
    InitInv(1);
    var s', s'' := FirstWorkerParks(s);
    actions, r := StrandingTail(s'');
    Prepend(s', WorkerTests(0), actions, r);
    actions := [WorkerTests(0)] + actions;
    Prepend(s, WorkerLocks(0), actions, r);
    actions := [WorkerLocks(0)] + actions;
  }

  lemma StepTo(s: Pool, a: Action) returns (r: Pool)
    requires Inv(s) && Enabled(s, a)
    ensures r == Apply(s, a) && Inv(r)
  {
    StepKeepsInv(s, a);
    r := Apply(s, a);
  }
}
