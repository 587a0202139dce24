/** Whether thread_pool_destroy returns (src/thread_pool.c): after its first broadcast its joins return
    on every schedule if and only if no worker was between reading stop and going to sleep; and then
    every call of submit returns too. */
module ThreadPoolDrain {
  import opened Sums
  import opened ThreadPoolMachine
  import opened ThreadPoolInvariants
  import opened ThreadPoolShutdown

  // ---------------------------------------------------------------- a measure of what is left to do

  /** More than a worker takes from taking an element of the queue until it is back at the lock. */
  const QUEUED: int := 8

  /** The steps a worker may still take before it exits, not counting what it takes from the queue. */
  function WorkerSteps(): Worker -> int
  {
    (p: Worker) =>
      match p
      case Outside => 4
      case Woken => 4
      case Testing => 3
      case Deciding => 2
      case Took(_) => 9
      case Running(_) => 8
      case _ => 0
  }

  /** Likewise for a call; storing an element makes work for a worker. */
  function CallSteps(): Call -> int
  {
    (c: Call) =>
      match c.place
      case Yielding => 7
      case Sleeping => 6
      case Entering => 5
      case Roused => 5
      case Trying => 4
      case Choosing => 3
      case Storing => 20
      case Stored => 11
      case Dropping => 1
      case Returned(_) => 0
  }

  function DestroyerSteps(d: Destroyer): int
  {
    match d
    case NotCalled => 4
    case StopSet => 3
    case WorkersWoken => 2
    case Joining => 1
    case Joined => 0
  }

  ghost function StepsLeft(s: Pool): int
  {
    QUEUED * s.ring.count + Sum(s.workers, WorkerSteps()) + Sum(s.calls, CallSteps()) + DestroyerSteps(s.destroyer)
  }

  lemma StepsNonNeg(s: Pool)
    ensures StepsLeft(s) >= 0
  {
    SumNonNeg(s.workers, WorkerSteps());
    SumNonNeg(s.calls, CallSteps());
  }

  lemma WorkerMoves(s: Pool, r: Pool, w: nat)
    requires w < |s.workers| && |r.workers| == |s.workers| && r.workers == s.workers[w := r.workers[w]]
    requires r.calls == s.calls && r.destroyer == s.destroyer
    requires QUEUED * r.ring.count + WorkerSteps()(r.workers[w]) < QUEUED * s.ring.count + WorkerSteps()(s.workers[w])
    ensures StepsLeft(r) < StepsLeft(s)
  {
    SumUpdate(s.workers, w, r.workers[w], WorkerSteps());
  }

  lemma CallMoves(s: Pool, r: Pool, c: nat)
    requires c < |s.calls| && |r.calls| == |s.calls| && r.calls == s.calls[c := r.calls[c]]
    requires r.workers == s.workers && r.destroyer == s.destroyer
    requires QUEUED * r.ring.count + CallSteps()(r.calls[c]) < QUEUED * s.ring.count + CallSteps()(s.calls[c])
    ensures StepsLeft(r) < StepsLeft(s)
  {
    SumUpdate(s.calls, c, r.calls[c], CallSteps());
  }

  lemma WorkerStepShape(s: Pool, a: Action)
    requires RingOk(s.ring) && s.stop && WorkersUp(s) && Enabled(s, a) && ByWorker(a) && !a.WorkerSignals?
    ensures var r := Apply(s, a);
      && |r.workers| == |s.workers| && r.workers == s.workers[a.w := r.workers[a.w]]
      && r.calls == s.calls && r.destroyer == s.destroyer
      && QUEUED * r.ring.count + WorkerSteps()(r.workers[a.w]) < QUEUED * s.ring.count + WorkerSteps()(s.workers[a.w])
  {
  }

  lemma CallStepShape(s: Pool, a: Action)
    requires RingOk(s.ring) && s.stop && WorkersUp(s) && Enabled(s, a) && ByCall(a) && !a.CallStarts?
    ensures var r := Apply(s, a);
      && |r.calls| == |s.calls| && r.calls == s.calls[a.c := r.calls[a.c]]
      && r.workers == s.workers && r.destroyer == s.destroyer
      && QUEUED * r.ring.count + CallSteps()(r.calls[a.c]) < QUEUED * s.ring.count + CallSteps()(s.calls[a.c])
  {
  }

  lemma SignalDrains(s: Pool, a: Action)
    requires RingOk(s.ring) && Enabled(s, a) && a.WorkerSignals?
    ensures StepsLeft(Apply(s, a)) < StepsLeft(s)
  {
    SumUpdate(s.workers, a.w, Running(s.workers[a.w].task), WorkerSteps());
    if a.call.Some? {
      var c := a.call.value;
      SumUpdate(s.calls, c, s.calls[c].(place := Roused), CallSteps());
    }
  }

  lemma DestroyerDrains(s: Pool, a: Action)
    requires RingOk(s.ring) && s.stop && WorkersUp(s) && Enabled(s, a) && ByDestroyer(a)
    ensures StepsLeft(Apply(s, a)) < StepsLeft(s)
  {
    if a.WakeWorkers? { SumEq(Wake(s.workers), s.workers, WorkerSteps(), WorkerSteps()); }
    if a.WakeCalls? { SumLe(Rouse(s.calls), s.calls, CallSteps(), CallSteps()); }
  }

  ghost predicate Draining(s: Pool) { Inv(s) && s.stop && WorkersUp(s) }

  /** Once stop is set and no worker is asleep or about to sleep, every step of every thread, a call
      asleep at a full queue included, brings the end nearer; only a new call of submit adds to what
      is left, five steps each. */
  lemma EveryStepDrains(s: Pool, a: Action)
    requires Draining(s) && Enabled(s, a)
    ensures Draining(Apply(s, a))
    ensures if a.CallStarts? then StepsLeft(Apply(s, a)) == StepsLeft(s) + 5 else StepsLeft(Apply(s, a)) < StepsLeft(s)
  {
    StepKeepsInv(s, a);
    StopStays(s, a);
    WorkersStayUp(s, a);
    if a.CallStarts? {
      SumAppend(s.calls, Call(Task(|s.calls|, a.arg), Entering), CallSteps());
    } else if a.WorkerSignals? {
      SignalDrains(s, a);
    } else if ByWorker(a) {
      WorkerStepShape(s, a);
      WorkerMoves(s, Apply(s, a), a.w);
    } else if ByCall(a) {
      CallStepShape(s, a);
      CallMoves(s, Apply(s, a), a.c);
    } else {
      DestroyerDrains(s, a);
    }
  }

  // ---------------------------------------------------------------- someone can always step

  /** Steps of code that is running, the destroyer's included: all but new calls and spurious wakeups. */
  predicate IsSteady(a: Action) { IsProgress(a) || ByDestroyer(a) }

  predicate AllExited(s: Pool) { forall w :: 0 <= w < |s.workers| ==> s.workers[w] == Exited }

  /** While a worker has not exited, someone can step. */
  lemma SomeoneMoves(s: Pool) returns (a: Action)
    requires Draining(s) && !AllExited(s)
    ensures Enabled(s, a) && IsProgress(a)
  {
    if s.lock.Some? {
      a := LockHolderMoves(s);
    } else {
      var w :| 0 <= w < |s.workers| && s.workers[w] != Exited;
      assert s.workers[w] != Parking && s.workers[w] != Blocked;
      a := if s.workers[w].Running? then WorkerFinishes(w) else WorkerLocks(w);
    }
  }

  /** Nothing that is running can go on. */
  ghost predicate Halted(s: Pool) { forall a :: Enabled(s, a) ==> !IsSteady(a) }

  lemma HaltedIsJoined(s: Pool)
    requires Draining(s) && Halted(s)
    ensures AllExited(s) && s.destroyer == Joined
  {
    if !AllExited(s) { var a := SomeoneMoves(s); }
    assert Enabled(s, WakeWorkers) ==> !IsSteady(WakeWorkers);
    assert Enabled(s, WakeCalls) ==> !IsSteady(WakeCalls);
    assert Enabled(s, Join) ==> !IsSteady(Join);
  }

  // ---------------------------------------------------------------- every schedule ends

  function Starts(actions: seq<Action>): nat
  {
    if |actions| == 0 then 0 else (if actions[0].CallStarts? then 1 else 0) + Starts(actions[1..])
  }

  /** Whatever the schedule, spurious wakeups and new calls included, the number of steps is bounded by
      what was left to do and by the new calls. */
  lemma {:induction false} DrainIsBounded(s: Pool, actions: seq<Action>, r: Pool)
    requires Draining(s) && Reaches(s, actions, r)
    ensures Draining(r) && |actions| <= StepsLeft(s) - StepsLeft(r) + 6 * Starts(actions)
    decreases |actions|
  {
    if |actions| > 0 {
      EveryStepDrains(s, actions[0]);
      DrainIsBounded(Apply(s, actions[0]), actions[1..], r);
    }
  }

  predicate SteadyRun(actions: seq<Action>) { forall i :: 0 <= i < |actions| ==> IsSteady(actions[i]) }

  lemma {:induction false} SteadyStartsNothing(actions: seq<Action>)
    requires SteadyRun(actions)
    ensures Starts(actions) == 0
  {
    if |actions| > 0 {
      assert IsSteady(actions[0]);
      assert forall i :: 0 <= i < |actions| - 1 ==> actions[1..][i] == actions[i + 1];
      SteadyStartsNothing(actions[1..]);
    }
  }

  /** No schedule goes on for ever, and one that can go no further has passed destroy's joins. */
  ghost predicate JoinsReturn(s: Pool)
    requires Inv(s)
  {
    && (exists bound :: SchedulesEnd(s, bound))
    && forall actions, r :: Reaches(s, actions, r) && SteadyRun(actions) && Halted(r) ==> r.destroyer == Joined
  }

  ghost predicate SchedulesEnd(s: Pool, bound: int)
    requires Inv(s)
  {
    forall actions, r :: Reaches(s, actions, r) && SteadyRun(actions) ==> |actions| <= bound
  }

  lemma DrainingReturns(s: Pool)
    requires Draining(s)
    ensures JoinsReturn(s)
  {
    forall actions, r | Reaches(s, actions, r) && SteadyRun(actions) ensures |actions| <= StepsLeft(s) {
      DrainIsBounded(s, actions, r);
      SteadyStartsNothing(actions);
      StepsNonNeg(r);
    }
    assert SchedulesEnd(s, StepsLeft(s));
    forall actions, r | Reaches(s, actions, r) && SteadyRun(actions) && Halted(r) ensures r.destroyer == Joined {
      DrainIsBounded(s, actions, r);
      HaltedIsJoined(r);
    }
  }

  lemma {:induction false} Append(s: Pool, actions: seq<Action>, m: Pool, a: Action)
    requires Inv(s) && Reaches(s, actions, m) && Inv(m) && Enabled(m, a)
    ensures Reaches(s, actions + [a], Apply(m, a))
    decreases |actions|
  {
    var longer := actions + [a];
    if |actions| == 0 {
      assert longer[1..] == [];
      StepKeepsInv(s, a);
    } else {
      StepKeepsInv(s, actions[0]);
      Append(Apply(s, actions[0]), actions[1..], m, a);
      assert longer[1..] == actions[1..] + [a];
    }
  }

  /** If schedules end, one of them can be continued until it halts. */
  lemma RunToHalt(s: Pool, actions: seq<Action>, m: Pool, bound: int) returns (longer: seq<Action>, r: Pool)
    requires Inv(s) && SchedulesEnd(s, bound) && Reaches(s, actions, m) && SteadyRun(actions) && Inv(m)
    ensures Reaches(s, longer, r) && SteadyRun(longer) && Halted(r)
    decreases bound - |actions|
  {
    if Halted(m) {
      longer, r := actions, m;
    } else {
      var a :| Enabled(m, a) && IsSteady(a);
      Append(s, actions, m, a);
      StepKeepsInv(m, a);
      longer, r := RunToHalt(s, actions + [a], Apply(m, a), bound);
    }
  }

  lemma SteadyIsNotSpurious(actions: seq<Action>, w: nat)
    requires SteadyRun(actions)
    ensures WorkerWakesSpuriously(w) !in actions
  {
  }

  lemma DoomedNeverReturns(s: Pool, w: nat)
    requires Inv(s) && Doomed(s, w)
    ensures !JoinsReturn(s)
  {
    if JoinsReturn(s) {
      var bound :| SchedulesEnd(s, bound);
      var actions, r := RunToHalt(s, [], s, bound);
      SteadyIsNotSpurious(actions, w);
      DoomedForever(s, actions, r, w);
    }
  }

  /** After the first broadcast of destroy its joins return, on every schedule, if and only if no worker
      was between reading stop and going to sleep. Submitters do not matter: a call asleep at a full
      queue is woken by the workers that empty it. */
  lemma JoinsReturnIff(s: Pool)
    requires Inv(s) && s.destroyer == StopSet
    ensures Inv(Apply(s, WakeWorkers))
    ensures JoinsReturn(Apply(s, WakeWorkers)) <==> !SomeParking(s)
  {
    var r := Apply(s, WakeWorkers);
    StepKeepsInv(s, WakeWorkers);
    if SomeParking(s) {
      var w :| 0 <= w < |s.workers| && s.workers[w] == Parking;
      ParkingIsDoomed(s, w);
      DoomedNeverReturns(r, w);
    } else {
      forall w | 0 <= w < |r.workers| ensures r.workers[w] != Parking && r.workers[w] != Blocked {
        assert s.workers[w] != Parking;
      }
      assert WorkersUp(r);
      DrainingReturns(r);
    }
  }

  // ---------------------------------------------------------------- the calls of submit

  function Waiting(): Call -> int { (c: Call) => if c.place == Yielding || c.place == Sleeping then 1 else 0 }

  /** After the second broadcast, each call that still goes to sleep is owed a signal: by an element of
      the queue, or by a worker that has taken one. */
  ghost predicate Owed(s: Pool)
  {
    s.destroyer == Joining || s.destroyer == Joined ==>
      Sum(s.calls, Waiting()) <= s.ring.count + Sum(s.workers, AboutToFree())
  }

  lemma OwedAfterBroadcast(s: Pool)
    requires Inv(s) && s.destroyer == WorkersWoken
    ensures Owed(Apply(s, WakeCalls))
  {
    var cs := Rouse(s.calls);
    SumNonNeg(s.workers, AboutToFree());
    if c :| 0 <= c < |s.calls| && s.calls[c].place == Yielding {
      assert CallKnows(s, s.calls[c].place);
      SumSingle(cs, c, Waiting());
    } else {
      SumZero(cs, Waiting());
    }
  }

  lemma OwedKeptBySignal(s: Pool, a: Action)
    requires Inv(s) && Owed(s) && Enabled(s, a) && a.WorkerSignals?
    ensures Owed(Apply(s, a))
  {
    SumUpdate(s.workers, a.w, Running(s.workers[a.w].task), AboutToFree());
    if a.call.Some? {
      var c := a.call.value;
      SumUpdate(s.calls, c, s.calls[c].(place := Roused), Waiting());
    } else {
      SumZero(s.calls, Waiting());
      SumNonNeg(Apply(s, a).workers, AboutToFree());
    }
  }

  lemma OwedKeptByWorker(s: Pool, a: Action)
    requires RingOk(s.ring) && Owed(s) && Enabled(s, a) && ByWorker(a) && !a.WorkerSignals?
    ensures Owed(Apply(s, a))
  {
    SumUpdate(s.workers, a.w, Apply(s, a).workers[a.w], AboutToFree());
  }

  lemma OwedKeptByCallSignal(s: Pool, a: Action)
    requires RingOk(s.ring) && Owed(s) && Enabled(s, a) && a.CallSignals?
    ensures Owed(Apply(s, a))
  {
    SumUpdate(s.calls, a.c, s.calls[a.c].(place := Returned(true)), Waiting());
    if a.worker.Some? { SumUpdate(s.workers, a.worker.value, Woken, AboutToFree()); }
  }

  lemma OwedKeptByCall(s: Pool, a: Action)
    requires RingOk(s.ring) && s.stop && Owed(s) && Enabled(s, a) && ByCall(a) && !a.CallSignals?
    ensures Owed(Apply(s, a))
  {
    if a.CallStarts? {
      SumAppend(s.calls, Call(Task(|s.calls|, a.arg), Entering), Waiting());
    } else {
      SumUpdate(s.calls, a.c, Apply(s, a).calls[a.c], Waiting());
    }
  }

  lemma OwedKept(s: Pool, a: Action)
    requires Inv(s) && s.stop && Owed(s) && Enabled(s, a)
    ensures Owed(Apply(s, a))
  {
    if a.WorkerSignals? {
      OwedKeptBySignal(s, a);
    } else if ByWorker(a) {
      OwedKeptByWorker(s, a);
    } else if a.CallSignals? {
      OwedKeptByCallSignal(s, a);
    } else if ByCall(a) {
      OwedKeptByCall(s, a);
    } else if a.WakeCalls? {
      OwedAfterBroadcast(s);
    }
  }

  lemma {:induction false} OwedOnRuns(s: Pool, actions: seq<Action>, r: Pool)
    requires Draining(s) && Owed(s) && Reaches(s, actions, r)
    ensures Owed(r)
    decreases |actions|
  {
    if |actions| > 0 {
      EveryStepDrains(s, actions[0]);
      OwedKept(s, actions[0]);
      OwedOnRuns(Apply(s, actions[0]), actions[1..], r);
    }
  }

  predicate AllReturned(s: Pool) { forall c :: 0 <= c < |s.calls| ==> s.calls[c].place.Returned? }

  lemma HaltedHasNoCalls(s: Pool)
    requires Draining(s) && Owed(s) && Halted(s) && |s.workers| > 0
    ensures AllReturned(s) && s.ring.count == 0
  {
    HaltedIsJoined(s);
    assert WorkerKnows(s, s.workers[0]);
    SumZero(s.workers, AboutToFree());
    SumNonNeg(s.calls, Waiting());
    if s.lock.Some? { var a := LockHolderMoves(s); }
    forall c | 0 <= c < |s.calls| ensures s.calls[c].place.Returned? {
      assert Waiting()(s.calls[c]) == 0;
      assert Enabled(s, CallLocks(c)) ==> !IsSteady(CallLocks(c));
      assert Enabled(s, CallDrops(c)) ==> !IsSteady(CallDrops(c));
      assert CallHasLock(s.calls[c].place) ==> s.lock.Some?;
    }
  }

  /** Shutdown completes: if no worker was between reading stop and going to sleep at the first
      broadcast, every schedule from there, new calls and spurious wakeups included, is bounded by what
      was left to do and the new calls, and it can go no further only when every worker has exited,
      the queue is empty, every call of submit has returned and destroy has joined. */
  lemma ShutdownCompletes(s: Pool, actions: seq<Action>, r: Pool)
    requires Inv(s) && s.destroyer == StopSet && !SomeParking(s) && |s.workers| > 0
    requires Inv(Apply(s, WakeWorkers)) && Reaches(Apply(s, WakeWorkers), actions, r)
    ensures |actions| <= StepsLeft(Apply(s, WakeWorkers)) + 6 * Starts(actions)
    ensures Halted(r) ==> AllExited(r) && AllReturned(r) && r.ring.count == 0 && r.destroyer == Joined
  {
    var s' := Apply(s, WakeWorkers);
    forall w | 0 <= w < |s'.workers| ensures s'.workers[w] != Parking && s'.workers[w] != Blocked {
      assert s.workers[w] != Parking;
    }
    DrainIsBounded(s', actions, r);
    StepsNonNeg(r);
    OwedOnRuns(s', actions, r);
    WorkersStay(s', actions, r);
    if Halted(r) {
      HaltedIsJoined(r);
      HaltedHasNoCalls(r);
    }
  }

  lemma WorkersStay(s: Pool, actions: seq<Action>, r: Pool)
    requires Inv(s) && Reaches(s, actions, r)
    ensures |r.workers| == |s.workers|
  {
    WorkerCountFrom(s, actions, r);
  }
}
