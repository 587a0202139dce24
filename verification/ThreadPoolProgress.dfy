/** The thread pool gets its work done (src/thread_pool.c): before shutdown, with no help from spurious
    wakeups, everything submitted is run. */
module ThreadPoolProgress {
  import opened Sums
  import opened ThreadPoolMachine
  import opened ThreadPoolInvariants
  import opened ThreadPoolShutdown

  // ---------------------------------------------------------------- a measure of what is left to do

  /** More than a worker takes from taking an element of the queue until it is back at the lock, and
      than a call it wakes takes until it sleeps again. */
  const QUEUED: int := 50

  function WorkerWork(): Worker -> int
  {
    (p: Worker) =>
      match p
      case Outside => 4
      case Woken => 4
      case Testing => 3
      case Deciding => 2
      case Parking => 1
      case Took(_) => 20
      case Running(_) => 8
      case _ => 0
  }

  function CallWork(): Call -> int
  {
    (c: Call) =>
      match c.place
      case Entering => 59
      case Roused => 59
      case Trying => 58
      case Choosing => 57
      case Storing => 56
      case Yielding => 51
      case Sleeping => 50
      case Stored => 5
      case Dropping => 1
      case Returned(_) => 0
  }

  ghost function WorkLeft(s: Pool): int
  {
    QUEUED * s.ring.count + Sum(s.workers, WorkerWork()) + Sum(s.calls, CallWork())
  }

  lemma WorkNonNeg(s: Pool)
    ensures WorkLeft(s) >= 0
  {
    SumNonNeg(s.workers, WorkerWork());
    SumNonNeg(s.calls, CallWork());
  }

  lemma WorkerStepShape(s: Pool, a: Action)
    requires LocalInv(s) && Enabled(s, a) && IsProgress(a) && ByWorker(a) && !a.WorkerSignals?
    ensures var r := Apply(s, a);
      && |r.workers| == |s.workers| && r.workers == s.workers[a.w := r.workers[a.w]] && r.calls == s.calls
      && QUEUED * r.ring.count + WorkerWork()(r.workers[a.w]) < QUEUED * s.ring.count + WorkerWork()(s.workers[a.w])
  {
    assert WorkerKnows(s, s.workers[a.w]);
  }

  lemma CallStepShape(s: Pool, a: Action)
    requires LocalInv(s) && Enabled(s, a) && IsProgress(a) && ByCall(a) && !a.CallSignals?
    ensures var r := Apply(s, a);
      && |r.calls| == |s.calls| && r.calls == s.calls[a.c := r.calls[a.c]] && r.workers == s.workers
      && QUEUED * r.ring.count + CallWork()(r.calls[a.c]) < QUEUED * s.ring.count + CallWork()(s.calls[a.c])
  {
  }

  lemma WorkerSignalWorks(s: Pool, a: Action)
    requires RingOk(s.ring) && Enabled(s, a) && a.WorkerSignals?
    ensures WorkLeft(Apply(s, a)) < WorkLeft(s)
  {
    SumUpdate(s.workers, a.w, Running(s.workers[a.w].task), WorkerWork());
    if a.call.Some? {
      var c := a.call.value;
      SumUpdate(s.calls, c, s.calls[c].(place := Roused), CallWork());
    }
  }

  lemma CallSignalWorks(s: Pool, a: Action)
    requires RingOk(s.ring) && Enabled(s, a) && a.CallSignals?
    ensures WorkLeft(Apply(s, a)) < WorkLeft(s)
  {
    SumUpdate(s.calls, a.c, s.calls[a.c].(place := Returned(true)), CallWork());
    if a.worker.Some? { SumUpdate(s.workers, a.worker.value, Woken, WorkerWork()); }
  }

  /** In every state of every run, before or after stop is set, every step of code that is running leaves
      less to do. */
  lemma EveryStepWorks(s: Pool, a: Action)
    requires Inv(s) && Enabled(s, a) && IsProgress(a)
    ensures WorkLeft(Apply(s, a)) < WorkLeft(s)
  {
    var r := Apply(s, a);
    if a.WorkerSignals? {
      WorkerSignalWorks(s, a);
    } else if ByWorker(a) {
      WorkerStepShape(s, a);
      SumUpdate(s.workers, a.w, r.workers[a.w], WorkerWork());
    } else if a.CallSignals? {
      CallSignalWorks(s, a);
    } else {
      CallStepShape(s, a);
      SumUpdate(s.calls, a.c, r.calls[a.c], CallWork());
    }
  }

  // ---------------------------------------------------------------- the end of a schedule

  predicate AllProgress(actions: seq<Action>) { forall i :: 0 <= i < |actions| ==> IsProgress(actions[i]) }

  lemma {:induction false} WorkIsBounded(s: Pool, actions: seq<Action>, r: Pool)
    requires Inv(s) && Reaches(s, actions, r) && AllProgress(actions)
    ensures Inv(r) && |actions| <= WorkLeft(s) - WorkLeft(r)
    ensures r.stop == s.stop && |r.workers| == |s.workers|
    decreases |actions|
  {
    if |actions| > 0 {
      var a := actions[0];
      StepKeepsInv(s, a);
      EveryStepWorks(s, a);
      StopUnchanged(s, a);
      assert forall i :: 0 <= i < |actions| - 1 ==> actions[1..][i] == actions[i + 1];
      WorkIsBounded(Apply(s, a), actions[1..], r);
    }
  }

  lemma StopUnchanged(s: Pool, a: Action)
    requires RingOk(s.ring) && Enabled(s, a) && IsProgress(a)
    ensures Apply(s, a).stop == s.stop && |Apply(s, a).workers| == |s.workers|
  {
  }

  /** No code that is running can go on. */
  ghost predicate Idle(s: Pool) { forall a :: Enabled(s, a) ==> !IsProgress(a) }

  lemma IdleThreads(s: Pool)
    requires Inv(s) && Idle(s) && !s.stop
    ensures forall w :: 0 <= w < |s.workers| ==> s.workers[w] == Blocked
    ensures forall c :: 0 <= c < |s.calls| ==> s.calls[c].place == Sleeping || s.calls[c].place == Returned(true)
  {
    if s.lock.Some? { var a := LockHolderMoves(s); }
    forall w | 0 <= w < |s.workers| ensures s.workers[w] == Blocked {
      assert !WorkerHasLock(s.workers[w]) && WorkerKnows(s, s.workers[w]);
      assert Enabled(s, WorkerLocks(w)) ==> !IsProgress(WorkerLocks(w));
      assert Enabled(s, WorkerFinishes(w)) ==> !IsProgress(WorkerFinishes(w));
    }
    forall c | 0 <= c < |s.calls| ensures s.calls[c].place == Sleeping || s.calls[c].place == Returned(true) {
      assert !CallHasLock(s.calls[c].place) && CallKnows(s, s.calls[c].place);
      assert Enabled(s, CallLocks(c)) ==> !IsProgress(CallLocks(c));
    }
  }

  lemma IdleIsDone(s: Pool)
    requires Inv(s) && Idle(s) && !s.stop && |s.workers| > 0
    ensures s.ring.count == 0
    ensures forall c :: 0 <= c < |s.calls| ==> s.calls[c].place == Returned(true)
  {
    IdleThreads(s);
    SumZero(s.workers, Attending());
    SumZero(s.calls, AboutToSignal());
    SumZero(s.workers, AboutToFree());
    SumZero(s.calls, Retrying());
    assert s.workers[0] == Blocked;
    assert SomeBlocked(s);
    assert s.ring.count == 0;
    assert !SomeSleeping(s);
  }

  lemma DoneWasRun(s: Pool, c: nat)
    requires Inv(s) && s.ring.count == 0 && c < |s.calls| && s.calls[c].place == Returned(true)
    requires forall w :: 0 <= w < |s.workers| ==> s.workers[w] == Blocked
    ensures TimesRun(s, s.calls[c].task) == 1 && TimesDropped(s, s.calls[c].task) == 0
  {
    assert TaskLedger(s, s.calls[c].task);
    SumZero(s.workers, Holding(s.calls[c].task));
    assert s.enqueued == s.dequeued;
  }

  /** Liveness: from any reachable state with stop clear, every schedule without new calls ends, within a
      number of steps known beforehand and with no help from spurious wakeups, and only with the queue
      empty, every call of submit returned, and everything ever submitted run exactly once. */
  lemma WorkGetsDone(numThreads: nat, past: seq<Action>, s: Pool, actions: seq<Action>, r: Pool, c: nat)
    requires numThreads > 0 && Reachable(numThreads, past, s) && !s.stop
    requires (ReachableInv(numThreads, past, s); Reaches(s, actions, r)) && AllProgress(actions)
    ensures |actions| <= WorkLeft(s)
    ensures Idle(r) ==> r.ring.count == 0
    ensures Idle(r) && c < |r.calls| ==>
      && r.calls[c].place == Returned(true)
      && TimesRun(r, r.calls[c].task) == 1 && TimesDropped(r, r.calls[c].task) == 0
  {
    ReachableInv(numThreads, past, s);
    WorkerCount(numThreads, past, s);
    WorkIsBounded(s, actions, r);
    WorkNonNeg(r);
    if Idle(r) {
      IdleIsDone(r);
      IdleThreads(r);
      if c < |r.calls| { DoneWasRun(r, c); }
    }
  }
}
