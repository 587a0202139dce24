/** What every interleaving of the thread pool keeps. */
module ThreadPoolInvariants {
  import opened Wrappers
  import opened Sums
  import opened ThreadPoolMachine

  // ---------------------------------------------------------------- mutual exclusion

  predicate WorkerHasLock(p: Worker) { p == Testing || p == Parking || p == Deciding || p.Took? }

  predicate CallHasLock(p: Place)
  {
    p == Trying || p == Yielding || p == Choosing || p == Storing || p == Stored
  }

  predicate LockInv(s: Pool)
  {
    && (forall w :: 0 <= w < |s.workers| ==> (WorkerHasLock(s.workers[w]) <==> s.lock == Some(WorkerHolds(w))))
    && (forall c :: 0 <= c < |s.calls| ==> (CallHasLock(s.calls[c].place) <==> s.lock == Some(CallHolds(c))))
    && (s.lock.Some? ==> match s.lock.value case WorkerHolds(w) => w < |s.workers| case CallHolds(c) => c < |s.calls|)
  }

  lemma LockKeptByWorker(s: Pool, a: Action)
    requires RingOk(s.ring) && Enabled(s, a) && LockInv(s) && ByWorker(a)
    ensures LockInv(Apply(s, a))
  {
  }

  lemma LockKeptByCall(s: Pool, a: Action)
    requires RingOk(s.ring) && Enabled(s, a) && LockInv(s) && ByCall(a)
    ensures LockInv(Apply(s, a))
  {
  }

  lemma LockKeptByDestroyer(s: Pool, a: Action)
    requires RingOk(s.ring) && Enabled(s, a) && LockInv(s) && ByDestroyer(a)
    ensures LockInv(Apply(s, a))
  {
  }

  // ---------------------------------------------------------------- what a thread knows where it is

  predicate WorkerKnows(s: Pool, p: Worker)
  {
    && (p == Parking ==> s.ring.count == 0)
    && (p == Deciding ==> s.ring.count > 0 || s.stop)
    && (p == Exited ==> s.stop && s.ring.count == 0)
  }

  predicate CallKnows(s: Pool, p: Place)
  {
    && (p == Yielding ==> s.ring.count == QUEUE_CAPACITY)
    && (p == Choosing ==> s.stop || s.ring.count < QUEUE_CAPACITY)
    && (p == Storing ==> s.ring.count < QUEUE_CAPACITY)
    && (p == Dropping || p == Returned(false) ==> s.stop)
  }

  /** Once a worker has exited, no call is past its stop test. */
  predicate ExitInv(s: Pool)
  {
    forall w, c :: 0 <= w < |s.workers| && 0 <= c < |s.calls| && s.workers[w] == Exited
      ==> s.calls[c].place != Storing && s.calls[c].place != Stored
  }

  predicate KnowsInv(s: Pool)
  {
    && RingOk(s.ring)
    && (s.stop <==> s.destroyer != NotCalled)
    && (forall w :: 0 <= w < |s.workers| ==> WorkerKnows(s, s.workers[w]))
    && (forall c :: 0 <= c < |s.calls| ==> CallKnows(s, s.calls[c].place))
  }

  predicate LocalInv(s: Pool) { KnowsInv(s) && ExitInv(s) }

  lemma KnowsKeptByWorker(s: Pool, a: Action)
    requires KnowsInv(s) && LockInv(s) && Enabled(s, a) && ByWorker(a)
    ensures KnowsInv(Apply(s, a))
  {
    if a.WorkerDecides? && s.ring.count > 0 { TakeRemovesFirst(s.ring); }
  }

  /** A worker exits while it holds the lock, so no call does. */
  lemma ExitKeptByWorker(s: Pool, a: Action)
    requires RingOk(s.ring) && ExitInv(s) && LockInv(s) && Enabled(s, a) && ByWorker(a)
    ensures ExitInv(Apply(s, a))
  {
  }

  lemma LocalKeptByWorker(s: Pool, a: Action)
    requires LocalInv(s) && LockInv(s) && Enabled(s, a) && ByWorker(a)
    ensures LocalInv(Apply(s, a))
  {
    KnowsKeptByWorker(s, a);
    ExitKeptByWorker(s, a);
  }

  lemma KnowsKeptByCall(s: Pool, a: Action)
    requires LocalInv(s) && LockInv(s) && Enabled(s, a) && ByCall(a)
    ensures KnowsInv(Apply(s, a))
  {
    if a.CallStores? { PutAppends(s.ring, s.calls[a.c].task); }
  }

  /** After an exit stop is set, so a call at its stop test drops. */
  lemma ExitKeptByCall(s: Pool, a: Action)
    requires LocalInv(s) && Enabled(s, a) && ByCall(a)
    ensures ExitInv(Apply(s, a))
  {
    forall w | 0 <= w < |s.workers| && s.workers[w] == Exited ensures s.stop { assert WorkerKnows(s, s.workers[w]); }
  }

  lemma LocalKeptByCall(s: Pool, a: Action)
    requires LocalInv(s) && LockInv(s) && Enabled(s, a) && ByCall(a)
    ensures LocalInv(Apply(s, a))
  {
    KnowsKeptByCall(s, a);
    ExitKeptByCall(s, a);
  }

  lemma LocalKeptByDestroyer(s: Pool, a: Action)
    requires LocalInv(s) && LockInv(s) && Enabled(s, a) && ByDestroyer(a)
    ensures LocalInv(Apply(s, a))
  {
  }

  // ---------------------------------------------------------------- wakeups

  /** Workers that will test the queue again before they can sleep, and calls that have stored a
      task but not yet signalled it. */
  function Attending(): Worker -> int
  {
    (p: Worker) => if p == Woken || p == Testing || p == Deciding then 1 else 0
  }

  function AboutToSignal(): Call -> int { (c: Call) => if c.place == Stored then 1 else 0 }

  /** Likewise for calls waiting for room, and workers that have freed a slot without signalling. */
  function Retrying(): Call -> int
  {
    (c: Call) =>
      if c.place == Roused || c.place == Trying || c.place == Choosing || c.place == Storing then 1 else 0
  }

  function AboutToFree(): Worker -> int { (p: Worker) => if p.Took? then 1 else 0 }

  ghost function Attention(s: Pool): int { Sum(s.workers, Attending()) + Sum(s.calls, AboutToSignal()) }

  ghost function Retries(s: Pool): int { Sum(s.calls, Retrying()) + Sum(s.workers, AboutToFree()) }

  predicate SomeBlocked(s: Pool) { exists w :: 0 <= w < |s.workers| && s.workers[w] == Blocked }

  predicate SomeSleeping(s: Pool) { exists c :: 0 <= c < |s.calls| && s.calls[c].place == Sleeping }

  ghost predicate WakeInv(s: Pool)
  {
    && (SomeBlocked(s) ==> s.ring.count <= Attention(s))
    && (!s.stop && SomeSleeping(s) ==> QUEUE_CAPACITY <= s.ring.count + Retries(s))
  }

  lemma WakeSumsOfWorkerMove(s: Pool, w: nat, p: Worker)
    requires w < |s.workers|
    ensures Attention(MoveWorker(s, w, p)) == Attention(s) - Attending()(s.workers[w]) + Attending()(p)
    ensures Retries(MoveWorker(s, w, p)) == Retries(s) - AboutToFree()(s.workers[w]) + AboutToFree()(p)
  {
    SumUpdate(s.workers, w, p, Attending());
    SumUpdate(s.workers, w, p, AboutToFree());
  }

  lemma WakeSumsOfCallMove(s: Pool, c: nat, p: Place)
    requires c < |s.calls|
    ensures var k := s.calls[c];
      && Attention(MoveCall(s, c, p)) == Attention(s) - AboutToSignal()(k) + AboutToSignal()(k.(place := p))
      && Retries(MoveCall(s, c, p)) == Retries(s) - Retrying()(k) + Retrying()(k.(place := p))
  {
    SumUpdate(s.calls, c, s.calls[c].(place := p), AboutToSignal());
    SumUpdate(s.calls, c, s.calls[c].(place := p), Retrying());
  }

  lemma WakeSumsNonNeg(s: Pool)
    ensures Attention(s) >= 0 && Retries(s) >= 0
  {
    SumNonNeg(s.workers, Attending());
    SumNonNeg(s.calls, AboutToSignal());
    SumNonNeg(s.calls, Retrying());
    SumNonNeg(s.workers, AboutToFree());
  }

  /** One worker moves from its place to p while the queue goes from s to r. */
  lemma WakeKeptByWorkerMove(s: Pool, r: Pool, w: nat, p: Worker)
    requires w < |s.workers| && WakeInv(s)
    requires r.workers == s.workers[w := p] && r.calls == s.calls && r.stop == s.stop
    requires p == Blocked ==> r.ring.count == 0
    requires r.ring.count - Attending()(p) <= s.ring.count - Attending()(s.workers[w]) || r.ring.count == 0
    requires r.ring.count + AboutToFree()(p) >= s.ring.count + AboutToFree()(s.workers[w]) || !SomeSleeping(s)
    ensures WakeInv(r)
  {
    WakeSumsOfWorkerMove(s, w, p);
    WakeSumsNonNeg(r);
    assert Attention(r) == Attention(MoveWorker(s, w, p)) && Retries(r) == Retries(MoveWorker(s, w, p));
    if SomeBlocked(r) && r.ring.count > 0 {
      var k :| 0 <= k < |r.workers| && r.workers[k] == Blocked;
      assert s.workers[k] == Blocked;
    }
  }

  lemma WakeKeptByCallMove(s: Pool, r: Pool, c: nat, p: Place)
    requires c < |s.calls| && WakeInv(s)
    requires r.calls == s.calls[c := s.calls[c].(place := p)] && r.workers == s.workers && r.stop == s.stop
    requires p == Sleeping ==> r.ring.count == QUEUE_CAPACITY
    requires var k := s.calls[c];
      && (r.ring.count - AboutToSignal()(k.(place := p)) <= s.ring.count - AboutToSignal()(k) || !SomeBlocked(s))
      && (r.ring.count + Retrying()(k.(place := p)) >= s.ring.count + Retrying()(k)
          || r.ring.count == QUEUE_CAPACITY || s.stop)
    ensures WakeInv(r)
  {
    WakeSumsOfCallMove(s, c, p);
    WakeSumsNonNeg(r);
    assert Attention(r) == Attention(MoveCall(s, c, p)) && Retries(r) == Retries(MoveCall(s, c, p));
    if SomeSleeping(r) && r.ring.count != QUEUE_CAPACITY {
      var k :| 0 <= k < |r.calls| && r.calls[k].place == Sleeping;
      assert s.calls[k].place == Sleeping;
    }
  }

  lemma WakeKeptByWorker(s: Pool, a: Action)
    requires LocalInv(s) && LockInv(s) && WakeInv(s) && Enabled(s, a) && ByWorker(a)
    ensures WakeInv(Apply(s, a))
  {
    var s' := Apply(s, a);
    if a.WorkerSignals? && a.call.Some? {
      RousedMakesUp(s, a.w, a.call.value);
    } else {
      WakeKeptByWorkerMove(s, s', a.w, s'.workers[a.w]);
    }
  }

  lemma RousedMakesUp(s: Pool, w: nat, c: nat)
    requires WakeInv(s) && w < |s.workers| && s.workers[w].Took? && AtCall(s, c, Sleeping)
    ensures WakeInv(MoveCall(MoveWorker(s, w, Running(s.workers[w].task)).(lock := None), c, Roused))
  {
    var p := Running(s.workers[w].task);
    var m := MoveWorker(s, w, p).(lock := None);
    WakeSumsOfWorkerMove(s, w, p);
    WakeSumsOfCallMove(m, c, Roused);
    var r := MoveCall(m, c, Roused);
    assert Attention(r) == Attention(s) && Retries(r) == Retries(s);
    if SomeBlocked(r) {
      var k :| 0 <= k < |r.workers| && r.workers[k] == Blocked;
      assert s.workers[k] == Blocked;
    }
    assert SomeSleeping(s);
  }

  lemma WokenMakesUp(s: Pool, c: nat, w: nat)
    requires WakeInv(s) && AtCall(s, c, Stored) && AtWorker(s, w, Blocked)
    ensures WakeInv(MoveWorker(MoveCall(s, c, Returned(true)).(lock := None), w, Woken))
  {
    var m := MoveCall(s, c, Returned(true)).(lock := None);
    WakeSumsOfCallMove(s, c, Returned(true));
    WakeSumsOfWorkerMove(m, w, Woken);
    var r := MoveWorker(m, w, Woken);
    assert Attention(r) == Attention(s) && Retries(r) == Retries(s);
    if SomeSleeping(r) {
      var k :| 0 <= k < |r.calls| && r.calls[k].place == Sleeping;
      assert s.calls[k].place == Sleeping;
    }
    assert SomeBlocked(s);
  }

  lemma WakeKeptByCall(s: Pool, a: Action)
    requires LocalInv(s) && LockInv(s) && WakeInv(s) && Enabled(s, a) && ByCall(a)
    ensures WakeInv(Apply(s, a))
  {
    var s' := Apply(s, a);
    if a.CallStarts? {
      WakeKeptByStart(s, Call(Task(|s.calls|, a.arg), Entering));
    } else if a.CallSignals? && a.worker.Some? {
      WokenMakesUp(s, a.c, a.worker.value);
    } else {
      WakeKeptByCallMove(s, s', a.c, s'.calls[a.c].place);
    }
  }

  lemma WakeKeptByStart(s: Pool, c: Call)
    requires WakeInv(s) && c.place == Entering
    ensures WakeInv(s.(calls := s.calls + [c]))
  {
    SumAppend(s.calls, c, AboutToSignal());
    SumAppend(s.calls, c, Retrying());
    var r := s.(calls := s.calls + [c]);
    if SomeSleeping(r) {
      var k :| 0 <= k < |r.calls| && r.calls[k].place == Sleeping;
      assert s.calls[k].place == Sleeping;
    }
  }

  lemma WakeKeptByDestroyer(s: Pool, a: Action)
    requires LocalInv(s) && LockInv(s) && WakeInv(s) && Enabled(s, a) && ByDestroyer(a)
    ensures WakeInv(Apply(s, a))
  {
    if a.WakeCalls? {
      SumEq(s.calls, Rouse(s.calls), AboutToSignal(), AboutToSignal());
    }
  }

  // ---------------------------------------------------------------- the ledger of tasks

  function Holding(t: Task): Worker -> int
  {
    (p: Worker) => if p == Took(t) || p == Running(t) then 1 else 0
  }

  predicate AtPlace(s: Pool, t: Task, p: Place)
  {
    t.id < |s.calls| && s.calls[t.id] == Call(t, p)
  }

  /** Where a task's call stands decides whether that task is in the queue's history and in the
      drop history; a task taken from the queue has been executed or is held by one worker. */
  ghost predicate TaskLedger(s: Pool, t: Task)
  {
    && multiset(s.enqueued)[t] == (if AtPlace(s, t, Stored) || AtPlace(s, t, Returned(true)) then 1 else 0)
    && multiset(s.dropped)[t] == (if AtPlace(s, t, Returned(false)) then 1 else 0)
    && multiset(s.dequeued)[t] == multiset(s.executed)[t] + Sum(s.workers, Holding(t))
  }

  predicate QueueInv(s: Pool) { RingOk(s.ring) && s.enqueued == s.dequeued + Contents(s.ring) }

  predicate Numbered(s: Pool) { forall c :: 0 <= c < |s.calls| ==> s.calls[c].task.id == c }

  ghost predicate LedgerInv(s: Pool)
  {
    QueueInv(s) && Numbered(s) && forall t :: TaskLedger(s, t)
  }

  ghost predicate SamePlaces(s: Pool, r: Pool, t: Task)
  {
    forall p :: p == Stored || p.Returned? ==> (AtPlace(s, t, p) <==> AtPlace(r, t, p))
  }

  /** One worker moves; the histories it extends account for what it picks up or puts down. */
  lemma TaskLedgerKeptByWorkerMove(s: Pool, r: Pool, w: nat, t: Task)
    requires TaskLedger(s, t) && w < |s.workers| == |r.workers| && r.workers == s.workers[w := r.workers[w]]
    requires r.enqueued == s.enqueued && r.dropped == s.dropped && SamePlaces(s, r, t)
    requires multiset(r.dequeued)[t] + multiset(s.executed)[t] + Holding(t)(s.workers[w])
          == multiset(s.dequeued)[t] + multiset(r.executed)[t] + Holding(t)(r.workers[w])
    ensures TaskLedger(r, t)
  {
    SumUpdate(s.workers, w, r.workers[w], Holding(t));
  }

  lemma SignalKeepsPlaces(s: Pool, a: Action, t: Task)
    requires RingOk(s.ring) && Enabled(s, a) && a.WorkerSignals?
    ensures SamePlaces(s, Apply(s, a), t)
  {
  }

  lemma PickUpBalances(s: Pool, a: Action, t: Task)
    requires RingOk(s.ring) && Enabled(s, a) && (a.WorkerDecides? || a.WorkerFinishes?)
    ensures var r := Apply(s, a);
      && |r.workers| == |s.workers|
      && multiset(r.dequeued)[t] + multiset(s.executed)[t] + Holding(t)(s.workers[a.w])
          == multiset(s.dequeued)[t] + multiset(r.executed)[t] + Holding(t)(r.workers[a.w])
  {
  }

  lemma TaskLedgerKeptByWorker(s: Pool, a: Action, t: Task)
    requires RingOk(s.ring) && TaskLedger(s, t) && Enabled(s, a) && ByWorker(a)
    ensures TaskLedger(Apply(s, a), t)
  {
    if a.WorkerDecides? || a.WorkerFinishes? {
      PickUpBalances(s, a, t);
      TaskLedgerKeptByWorkerMove(s, Apply(s, a), a.w, t);
    } else if a.WorkerSignals? {
      SignalKeepsPlaces(s, a, t);
      TaskLedgerKeptByWorkerMove(s, Apply(s, a), a.w, t);
    } else {
      TaskLedgerKeptEmptyHanded(s, a, t);
    }
  }

  /** A worker that holds no task moves without touching the histories. */
  lemma TaskLedgerKeptEmptyHanded(s: Pool, a: Action, t: Task)
    requires RingOk(s.ring) && TaskLedger(s, t) && Enabled(s, a)
    requires a.WorkerLocks? || a.WorkerTests? || a.WorkerParks? || a.WorkerWakesSpuriously?
    ensures TaskLedger(Apply(s, a), t)
  {
    TaskLedgerKeptByWorkerMove(s, Apply(s, a), a.w, t);
  }

  lemma QueueKeptByWorker(s: Pool, a: Action)
    requires QueueInv(s) && Numbered(s) && Enabled(s, a) && ByWorker(a)
    ensures QueueInv(Apply(s, a)) && Numbered(Apply(s, a))
  {
    if a.WorkerDecides? && s.ring.count > 0 {
      TakeRemovesFirst(s.ring);
      assert s.enqueued == s.dequeued + [s.ring.slots[s.ring.head]] + Contents(Take(s.ring));
    }
  }

  lemma LedgerKeptByWorker(s: Pool, a: Action)
    requires LedgerInv(s) && Enabled(s, a) && ByWorker(a)
    ensures LedgerInv(Apply(s, a))
  {
    QueueKeptByWorker(s, a);
    forall t ensures TaskLedger(Apply(s, a), t) { TaskLedgerKeptByWorker(s, a, t); }
  }

  /** One call moves; what it writes to the histories agrees with its new place. */
  lemma TaskLedgerKeptByCallMove(s: Pool, r: Pool, c: nat, t: Task)
    requires c < |s.calls| == |r.calls| && s.calls[c].task.id == c && TaskLedger(s, t)
    requires r.calls == s.calls[c := s.calls[c].(place := r.calls[c].place)]
    requires var (p, q) := (s.calls[c].place, r.calls[c].place);
      && !p.Returned?
      && (p == Stored <==> q == Returned(true))
      && (p == Storing <==> q == Stored)
      && r.enqueued == (if p == Storing then s.enqueued + [s.calls[c].task] else s.enqueued)
      && r.dropped == (if q == Returned(false) then s.dropped + [s.calls[c].task] else s.dropped)
    requires r.dequeued == s.dequeued && r.executed == s.executed
    requires Sum(r.workers, Holding(t)) == Sum(s.workers, Holding(t))
    ensures TaskLedger(r, t)
  {
  }

  lemma TaskLedgerKeptByCall(s: Pool, a: Action, t: Task)
    requires RingOk(s.ring) && Enabled(s, a) && ByCall(a) && TaskLedger(s, t)
    requires Numbered(s)
    ensures TaskLedger(Apply(s, a), t)
  {
    if a.CallSignals? {
      TaskLedgerKeptByCallSignal(s, a, t);
    } else if !a.CallStarts? {
      TaskLedgerKeptByCallMove(s, Apply(s, a), a.c, t);
    }
  }

  lemma TaskLedgerKeptByCallSignal(s: Pool, a: Action, t: Task)
    requires RingOk(s.ring) && Enabled(s, a) && a.CallSignals? && TaskLedger(s, t) && Numbered(s)
    ensures TaskLedger(Apply(s, a), t)
  {
    if a.worker.Some? { SumUpdate(s.workers, a.worker.value, Woken, Holding(t)); }
    TaskLedgerKeptByCallMove(s, Apply(s, a), a.c, t);
  }

  lemma QueueKeptByCall(s: Pool, a: Action)
    requires QueueInv(s) && Numbered(s) && LocalInv(s) && Enabled(s, a) && ByCall(a)
    ensures QueueInv(Apply(s, a)) && Numbered(Apply(s, a))
  {
    if a.CallStores? { PutAppends(s.ring, s.calls[a.c].task); }
  }

  lemma LedgerKeptByCall(s: Pool, a: Action)
    requires LedgerInv(s) && LocalInv(s) && Enabled(s, a) && ByCall(a)
    ensures LedgerInv(Apply(s, a))
  {
    QueueKeptByCall(s, a);
    forall t ensures TaskLedger(Apply(s, a), t) { TaskLedgerKeptByCall(s, a, t); }
  }

  lemma TaskLedgerKeptByDestroyer(s: Pool, a: Action, t: Task)
    requires RingOk(s.ring) && TaskLedger(s, t) && Enabled(s, a) && ByDestroyer(a)
    ensures TaskLedger(Apply(s, a), t)
  {
    if a.WakeWorkers? { SumEq(Wake(s.workers), s.workers, Holding(t), Holding(t)); }
  }

  lemma LedgerKeptByDestroyer(s: Pool, a: Action)
    requires LedgerInv(s) && Enabled(s, a) && ByDestroyer(a)
    ensures LedgerInv(Apply(s, a))
  {
    forall t ensures TaskLedger(Apply(s, a), t) {
      assert TaskLedger(s, t);
      TaskLedgerKeptByDestroyer(s, a, t);
    }
  }

  // ---------------------------------------------------------------- runs

  ghost predicate Inv(s: Pool)
  {
    LockInv(s) && LocalInv(s) && WakeInv(s) && LedgerInv(s)
  }

  lemma InitInv(numThreads: nat)
    ensures Inv(Init(numThreads))
  {
    var s := Init(numThreads);
    forall t ensures TaskLedger(s, t) { SumZero(s.workers, Holding(t)); }
  }

  /** Every step of every thread keeps the invariant. */
  lemma StepKeepsInv(s: Pool, a: Action)
    requires Inv(s) && Enabled(s, a)
    ensures Inv(Apply(s, a))
  {
    if ByWorker(a) {
      LockKeptByWorker(s, a);
      LocalKeptByWorker(s, a);
      WakeKeptByWorker(s, a);
      LedgerKeptByWorker(s, a);
    } else if ByCall(a) {
      LockKeptByCall(s, a);
      LocalKeptByCall(s, a);
      WakeKeptByCall(s, a);
      LedgerKeptByCall(s, a);
    } else {
      LockKeptByDestroyer(s, a);
      LocalKeptByDestroyer(s, a);
      WakeKeptByDestroyer(s, a);
      LedgerKeptByDestroyer(s, a);
    }
  }

  /** r is reached from s by some interleaving of enabled steps. */
  ghost predicate Reaches(s: Pool, actions: seq<Action>, r: Pool)
    requires Inv(s)
    decreases |actions|
  {
    if |actions| == 0 then r == s else
      Enabled(s, actions[0]) && (StepKeepsInv(s, actions[0]); Reaches(Apply(s, actions[0]), actions[1..], r))
  }

  lemma {:induction false} ReachedInv(s: Pool, actions: seq<Action>, r: Pool)
    requires Inv(s) && Reaches(s, actions, r)
    ensures Inv(r)
    decreases |actions|
  {
    if |actions| > 0 {
      StepKeepsInv(s, actions[0]);
      ReachedInv(Apply(s, actions[0]), actions[1..], r);
    }
  }

  ghost predicate Reachable(numThreads: nat, actions: seq<Action>, r: Pool)
  {
    InitInv(numThreads);
    Reaches(Init(numThreads), actions, r)
  }

  lemma ReachableInv(numThreads: nat, actions: seq<Action>, r: Pool)
    requires Reachable(numThreads, actions, r)
    ensures Inv(r)
  {
    InitInv(numThreads);
    ReachedInv(Init(numThreads), actions, r);
  }

  // ---------------------------------------------------------------- what follows on every run

  /** In every reachable state the tasks taken from the ring, followed by the tasks in it, are the
      tasks written to it, in order: the pool serves first in, first out. */
  lemma ServesInOrder(numThreads: nat, actions: seq<Action>, r: Pool)
    requires Reachable(numThreads, actions, r)
    ensures RingOk(r.ring) && r.enqueued == r.dequeued + Contents(r.ring)
  {
    ReachableInv(numThreads, actions, r);
  }

  function TimesRun(r: Pool, t: Task): nat { multiset(r.executed)[t] }

  function TimesDropped(r: Pool, t: Task): nat { multiset(r.dropped)[t] }

  /** No task is ever run twice, dropped twice, or both run and dropped; and none is run or
      dropped that was not submitted. */
  lemma NeverTwice(numThreads: nat, actions: seq<Action>, r: Pool, t: Task)
    requires Reachable(numThreads, actions, r)
    ensures TimesRun(r, t) + TimesDropped(r, t) <= 1
    ensures TimesRun(r, t) + TimesDropped(r, t) == 1 ==> t.id < |r.calls| && r.calls[t.id].task == t
  {
    ReachableInv(numThreads, actions, r);
    assert TaskLedger(r, t);
    SumNonNeg(r.workers, Holding(t));
    assert multiset(r.enqueued) == multiset(r.dequeued) + multiset(Contents(r.ring));
  }

  /** Once one worker has exited, stop is set, the queue is empty, and the tasks ever written to
      the ring are fixed: whatever runs afterwards, no submit enqueues. */
  lemma NothingEntersAfterExit(s: Pool, actions: seq<Action>, r: Pool, w: nat)
    requires Inv(s) && AtWorker(s, w, Exited) && Reaches(s, actions, r)
    ensures s.stop && s.ring.count == 0
    ensures r.stop && r.ring.count == 0 && r.enqueued == s.enqueued && AtWorker(r, w, Exited)
    decreases |actions|
  {
    if |actions| > 0 {
      var a := actions[0];
      var s' := Apply(s, a);
      StepKeepsInv(s, a);
      ExitIsFinal(s, a, w);
      NothingEntersAfterExit(s', actions[1..], r, w);
    }
  }

  lemma ExitIsFinal(s: Pool, a: Action, w: nat)
    requires Inv(s) && AtWorker(s, w, Exited) && Enabled(s, a)
    ensures AtWorker(Apply(s, a), w, Exited) && Apply(s, a).enqueued == s.enqueued
  {
  }

  /** When all workers have exited, every submitted task whose call has returned was run exactly
      once or handed to its drop function exactly once, never both: it was run if the call queued
      it, dropped if it did not. */
  lemma ExactlyOnce(numThreads: nat, actions: seq<Action>, r: Pool, c: nat)
    requires numThreads > 0 && Reachable(numThreads, actions, r)
    requires forall w :: 0 <= w < |r.workers| ==> r.workers[w] == Exited
    requires c < |r.calls| && r.calls[c].place.Returned?
    ensures var t := r.calls[c].task;
      TimesRun(r, t) == (if r.calls[c].place.queued then 1 else 0) && TimesDropped(r, t) == 1 - TimesRun(r, t)
  {
    ReachableInv(numThreads, actions, r);
    WorkerCount(numThreads, actions, r);
    var t := r.calls[c].task;
    assert TaskLedger(r, t);
    assert WorkerKnows(r, r.workers[0]);
    SumZero(r.workers, Holding(t));
    assert r.enqueued == r.dequeued;
  }

  lemma WorkerCount(numThreads: nat, actions: seq<Action>, r: Pool)
    requires Reachable(numThreads, actions, r)
    ensures |r.workers| == numThreads
  {
    InitInv(numThreads);
    WorkerCountFrom(Init(numThreads), actions, r);
  }

  lemma {:induction false} WorkerCountFrom(s: Pool, actions: seq<Action>, r: Pool)
    requires Inv(s) && Reaches(s, actions, r)
    ensures |r.workers| == |s.workers|
    decreases |actions|
  {
    if |actions| > 0 {
      StepKeepsInv(s, actions[0]);
      WorkerCountFrom(Apply(s, actions[0]), actions[1..], r);
    }
  }

  function IsWoken(): Worker -> int { (p: Worker) => if p == Woken then 1 else 0 }

  function IsRoused(): Call -> int { (c: Call) => if c.place == Roused then 1 else 0 }

  /** No lost wakeup. Whenever the lock is free: if a worker sleeps on not_empty, the queue holds no
      more tasks than there are woken workers yet to recheck it; if a call sleeps on not_full and
      stop is clear, the tasks and the woken calls yet to recheck fill the queue. */
  lemma NoLostWakeup(numThreads: nat, actions: seq<Action>, r: Pool)
    requires Reachable(numThreads, actions, r) && r.lock == None
    ensures SomeBlocked(r) ==> r.ring.count <= Sum(r.workers, IsWoken())
    ensures !r.stop && SomeSleeping(r) ==>
      QUEUE_CAPACITY <= r.ring.count + Sum(r.calls, IsRoused())
  {
    ReachableInv(numThreads, actions, r);
    SumEq(r.workers, r.workers, Attending(), IsWoken());
    SumZero(r.calls, AboutToSignal());
    SumEq(r.calls, r.calls, Retrying(), IsRoused());
    SumZero(r.workers, AboutToFree());
  }
}
