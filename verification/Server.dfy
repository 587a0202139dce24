/** Connection admission and execution together (src/server.c): the accept loop asks the limiter,
    submits a job to the pool, and the job's end, handled or dropped, tells the limiter.

    Any number of threads may accept and submit here; server_run, which does both and then
    destroys the pool on one thread, is the ordered case at the end. */
module Server {
  import opened Wrappers
  import opened Sums
  import opened RateLimitTable
  import A = RateLimitActivity
  import L = RateLimitInvariants
  import P = ThreadPoolMachine
  import I = ThreadPoolInvariants

  /** admitted holds the ips of connections the limiter accepted that are not yet submitted.
      limiter is None when the configuration sets no limit. */
  datatype Server = Server(pool: P.Pool, limiter: Option<Limiter>, admitted: multiset<string>)

  datatype Action =
    | Arrives(ip: string, env: Env)        // accept loop up to the limiter's answer
    | Submits(ip: string)                  // entry to thread_pool_submit
    | PoolStep(step: P.Action, now: int)   // any other step of the pool; now is read by a leave

  /** server_run before its accept loop: no limiter unless a positive limit is configured. */
  function Start(numThreads: nat, maxPerIp: int, now: int): Server
  {
    Server(P.Init(numThreads), if maxPerIp > 0 then Some(Create(maxPerIp, now)) else None, multiset{})
  }

  ghost predicate Enabled(s: Server, a: Action)
  {
    match a
    case Arrives(_, _) => true
    case Submits(ip) => ip in s.admitted
    case PoolStep(step, _) => P.Enabled(s.pool, step) && !step.CallStarts?
  }

  /** The ip whose leave a pool step carries out: at the end of handle_client or in
      client_job_drop. */
  function Leaver(p: P.Pool, step: P.Action): Option<string>
    requires P.Enabled(p, step)
  {
    if step.WorkerFinishes? then Some(p.workers[step.w].task.arg)
    else if step.CallDrops? then Some(p.calls[step.c].task.arg)
    else None
  }

  ghost function Apply(s: Server, hash: Hash, a: Action): Server
    requires Inv(s) && Enabled(s, a)
  {
    match a
    case Arrives(ip, env) =>
      if s.limiter == None then
        s.(admitted := s.admitted + multiset{ip})
      else
        var (l, ok) := Accept(s.limiter.value, hash, ip, env);
        s.(limiter := Some(l), admitted := if ok then s.admitted + multiset{ip} else s.admitted)
    case Submits(ip) =>
      s.(pool := P.Apply(s.pool, P.CallStarts(ip)), admitted := s.admitted - multiset{ip})
    case PoolStep(step, now) =>
      var limiter :=
        if s.limiter.Some? && Leaver(s.pool, step).Some?
        then Some(Leave(s.limiter.value, hash, Leaver(s.pool, step).value, now))
        else s.limiter;
      s.(pool := P.Apply(s.pool, step), limiter := limiter)
  }

  // ---------------------------------------------------------------- live jobs

  function PendingFor(ip: string): P.Call -> int
  {
    (c: P.Call) => if c.task.arg == ip && c.place != P.Stored && !c.place.Returned? then 1 else 0
  }

  function QueuedFor(ip: string): P.Task -> int { (t: P.Task) => if t.arg == ip then 1 else 0 }

  function HeldFor(ip: string): P.Worker -> int
  {
    (w: P.Worker) => if (w.Took? || w.Running?) && w.task.arg == ip then 1 else 0
  }

  /** The jobs of an ip in the pool: being submitted, queued, or in a worker's hands. */
  ghost function InPool(p: P.Pool, ip: string): int
    requires P.RingOk(p.ring)
  {
    Sum(p.calls, PendingFor(ip)) + Sum(P.Contents(p.ring), QueuedFor(ip)) + Sum(p.workers, HeldFor(ip))
  }

  ghost function Live(s: Server, ip: string): int
    requires P.RingOk(s.pool.ring)
  {
    s.admitted[ip] + InPool(s.pool, ip)
  }

  lemma InPoolNonNeg(p: P.Pool, ip: string)
    requires P.RingOk(p.ring)
    ensures InPool(p, ip) >= 0
    ensures forall w :: 0 <= w < |p.workers| ==> HeldFor(ip)(p.workers[w]) <= InPool(p, ip)
    ensures forall c :: 0 <= c < |p.calls| ==> PendingFor(ip)(p.calls[c]) <= InPool(p, ip)
  {
    SumNonNeg(p.calls, PendingFor(ip));
    SumNonNeg(P.Contents(p.ring), QueuedFor(ip));
    SumNonNeg(p.workers, HeldFor(ip));
  }

  /** How a step changes the number of an ip's jobs in the pool. */
  function Change(p: P.Pool, step: P.Action, ip: string): int
    requires P.Enabled(p, step)
  {
    if step.CallStarts? then (if step.arg == ip then 1 else 0)
    else if Leaver(p, step) == Some(ip) then -1
    else 0
  }

  lemma InPoolByTake(p: P.Pool, step: P.Action, ip: string)
    requires P.RingOk(p.ring) && P.Enabled(p, step) && step.WorkerDecides? && p.ring.count > 0
    ensures P.RingOk(P.Apply(p, step).ring)
    ensures InPool(P.Apply(p, step), ip) == InPool(p, ip)
  {
    P.TakeRemovesFirst(p.ring);
    SumTail(P.Contents(p.ring), QueuedFor(ip));
    SumUpdate(p.workers, step.w, P.Took(p.ring.slots[p.ring.head]), HeldFor(ip));
    assert P.Contents(p.ring)[1..] == P.Contents(P.Take(p.ring));
  }

  lemma InPoolBySignal(p: P.Pool, step: P.Action, ip: string)
    requires P.RingOk(p.ring) && P.Enabled(p, step) && step.WorkerSignals?
    ensures InPool(P.Apply(p, step), ip) == InPool(p, ip)
  {
    SumUpdate(p.workers, step.w, P.Running(p.workers[step.w].task), HeldFor(ip));
    if step.call.Some? {
      var c := step.call.value;
      SumUpdate(p.calls, c, p.calls[c].(place := P.Roused), PendingFor(ip));
    }
  }

  lemma InPoolByWorkerMove(p: P.Pool, step: P.Action, ip: string)
    requires P.RingOk(p.ring) && P.Enabled(p, step) && P.ByWorker(step)
    requires !step.WorkerSignals? && !(step.WorkerDecides? && p.ring.count > 0)
    ensures P.RingOk(P.Apply(p, step).ring)
    ensures InPool(P.Apply(p, step), ip) == InPool(p, ip) + Change(p, step, ip)
  {
    var q := P.Apply(p, step);
    assert q.workers == p.workers[step.w := q.workers[step.w]] && q.calls == p.calls && q.ring == p.ring;
    SumUpdate(p.workers, step.w, q.workers[step.w], HeldFor(ip));
  }

  lemma InPoolByWorker(p: P.Pool, step: P.Action, ip: string)
    requires P.RingOk(p.ring) && P.Enabled(p, step) && P.ByWorker(step)
    ensures P.RingOk(P.Apply(p, step).ring)
    ensures InPool(P.Apply(p, step), ip) == InPool(p, ip) + Change(p, step, ip)
  {
    if step.WorkerDecides? && p.ring.count > 0 {
      InPoolByTake(p, step, ip);
    } else if step.WorkerSignals? {
      InPoolBySignal(p, step, ip);
    } else {
      InPoolByWorkerMove(p, step, ip);
    }
  }

  lemma InPoolByStore(p: P.Pool, step: P.Action, ip: string)
    requires I.LocalInv(p) && P.Enabled(p, step) && step.CallStores?
    ensures P.RingOk(P.Apply(p, step).ring)
    ensures InPool(P.Apply(p, step), ip) == InPool(p, ip)
  {
    var c := p.calls[step.c];
    assert I.CallKnows(p, c.place);
    P.PutAppends(p.ring, c.task);
    SumAppend(P.Contents(p.ring), c.task, QueuedFor(ip));
    SumUpdate(p.calls, step.c, c.(place := P.Stored), PendingFor(ip));
  }

  lemma InPoolByCallSignal(p: P.Pool, step: P.Action, ip: string)
    requires P.RingOk(p.ring) && P.Enabled(p, step) && step.CallSignals?
    ensures InPool(P.Apply(p, step), ip) == InPool(p, ip)
  {
    SumUpdate(p.calls, step.c, p.calls[step.c].(place := P.Returned(true)), PendingFor(ip));
    if step.worker.Some? {
      SumUpdate(p.workers, step.worker.value, P.Woken, HeldFor(ip));
    }
  }

  lemma CallMoveShape(p: P.Pool, step: P.Action, ip: string)
    requires P.RingOk(p.ring) && P.Enabled(p, step) && P.ByCall(step)
    requires !step.CallStarts? && !step.CallStores? && !step.CallSignals?
    ensures var q := P.Apply(p, step);
      && |q.calls| == |p.calls| && q.calls == p.calls[step.c := q.calls[step.c]]
      && q.workers == p.workers && q.ring == p.ring
      && PendingFor(ip)(q.calls[step.c]) == PendingFor(ip)(p.calls[step.c]) + Change(p, step, ip)
  {
  }

  lemma InPoolByCallMove(p: P.Pool, step: P.Action, ip: string)
    requires P.RingOk(p.ring) && P.Enabled(p, step) && P.ByCall(step)
    requires !step.CallStarts? && !step.CallStores? && !step.CallSignals?
    ensures P.RingOk(P.Apply(p, step).ring)
    ensures InPool(P.Apply(p, step), ip) == InPool(p, ip) + Change(p, step, ip)
  {
    var q := P.Apply(p, step);
    CallMoveShape(p, step, ip);
    CallMoves(p, q, step.c, ip);
  }

  lemma CallMoves(p: P.Pool, q: P.Pool, c: nat, ip: string)
    requires P.RingOk(p.ring) && c < |p.calls| == |q.calls| && q.calls == p.calls[c := q.calls[c]]
    requires q.workers == p.workers && q.ring == p.ring
    ensures InPool(q, ip) == InPool(p, ip) + PendingFor(ip)(q.calls[c]) - PendingFor(ip)(p.calls[c])
  {
    SumUpdate(p.calls, c, q.calls[c], PendingFor(ip));
  }

  lemma InPoolByStart(p: P.Pool, step: P.Action, ip: string)
    requires P.RingOk(p.ring) && step.CallStarts?
    ensures P.RingOk(P.Apply(p, step).ring)
    ensures InPool(P.Apply(p, step), ip) == InPool(p, ip) + Change(p, step, ip)
  {
    SumAppend(p.calls, P.Call(P.Task(|p.calls|, step.arg), P.Entering), PendingFor(ip));
  }

  lemma InPoolByCall(p: P.Pool, step: P.Action, ip: string)
    requires I.LocalInv(p) && P.Enabled(p, step) && P.ByCall(step)
    ensures P.RingOk(P.Apply(p, step).ring)
    ensures InPool(P.Apply(p, step), ip) == InPool(p, ip) + Change(p, step, ip)
  {
    if step.CallStarts? {
      InPoolByStart(p, step, ip);
    } else if step.CallStores? {
      InPoolByStore(p, step, ip);
    } else if step.CallSignals? {
      InPoolByCallSignal(p, step, ip);
    } else {
      InPoolByCallMove(p, step, ip);
    }
  }

  lemma InPoolByDestroyer(p: P.Pool, step: P.Action, ip: string)
    requires P.RingOk(p.ring) && P.Enabled(p, step) && P.ByDestroyer(step)
    ensures P.RingOk(P.Apply(p, step).ring)
    ensures InPool(P.Apply(p, step), ip) == InPool(p, ip) + Change(p, step, ip)
  {
    SumEq(p.workers, P.Wake(p.workers), HeldFor(ip), HeldFor(ip));
    SumEq(p.calls, P.Rouse(p.calls), PendingFor(ip), PendingFor(ip));
  }

  lemma InPoolStep(p: P.Pool, step: P.Action, ip: string)
    requires I.LocalInv(p) && P.Enabled(p, step)
    ensures P.RingOk(P.Apply(p, step).ring)
    ensures InPool(P.Apply(p, step), ip) == InPool(p, ip) + Change(p, step, ip)
  {
    if P.ByWorker(step) {
      InPoolByWorker(p, step, ip);
    } else if P.ByCall(step) {
      InPoolByCall(p, step, ip);
    } else {
      InPoolByDestroyer(p, step, ip);
    }
  }

  // ---------------------------------------------------------------- the books balance

  /** The limiter's total for every ip is the number of its live jobs. */
  ghost predicate Balanced(s: Server)
    requires P.RingOk(s.pool.ring)
  {
    s.limiter.Some? ==> forall ip :: Total(s.limiter.value.table, ip) == Live(s, ip)
  }

  ghost predicate Inv(s: Server)
  {
    && I.Inv(s.pool)
    && (s.limiter.Some? ==> Ok(s.limiter.value))
    && Balanced(s)
  }

  /** Each successful accept meets one leave: when a job ends, its ip's total is positive, so the
      leave takes effect, and it takes away exactly the job that ended. */
  lemma EndOfJobIsCounted(s: Server, hash: Hash, a: Action, ip: string)
    requires Inv(s) && Enabled(s, a) && a.PoolStep? && s.limiter.Some?
    requires Leaver(s.pool, a.step).Some?
    ensures Total(s.limiter.value.table, Leaver(s.pool, a.step).value) > 0
    ensures Ok(Apply(s, hash, a).limiter.value)
    ensures Total(Apply(s, hash, a).limiter.value.table, ip)
         == Total(s.limiter.value.table, ip) - if Leaver(s.pool, a.step) == Some(ip) then 1 else 0
    ensures A.Refreshed(Apply(s, hash, a).limiter.value.table, Leaver(s.pool, a.step).value, a.now)
  {
    var who := Leaver(s.pool, a.step).value;
    A.LeaveRefreshes(s.limiter.value, hash, who, a.now);
    InPoolNonNeg(s.pool, who);
    L.LeaveOk(s.limiter.value, hash, who, a.now);
    L.LeaveConserves(s.limiter.value, hash, who, a.now, ip);
  }

  lemma ArrivalKeepsInv(s: Server, hash: Hash, a: Action)
    requires Inv(s) && a.Arrives?
    ensures Inv(Apply(s, hash, a))
  {
    if s.limiter.Some? {
      L.AcceptOk(s.limiter.value, hash, a.ip, a.env);
      forall x ensures Total(Apply(s, hash, a).limiter.value.table, x) == Live(Apply(s, hash, a), x) {
        L.AcceptConserves(s.limiter.value, hash, a.ip, a.env, x);
      }
    }
  }

  lemma PoolStepKeepsInv(s: Server, hash: Hash, a: Action)
    requires Inv(s) && Enabled(s, a) && a.PoolStep?
    ensures Inv(Apply(s, hash, a))
  {
    I.StepKeepsInv(s.pool, a.step);
    if s.limiter.Some? {
      forall x ensures Total(Apply(s, hash, a).limiter.value.table, x) == Live(Apply(s, hash, a), x) {
        InPoolStep(s.pool, a.step, x);
        if Leaver(s.pool, a.step).Some? { EndOfJobIsCounted(s, hash, a, x); }
      }
      if Leaver(s.pool, a.step).Some? { EndOfJobIsCounted(s, hash, a, ""); }
    }
  }

  /** Every step of the accept loop, the pool and the limiter keeps the books balanced. */
  lemma StepKeepsInv(s: Server, hash: Hash, a: Action)
    requires Inv(s) && Enabled(s, a)
    ensures Inv(Apply(s, hash, a))
  {
    match a
    case Arrives(_, _) => ArrivalKeepsInv(s, hash, a);
    case Submits(ip) =>
      I.StepKeepsInv(s.pool, P.CallStarts(ip));
      forall x ensures Live(Apply(s, hash, a), x) == Live(s, x) {
        InPoolStep(s.pool, P.CallStarts(ip), x);
      }
    case PoolStep(_, _) => PoolStepKeepsInv(s, hash, a);
  }

  lemma InitIsEmpty(numThreads: nat, ip: string)
    ensures InPool(P.Init(numThreads), ip) == 0
  {
    SumZero(P.Init(numThreads).workers, HeldFor(ip));
  }

  lemma StartInv(numThreads: nat, maxPerIp: int, now: int, hash: Hash)
    ensures var s := Start(numThreads, maxPerIp, now); Inv(s) && Placed(s, hash) && Orderly(s)
  {
    var s := Start(numThreads, maxPerIp, now);
    I.InitInv(numThreads);
    if maxPerIp > 0 {
      L.CreateIsGood(maxPerIp, hash, now);
      forall ip ensures Total(s.limiter.value.table, ip) == Live(s, ip) {
        InitIsEmpty(numThreads, ip);
      }
    }
  }

  // ---------------------------------------------------------------- whole runs

  ghost predicate Reaches(s: Server, hash: Hash, actions: seq<Action>, r: Server)
    requires Inv(s)
    decreases |actions|
  {
    if |actions| == 0 then r == s else
      && Enabled(s, actions[0])
      && (StepKeepsInv(s, hash, actions[0]); Reaches(Apply(s, hash, actions[0]), hash, actions[1..], r))
  }

  /** At every state of every run, whatever the interleaving, sweeps, growths and failed
      allocations, the limiter's total for an ip is the number of its jobs admitted, being
      submitted, queued or running. */
  lemma {:induction false} TotalsAreLiveJobs(s: Server, hash: Hash, actions: seq<Action>, r: Server, ip: string)
    requires Inv(s) && Reaches(s, hash, actions, r)
    ensures Inv(r)
    ensures r.limiter.Some? ==> Total(r.limiter.value.table, ip) == Live(r, ip)
    decreases |actions|
  {
    if |actions| > 0 {
      StepKeepsInv(s, hash, actions[0]);
      TotalsAreLiveJobs(Apply(s, hash, actions[0]), hash, actions[1..], r, ip);
    }
  }

  /** No admitted connection is outstanding: each is with the pool, and its call has returned. */
  predicate AllSubmitted(s: Server)
  {
    s.admitted == multiset{} && forall c :: 0 <= c < |s.pool.calls| ==> s.pool.calls[c].place.Returned?
  }

  predicate AllExited(p: P.Pool)
  {
    |p.workers| > 0 && forall w :: 0 <= w < |p.workers| ==> p.workers[w] == P.Exited
  }

  /** When the workers have exited and every submit has returned, every total is zero. */
  lemma NothingLeftAfterDestroy(s: Server, hash: Hash, actions: seq<Action>, r: Server, ip: string)
    requires Inv(s) && Reaches(s, hash, actions, r)
    requires AllExited(r.pool) && AllSubmitted(r)
    ensures Inv(r) && Live(r, ip) == 0
    ensures r.limiter.Some? ==> Total(r.limiter.value.table, ip) == 0
  {
    TotalsAreLiveJobs(s, hash, actions, r, ip);
    assert I.WorkerKnows(r.pool, r.pool.workers[0]);
    SumZero(r.pool.calls, PendingFor(ip));
    SumZero(r.pool.workers, HeldFor(ip));
  }

  /** Every sweep of the run is safe where it happens. */
  ghost predicate SafeRun(s: Server, hash: Hash, actions: seq<Action>)
    requires Inv(s)
    decreases |actions|
  {
    |actions| > 0 && Enabled(s, actions[0]) ==>
      && (actions[0].Arrives? && s.limiter.Some? ==> L.AcceptSafe(s.limiter.value, hash, actions[0].env))
      && (StepKeepsInv(s, hash, actions[0]); SafeRun(Apply(s, hash, actions[0]), hash, actions[1..]))
  }

  ghost predicate Placed(s: Server, hash: Hash)
  {
    s.limiter.Some? ==> WellPlaced(s.limiter.value.table, hash)
  }

  lemma StepKeepsPlaced(s: Server, hash: Hash, a: Action)
    requires Inv(s) && Enabled(s, a) && Placed(s, hash)
    requires a.Arrives? && s.limiter.Some? ==> L.AcceptSafe(s.limiter.value, hash, a.env)
    ensures Placed(Apply(s, hash, a), hash)
    ensures s.limiter.Some? ==>
      && Apply(s, hash, a).limiter.Some?
      && Apply(s, hash, a).limiter.value.maxPerIp == s.limiter.value.maxPerIp
  {
    if s.limiter.Some? {
      if a.Arrives? {
        L.AcceptKeepsWellPlaced(s.limiter.value, hash, a.ip, a.env);
      } else if a.PoolStep? && Leaver(s.pool, a.step).Some? {
        L.LeaveKeepsWellPlaced(s.limiter.value, hash, Leaver(s.pool, a.step).value, a.now);
      }
    }
  }

  /** While sweeps are safe, no ip ever has more than the configured number of live jobs. */
  lemma {:induction false} LiveJobsAreLimited(s: Server, hash: Hash, actions: seq<Action>, r: Server, ip: string)
    requires Inv(s) && s.limiter.Some? && Placed(s, hash)
    requires Reaches(s, hash, actions, r) && SafeRun(s, hash, actions)
    ensures Inv(r) && Live(r, ip) <= s.limiter.value.maxPerIp
    decreases |actions|
  {
    if |actions| == 0 {
      L.UniqueBoundsTotal(s.limiter.value, ip);
    } else {
      StepKeepsInv(s, hash, actions[0]);
      StepKeepsPlaced(s, hash, actions[0]);
      LiveJobsAreLimited(Apply(s, hash, actions[0]), hash, actions[1..], r, ip);
    }
  }

  /** The server turns a connection away exactly when its ip already has the configured number of
      live jobs, if allocations succeed, the table is under its load bound and the sweep is safe. */
  lemma AdmitsIffBelowLimit(s: Server, hash: Hash, ip: string, env: Env)
    requires Inv(s) && Placed(s, hash) && s.limiter.Some? && L.Roomy(s.limiter.value)
    requires L.AcceptSafe(s.limiter.value, hash, env) && env.growOk && env.dupOk
    ensures Apply(s, hash, Arrives(ip, env)).admitted[ip] == s.admitted[ip] + 1
       <==> Live(s, ip) < s.limiter.value.maxPerIp
  {
    L.AcceptExact(s.limiter.value, hash, ip, env);
  }

  // ---------------------------------------------------------------- server_run

  /** The order of one thread that accepts, submits, waits for the submit to return, and goes round
      again, and that destroys the pool after its last round. */
  predicate InOrder(s: Server, a: Action)
  {
    match a
    case Arrives(_, _) => AllSubmitted(s) && s.pool.destroyer == P.NotCalled
    case Submits(_) => true
    case PoolStep(step, _) => step.SetStop? ==> AllSubmitted(s)
  }

  predicate NoneDropped(p: P.Pool)
  {
    forall c :: 0 <= c < |p.calls| ==> p.calls[c].place != P.Dropping && p.calls[c].place != P.Returned(false)
  }

  /** Once stop is set nothing is outstanding. */
  predicate Orderly(s: Server)
  {
    (s.pool.stop ==> AllSubmitted(s)) && NoneDropped(s.pool)
  }

  lemma OrderlyAfterPoolStep(p: P.Pool, step: P.Action)
    requires I.LocalInv(p) && P.Enabled(p, step) && !step.CallStarts? && NoneDropped(p)
    requires p.stop || step.SetStop? ==> forall c :: 0 <= c < |p.calls| ==> p.calls[c].place.Returned?
    ensures NoneDropped(P.Apply(p, step))
    ensures P.Apply(p, step).stop ==>
      forall c :: 0 <= c < |P.Apply(p, step).calls| ==> P.Apply(p, step).calls[c].place.Returned?
  {
  }

  lemma StepKeepsOrderly(s: Server, hash: Hash, a: Action)
    requires Inv(s) && Enabled(s, a) && InOrder(s, a) && Orderly(s)
    ensures Orderly(Apply(s, hash, a))
  {
    if a.PoolStep? {
      OrderlyAfterPoolStep(s.pool, a.step);
    }
  }

  ghost predicate RunsInOrder(s: Server, hash: Hash, actions: seq<Action>, r: Server)
    requires Inv(s)
    decreases |actions|
  {
    if |actions| == 0 then r == s else
      && Enabled(s, actions[0]) && InOrder(s, actions[0])
      && (StepKeepsInv(s, hash, actions[0]); RunsInOrder(Apply(s, hash, actions[0]), hash, actions[1..], r))
  }

  /** In server_run's own order no job is ever dropped: the drop function is never called, and by
      the time the pool is destroyed every admitted connection has been handed to a worker. */
  lemma {:induction false} ServerRunNeverDrops(s: Server, hash: Hash, actions: seq<Action>, r: Server)
    requires Inv(s) && Orderly(s) && RunsInOrder(s, hash, actions, r)
    ensures Inv(r) && Orderly(r) && Reaches(s, hash, actions, r)
    decreases |actions|
  {
    if |actions| > 0 {
      StepKeepsInv(s, hash, actions[0]);
      StepKeepsOrderly(s, hash, actions[0]);
      ServerRunNeverDrops(Apply(s, hash, actions[0]), hash, actions[1..], r);
    }
  }

  /** After server_run's destroy every admitted job has been run exactly once, none was dropped, and
      every total of the limiter is zero. */
  lemma ServerRunEndsClean(s: Server, hash: Hash, actions: seq<Action>, r: Server, ip: string, c: nat)
    requires Inv(s) && Orderly(s) && RunsInOrder(s, hash, actions, r)
    requires AllExited(r.pool)
    ensures r.admitted == multiset{} && r.pool.dropped == []
    ensures c < |r.pool.calls| ==> I.TimesRun(r.pool, r.pool.calls[c].task) == 1
    ensures r.limiter.Some? ==> Total(r.limiter.value.table, ip) == 0
  {
    ServerRunNeverDrops(s, hash, actions, r);
    assert I.WorkerKnows(r.pool, r.pool.workers[0]);
    NothingLeftAfterDestroy(s, hash, actions, r, ip);
    NothingDropped(r.pool);
    if c < |r.pool.calls| { ReturnedWasRun(r.pool, c); }
  }

  lemma NothingDropped(p: P.Pool)
    requires I.LedgerInv(p) && NoneDropped(p)
    ensures p.dropped == []
  {
    forall t ensures multiset(p.dropped)[t] == 0 { assert I.TaskLedger(p, t); }
    assert |multiset(p.dropped)| == 0;
  }

  lemma ReturnedWasRun(p: P.Pool, c: nat)
    requires I.LedgerInv(p) && NoneDropped(p) && AllExited(p) && p.ring.count == 0
    requires c < |p.calls| && p.calls[c].place.Returned?
    ensures I.TimesRun(p, p.calls[c].task) == 1
  {
    assert I.TaskLedger(p, p.calls[c].task);
    SumZero(p.workers, I.Holding(p.calls[c].task));
    assert p.enqueued == p.dequeued;
  }

  // ---------------------------------------------------------------- from the start of the program

  /** The server as it is configured: worker threads, the limit per ip, and the time it starts. */
  datatype Config = Config(numThreads: nat, maxPerIp: int, now: int)

  ghost function Begin(c: Config): (s: Server)
    ensures Inv(s)
  {
    StartInv(c.numThreads, c.maxPerIp, c.now, (ip: string) => 0);
    Start(c.numThreads, c.maxPerIp, c.now)
  }

  lemma WorkersStay(p: P.Pool, step: P.Action)
    requires P.RingOk(p.ring) && P.Enabled(p, step)
    ensures |P.Apply(p, step).workers| == |p.workers|
  {
  }

  /** As many workers, and the same limit, if any. */
  predicate SameSettings(s: Server, r: Server)
  {
    && |r.pool.workers| == |s.pool.workers| && (r.limiter.Some? <==> s.limiter.Some?)
    && (s.limiter.Some? ==> r.limiter.value.maxPerIp == s.limiter.value.maxPerIp)
  }

  lemma StepKeepsSettings(s: Server, hash: Hash, a: Action)
    requires Inv(s) && Enabled(s, a)
    ensures SameSettings(s, Apply(s, hash, a))
  {
    if a.PoolStep? { WorkersStay(s.pool, a.step); }
  }

  /** No step changes how many workers there are, whether there is a limit, or the limit. */
  lemma {:induction false} SettingsStay(s: Server, hash: Hash, actions: seq<Action>, r: Server)
    requires Inv(s) && Reaches(s, hash, actions, r)
    ensures SameSettings(s, r)
    decreases |actions|
  {
    if |actions| > 0 {
      StepKeepsInv(s, hash, actions[0]);
      StepKeepsSettings(s, hash, actions[0]);
      SettingsStay(Apply(s, hash, actions[0]), hash, actions[1..], r);
    }
  }

  /** In every state of every run the pool has the configured number of workers, and the limiter, which is
      there exactly when a positive limit is configured, has that limit. */
  lemma ConfigurationHolds(c: Config, hash: Hash, actions: seq<Action>, r: Server)
    requires Reaches(Begin(c), hash, actions, r)
    ensures Inv(r) && |r.pool.workers| == c.numThreads
    ensures r.limiter.Some? <==> c.maxPerIp > 0
    ensures r.limiter.Some? ==> r.limiter.value.maxPerIp == c.maxPerIp
  {
    SettingsStay(Begin(c), hash, actions, r);
    TotalsAreLiveJobs(Begin(c), hash, actions, r, "");
  }

  /** Growth succeeds in every accept of the run. */
  predicate GrowthSucceeds(actions: seq<Action>)
  {
    forall i :: 0 <= i < |actions| && actions[i].Arrives? ==> actions[i].env.growOk
  }

  ghost predicate Roomy(s: Server) { s.limiter.Some? ==> L.Roomy(s.limiter.value) }

  lemma StepKeepsRoomy(s: Server, hash: Hash, a: Action)
    requires Inv(s) && Enabled(s, a) && Roomy(s) && (a.Arrives? ==> a.env.growOk)
    ensures Roomy(Apply(s, hash, a))
  {
    if s.limiter.Some? {
      if a.Arrives? {
        L.AcceptStaysRoomy(s.limiter.value, hash, a.ip, a.env);
      } else if a.PoolStep? && Leaver(s.pool, a.step).Some? {
        L.LeaveExcess(s.limiter.value, hash, Leaver(s.pool, a.step).value, a.now);
      }
    }
  }

  lemma {:induction false} RunStaysSound(s: Server, hash: Hash, actions: seq<Action>, r: Server)
    requires Inv(s) && Placed(s, hash) && Roomy(s)
    requires Reaches(s, hash, actions, r) && SafeRun(s, hash, actions) && GrowthSucceeds(actions)
    ensures Inv(r) && Placed(r, hash) && Roomy(r)
    decreases |actions|
  {
    if |actions| > 0 {
      StepKeepsInv(s, hash, actions[0]);
      StepKeepsPlaced(s, hash, actions[0]);
      StepKeepsRoomy(s, hash, actions[0]);
      assert forall i :: 0 <= i < |actions| - 1 ==> actions[1..][i] == actions[i + 1];
      RunStaysSound(Apply(s, hash, actions[0]), hash, actions[1..], r);
    }
  }

  lemma SoundFromStart(c: Config, hash: Hash, actions: seq<Action>, r: Server)
    requires c.maxPerIp > 0 && Reaches(Begin(c), hash, actions, r)
    requires SafeRun(Begin(c), hash, actions) && GrowthSucceeds(actions)
    ensures Inv(r) && Placed(r, hash) && Roomy(r)
  {
    StartInv(c.numThreads, c.maxPerIp, c.now, hash);
    L.CreateIsGood(c.maxPerIp, hash, c.now);
    RunStaysSound(Begin(c), hash, actions, r);
  }

  /** Without a configured limit every arrival is admitted. */
  lemma UnlimitedFromStart(c: Config, hash: Hash, actions: seq<Action>, r: Server, ip: string, env: Env)
    requires c.maxPerIp <= 0 && Reaches(Begin(c), hash, actions, r)
    ensures Inv(r) && Apply(r, hash, Arrives(ip, env)).admitted == r.admitted + multiset{ip}
  {
    ConfigurationHolds(c, hash, actions, r);
  }

  /** With one, in every state reached while sweeps are safe and growth succeeds, an arrival is admitted if
      and only if its ip has fewer live jobs than the configured limit. */
  lemma AdmitsFromStart(c: Config, hash: Hash, actions: seq<Action>, r: Server, ip: string, env: Env)
    requires c.maxPerIp > 0 && Reaches(Begin(c), hash, actions, r)
    requires SafeRun(Begin(c), hash, actions) && GrowthSucceeds(actions)
    requires (ConfigurationHolds(c, hash, actions, r); L.AcceptSafe(r.limiter.value, hash, env))
    requires env.growOk && env.dupOk
    ensures Inv(r)
    ensures Apply(r, hash, Arrives(ip, env)).admitted
         == if Live(r, ip) < c.maxPerIp then r.admitted + multiset{ip} else r.admitted
  {
    ConfigurationHolds(c, hash, actions, r);
    SoundFromStart(c, hash, actions, r);
    AdmitsIffBelowLimit(r, hash, ip, env);
  }

  /** In every state of every run of the program with a limit, the limiter's total for an ip is the
      number of its jobs admitted, being submitted, queued or running. */
  lemma TotalsFromStart(c: Config, hash: Hash, actions: seq<Action>, r: Server, ip: string)
    requires c.maxPerIp > 0 && Reaches(Begin(c), hash, actions, r)
    ensures Inv(r) && r.limiter.Some? && Total(r.limiter.value.table, ip) == Live(r, ip)
  {
    TotalsAreLiveJobs(Begin(c), hash, actions, r, ip);
    SettingsStay(Begin(c), hash, actions, r);
  }

  /** And when its workers have exited and every submit has returned, every total is zero. */
  lemma NothingLeftFromStart(c: Config, hash: Hash, actions: seq<Action>, r: Server, ip: string)
    requires c.maxPerIp > 0 && Reaches(Begin(c), hash, actions, r) && AllExited(r.pool) && AllSubmitted(r)
    ensures r.limiter.Some? && Total(r.limiter.value.table, ip) == 0
  {
    NothingLeftAfterDestroy(Begin(c), hash, actions, r, ip);
    SettingsStay(Begin(c), hash, actions, r);
  }

  /** And while its sweeps are safe no ip ever has more than the configured number of live jobs. */
  lemma LimitFromStart(c: Config, hash: Hash, actions: seq<Action>, r: Server, ip: string)
    requires c.maxPerIp > 0 && Reaches(Begin(c), hash, actions, r) && SafeRun(Begin(c), hash, actions)
    ensures Inv(r) && Live(r, ip) <= c.maxPerIp
  {
    StartInv(c.numThreads, c.maxPerIp, c.now, hash);
    LiveJobsAreLimited(Begin(c), hash, actions, r, ip);
  }

  /** server_run from its start to the end of its destroy: nothing is dropped, every admitted job has
      been run exactly once, and every total of the limiter is zero. */
  lemma ServerRunFromStart(c: Config, hash: Hash, actions: seq<Action>, r: Server, ip: string, call: nat)
    requires RunsInOrder(Begin(c), hash, actions, r) && AllExited(r.pool)
    ensures r.admitted == multiset{} && r.pool.dropped == []
    ensures call < |r.pool.calls| ==> I.TimesRun(r.pool, r.pool.calls[call].task) == 1
    ensures r.limiter.Some? ==> Total(r.limiter.value.table, ip) == 0
  {
    StartInv(c.numThreads, c.maxPerIp, c.now, hash);
    ServerRunEndsClean(Begin(c), hash, actions, r, ip, call);
  }
}
