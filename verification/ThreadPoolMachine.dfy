/** The thread pool as a machine of atomic steps: any number of submitting calls and workers and
    one destroyer, interleaved in any order (src/thread_pool.c).

    A step is a stretch of code no other thread can observe the middle of. The stop flag is
    written without the lock, so reading it and going to sleep are two steps. */
module ThreadPoolMachine {
  import opened Wrappers

  const QUEUE_CAPACITY: nat := 4096

  /** One submitted task: the number of its submit call, and the argument the call passed. */
  datatype Task = Task(id: nat, arg: string)

  const NO_TASK := Task(0, "")

  /** The circular buffer. Slots outside the queue keep whatever was last written there. */
  datatype Ring = Ring(slots: seq<Task>, head: nat, tail: nat, count: nat)

  predicate RingOk(r: Ring)
  {
    && |r.slots| == QUEUE_CAPACITY
    && r.head < QUEUE_CAPACITY
    && r.count <= QUEUE_CAPACITY
    && r.tail == (r.head + r.count) % QUEUE_CAPACITY
  }

  /** The queue the ring stands for, oldest task first. */
  function Contents(r: Ring): (q: seq<Task>)
    requires RingOk(r)
    ensures |q| == r.count
    ensures forall i :: 0 <= i < r.count ==> q[i] == r.slots[(r.head + i) % QUEUE_CAPACITY]
  {
    seq(r.count, i requires 0 <= i < r.count => r.slots[(r.head + i) % QUEUE_CAPACITY])
  }

  function Put(r: Ring, t: Task): Ring
    requires RingOk(r)
  {
    r.(slots := r.slots[r.tail := t], tail := (r.tail + 1) % QUEUE_CAPACITY, count := r.count + 1)
  }

  function Take(r: Ring): Ring
    requires RingOk(r) && r.count > 0
  {
    r.(head := (r.head + 1) % QUEUE_CAPACITY, count := r.count - 1)
  }

  /** The ring is a first-in first-out queue: its index arithmetic never loses, repeats or
      reorders a task. */
  lemma PutAppends(r: Ring, t: Task)
    requires RingOk(r) && r.count < QUEUE_CAPACITY
    ensures RingOk(Put(r, t)) && Contents(Put(r, t)) == Contents(r) + [t]
  {
    var q := Contents(Put(r, t));
    forall i | 0 <= i < r.count ensures q[i] == Contents(r)[i] {
      assert (r.head + i) % QUEUE_CAPACITY != r.tail;
    }
  }

  lemma TakeRemovesFirst(r: Ring)
    requires RingOk(r) && r.count > 0
    ensures RingOk(Take(r)) && Contents(r) == [r.slots[r.head]] + Contents(Take(r))
  {
    var q := Contents(Take(r));
    forall i | 0 <= i < r.count - 1 ensures q[i] == Contents(r)[i + 1] {
      assert ((r.head + 1) % QUEUE_CAPACITY + i) % QUEUE_CAPACITY == (r.head + (i + 1)) % QUEUE_CAPACITY;
    }
  }

  // ---------------------------------------------------------------- threads

  /** Where a worker is in worker_loop. */
  datatype Worker =
    | Outside             // about to lock
    | Testing             // lock held, at the while condition
    | Parking             // lock held, condition found true, about to wait
    | Blocked             // waiting on not_empty
    | Woken               // taken off not_empty, must get the lock back
    | Deciding            // lock held, past the while loop
    | Took(task: Task)    // lock held, task removed, about to signal not_full and unlock
    | Running(task: Task) // unlocked, in its function
    | Exited

  /** Where a call of thread_pool_submit is. */
  datatype Place =
    | Entering   // about to lock
    | Trying     // lock held, at the while condition
    | Yielding   // lock held, condition found true, about to wait
    | Sleeping   // waiting on not_full
    | Roused     // taken off not_full, must get the lock back
    | Choosing   // lock held, past the while loop
    | Storing    // lock held, stop found clear, about to write the slot
    | Stored     // lock held, slot written, about to signal not_empty and unlock
    | Dropping   // unlocked, about to call the drop function
    | Returned(queued: bool)

  datatype Call = Call(task: Task, place: Place)

  /** Where the one call of thread_pool_destroy is. */
  datatype Destroyer = NotCalled | StopSet | WorkersWoken | Joining | Joined

  datatype Holder = WorkerHolds(w: nat) | CallHolds(c: nat)

  /** enqueued, dequeued, executed and dropped record history: the tasks written to the ring and
      taken from it in order, those whose function returned and those handed to their drop function. */
  datatype Pool = Pool(
    ring: Ring,
    stop: bool,
    lock: Option<Holder>,
    workers: seq<Worker>,
    calls: seq<Call>,
    destroyer: Destroyer,
    enqueued: seq<Task>,
    dequeued: seq<Task>,
    executed: seq<Task>,
    dropped: seq<Task>)

  function Init(numThreads: nat): Pool
  {
    Pool(Ring(seq(QUEUE_CAPACITY, _ => NO_TASK), 0, 0, 0), false, None,
         seq(numThreads, _ => Outside), [], NotCalled, [], [], [], [])
  }

  // ---------------------------------------------------------------- steps

  datatype Action =
    | WorkerLocks(w: nat)                    // Outside or Woken, when the lock is free
    | WorkerTests(w: nat)
    | WorkerParks(w: nat)
    | WorkerDecides(w: nat)                  // exits, or takes a task
    | WorkerSignals(w: nat, call: Option<nat>) // wakes one sleeping call if there is one; unlocks
    | WorkerFinishes(w: nat)
    | WorkerWakesSpuriously(w: nat)
    | CallStarts(arg: string)
    | CallLocks(c: nat)
    | CallTests(c: nat)
    | CallYields(c: nat)
    | CallChooses(c: nat)                    // unlocks to drop, or goes on to store
    | CallStores(c: nat)
    | CallSignals(c: nat, worker: Option<nat>)
    | CallDrops(c: nat)
    | CallWakesSpuriously(c: nat)
    | SetStop
    | WakeWorkers
    | WakeCalls
    | Join

  predicate ByWorker(a: Action)
  {
    a.WorkerLocks? || a.WorkerTests? || a.WorkerParks? || a.WorkerDecides? || a.WorkerSignals?
    || a.WorkerFinishes? || a.WorkerWakesSpuriously?
  }

  predicate ByDestroyer(a: Action) { a.SetStop? || a.WakeWorkers? || a.WakeCalls? || a.Join? }

  predicate ByCall(a: Action) { !ByWorker(a) && !ByDestroyer(a) }

  predicate AtWorker(s: Pool, w: nat, p: Worker) { w < |s.workers| && s.workers[w] == p }

  predicate AtCall(s: Pool, c: nat, p: Place) { c < |s.calls| && s.calls[c].place == p }

  predicate Enabled(s: Pool, a: Action)
  {
    match a
    case WorkerLocks(w) => s.lock == None && (AtWorker(s, w, Outside) || AtWorker(s, w, Woken))
    case WorkerTests(w) => AtWorker(s, w, Testing)
    case WorkerParks(w) => AtWorker(s, w, Parking)
    case WorkerDecides(w) => AtWorker(s, w, Deciding)
    case WorkerSignals(w, c) =>
      && w < |s.workers| && s.workers[w].Took?
      && (if c.Some? then AtCall(s, c.value, Sleeping)
          else forall k :: 0 <= k < |s.calls| ==> s.calls[k].place != Sleeping)
    case WorkerFinishes(w) => w < |s.workers| && s.workers[w].Running?
    case WorkerWakesSpuriously(w) => AtWorker(s, w, Blocked)
    case CallStarts(arg) => true
    case CallLocks(c) => s.lock == None && (AtCall(s, c, Entering) || AtCall(s, c, Roused))
    case CallTests(c) => AtCall(s, c, Trying)
    case CallYields(c) => AtCall(s, c, Yielding)
    case CallChooses(c) => AtCall(s, c, Choosing)
    case CallStores(c) => AtCall(s, c, Storing)
    case CallSignals(c, w) =>
      && AtCall(s, c, Stored)
      && (if w.Some? then AtWorker(s, w.value, Blocked)
          else forall k :: 0 <= k < |s.workers| ==> s.workers[k] != Blocked)
    case CallDrops(c) => AtCall(s, c, Dropping)
    case CallWakesSpuriously(c) => AtCall(s, c, Sleeping)
    case SetStop => s.destroyer == NotCalled
    case WakeWorkers => s.destroyer == StopSet
    case WakeCalls => s.destroyer == WorkersWoken
    case Join => s.destroyer == Joining && forall w :: 0 <= w < |s.workers| ==> s.workers[w] == Exited
  }

  function MoveWorker(s: Pool, w: nat, p: Worker): Pool
    requires w < |s.workers|
  {
    s.(workers := s.workers[w := p])
  }

  function MoveCall(s: Pool, c: nat, p: Place): Pool
    requires c < |s.calls|
  {
    s.(calls := s.calls[c := s.calls[c].(place := p)])
  }

  function Wake(ws: seq<Worker>): (r: seq<Worker>)
    ensures |r| == |ws|
    ensures forall i :: 0 <= i < |ws| ==> r[i] == if ws[i] == Blocked then Woken else ws[i]
  {
    seq(|ws|, i requires 0 <= i < |ws| => if ws[i] == Blocked then Woken else ws[i])
  }

  function Rouse(cs: seq<Call>): (r: seq<Call>)
    ensures |r| == |cs|
    ensures forall i :: 0 <= i < |cs| ==> r[i] == if cs[i].place == Sleeping then cs[i].(place := Roused) else cs[i]
  {
    seq(|cs|, i requires 0 <= i < |cs| => if cs[i].place == Sleeping then cs[i].(place := Roused) else cs[i])
  }

  function Apply(s: Pool, a: Action): Pool
    requires RingOk(s.ring) && Enabled(s, a)
  {
    match a
    case WorkerLocks(w) => MoveWorker(s, w, Testing).(lock := Some(WorkerHolds(w)))
    case WorkerTests(w) => MoveWorker(s, w, if s.ring.count == 0 && !s.stop then Parking else Deciding)
    case WorkerParks(w) => MoveWorker(s, w, Blocked).(lock := None)
    case WorkerDecides(w) =>
      if s.ring.count == 0 then
        if s.stop then MoveWorker(s, w, Exited).(lock := None) else s  // never: stop stays set
      else
        var t := s.ring.slots[s.ring.head];
        MoveWorker(s, w, Took(t)).(ring := Take(s.ring), dequeued := s.dequeued + [t])
    case WorkerSignals(w, c) =>
      var s' := MoveWorker(s, w, Running(s.workers[w].task)).(lock := None);
      if c.Some? then MoveCall(s', c.value, Roused) else s'
    case WorkerFinishes(w) =>
      MoveWorker(s, w, Outside).(executed := s.executed + [s.workers[w].task])
    case WorkerWakesSpuriously(w) => MoveWorker(s, w, Woken)
    case CallStarts(arg) => s.(calls := s.calls + [Call(Task(|s.calls|, arg), Entering)])
    case CallLocks(c) => MoveCall(s, c, Trying).(lock := Some(CallHolds(c)))
    case CallTests(c) =>
      MoveCall(s, c, if s.ring.count == QUEUE_CAPACITY && !s.stop then Yielding else Choosing)
    case CallYields(c) => MoveCall(s, c, Sleeping).(lock := None)
    case CallChooses(c) =>
      if s.stop then MoveCall(s, c, Dropping).(lock := None) else MoveCall(s, c, Storing)
    case CallStores(c) =>
      MoveCall(s, c, Stored).(ring := Put(s.ring, s.calls[c].task), enqueued := s.enqueued + [s.calls[c].task])
    case CallSignals(c, w) =>
      var s' := MoveCall(s, c, Returned(true)).(lock := None);
      if w.Some? then MoveWorker(s', w.value, Woken) else s'
    case CallDrops(c) => MoveCall(s, c, Returned(false)).(dropped := s.dropped + [s.calls[c].task])
    case CallWakesSpuriously(c) => MoveCall(s, c, Roused)
    case SetStop => s.(stop := true, destroyer := StopSet)
    case WakeWorkers => s.(workers := Wake(s.workers), destroyer := WorkersWoken)
    case WakeCalls => s.(calls := Rouse(s.calls), destroyer := Joining)
    case Join => s.(destroyer := Joined)
  }
}
