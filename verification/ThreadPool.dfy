/** The shared state of the thread pool and the code that runs on it with the lock held
    (src/thread_pool.c). Each method is a stretch between taking the lock and giving it up, and is proved
    to do what the steps of ThreadPoolMachine do in any pool with this ring. */
module ThreadPool {
  import opened ThreadPoolMachine

  /** What worker_loop does after looking at the queue. */
  datatype WorkerTurn = Wait | Exit | Run(task: Task)

  /** What thread_pool_submit does after looking at the queue. */
  datatype SubmitTurn = WaitForRoom | Drop | Queued

  function PlaceAfter(turn: WorkerTurn): Worker
  {
    match turn
    case Wait => Parking
    case Exit => Exited
    case Run(task) => Took(task)
  }

  /** A worker at the while condition, in any pool with this ring, takes this turn by its steps of the
      machine, when its two reads of stop give `first` and `second`. */
  ghost predicate WorkerTakesTurn(before: Ring, first: bool, second: bool, after: Ring, turn: WorkerTurn)
    requires RingOk(before)
  {
    forall p: Pool, w: nat :: p.ring == before && p.stop == first && AtWorker(p, w, Testing) ==>
      var tested := Apply(p, WorkerTests(w));
      if turn == Wait then AtWorker(tested, w, Parking) && tested.ring == after
      else
        && AtWorker(tested, w, Deciding)
        && var decided := Apply(tested.(stop := second), WorkerDecides(w));
        AtWorker(decided, w, PlaceAfter(turn)) && decided.ring == after
  }

  /** Likewise for a call of submit at its while condition, up to its write to the ring. */
  ghost predicate CallTakesTurn(before: Ring, first: bool, second: bool, after: Ring, task: Task, turn: SubmitTurn)
    requires RingOk(before)
  {
    forall p: Pool, c: nat :: p.ring == before && p.stop == first && AtCall(p, c, Trying) && p.calls[c].task == task ==>
      var tested := Apply(p, CallTests(c));
      if turn == WaitForRoom then AtCall(tested, c, Yielding) && tested.ring == after
      else
        && AtCall(tested, c, Choosing)
        && var chosen := Apply(tested.(stop := second), CallChooses(c));
        if turn == Drop then AtCall(chosen, c, Dropping) && chosen.ring == after
        else
          && AtCall(chosen, c, Storing)
          && var stored := Apply(chosen, CallStores(c));
          AtCall(stored, c, Stored) && stored.ring == after
  }

  lemma WaitingIsOneStep(before: Ring, second: bool, task: Task)
    requires RingOk(before) && before.count == QUEUE_CAPACITY
    ensures CallTakesTurn(before, false, second, before, task, WaitForRoom)
  {
  }

  lemma DroppingIsTwoSteps(before: Ring, first: bool, task: Task)
    requires RingOk(before) && (before.count < QUEUE_CAPACITY || first)
    ensures CallTakesTurn(before, first, true, before, task, Drop)
  {
  }

  lemma QueuingIsThreeSteps(before: Ring, task: Task)
    requires RingOk(before) && before.count < QUEUE_CAPACITY
    ensures CallTakesTurn(before, false, false, Put(before, task), task, Queued)
  {
  }

  class ThreadPool {
    const queue: array<Task>
    var head: nat
    var tail: nat
    var count: nat
    var stop: bool

    ghost function Ring(): Ring
      reads this, queue
    {
      ThreadPoolMachine.Ring(queue[..], head, tail, count)
    }

    ghost predicate Valid()
      reads this, queue
    {
      RingOk(Ring())
    }

    constructor ()
      ensures Valid() && fresh(queue)
      ensures Ring() == Init(1).ring && !stop
    {
      queue := new Task[QUEUE_CAPACITY](_ => NO_TASK);
      head, tail, count, stop := 0, 0, 0, false;
      new;
      assert queue[..] == seq(QUEUE_CAPACITY, _ => NO_TASK);
    }

    /** thread_pool_destroy, on another thread, sets the flag without the lock, at any moment. */
    method OthersMaySetStop()
      modifies this`stop
      ensures old(stop) ==> stop
    {
      var destroyed: bool :| true;
      stop := stop || destroyed;
    }

    /** Waits exactly when the queue is empty and the first read of stop finds it clear; exits exactly
        when the queue is empty otherwise; else removes the oldest task. As stop is never cleared, the
        second read needs no third case. */
    method WorkerLooks() returns (turn: WorkerTurn)
      requires Valid()
      modifies this
      ensures Valid() && (old(stop) ==> stop)
      ensures turn == Wait <==> old(Contents(Ring())) == [] && !old(stop)
      ensures turn == Exit <==> old(Contents(Ring())) == [] && old(stop)
      ensures turn.Run? ==> Ring() == Take(old(Ring())) && old(Contents(Ring())) == [turn.task] + Contents(Ring())
      ensures !turn.Run? ==> Ring() == old(Ring())
      ensures WorkerTakesTurn(old(Ring()), old(stop), stop, Ring(), turn)
    {
      if count == 0 && !stop {
        return Wait;
      }
      OthersMaySetStop();
      if count == 0 && stop {
        return Exit;
      }
      TakeRemovesFirst(Ring());
      var task := queue[head];
      head := (head + 1) % QUEUE_CAPACITY;
      count := count - 1;
      return Run(task);
    }

    /** Waits exactly when the queue is full and the first read of stop finds it clear; past the wait,
        drops exactly when the second read finds it set, which it may be by then; else appends the
        task. */
    method SubmitLooks(task: Task) returns (turn: SubmitTurn)
      requires Valid()
      modifies this, queue
      ensures Valid() && (old(stop) ==> stop)
      ensures turn == WaitForRoom <==> |old(Contents(Ring()))| == QUEUE_CAPACITY && !old(stop)
      ensures turn == Drop <==> turn != WaitForRoom && stop
      ensures turn == Queued ==> Ring() == Put(old(Ring()), task) && Contents(Ring()) == old(Contents(Ring())) + [task]
      ensures turn != Queued ==> Ring() == old(Ring())
      ensures CallTakesTurn(old(Ring()), old(stop), stop, Ring(), task, turn)
    {
      if count == QUEUE_CAPACITY && !stop {
        WaitingIsOneStep(Ring(), stop, task);
        return WaitForRoom;
      }
      ghost var first := stop;
      OthersMaySetStop();
      if stop {
        DroppingIsTwoSteps(Ring(), first, task);
        return Drop;
      }
      PutAppends(Ring(), task);
      QueuingIsThreeSteps(Ring(), task);
      queue[tail] := task;
      tail := (tail + 1) % QUEUE_CAPACITY;
      count := count + 1;
      return Queued;
    }

    /** Written by thread_pool_destroy without the lock. */
    method SetStop()
      modifies this`stop
      ensures stop
    {
      stop := true;
    }
  }
}
