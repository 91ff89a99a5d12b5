/** The bounded task queue and its worker pool (src/frontend/ThreadPool.hpp).

    A state holds the program point of every thread, so that a run is any interleaving of
    atomic steps: the stretches of code between two points where a thread gives up the mutex.
    A thread that waits on a condition variable is "asleep" until it is notified (or wakes
    spuriously); it is then "woken" and has to get the mutex again before it rechecks its
    loop condition, so that another thread may overtake it. */
module ThreadPool {
  import opened Wrappers
  import opened Sequences

  type Task = nat

  /** Where a worker is in thread_function. */
  datatype Worker =
    | AtPop                // about to lock the queue
    | AsleepEmpty          // waiting on _queue_not_empty
    | WokenEmpty           // notified, waiting for the mutex
    | Holding(task: Task)  // pop has returned
    | Cleared(task: Task)  // has seen _stop == false
    | Running(task: Task)  // counted in _activeThreads, inside the task
    | Returned(task: Task) // the task has returned, still counted
    | Exited

  /** Where a thread that schedules a task is in push. */
  datatype Producer =
    | Outside
    | AtPush(task: Task)
    | AsleepFull(task: Task) // waiting on _queue_not_full
    | WokenFull(task: Task)

  /** The fields of the pool, the program points, and the histories that the properties
      talk about: offered (schedule was called), pushed, popped, finished and dropped tasks. */
  datatype State = State(
    maxSize: nat,
    queue: seq<Task>,
    workers: seq<Worker>,
    producers: seq<Producer>,
    activeThreads: int,
    stop: bool,
    offered: seq<Task>,
    pushed: seq<Task>,
    popped: seq<Task>,
    finished: seq<Task>,
    dropped: seq<Task>)

  /** One atomic step. Push and Pop say which sleeping thread notify_one picks, if any. */
  datatype Action =
    | Schedule(p: nat, task: Task)
    | Push(p: nat, wake: Option<nat>)
    | BlockFull(p: nat)
    | Pop(w: nat, wake: Option<nat>)
    | BlockEmpty(w: nat)
    | CheckStop(w: nat)
    | Enter(w: nat)
    | Return(w: nat)
    | Leave(w: nat)
    | SpuriousEmpty(w: nat)
    | SpuriousFull(p: nat)
    | Stop
    | Interrupt(w: nat)

  /** The thread's next step is to take the mutex and evaluate a loop condition. */
  predicate ProducerTakesMutex(p: Producer) { p.AtPush? || p.WokenFull? }

  predicate WorkerTakesMutex(w: Worker) { w.AtPop? || w.WokenEmpty? }

  /** notify_one wakes a sleeping thread if there is one. */
  predicate CanWakeWorker(s: State, wake: Option<nat>) {
    match wake
    case Some(w) => w < |s.workers| && s.workers[w].AsleepEmpty?
    case None => AsleepEmpty !in s.workers
  }

  predicate CanWakeProducer(s: State, wake: Option<nat>) {
    match wake
    case Some(p) => p < |s.producers| && s.producers[p].AsleepFull?
    case None => forall p :: p in s.producers ==> !p.AsleepFull?
  }

  predicate Enabled(s: State, a: Action) {
    match a
    case Schedule(p, _) => p < |s.producers| && s.producers[p].Outside?
    case Push(p, wake) =>
      p < |s.producers| && ProducerTakesMutex(s.producers[p]) && |s.queue| != s.maxSize && CanWakeWorker(s, wake)
    case BlockFull(p) => p < |s.producers| && ProducerTakesMutex(s.producers[p]) && |s.queue| == s.maxSize
    case Pop(w, wake) =>
      w < |s.workers| && WorkerTakesMutex(s.workers[w]) && s.queue != [] && CanWakeProducer(s, wake)
    case BlockEmpty(w) => w < |s.workers| && WorkerTakesMutex(s.workers[w]) && s.queue == []
    case CheckStop(w) => w < |s.workers| && s.workers[w].Holding?
    case Enter(w) => w < |s.workers| && s.workers[w].Cleared?
    case Return(w) => w < |s.workers| && s.workers[w].Running?
    case Leave(w) => w < |s.workers| && s.workers[w].Returned?
    case SpuriousEmpty(w) => w < |s.workers| && s.workers[w].AsleepEmpty?
    case SpuriousFull(p) => p < |s.producers| && s.producers[p].AsleepFull?
    case Stop => !s.stop
    case Interrupt(w) =>
      // the destructor interrupts only after setting _stop, and only a wait notices
      && s.stop && w < |s.workers|
      && (s.workers[w].AsleepEmpty? || s.workers[w].WokenEmpty? || (s.workers[w].AtPop? && s.queue == []))
  }

  function WakeWorker(ws: seq<Worker>, wake: Option<nat>): seq<Worker> {
    if wake.Some? && wake.value < |ws| then ws[wake.value := WokenEmpty] else ws
  }

  function WakeProducer(ps: seq<Producer>, wake: Option<nat>): seq<Producer> {
    if wake.Some? && wake.value < |ps| && ps[wake.value].AsleepFull?
    then ps[wake.value := WokenFull(ps[wake.value].task)] else ps
  }

  function Apply(s: State, a: Action): State
    requires Enabled(s, a)
  {
    match a
    case Schedule(p, task) =>
      s.(producers := s.producers[p := AtPush(task)], offered := s.offered + [task])
    case Push(p, wake) =>
      var task := s.producers[p].task;
      s.(queue := s.queue + [task], pushed := s.pushed + [task],
         producers := s.producers[p := Outside], workers := WakeWorker(s.workers, wake))
    case BlockFull(p) => s.(producers := s.producers[p := AsleepFull(s.producers[p].task)])
    case Pop(w, wake) =>
      var task := s.queue[0];
      s.(queue := s.queue[1..], popped := s.popped + [task],
         workers := s.workers[w := Holding(task)], producers := WakeProducer(s.producers, wake))
    case BlockEmpty(w) => s.(workers := s.workers[w := AsleepEmpty])
    case CheckStop(w) =>
      var task := s.workers[w].task;
      if s.stop
      then s.(workers := s.workers[w := Exited], dropped := s.dropped + [task])
      else s.(workers := s.workers[w := Cleared(task)])
    case Enter(w) =>
      s.(workers := s.workers[w := Running(s.workers[w].task)], activeThreads := s.activeThreads + 1)
    case Return(w) => s.(workers := s.workers[w := Returned(s.workers[w].task)])
    case Leave(w) =>
      s.(workers := s.workers[w := AtPop], activeThreads := s.activeThreads - 1,
         finished := s.finished + [s.workers[w].task])
    case SpuriousEmpty(w) => s.(workers := s.workers[w := WokenEmpty])
    case SpuriousFull(p) => s.(producers := s.producers[p := WokenFull(s.producers[p].task)])
    case Stop => s.(stop := true)
    case Interrupt(w) => s.(workers := s.workers[w := Exited])
  }

  /** A pool as its constructor leaves it: idle threads and an empty queue. */
  predicate Initial(s: State) {
    && s.queue == [] && s.pushed == [] && s.popped == [] && s.activeThreads == 0 && !s.stop
    && s.offered == [] && s.finished == [] && s.dropped == []
    && (forall w :: w in s.workers ==> w == AtPop)
    && (forall p :: p in s.producers ==> p == Outside)
  }

  /** Some interleaving leads from s to t by the given steps. */
  ghost predicate Run(s: State, steps: seq<Action>, t: State)
    decreases |steps|
  {
    if steps == [] then s == t else Enabled(s, steps[0]) && Run(Apply(s, steps[0]), steps[1..], t)
  }

  // ----- counting threads -----

  function IsWokenWorker(w: Worker): int { if w.WokenEmpty? then 1 else 0 }

  function IsWokenProducer(p: Producer): int { if p.WokenFull? then 1 else 0 }

  function IsCounted(w: Worker): int { if w.Running? || w.Returned? then 1 else 0 }

  /** The number of times a task identity occurs in a history. */
  function Copies(history: seq<Task>, task: Task): int { Total(history, Is(task)) }

  function Is(task: Task): Task -> int { (t: Task) => if t == task then 1 else 0 }

  /** Whether a worker has popped this task and not finished it. */
  function InHand(task: Task): Worker -> int {
    (w: Worker) =>
      if (w.Holding? || w.Cleared? || w.Running? || w.Returned?) && w.task == task then 1 else 0
  }

  function Pending(task: Task): Producer -> int {
    (p: Producer) => if !p.Outside? && p.task == task then 1 else 0
  }

  lemma WokenNonNegative(s: State)
    ensures Total(s.workers, IsWokenWorker) >= 0 && Total(s.producers, IsWokenProducer) >= 0
  {
    TotalNonNegative(s.workers, IsWokenWorker);
    TotalNonNegative(s.producers, IsWokenProducer);
  }

  // ----- the invariant -----

  ghost predicate SomeWorkerAsleep(s: State) { AsleepEmpty in s.workers }

  ghost predicate SomeProducerAsleep(s: State) { exists p :: p in s.producers && p.AsleepFull? }

  /** As long as a worker sleeps, every queued task has a woken worker on its way; as long as a
      producer sleeps, every free slot has a woken producer on its way. */
  ghost predicate NoLostWakeup(s: State) {
    && (!s.stop && SomeWorkerAsleep(s) ==> |s.queue| <= Total(s.workers, IsWokenWorker))
    && (SomeProducerAsleep(s) ==> s.maxSize - |s.queue| <= Total(s.producers, IsWokenProducer))
  }

  /** Every copy of a task that was offered is still with its producer or was pushed, and every
      copy that was popped is with a worker, finished, or dropped by a worker that saw _stop. */
  ghost predicate Accounted(s: State, task: Task) { OfferedAccounted(s, task) && PoppedAccounted(s, task) }

  ghost predicate OfferedAccounted(s: State, task: Task) {
    Copies(s.offered, task) == Total(s.producers, Pending(task)) + Copies(s.pushed, task)
  }

  ghost predicate PoppedAccounted(s: State, task: Task) {
    Copies(s.popped, task) == Total(s.workers, InHand(task)) + Copies(s.finished, task) + Copies(s.dropped, task)
  }

  /** Tasks leave the queue in the order they entered it, and none is lost or duplicated. */
  ghost predicate Conserved(s: State) {
    s.pushed == s.popped + s.queue && forall task :: Accounted(s, task)
  }

  ghost predicate Inv(s: State) {
    && |s.queue| <= s.maxSize
    && s.activeThreads == Total(s.workers, IsCounted)
    && (!s.stop ==> Exited !in s.workers && s.dropped == [])
    && Conserved(s)
    && NoLostWakeup(s)
  }

  lemma InitialInv(s: State)
    requires Initial(s)
    ensures Inv(s)
  {
    TotalZero(s.workers, IsCounted);
    forall task ensures Accounted(s, task) {
      TotalZero(s.workers, InHand(task));
      TotalZero(s.producers, Pending(task));
    }
  }

  /** notify_one moves one sleeping thread to the woken ones. */
  lemma WakeCounts(s: State, wake: Option<nat>, task: Task)
    ensures var ws := WakeWorker(s.workers, wake);
      CanWakeWorker(s, wake) ==>
        && Total(ws, IsWokenWorker) == Total(s.workers, IsWokenWorker) + (if wake.Some? then 1 else 0)
        && Total(ws, IsCounted) == Total(s.workers, IsCounted)
        && Total(ws, InHand(task)) == Total(s.workers, InHand(task))
    ensures var ps := WakeProducer(s.producers, wake);
      CanWakeProducer(s, wake) ==>
        && Total(ps, IsWokenProducer) == Total(s.producers, IsWokenProducer) + (if wake.Some? then 1 else 0)
        && Total(ps, Pending(task)) == Total(s.producers, Pending(task))
  {
    if CanWakeWorker(s, wake) && wake.Some? {
      TotalUpdate(s.workers, wake.value, WokenEmpty, IsWokenWorker);
      TotalUpdate(s.workers, wake.value, WokenEmpty, IsCounted);
      TotalUpdate(s.workers, wake.value, WokenEmpty, InHand(task));
    }
    if CanWakeProducer(s, wake) && wake.Some? {
      var x := WokenFull(s.producers[wake.value].task);
      TotalUpdate(s.producers, wake.value, x, IsWokenProducer);
      TotalUpdate(s.producers, wake.value, x, Pending(task));
    }
  }

  /** Appending to the histories, counted. */
  lemma AppendCounts(history: seq<Task>, x: Task, task: Task)
    ensures Copies(history + [x], task) == Copies(history, task) + Is(task)(x)
  {
    TotalConcat(history, [x], Is(task));
  }

  /** The steps in which only one producer, or only one worker, changes its program point. */
  predicate OnlyProducerMoves(a: Action) { a.Schedule? || a.BlockFull? || a.SpuriousFull? }

  predicate OnlyWorkerMoves(a: Action) {
    a.BlockEmpty? || a.CheckStop? || a.Enter? || a.Return? || a.Leave? || a.SpuriousEmpty? || a.Interrupt?
  }

  /** Counting copies is taking multiplicities. */
  lemma {:induction false} CopiesAreMultiplicity(history: seq<Task>, task: Task)
    ensures Copies(history, task) == multiset(history)[task]
  {
    if history != [] {
      CopiesAreMultiplicity(history[1..], task);
      assert history == [history[0]] + history[1..];
    }
  }

  lemma StepKeepsOfferedAccounted(s: State, a: Action, task: Task)
    requires OfferedAccounted(s, task) && Enabled(s, a)
    ensures OfferedAccounted(Apply(s, a), task)
  {
    if a.Push? {
      TotalUpdate(s.producers, a.p, Outside, Pending(task));
      AppendCounts(s.pushed, s.producers[a.p].task, task);
    } else if a.Pop? {
      WakeCounts(s, a.wake, task);
    } else if OnlyProducerMoves(a) {
      TotalUpdate(s.producers, a.p, Apply(s, a).producers[a.p], Pending(task));
      if a.Schedule? {
        AppendCounts(s.offered, a.task, task);
      }
    }
  }

  lemma StepKeepsPoppedAccounted(s: State, a: Action, task: Task)
    requires PoppedAccounted(s, task) && Enabled(s, a)
    ensures PoppedAccounted(Apply(s, a), task)
  {
    if a.Push? {
      WakeCounts(s, a.wake, task);
    } else if a.Pop? {
      TotalUpdate(s.workers, a.w, Holding(s.queue[0]), InHand(task));
      AppendCounts(s.popped, s.queue[0], task);
    } else if OnlyWorkerMoves(a) {
      TotalUpdate(s.workers, a.w, Apply(s, a).workers[a.w], InHand(task));
      if a.CheckStop? {
        AppendCounts(s.dropped, s.workers[a.w].task, task);
      } else if a.Leave? {
        AppendCounts(s.finished, s.workers[a.w].task, task);
      }
    }
  }

  lemma StepKeepsConserved(s: State, a: Action)
    requires Conserved(s) && Enabled(s, a)
    ensures Conserved(Apply(s, a))
    ensures a.Push? ==>
      && Apply(s, a).queue == s.queue + [s.producers[a.p].task]
      && Apply(s, a).pushed == s.pushed + [s.producers[a.p].task] && Apply(s, a).popped == s.popped
    ensures a.Pop? ==>
      && [s.queue[0]] + Apply(s, a).queue == s.queue && Apply(s, a).workers[a.w] == Holding(s.queue[0])
      && Apply(s, a).popped == s.popped + [s.queue[0]] && Apply(s, a).pushed == s.pushed
    ensures !a.Push? && !a.Pop? ==>
      Apply(s, a).queue == s.queue && Apply(s, a).pushed == s.pushed && Apply(s, a).popped == s.popped
  {
    forall task ensures Accounted(Apply(s, a), task) {
      assert Accounted(s, task);
      StepKeepsOfferedAccounted(s, a, task);
      StepKeepsPoppedAccounted(s, a, task);
    }
    if a.Pop? {
      assert s.queue == [s.queue[0]] + s.queue[1..];
    }
  }

  lemma StepKeepsActiveCount(s: State, a: Action)
    requires s.activeThreads == Total(s.workers, IsCounted) && Enabled(s, a)
    ensures Apply(s, a).activeThreads == Total(Apply(s, a).workers, IsCounted)
  {
    if a.Push? {
      WakeCounts(s, a.wake, 0);
    } else if a.Pop? || OnlyWorkerMoves(a) {
      TotalUpdate(s.workers, a.w, Apply(s, a).workers[a.w], IsCounted);
    }
  }

  lemma StepKeepsNoLostWakeup(s: State, a: Action)
    requires NoLostWakeup(s) && |s.queue| <= s.maxSize && Enabled(s, a)
    ensures NoLostWakeup(Apply(s, a)) && |Apply(s, a).queue| <= s.maxSize
  {
    var t := Apply(s, a);
    WokenNonNegative(s);
    WokenNonNegative(t);
    if a.Push? {
      WakeCounts(s, a.wake, 0);
      TotalUpdate(s.producers, a.p, Outside, IsWokenProducer);
    } else if a.Pop? {
      WakeCounts(s, a.wake, 0);
      TotalUpdate(s.workers, a.w, Holding(s.queue[0]), IsWokenWorker);
    } else if OnlyProducerMoves(a) {
      TotalUpdate(s.producers, a.p, t.producers[a.p], IsWokenProducer);
    } else if OnlyWorkerMoves(a) {
      TotalUpdate(s.workers, a.w, t.workers[a.w], IsWokenWorker);
    }
  }

  /** Every step of every thread keeps the invariant. */
  lemma StepKeepsInv(s: State, a: Action)
    requires Inv(s) && Enabled(s, a)
    ensures Inv(Apply(s, a))
  {
    StepKeepsConserved(s, a);
    StepKeepsActiveCount(s, a);
    StepKeepsNoLostWakeup(s, a);
  }

  lemma {:induction false} RunKeepsInv(s: State, steps: seq<Action>, t: State)
    requires Inv(s) && Run(s, steps, t)
    ensures Inv(t)
    decreases |steps|
  {
    if steps != [] {
      StepKeepsInv(s, steps[0]);
      RunKeepsInv(Apply(s, steps[0]), steps[1..], t);
    }
  }

  // ----- safety over all runs -----

  lemma {:induction false} RunKeepsShape(s: State, steps: seq<Action>, t: State)
    requires Run(s, steps, t)
    ensures t.maxSize == s.maxSize && |t.workers| == |s.workers| && |t.producers| == |s.producers|
    decreases |steps|
  {
    if steps != [] {
      RunKeepsShape(Apply(s, steps[0]), steps[1..], t);
    }
  }

  /** In every state that any interleaving can reach: the queue is bounded; the popped tasks are
      the pushed ones in push order, up to the ones still queued; a task is finished or dropped
      no more often than it was scheduled, and none is dropped before _stop; and
      _activeThreads counts the workers inside a task, so it lies between 0 and the pool size. */
  lemma ReachableIsSafe(s0: State, steps: seq<Action>, s: State)
    requires Initial(s0) && Run(s0, steps, s)
    ensures |s.queue| <= s0.maxSize
    ensures s.pushed == s.popped + s.queue
    ensures forall task :: Copies(s.finished, task) + Copies(s.dropped, task) <= Copies(s.popped, task)
                           <= Copies(s.pushed, task) <= Copies(s.offered, task)
    ensures !s.stop ==> s.dropped == []
    ensures s.activeThreads == Total(s.workers, IsCounted)
    ensures 0 <= s.activeThreads <= |s0.workers|
  {
    InitialInv(s0);
    RunKeepsInv(s0, steps, s);
    RunKeepsShape(s0, steps, s);
    TotalNonNegative(s.workers, IsCounted);
    TotalAtMostLength(s.workers, IsCounted);
    forall task
      ensures Copies(s.finished, task) + Copies(s.dropped, task) <= Copies(s.popped, task)
              <= Copies(s.pushed, task) <= Copies(s.offered, task)
    {
      assert Accounted(s, task);
      TotalNonNegative(s.workers, InHand(task));
      TotalNonNegative(s.producers, Pending(task));
      TotalNonNegative(s.queue, Is(task));
      TotalConcat(s.popped, s.queue, Is(task));
    }
  }

  /** No lost wakeup, in every reachable state: a task in the queue is never left with all
      waiting workers asleep, a free slot is never left with all waiting producers asleep, and
      (for the sizes the constructor accepts) workers and producers never sleep together with
      nobody woken. */
  lemma ReachableLosesNoWakeup(s0: State, steps: seq<Action>, s: State)
    requires Initial(s0) && Run(s0, steps, s)
    ensures !s.stop && s.queue != [] && SomeWorkerAsleep(s) ==> WokenEmpty in s.workers
    ensures |s.queue| < s.maxSize && SomeProducerAsleep(s) ==> exists p :: p in s.producers && p.WokenFull?
    ensures !s.stop && s.maxSize > 0 && SomeWorkerAsleep(s) && SomeProducerAsleep(s)
            ==> WokenEmpty in s.workers || exists p :: p in s.producers && p.WokenFull?
  {
    InitialInv(s0);
    RunKeepsInv(s0, steps, s);
    if WokenEmpty !in s.workers {
      TotalZero(s.workers, IsWokenWorker);
    }
    if forall p :: p in s.producers ==> !p.WokenFull? {
      TotalZero(s.producers, IsWokenProducer);
    }
  }

  // ----- progress: without new work, every schedule finishes all tasks -----

  /** The steps that threads take on their own; the others are new calls of schedule, spurious
      wakeups and the destructor. */
  predicate Internal(a: Action) {
    !a.Schedule? && !a.SpuriousEmpty? && !a.SpuriousFull? && !a.Stop? && !a.Interrupt?
  }

  function WorkerEffort(w: Worker): int {
    match w
    case AtPop => 1
    case AsleepEmpty => 0
    case WokenEmpty => 1
    case Holding(_) => 5
    case Cleared(_) => 4
    case Running(_) => 3
    case Returned(_) => 2
    case Exited => 0
  }

  function ProducerEffort(p: Producer): int {
    match p
    case Outside => 0
    case AtPush(_) => 9
    case AsleepFull(_) => 8
    case WokenFull(_) => 9
  }

  /** An upper bound on the number of internal steps that can still happen. */
  function Effort(s: State): int {
    6 * |s.queue| + Total(s.workers, WorkerEffort) + Total(s.producers, ProducerEffort)
  }

  lemma EffortNonNegative(s: State)
    ensures Effort(s) >= 0
  {
    TotalNonNegative(s.workers, WorkerEffort);
    TotalNonNegative(s.producers, ProducerEffort);
  }

  lemma WakeEffort(s: State, wake: Option<nat>)
    ensures CanWakeWorker(s, wake) ==>
      Total(WakeWorker(s.workers, wake), WorkerEffort) <= Total(s.workers, WorkerEffort) + 1
    ensures CanWakeProducer(s, wake) ==>
      Total(WakeProducer(s.producers, wake), ProducerEffort) <= Total(s.producers, ProducerEffort) + 1
  {
    if CanWakeWorker(s, wake) && wake.Some? {
      TotalUpdate(s.workers, wake.value, WokenEmpty, WorkerEffort);
    }
    if CanWakeProducer(s, wake) && wake.Some? {
      TotalUpdate(s.producers, wake.value, WokenFull(s.producers[wake.value].task), ProducerEffort);
    }
  }

  /** Whoever the scheduler picks, each internal step uses up some effort. */
  lemma InternalStepUsesEffort(s: State, a: Action)
    requires Enabled(s, a) && Internal(a)
    ensures Effort(Apply(s, a)) < Effort(s)
  {
    var t := Apply(s, a);
    if a.Push? {
      TotalUpdate(s.producers, a.p, Outside, ProducerEffort);
      WakeEffort(s, a.wake);
    } else if a.Pop? {
      TotalUpdate(s.workers, a.w, Holding(s.queue[0]), WorkerEffort);
      WakeEffort(s, a.wake);
    } else if a.BlockFull? {
      TotalUpdate(s.producers, a.p, t.producers[a.p], ProducerEffort);
    } else if OnlyWorkerMoves(a) {
      TotalUpdate(s.workers, a.w, t.workers[a.w], WorkerEffort);
    }
  }

  ghost predicate Drained(s: State) {
    s.queue == [] && s.activeThreads == 0 && forall task :: Copies(s.finished, task) == Copies(s.offered, task)
  }

  lemma DrainedIsFinished(s: State)
    requires Drained(s)
    ensures multiset(s.finished) == multiset(s.offered)
  {
    forall task ensures multiset(s.finished)[task] == multiset(s.offered)[task] {
      CopiesAreMultiplicity(s.finished, task);
      CopiesAreMultiplicity(s.offered, task);
    }
  }

  /** A pool that its users have not stopped and that has at least one worker and one slot. */
  predicate InService(s: State) { !s.stop && s.maxSize > 0 && |s.workers| > 0 }

  lemma AllAsleepIsDrained(s: State)
    requires Inv(s) && InService(s)
    requires forall w :: w in s.workers ==> w == AsleepEmpty
    requires forall p :: p in s.producers ==> !ProducerTakesMutex(p)
    ensures Drained(s)
  {
    TotalZero(s.workers, IsWokenWorker);
    TotalZero(s.workers, IsCounted);
    TotalZero(s.producers, IsWokenProducer);
    assert s.workers[0] in s.workers;
    assert s.pushed == s.popped;
    forall task ensures Copies(s.finished, task) == Copies(s.offered, task) {
      assert Accounted(s, task);
      TotalZero(s.producers, Pending(task));
      TotalZero(s.workers, InHand(task));
    }
  }

  lemma WorkerCanStep(s: State, w: nat) returns (a: Action)
    requires w < |s.workers| && !s.workers[w].AsleepEmpty? && !s.workers[w].Exited?
    ensures Internal(a) && Enabled(s, a)
  {
    if WorkerTakesMutex(s.workers[w]) {
      if s.queue == [] {
        a := BlockEmpty(w);
      } else if p: nat :| p < |s.producers| && s.producers[p].AsleepFull? {
        a := Pop(w, Some(p));
      } else {
        a := Pop(w, None);
      }
    } else if s.workers[w].Holding? {
      a := CheckStop(w);
    } else if s.workers[w].Cleared? {
      a := Enter(w);
    } else if s.workers[w].Running? {
      a := Return(w);
    } else {
      a := Leave(w);
    }
  }

  /** Deadlock freedom: as long as any scheduled task is unfinished, some thread can step. */
  lemma UnfinishedCanStep(s: State) returns (a: Action)
    requires Inv(s) && InService(s) && !Drained(s)
    ensures Internal(a) && Enabled(s, a)
  {
    if w :| 0 <= w < |s.workers| && !s.workers[w].AsleepEmpty? {
      a := WorkerCanStep(s, w);
    } else if p :| 0 <= p < |s.producers| && ProducerTakesMutex(s.producers[p]) {
      a := if |s.queue| == s.maxSize then BlockFull(p) else Push(p, Some(0));
    } else {
      AllAsleepIsDrained(s);
    }
  }

  /** Every run of internal steps is at most Effort(s) long, and one that cannot be continued has
      finished every task exactly as often as it was scheduled: whatever the interleaving. */
  lemma {:induction false} EveryRunDrains(s: State, steps: seq<Action>, t: State)
    requires Inv(s) && InService(s) && Run(s, steps, t)
    requires forall i :: 0 <= i < |steps| ==> Internal(steps[i])
    ensures |steps| <= Effort(s)
    ensures (forall a :: Internal(a) ==> !Enabled(t, a)) ==>
      Drained(t) && multiset(t.finished) == multiset(t.offered)
    decreases |steps|
  {
    if steps == [] {
      EffortNonNegative(s);
      if !Drained(t) {
        var a := UnfinishedCanStep(t);
      } else {
        DrainedIsFinished(t);
      }
    } else {
      StepKeepsInv(s, steps[0]);
      InternalStepUsesEffort(s, steps[0]);
      EveryRunDrains(Apply(s, steps[0]), steps[1..], t);
    }
  }

  // ----- the pool itself -----

  /** The pool's shared fields and the turns its threads take while they hold the mutex. */
  class Pool {
    const maxSize: nat
    var queue: seq<Task>
    var workers: seq<Worker>
    var producers: seq<Producer>
    var activeThreads: int
    var stop: bool
    ghost var offered: seq<Task>
    ghost var pushed: seq<Task>
    ghost var popped: seq<Task>
    ghost var finished: seq<Task>
    ghost var dropped: seq<Task>

    ghost function View(): State
      reads this
    {
      State(maxSize, queue, workers, producers, activeThreads, stop, offered, pushed, popped, finished, dropped)
    }

    constructor (threads: nat, maxPending: nat, callers: nat)
      ensures Initial(View()) && maxSize == maxPending
      ensures |workers| == threads && |producers| == callers
    {
      maxSize := maxPending;
      queue, activeThreads, stop := [], 0, false;
      workers := seq(threads, _ => AtPop);
      producers := seq(callers, _ => Outside);
      offered, pushed, popped, finished, dropped := [], [], [], [], [];
    }

    /** schedule: producer p enters push. */
    method Schedule(p: nat, task: Task)
      requires Enabled(View(), Action.Schedule(p, task))
      modifies this
      ensures View() == Apply(old(View()), Action.Schedule(p, task))
    {
      producers := producers[p := AtPush(task)];
      offered := offered + [task];
    }

    /** One evaluation of push's loop condition by a producer that takes the mutex: it waits, or it
        appends its task and notifies one sleeping worker (sleeper is the one notify_one picks). */
    method PushTurn(p: nat, sleeper: Option<nat>) returns (done: bool)
      requires p < |producers| && ProducerTakesMutex(producers[p]) && CanWakeWorker(View(), sleeper)
      modifies this
      ensures done <==> old(|queue|) != maxSize
      ensures View() == Apply(old(View()), if done then Action.Push(p, sleeper) else BlockFull(p))
      ensures done ==>
        && queue == old(queue) + [old(producers[p].task)] && producers == old(producers)[p := Outside]
        && (sleeper.Some? ==> workers == old(workers)[sleeper.value := WokenEmpty])
      ensures !done ==> queue == old(queue) && producers == old(producers)[p := AsleepFull(old(producers[p].task))]
    {
      var task := producers[p].task;
      if |queue| == maxSize {
        producers := producers[p := AsleepFull(task)];
        return false;
      }
      queue := queue + [task];
      pushed := pushed + [task];
      producers := producers[p := Outside];
      if sleeper.Some? {
        workers := workers[sleeper.value := WokenEmpty];
      }
      return true;
    }

    /** One evaluation of pop's loop condition by a worker that takes the mutex. */
    method PopTurn(w: nat, sleeper: Option<nat>) returns (result: Option<Task>)
      requires w < |workers| && WorkerTakesMutex(workers[w]) && CanWakeProducer(View(), sleeper)
      modifies this
      ensures result == if old(queue) == [] then None else Some(old(queue)[0])
      ensures View() == Apply(old(View()), if result.None? then BlockEmpty(w) else Action.Pop(w, sleeper))
      ensures result.Some? ==>
        && old(queue) == [result.value] + queue && workers == old(workers)[w := Holding(result.value)]
        && (sleeper.Some? ==> producers[sleeper.value] == WokenFull(old(producers)[sleeper.value].task))
      ensures result.None? ==> queue == old(queue) && workers == old(workers)[w := AsleepEmpty]
    {
      if queue == [] {
        workers := workers[w := AsleepEmpty];
        return None;
      }
      var task := queue[0];
      queue := queue[1..];
      popped := popped + [task];
      workers := workers[w := Holding(task)];
      if sleeper.Some? {
        producers := producers[sleeper.value := WokenFull(producers[sleeper.value].task)];
      }
      return Some(task);
    }

    /** The rest of the worker loop, one step at a time: the test of _stop, the increment of the
        counter, the task itself, and the decrement. */
    method LoopTurn(w: nat)
      requires w < |workers|
      requires workers[w].Holding? || workers[w].Cleared? || workers[w].Running? || workers[w].Returned?
      modifies this
      ensures View() == Apply(old(View()),
        match old(workers[w])
        case Holding(_) => CheckStop(w)
        case Cleared(_) => Enter(w)
        case Running(_) => Return(w)
        case _ => Leave(w))
      ensures old(workers[w]).Holding? ==>
        && (old(stop) ==> workers[w] == Exited && dropped == old(dropped) + [old(workers[w]).task])
        && (!old(stop) ==> workers[w] == Cleared(old(workers[w]).task) && dropped == old(dropped))
      ensures activeThreads == old(activeThreads) +
        if old(workers[w]).Cleared? then 1 else if old(workers[w]).Returned? then -1 else 0
      ensures old(workers[w]).Returned? ==>
        workers[w] == AtPop && finished == old(finished) + [old(workers[w]).task]
    {
      match workers[w]
      case Holding(task) =>
        if stop {
          workers := workers[w := Exited];
          dropped := dropped + [task];
        } else {
          workers := workers[w := Cleared(task)];
        }
      case Cleared(task) =>
        activeThreads := activeThreads + 1;
        workers := workers[w := Running(task)];
      case Running(task) =>
        workers := workers[w := Returned(task)];
      case Returned(task) =>
        activeThreads := activeThreads - 1;
        finished := finished + [task];
        workers := workers[w := AtPop];
    }
  }
}
