/** What the sequence of steps alone says about the tasks of the pool (src/frontend/ThreadPool.hpp):
    in which order they enter and leave the queue, who runs them, and what becomes of them after
    _stop. The functions here read nothing but the labels of the steps. */
module TaskOrder {
  import opened Sequences
  import opened ThreadPool
  import opened Wrappers

  function Before(steps: seq<Action>): seq<Action>
    requires steps != []
  {
    steps[..|steps| - 1]
  }

  function Last(steps: seq<Action>): Action
    requires steps != []
  {
    steps[|steps| - 1]
  }

  /** The tasks that schedule was called with, in order. */
  function Offers(steps: seq<Action>): seq<Task> {
    if steps == [] then []
    else
      match Last(steps)
      case Schedule(_, task) => Offers(Before(steps)) + [task]
      case _ => Offers(Before(steps))
  }

  /** The task of producer p's last call of schedule. */
  function LastOffer(steps: seq<Action>, p: nat): Option<Task> {
    if steps == [] then None
    else
      match Last(steps)
      case Schedule(q, task) => if q == p then Some(task) else LastOffer(Before(steps), p)
      case _ => LastOffer(Before(steps), p)
  }

  function Appended(tasks: seq<Task>, task: Option<Task>): seq<Task> {
    match task
    case None => tasks
    case Some(x) => tasks + [x]
  }

  /** In the order of the pushes, the task that the pushing producer last called schedule with. */
  function Pushes(steps: seq<Action>): seq<Task> {
    if steps == [] then []
    else
      match Last(steps)
      case Push(p, _) => Appended(Pushes(Before(steps)), LastOffer(Before(steps), p))
      case _ => Pushes(Before(steps))
  }

  function Pops(steps: seq<Action>): nat {
    if steps == [] then 0
    else
      match Last(steps)
      case Pop(_, _) => Pops(Before(steps)) + 1
      case _ => Pops(Before(steps))
  }

  /** Which pop, counted from 0, was worker w's last one. */
  function LastPop(steps: seq<Action>, w: nat): Option<nat> {
    if steps == [] then None
    else
      match Last(steps)
      case Pop(v, _) => if v == w then Some(Pops(Before(steps))) else LastPop(Before(steps), w)
      case _ => LastPop(Before(steps), w)
  }

  /** First in, first out: worker w's last pop, being number k, took the k-th task pushed. */
  function Taken(steps: seq<Action>, w: nat): Option<Task> {
    match LastPop(steps, w)
    case None => None
    case Some(k) => if k < |Pushes(steps)| then Some(Pushes(steps)[k]) else None
  }

  /** In the order in which workers leave their tasks, the tasks they last took. */
  function Leaves(steps: seq<Action>): seq<Task> {
    if steps == [] then []
    else
      match Last(steps)
      case Leave(w) => Appended(Leaves(Before(steps)), Taken(Before(steps), w))
      case _ => Leaves(Before(steps))
  }

  /** The tasks that workers took and then dropped because they tested _stop after it was set. */
  function Drops(steps: seq<Action>): seq<Task> {
    if steps == [] then []
    else
      match Last(steps)
      case CheckStop(w) =>
        if Stop in Before(steps) then Appended(Drops(Before(steps)), Taken(Before(steps), w)) else Drops(Before(steps))
      case _ => Drops(Before(steps))
  }

  /** Worker w tested _stop after it was set, or was interrupted. */
  predicate Gone(steps: seq<Action>, w: nat) {
    steps != [] && (
      || Gone(Before(steps), w)
      || Last(steps) == Interrupt(w)
      || (Last(steps) == CheckStop(w) && Stop in Before(steps)))
  }

  /** The number of workers that have entered a task and not left it. */
  function Inside(steps: seq<Action>): int {
    if steps == [] then 0
    else
      match Last(steps)
      case Enter(_) => Inside(Before(steps)) + 1
      case Leave(_) => Inside(Before(steps)) - 1
      case _ => Inside(Before(steps))
  }

  // ----- what every run keeps -----

  /** The queue and its history are what the steps say. */
  ghost predicate QueueTraced(steps: seq<Action>, s: State) {
    && s.offered == Offers(steps) && s.pushed == Pushes(steps)
    && Pops(steps) == |s.popped| && s.pushed == s.popped + s.queue
    && forall p :: 0 <= p < |s.producers| && !s.producers[p].Outside? ==>
         LastOffer(steps, p) == Some(s.producers[p].task)
  }

  predicate HasTask(w: Worker) { w.Holding? || w.Cleared? || w.Running? || w.Returned? }

  /** Worker w has the task that the steps say, and has exited if they say so. */
  ghost predicate WorkerTraced(steps: seq<Action>, s: State, w: nat)
    requires w < |s.workers|
  {
    && (HasTask(s.workers[w]) ==>
          LastPop(steps, w).Some? && LastPop(steps, w).value < |s.popped|
          && s.popped[LastPop(steps, w).value] == s.workers[w].task)
    && (s.workers[w].Exited? <==> Gone(steps, w))
  }

  ghost predicate WorkersTraced(steps: seq<Action>, s: State) {
    forall w :: 0 <= w < |s.workers| ==> WorkerTraced(steps, s, w)
  }

  ghost predicate EndsTraced(steps: seq<Action>, s: State) {
    && s.finished == Leaves(steps) && s.dropped == Drops(steps)
    && s.activeThreads == Inside(steps) && (s.stop <==> Stop in steps)
  }

  /** One more label. */
  lemma OneMore(steps: seq<Action>, a: Action)
    ensures Before(steps + [a]) == steps && Last(steps + [a]) == a
  {
  }

  lemma QueueStep(steps: seq<Action>, s: State, a: Action)
    requires QueueTraced(steps, s) && Enabled(s, a)
    ensures QueueTraced(steps + [a], Apply(s, a))
  {
    OneMore(steps, a);
    if a.Pop? {
      assert s.queue == [s.queue[0]] + s.queue[1..];
    }
  }

  lemma WorkersStep(steps: seq<Action>, s: State, a: Action)
    requires QueueTraced(steps, s) && WorkersTraced(steps, s) && EndsTraced(steps, s) && Enabled(s, a)
    ensures WorkersTraced(steps + [a], Apply(s, a))
  {
    OneMore(steps, a);
    var t := Apply(s, a);
    forall w | 0 <= w < |t.workers| ensures WorkerTraced(steps + [a], t, w) {
      assert WorkerTraced(steps, s, w);
    }
  }

  /** What a worker has is what it took. */
  lemma HasTaken(steps: seq<Action>, s: State, w: nat)
    requires QueueTraced(steps, s) && w < |s.workers| && WorkerTraced(steps, s, w) && HasTask(s.workers[w])
    ensures Taken(steps, w) == Some(s.workers[w].task)
  {
  }

  lemma EndsStep(steps: seq<Action>, s: State, a: Action)
    requires QueueTraced(steps, s) && WorkersTraced(steps, s) && EndsTraced(steps, s) && Enabled(s, a)
    ensures EndsTraced(steps + [a], Apply(s, a))
  {
    OneMore(steps, a);
    if a.Leave? || a.CheckStop? {
      HasTaken(steps, s, a.w);
    }
  }

  ghost predicate Traced(steps: seq<Action>, s: State) {
    QueueTraced(steps, s) && WorkersTraced(steps, s) && EndsTraced(steps, s)
  }

  /** The last step of a run. */
  lemma {:induction false} RunLast(s: State, steps: seq<Action>, t: State) returns (mid: State)
    requires Run(s, steps, t) && steps != []
    ensures Run(s, Before(steps), mid) && Enabled(mid, Last(steps)) && t == Apply(mid, Last(steps))
    decreases |steps|
  {
    if |steps| == 1 {
      mid := s;
    } else {
      mid := RunLast(Apply(s, steps[0]), steps[1..], t);
      assert Before(steps)[1..] == Before(steps[1..]);
    }
  }

  lemma StartIsTraced(s: State)
    requires Initial(s)
    ensures Traced([], s)
  {
    forall w | 0 <= w < |s.workers| ensures WorkerTraced([], s, w) {
      assert s.workers[w] in s.workers;
    }
    forall p | 0 <= p < |s.producers| ensures s.producers[p].Outside? {
      assert s.producers[p] in s.producers;
    }
  }

  lemma {:induction false} RunIsTraced(s0: State, steps: seq<Action>, t: State)
    requires Initial(s0) && Run(s0, steps, t)
    ensures Traced(steps, t)
    decreases |steps|
  {
    if steps == [] {
      StartIsTraced(s0);
    } else {
      var s := RunLast(s0, steps, t);
      RunIsTraced(s0, Before(steps), s);
      hide QueueTraced, WorkersTraced, EndsTraced, Enabled, Apply;
      QueueStep(Before(steps), s, Last(steps));
      WorkersStep(Before(steps), s, Last(steps));
      EndsStep(Before(steps), s, Last(steps));
      assert steps == Before(steps) + [Last(steps)];
    }
  }

  /** First in, first out, for every interleaving: the steps alone say which tasks were offered, in
      which order they were pushed, that the popped ones are the oldest of these, one for each
      pop, and that the others are queued behind them. */
  lemma FirstInFirstOut(s0: State, steps: seq<Action>, t: State)
    requires Initial(s0) && Run(s0, steps, t)
    ensures t.offered == Offers(steps) && t.pushed == Pushes(steps)
    ensures Pops(steps) <= |Pushes(steps)|
    ensures t.popped == Pushes(steps)[..Pops(steps)]
    ensures t.queue == Pushes(steps)[Pops(steps)..]
  {
    RunIsTraced(s0, steps, t);
    ConcatParts(t.popped, t.queue);
  }

  /** So whoever pops next gets the oldest task that was pushed and not popped, and whoever pushes
      next puts its own task behind all others. */
  lemma NextInLine(s0: State, steps: seq<Action>, s: State, a: Action)
    requires Initial(s0) && Run(s0, steps, s) && Enabled(s, a)
    ensures a.Pop? ==>
      Pops(steps) < |Pushes(steps)| && Apply(s, a).workers[a.w] == Holding(Pushes(steps)[Pops(steps)])
    ensures a.Push? ==>
      LastOffer(steps, a.p).Some? && Apply(s, a).queue == s.queue + [LastOffer(steps, a.p).value]
  {
    RunIsTraced(s0, steps, s);
  }

  /** What becomes of the tasks that were popped, for every interleaving: each worker finishes the task
      it last took, or drops it if it tested _stop after that was set; then it is gone, and so
      is a worker that was interrupted, and no other. The counter counts the workers inside. */
  lemma TasksEndAsTaken(s0: State, steps: seq<Action>, t: State)
    requires Initial(s0) && Run(s0, steps, t)
    ensures t.finished == Leaves(steps) && t.dropped == Drops(steps)
    ensures t.activeThreads == Inside(steps)
    ensures t.stop <==> Stop in steps
    ensures forall w :: 0 <= w < |t.workers| ==> (t.workers[w].Exited? <==> Gone(steps, w))
    ensures forall w :: 0 <= w < |t.workers| && HasTask(t.workers[w]) ==>
      Taken(steps, w) == Some(t.workers[w].task)
  {
    RunIsTraced(s0, steps, t);
    forall w | 0 <= w < |t.workers|
      ensures t.workers[w].Exited? <==> Gone(steps, w)
      ensures HasTask(t.workers[w]) ==> Taken(steps, w) == Some(t.workers[w].task)
    {
      assert WorkerTraced(steps, t, w);
      if HasTask(t.workers[w]) {
        HasTaken(steps, t, w);
      }
    }
  }

  /** A worker that is gone takes no further step. */
  lemma GoneForGood(s0: State, steps: seq<Action>, s: State, w: nat, a: Action)
    requires Initial(s0) && Run(s0, steps, s) && w < |s.workers| && Gone(steps, w)
    requires a == BlockEmpty(w) || a == CheckStop(w) || a == Enter(w) || a == Return(w) || a == Leave(w)
          || a == SpuriousEmpty(w) || a == Interrupt(w) || (a.Pop? && a.w == w)
    ensures !Enabled(s, a)
  {
    TasksEndAsTaken(s0, steps, s);
  }
}
