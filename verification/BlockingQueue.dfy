/** The blocking queue as a system of threads: each step is one atomic action between acquiring and releasing
    the mutex, waiting on the condition variable, or being woken from it. */
module BlockingQueue {
  import opened Wrappers

  /** Where a thread stands. `Woken` has left the wait but must first get the mutex back. */
  datatype Pc<T> =
    | Idle
    | EnqueueLocked(item: T)    // holds the mutex, about to push
    | EnqueuePushed             // holds the mutex, about to notify
    | EnqueueNotified           // holds the mutex, about to release
    | DequeueLocked             // holds the mutex, about to test the queue
    | Waiting
    | Woken
    | DequeueDone               // holds the mutex, about to release

  datatype State<T> = State(queue: seq<T>, mutex: Option<nat>, pc: seq<Pc<T>>, enqueued: seq<T>, dequeued: seq<T>)

  datatype Action<T> =
    | LockToEnqueue(item: T) | Push | NotifyAll | Release
    | LockToDequeue | Wait | Wake | Pop

  function Initial<T>(threads: nat): (s: State<T>) {
    State([], None, seq(threads, _ => Idle), [], [])
  }

  function WakeAll<T>(pc: seq<Pc<T>>): (r: seq<Pc<T>>)
    ensures |r| == |pc|
  {
    seq(|pc|, i requires 0 <= i < |pc| => if pc[i].Waiting? then Woken else pc[i])
  }

  /** The effect of thread `t` taking an action; None if it cannot take it here. `Wake` is a spurious wakeup. */
  function Step<T>(s: State<T>, t: nat, a: Action<T>): (r: Option<State<T>>) {
    if t >= |s.pc| then None
    else
      var p := s.pc[t];
      match a
      case LockToEnqueue(x) =>
        if p.Idle? && s.mutex.None? then Some(s.(mutex := Some(t), pc := s.pc[t := EnqueueLocked(x)])) else None
      case Push =>
        if p.EnqueueLocked?
        then Some(s.(queue := s.queue + [p.item], enqueued := s.enqueued + [p.item], pc := s.pc[t := EnqueuePushed]))
        else None
      case NotifyAll =>
        if p.EnqueuePushed? then Some(s.(pc := WakeAll(s.pc)[t := EnqueueNotified])) else None
      case Release =>
        if p.EnqueueNotified? || p.DequeueDone? then Some(s.(mutex := None, pc := s.pc[t := Idle])) else None
      case LockToDequeue =>
        if (p.Idle? || p.Woken?) && s.mutex.None? then Some(s.(mutex := Some(t), pc := s.pc[t := DequeueLocked])) else None
      case Wait =>
        if p.DequeueLocked? && s.queue == [] then Some(s.(mutex := None, pc := s.pc[t := Waiting])) else None
      case Wake =>
        if p.Waiting? then Some(s.(pc := s.pc[t := Woken])) else None
      case Pop =>
        if p.DequeueLocked? && s.queue != []
        then Some(s.(queue := s.queue[1..], dequeued := s.dequeued + [s.queue[0]], pc := s.pc[t := DequeueDone]))
        else None
  }

  function Run<T>(s: State<T>, schedule: seq<(nat, Action<T>)>): (r: Option<State<T>>) {
    if schedule == [] then Some(s)
    else
      var last := schedule[|schedule| - 1];
      var before := Run(s, schedule[..|schedule| - 1]);
      if before.None? then None else Step(before.value, last.0, last.1)
  }

  predicate Holds<T>(p: Pc<T>) { !p.Idle? && !p.Waiting? && !p.Woken? }

  ghost predicate Invariant<T>(s: State<T>) {
    // what came out, followed by what is still inside, is what went in
    && s.dequeued + s.queue == s.enqueued
    // the mutex excludes
    && (forall t :: 0 <= t < |s.pc| ==> (Holds(s.pc[t]) <==> s.mutex == Some(t)))
    // a thread waits beside a non-empty queue only while the one that pushed has yet to notify
    && (s.queue != [] && (exists t :: 0 <= t < |s.pc| && s.pc[t].Waiting?) ==>
          s.mutex.Some? && s.mutex.value < |s.pc| && s.pc[s.mutex.value].EnqueuePushed?)
  }

  lemma {:induction false} StepKeepsInvariant<T>(s: State<T>, t: nat, a: Action<T>)
    requires Invariant(s) && Step(s, t, a).Some?
    ensures Invariant(Step(s, t, a).value)
  {
    var s' := Step(s, t, a).value;
    assert forall u :: 0 <= u < |s.pc| && u != t && !a.NotifyAll? ==> s'.pc[u] == s.pc[u];
    if a.Push? {
      assert s'.dequeued + s'.queue == s.dequeued + s.queue + [s.pc[t].item];
    } else if a.Pop? {
      assert s.queue == [s.queue[0]] + s.queue[1..];
      assert s'.dequeued + s'.queue == s.dequeued + s.queue;
    }
  }

  /** In every interleaving of any number of threads the queue loses, duplicates and reorders nothing. */
  lemma {:induction false} RunKeepsInvariant<T>(threads: nat, schedule: seq<(nat, Action<T>)>)
    requires Run(Initial<T>(threads), schedule).Some?
    ensures Invariant(Run(Initial<T>(threads), schedule).value)
  {
    if schedule != [] {
      var init, last := schedule[..|schedule| - 1], schedule[|schedule| - 1];
      RunKeepsInvariant<T>(threads, init);
      StepKeepsInvariant(Run(Initial<T>(threads), init).value, last.0, last.1);
    }
  }

  /** No lost wakeup: whenever an item is there and the mutex is free, no thread is left waiting without
      having been notified, and every thread inside `wait_dequeue` can go on and get an item. */
  lemma {:induction false} NoLostWakeup<T>(threads: nat, schedule: seq<(nat, Action<T>)>, t: nat)
    requires Run(Initial<T>(threads), schedule).Some?
    requires var s := Run(Initial<T>(threads), schedule).value; s.queue != [] && s.mutex.None? && t < |s.pc|
    ensures var s := Run(Initial<T>(threads), schedule).value;
            && !s.pc[t].Waiting?
            && Step(s, t, LockToDequeue).Some?
            && Step(Step(s, t, LockToDequeue).value, t, Pop).Some?
            && Step(Step(s, t, LockToDequeue).value, t, Pop).value.dequeued == s.dequeued + [s.queue[0]]
  {
    RunKeepsInvariant(threads, schedule);
  }

  /** The thread that holds the mutex can always move. */
  lemma {:induction false} HolderCanMove<T>(s: State<T>)
    requires Invariant(s) && s.mutex.Some? && s.mutex.value < |s.pc|
    ensures exists a :: Step(s, s.mutex.value, a).Some?
  {
    var t := s.mutex.value;
    assert Holds(s.pc[t]);
    match s.pc[t] {
      case EnqueueLocked(_) => assert Step(s, t, Push).Some?;
      case EnqueuePushed => assert Step(s, t, NotifyAll).Some?;
      case EnqueueNotified => assert Step(s, t, Release).Some?;
      case DequeueLocked => assert Step(s, t, Wait).Some? || Step(s, t, Pop).Some?;
      case DequeueDone => assert Step(s, t, Release).Some?;
      case _ =>
    }
  }
}
