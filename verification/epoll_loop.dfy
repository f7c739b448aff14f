/** Posting tasks to the event loop from other threads: the pending queue, the eventfd counter that wakes
    the loop, and every interleaving of the posters with the loop thread. */
module EpollLoop {

  type Task = nat
  type Thread = nat

  /** The largest value an eventfd can hold; a write that would exceed it is refused and ignored. */
  const EVENTFD_MAX: nat := 0xFFFF_FFFF_FFFF_FFFE

  /** Where the loop thread stands. */
  datatype LoopAt =
    | Waiting  // in epoll_wait
    | Draining  // in on_wake, reading the eventfd until it is empty
    | Swapping  // the eventfd was empty; about to take the lock
    | Executing(tasks: seq<Task>)

  /** posting: the threads inside post() that have pushed their task and not yet written the eventfd.
      posted and executed remember all pushes and all executions in order. */
  datatype Loop = Loop(
    pending: seq<Task>, counter: nat, posting: set<Thread>, at: LoopAt,
    posted: seq<Task>, executed: seq<Task>)

  const INIT := Loop([], 0, {}, Waiting, [], [])

  datatype Step =
    | Push(thread: Thread, task: Task)
    | Write(thread: Thread)
    | Wake  // epoll_wait reports the eventfd readable
    | Read  // one read of the eventfd
    | Swap
    | Execute
    | Finish  // back to epoll_wait

  predicate Enabled(s: Loop, step: Step) {
    match step
    case Push(thread, _) => thread !in s.posting
    case Write(thread) => thread in s.posting
    case Wake => s.at == Waiting && s.counter > 0
    case Read => s.at == Draining
    case Swap => s.at == Swapping
    case Execute => s.at.Executing? && s.at.tasks != []
    case Finish => s.at == Executing([])
  }

  function Next(s: Loop, step: Step): Loop
    requires Enabled(s, step)
  {
    match step
    case Push(thread, task) =>
      s.(pending := s.pending + [task], posting := s.posting + {thread}, posted := s.posted + [task])
    case Write(thread) =>
      s.(counter := if s.counter < EVENTFD_MAX then s.counter + 1 else s.counter, posting := s.posting - {thread})
    case Wake => s.(at := Draining)
    case Read => if s.counter > 0 then s.(counter := 0) else s.(at := Swapping)
    case Swap => s.(pending := [], at := Executing(s.pending))
    case Execute => s.(at := Executing(s.at.tasks[1..]), executed := s.executed + [s.at.tasks[0]])
    case Finish => s.(at := Waiting)
  }

  ghost predicate Trace(s: Loop, steps: seq<Step>, t: Loop)
    decreases |steps|
  {
    if steps == [] then s == t
    else Enabled(s, steps[0]) && Trace(Next(s, steps[0]), steps[1..], t)
  }

  function Taken(at: LoopAt): seq<Task> {
    if at.Executing? then at.tasks else []
  }

  /** All tasks the loop knows, the first to be executed first. */
  function InOrder(s: Loop): seq<Task> {
    s.executed + Taken(s.at) + s.pending
  }

  /** While something is pending the loop is going to look. */
  predicate Watched(s: Loop) {
    s.pending != [] ==> s.counter > 0 || s.posting != {} || s.at == Draining || s.at == Swapping
  }

  /** Every posted task is executed, taken, or pending, in the order of posting; and while something is
      pending the loop is going to look: it will be woken, or is about to be, or is about to swap. */
  predicate Inv(s: Loop) {
    InOrder(s) == s.posted && Watched(s)
  }

  lemma PushOrder(done: seq<Task>, taken: seq<Task>, pending: seq<Task>, task: Task)
    ensures done + taken + (pending + [task]) == done + taken + pending + [task]
  {
  }

  lemma SwapOrder(done: seq<Task>, pending: seq<Task>)
    ensures done + [] + pending == done + pending + []
  {
  }

  lemma ExecuteOrder(done: seq<Task>, tasks: seq<Task>)
    requires tasks != []
    ensures done + [tasks[0]] + tasks[1..] == done + tasks
  {
    assert [tasks[0]] + tasks[1..] == tasks;
  }

  /** No step takes a task out of the row, and only a push adds one, at its end. */
  lemma StepOrder(s: Loop, step: Step)
    requires Enabled(s, step)
    ensures InOrder(Next(s, step)) == InOrder(s) + if step.Push? then [step.task] else []
    ensures Next(s, step).posted == s.posted + if step.Push? then [step.task] else []
  {
    match step
    case Push(thread, task) => PushOrder(s.executed, Taken(s.at), s.pending, task);
    case Swap => SwapOrder(s.executed, s.pending);
    case Execute => ExecuteOrder(s.executed, s.at.tasks);
    case _ =>
  }

  lemma StepWatched(s: Loop, step: Step)
    requires Watched(s) && Enabled(s, step)
    ensures Watched(Next(s, step))
  {
    if step.Push? { assert step.thread in Next(s, step).posting; }
  }

  lemma StepInv(s: Loop, step: Step)
    requires Inv(s) && Enabled(s, step)
    ensures Inv(Next(s, step))
  {
    hide Next, Enabled, InOrder, Watched;
    StepOrder(s, step);
    StepWatched(s, step);
  }

  /** Main result: over all interleavings no task is lost, doubled or overtaken, and no wake-up is lost. */
  lemma {:induction false} NoLostWakeup(s: Loop, steps: seq<Step>, t: Loop)
    requires Inv(s) && Trace(s, steps, t)
    ensures Inv(t)
    ensures s.posted <= t.posted && s.executed <= t.executed
    decreases |steps|
  {
    hide Inv;
    if steps != [] {
      StepInv(s, steps[0]);
      NoLostWakeup(Next(s, steps[0]), steps[1..], t);
    }
  }

  // Progress: the loop thread alone gets everything done.

  /** The step the loop thread takes next, if it does not have to wait. */
  function LoopStep(s: Loop): Step {
    match s.at
    case Waiting => Wake
    case Draining => Read
    case Swapping => Swap
    case Executing(tasks) => if tasks == [] then Finish else Execute
  }

  predicate LoopCanRun(s: Loop) {
    s.at == Waiting ==> s.counter > 0
  }

  /** How many steps the loop thread still has, when nobody else moves. */
  function StepsLeft(s: Loop): nat {
    match s.at
    case Waiting => if s.counter > 0 then 5 + |s.pending| else 0
    case Draining => (if s.counter > 0 then 4 else 3) + |s.pending|
    case Swapping => 2 + |s.pending| + (if s.counter > 0 then 5 else 0)
    case Executing(tasks) => 1 + |tasks| + (if s.counter > 0 then 5 + |s.pending| else 0)
  }

  /** Main result: once no thread is inside post(), the loop thread, running on its own, comes to rest
      after finitely many steps, and when it rests every task ever posted has been executed, in order. */
  lemma {:induction false} LoopFinishes(s: Loop) returns (steps: seq<Step>, t: Loop)
    requires Inv(s) && s.posting == {}
    ensures Trace(s, steps, t) && |steps| == StepsLeft(s)
    ensures forall i :: 0 <= i < |steps| ==> !steps[i].Push? && !steps[i].Write?
    ensures !LoopCanRun(t) && t.executed == t.posted == s.posted
    decreases StepsLeft(s)
  {
    if LoopCanRun(s) {
      var step := LoopStep(s);
      StepInv(s, step);
      var rest;
      rest, t := LoopFinishes(Next(s, step));
      steps := [step] + rest;
    } else {
      steps, t := [], s;
      assert s.executed + [] + [] == s.executed;
    }
  }
}
