/** Tasks on one event base. A coroutine runs from one resume to its next suspension without
    interruption; in between it may create tasks and futures, start tasks, set futures and drop task
    handles. Each of these effects is a step of its own, so that every order of them is covered.

    A task that is registered holds an entry of the task pool. The ready queue and the pool have the
    same capacity. */
module EventLoop {
  import opened Common

  type TaskId = nat
  type FutureId = nat
  type EntryId = nat

  /** Where a coroutine stands. Fresh: created, not registered. Ready: to be resumed. */
  datatype Status = Fresh | Ready | Running | OnTask(child: TaskId) | OnFuture(future: FutureId) | Done

  /** `waiter` is the promise to wake at the end, `owned` says that a handle object still refers to the
      coroutine, `flagged` that the last handle was dropped before the end, and `entry` is the entry of
      its last registration. The others record history: when the task was last registered, how often that
      happened, and how often an entry and the frame with it were given back. */
  datatype Task = Task(status: Status, waiter: Option<TaskId>, owned: bool, flagged: bool,
                       entry: Option<EntryId>, rank: nat, registrations: nat, releases: nat)

  datatype Future = Future(isSet: bool, waiter: Option<TaskId>)

  /** Idle: between two resumes. In: inside the resume of a task, by the entry that was popped. After: the
      task has suspended on a future, and the future's own function still runs. */
  datatype Phase = Idle | In(task: TaskId, entry: EntryId) | After(task: TaskId)

  /** `lost` records which tasks have awaited a future whose value was set, or have been replaced as the
      waiter of one whose value was not. */
  datatype State = State(
    tasks: seq<Task>, futures: seq<Future>, entries: seq<Option<TaskId>>, free: seq<EntryId>,
    queue: seq<EntryId>, phase: Phase, clock: nat, refused: bool, lost: set<TaskId>)

  datatype Action =
    | CreateTask
    | CreateFuture
    | StartTask(t: TaskId)
    | DropHandle(t: TaskId)
    | SetFuture(f: FutureId)
    | Resume
    | AwaitTask(t: TaskId)
    | AwaitFuture(f: FutureId)
    | EndExecute
    | Finish

  function Init(n: nat): State {
    State([], [], seq(n, _ => None), seq(n, i => i), [], Idle, 0, false, {})
  }

  // ---------------------------------------------------------------- the operations of the event base

  /** The entry a task points to. There is none before it is registered. */
  function EntryOf(s: State, t: TaskId): Option<EntryId> {
    if t < |s.tasks| then s.tasks[t].entry else None
  }

  /** The task an entry points to. There is none while the entry is in the pool. */
  function TaskAt(s: State, e: EntryId): Option<TaskId> {
    if e < |s.entries| && s.entries[e].Some? && s.entries[e].value < |s.tasks| then s.entries[e] else None
  }

  function SetStatus(s: State, t: TaskId, status: Status): State {
    if t < |s.tasks| then s.(tasks := s.tasks[t := s.tasks[t].(status := status)]) else s
  }

  /** Pushing on a full queue is refused by an exception. */
  function PushEntry(n: nat, s: State, e: EntryId): State {
    if |s.queue| == n then s.(refused := true) else s.(queue := s.queue + [e])
  }

  /** Waking: the task's entry goes to the back of the ready queue. */
  function Wake(n: nat, s: State, t: TaskId): State {
    match EntryOf(s, t)
    case None => s
    case Some(e) => PushEntry(n, if s.tasks[t].status.Done? then s else SetStatus(s, t, Ready), e)
  }

  /** The first free entry of the pool, bound to the task. */
  function Added(s: State, t: TaskId): State
    requires t < |s.tasks| && s.free != []
  {
    var e := s.free[0];
    var me := s.tasks[t].(entry := Some(e), rank := s.clock, registrations := s.tasks[t].registrations + 1);
    var entries := if e < |s.entries| then s.entries[e := Some(t)] else s.entries;
    s.(free := s.free[1..], entries := entries, tasks := s.tasks[t := me], clock := s.clock + 1)
  }

  /** Registering takes an entry and makes the task ready. */
  function Register(n: nat, s: State, t: TaskId): State
    requires t < |s.tasks| && s.free != []
  {
    Wake(n, Added(s, t), t)
  }

  /** Giving back an entry destroys the coroutine's frame with it. */
  function Release(s: State, t: TaskId, e: EntryId): State
    requires t < |s.tasks|
  {
    var entries := if e < |s.entries| then s.entries[e := None] else s.entries;
    s.(free := s.free + [e], entries := entries,
       tasks := s.tasks[t := s.tasks[t].(releases := s.tasks[t].releases + 1)])
  }

  /** The entry still points to a frame that was destroyed with another entry of the same task. */
  predicate Dangling(s: State, e: EntryId) {
    TaskAt(s, e).Some? && s.tasks[TaskAt(s, e).value].releases > 0
  }

  // ---------------------------------------------------------------- steps

  /** Registering needs a free entry: an empty pool ends the program with an exception. Resuming needs a
      frame: nothing is said of a program that has read a destroyed one. */
  predicate Enabled(s: State, a: Action) {
    match a
    case CreateTask => true
    case CreateFuture => true
    case StartTask(t) => t < |s.tasks| && s.tasks[t].owned && s.free != []
    case DropHandle(t) => t < |s.tasks| && s.tasks[t].owned
    case SetFuture(f) => f < |s.futures|
    case Resume => s.phase.Idle? && s.queue != [] && !Dangling(s, s.queue[0])
    // A task that is already done is not waited for.
    case AwaitTask(t) =>
      && s.phase.In? && s.phase.task < |s.tasks| && t < |s.tasks| && t != s.phase.task
      && s.tasks[t].owned && !s.tasks[t].status.Done? && s.free != []
    // A future is always waited for, whether or not its value is set.
    case AwaitFuture(f) => s.phase.In? && s.phase.task < |s.tasks| && f < |s.futures|
    case EndExecute => s.phase.After?
    case Finish => s.phase.In? && s.phase.task < |s.tasks|
  }

  function Do(n: nat, s: State, a: Action): State
    requires Enabled(s, a)
  {
    match a
    case CreateTask => s.(tasks := s.tasks + [Task(Fresh, None, true, false, None, 0, 0, 0)])
    case CreateFuture => s.(futures := s.futures + [Future(false, None)])
    case StartTask(t) => Register(n, s, t)
    case DropHandle(t) => Drop(s, t)
    case SetFuture(f) => SetValue(n, s, f)
    case Resume => ResumeNext(s)
    case AwaitTask(t) =>
      var me := s.phase.task;
      var s' := SetStatus(s, me, OnTask(t));
      Register(n, s'.(tasks := s'.tasks[t := s'.tasks[t].(waiter := Some(me))], phase := Idle), t)
    case AwaitFuture(f) =>
      var me := s.phase.task;
      SetStatus(s, me, OnFuture(f)).(futures := s.futures[f := s.futures[f].(waiter := Some(me))], phase := After(me),
                                     lost := s.lost + LostBy(s.futures[f], me))
    case EndExecute => s.(phase := Idle)
    case Finish => FinishTask(n, s, s.phase.task, s.phase.entry)
  }

  /** Who will not be woken when a task awaits this future: the task itself if the value is set already,
      else whoever awaited it before. */
  function LostBy(f: Future, me: TaskId): set<TaskId> {
    if f.isSet then {me} else if f.waiter.Some? then {f.waiter.value} else {}
  }

  /** The end of a handle: a finished task is released, an unfinished one is flagged for its end. */
  function Drop(s: State, t: TaskId): State
    requires t < |s.tasks|
  {
    if s.tasks[t].status.Done? then
      var s' := s.(tasks := s.tasks[t := s.tasks[t].(owned := false)]);
      if s.tasks[t].entry.Some? then Release(s', t, s.tasks[t].entry.value) else s'
    else s.(tasks := s.tasks[t := s.tasks[t].(owned := false, flagged := true)])
  }

  /** Only the first value counts, and it wakes whoever waits. */
  function SetValue(n: nat, s: State, f: FutureId): State
    requires f < |s.futures|
  {
    if s.futures[f].isSet then s
    else
      var s' := s.(futures := s.futures[f := s.futures[f].(isSet := true)]);
      match s.futures[f].waiter
      case None => s'
      case Some(t) => Wake(n, s', t)
  }

  /** One turn of the loop: an entry without a live coroutine is skipped. */
  function ResumeNext(s: State): State
    requires s.queue != []
  {
    var s' := s.(queue := s.queue[1..]);
    match TaskAt(s, s.queue[0])
    case None => s'
    case Some(t) => if s.tasks[t].status.Done? then s' else SetStatus(s', t, Running).(phase := In(t, s.queue[0]))
  }

  /** The end of a coroutine: its waiter is woken first, then a flagged task is released, with the entry
      whose resume this was. */
  function FinishTask(n: nat, s: State, t: TaskId, e: EntryId): State
    requires t < |s.tasks|
  {
    var done := SetStatus(s, t, Done).(phase := Idle);
    var woken := match s.tasks[t].waiter
      case None => done
      case Some(w) => Wake(n, done, w);
    if s.tasks[t].flagged then Release(woken, t, e) else woken
  }

  predicate Steps(n: nat, s: State, acts: seq<Action>, s': State)
    decreases |acts|
  {
    if acts == [] then s == s' else Enabled(s, acts[0]) && Steps(n, Do(n, s, acts[0]), acts[1..], s')
  }

  /** What the program must respect, and the event base does not check: a task is started or awaited only
      if it was not started before. */
  predicate Respectful(s: State, a: Action) {
    && Enabled(s, a)
    && (a.StartTask? || a.AwaitTask? ==> s.tasks[a.t].status.Fresh?)
  }

  predicate RespectfulSteps(n: nat, s: State, acts: seq<Action>, s': State)
    decreases |acts|
  {
    if acts == [] then s == s' else Respectful(s, acts[0]) && RespectfulSteps(n, Do(n, s, acts[0]), acts[1..], s')
  }

  /** Beyond that, a careful program awaits a future only if it is not set and nobody awaits it. */
  predicate Careful(s: State, a: Action)
    requires Enabled(s, a)
  {
    a.AwaitFuture? ==> !s.futures[a.f].isSet && s.futures[a.f].waiter.None?
  }

  predicate CarefulSteps(n: nat, s: State, acts: seq<Action>, s': State)
    decreases |acts|
  {
    if acts == [] then s == s'
    else Respectful(s, acts[0]) && Careful(s, acts[0]) && CarefulSteps(n, Do(n, s, acts[0]), acts[1..], s')
  }
}
