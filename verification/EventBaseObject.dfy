/** The event base as an object, with the task pool and the ready queue that it really uses: a CachePool and
    an MpscRing of one capacity. Under the invariant every acquire finds an entry, every release is of an
    entry in use, and no push is refused. */
module EventBaseObject {
  import opened Common
  import CachePool
  import MpscRing
  import opened EventLoop
  import opened EventLoopSafety

  class EventBase {
    const capacity: nat
    const pool: CachePool.Pool
    const ready: MpscRing.Ring
    var tasks: seq<Task>
    var futures: seq<Future>
    var entries: seq<Option<TaskId>>
    var phase: Phase
    var clock: nat
    ghost var lost: set<TaskId>

    /** Pool and queue are in order by themselves. */
    ghost predicate Wired()
      reads this, pool, pool.items, ready, ready.slots
    {
      && pool.Valid() && pool.items.Length == capacity
      && ready.Valid() && ready.capacity == capacity && |ready.steps.producers| == 1
      && |entries| == capacity
    }

    ghost function View(): State
      requires ready.Mirrors()
      reads this, pool, ready, ready.slots
    {
      State(tasks, futures, entries, pool.view.free, ready.Contents(), phase, clock, false, lost)
    }

    ghost predicate Valid()
      reads this, pool, pool.items, ready, ready.slots
    {
      Wired() && Inv(capacity, View())
    }

    constructor (n: nat)
      requires n > 0
      ensures Valid() && fresh(pool) && fresh(pool.items) && fresh(ready) && fresh(ready.slots)
      ensures capacity == n && View() == Init(n)
    {
      capacity := n;
      pool := new CachePool.Pool(n);
      ready := new MpscRing.Ring(n, 1);
      tasks, futures, entries := [], [], seq(n, _ => None);
      phase, clock, lost := Idle, 0, {};
      new;
      InitInv(n);
    }

    // ------------------------------------------------------------ entries and the ready queue

    method SetReadyTask(e: EntryId)
      requires Wired() && |ready.Contents()| < capacity
      modifies ready, ready.slots
      ensures Wired() && ready.Contents() == old(ready.Contents()) + [e]
    {
      var pushed := ready.Push(0, e);
    }

    /** The end of a wait. */
    method SetWaiting(t: TaskId)
      requires Wired() && |ready.Contents()| < capacity
      requires t < |tasks| && tasks[t].entry.Some? && !tasks[t].status.Done?
      modifies this, ready, ready.slots
      ensures Wired() && View() == Wake(capacity, old(View()), t)
    {
      tasks := tasks[t := tasks[t].(status := Ready)];
      SetReadyTask(tasks[t].entry.value);
    }

    /** The first free entry, bound to the task. */
    method AddToEventBase(t: TaskId) returns (e: EntryId)
      requires Wired() && pool.view.free != [] && t < |tasks|
      modifies this`entries, this`tasks, this`clock, pool
      ensures Wired() && e == old(pool.view.free)[0]
      ensures View() == Added(old(View()), t)
    {
      var item := pool.Acquire();
      e := item.value;
      if e < |entries| {
        entries := entries[e := Some(t)];
      }
      tasks := tasks[t := tasks[t].(entry := Some(e), rank := clock, registrations := tasks[t].registrations + 1)];
      clock := clock + 1;
    }

    method RegisterOn(t: TaskId)
      requires Wired() && |ready.Contents()| < capacity && pool.view.free != []
      requires t < |tasks| && !tasks[t].status.Done?
      modifies this, pool, ready, ready.slots
      ensures Wired() && View() == Register(capacity, old(View()), t)
    {
      var e := AddToEventBase(t);
      SetWaiting(t);
    }

    method RemoveFromEventBase(t: TaskId, e: EntryId)
      requires Wired() && t < |tasks| && e in pool.view.held
      modifies this, pool, pool.items
      ensures Wired() && View() == Release(old(View()), t, e)
    {
      var released := pool.Release(Some(e));
      if e < |entries| {
        entries := entries[e := None];
      }
      tasks := tasks[t := tasks[t].(releases := tasks[t].releases + 1)];
    }

    // ------------------------------------------------------------ what the invariant gives

    /** An entry that points to a task is in use in the pool. */
    lemma HeldIsInUse(e: EntryId, t: TaskId)
      requires Valid() && Held(View(), e, t)
      ensures e in pool.view.held
    {
      assert e !in pool.view.free;
    }

    /** A waiting task's entry is not queued, so there is room to queue it. */
    lemma RoomToWake(t: TaskId)
      requires Valid() && t < |tasks| && (tasks[t].status.OnTask? || tasks[t].status.OnFuture?)
      ensures tasks[t].entry.Some? && |ready.Contents()| < capacity
    {
      assert LifeIs(tasks[t]);
      OwnerHolds(capacity, View(), t);
      RoomFor(ready.Contents(), tasks[t].entry.value, capacity);
    }

    /** Neither is a free entry. */
    lemma RoomToRegister()
      requires Valid() && pool.view.free != []
      ensures |ready.Contents()| < capacity
    {
      assert pool.view.free[0] in pool.view.free;
      RoomFor(ready.Contents(), pool.view.free[0], capacity);
    }

    // ------------------------------------------------------------ tasks

    method CreateTask() returns (t: TaskId)
      requires Valid()
      modifies this
      ensures Valid() && View() == Do(capacity, old(View()), Action.CreateTask)
      ensures t == |old(tasks)| && tasks[..t] == old(tasks) && tasks[t].status.Fresh? && tasks[t].owned
    {
      CreateInv(capacity, View(), Action.CreateTask);
      t := |tasks|;
      tasks := tasks + [Task(Fresh, None, true, false, None, 0, 0, 0)];
    }

    /** The task is ready and last in the queue. */
    method StartRunning(t: TaskId)
      requires Valid() && Respectful(View(), StartTask(t))
      modifies this, pool, ready, ready.slots
      ensures Valid() && View() == Do(capacity, old(View()), StartTask(t))
      ensures IsReady(View(), t) && tasks[t].entry == Some(old(pool.view.free)[0])
      ensures ready.Contents() == old(ready.Contents()) + [old(pool.view.free)[0]]
    {
      RoomToRegister();
      StartInv(capacity, View(), t);
      RegisterOn(t);
    }

    /** A finished task is released now, and its entry is the last to be handed out again; an unfinished one
        keeps its entry. */
    method DropHandle(t: TaskId)
      requires Valid() && Enabled(View(), Action.DropHandle(t))
      modifies this, pool, pool.items
      ensures Valid() && View() == Do(capacity, old(View()), Action.DropHandle(t))
      ensures tasks[t].releases == if tasks[t].status.Done? then 1 else 0
      ensures pool.view.free == if tasks[t].status.Done? then old(pool.view.free) + [tasks[t].entry.value]
                                else old(pool.view.free)
    {
      DropInv(capacity, View(), t);
      assert LifeIs(tasks[t]);
      if tasks[t].status.Done? {
        OwnerHolds(capacity, View(), t);
        HeldIsInUse(tasks[t].entry.value, t);
        tasks := tasks[t := tasks[t].(owned := false)];
        RemoveFromEventBase(t, tasks[t].entry.value);
      } else {
        tasks := tasks[t := tasks[t].(owned := false, flagged := true)];
      }
    }

    method SaveSuspendingPromise(t: TaskId)
      requires Wired() && phase.In? && phase.task < |tasks| && t < |tasks|
      modifies this`tasks, this`phase
      ensures Wired() && View() == Suspended(old(View()), t)
    {
      var me := phase.task;
      tasks := tasks[me := tasks[me].(status := OnTask(t))];
      tasks := tasks[t := tasks[t].(waiter := Some(me))];
      phase := Idle;
    }

    /** The running task waits for the end of another, which is ready now and will wake it. */
    method AwaitTask(t: TaskId)
      requires Valid() && Respectful(View(), Action.AwaitTask(t))
      modifies this, pool, ready, ready.slots
      ensures Valid() && View() == Do(capacity, old(View()), Action.AwaitTask(t))
      ensures AwaitsTask(View(), old(phase.task), t) && WakesAtEnd(View(), t, old(phase.task)) && IsReady(View(), t)
    {
      RoomToRegister();
      AwaitTaskInv(capacity, View(), t);
      AwaitTaskRelates(capacity, View(), t);
      SaveSuspendingPromise(t);
      RegisterOn(t);
    }

    method FinalSuspend()
      requires Wired() && phase.In? && phase.task < |tasks|
      requires var waiter := tasks[phase.task].waiter;
               waiter.Some? ==> && waiter.value < |tasks| && waiter.value != phase.task && |ready.Contents()| < capacity
                                && tasks[waiter.value].entry.Some? && !tasks[waiter.value].status.Done?
      modifies this, ready, ready.slots
      ensures Wired() && View() == Woken(capacity, old(View()))
    {
      var t := phase.task;
      tasks := tasks[t := tasks[t].(status := Done)];
      phase := Idle;
      if tasks[t].waiter.Some? {
        SetWaiting(tasks[t].waiter.value);
      }
    }

    method CheckToRemoveTask(t: TaskId, e: EntryId)
      requires Wired() && t < |tasks| && e in pool.view.held
      modifies this, pool, pool.items
      ensures Wired() && View() == if old(tasks)[t].flagged then Release(old(View()), t, e) else old(View())
    {
      if tasks[t].flagged {
        RemoveFromEventBase(t, e);
      }
    }

    /** The task is done, its waiter ready and queued once, and its own entry free again if nobody has a
        handle. */
    method EndTask()
      requires Valid() && Enabled(View(), Finish)
      modifies this, pool, pool.items, ready, ready.slots
      ensures Valid() && View() == Do(capacity, old(View()), Finish)
      ensures Finished(old(View()), old(phase.task), old(phase.entry), View())
      ensures var waiter := old(tasks[phase.task].waiter); waiter.Some? ==> IsReady(View(), waiter.value)
    {
      FinishInv(capacity, View());
      var t, e := phase.task, phase.entry;
      assert IsRunning(View(), t);
      HeldIsInUse(e, t);
      if tasks[t].waiter.Some? {
        WaiterAwaits(capacity, View(), t, tasks[t].waiter.value);
        RoomToWake(tasks[t].waiter.value);
      }
      WokenKeepsFlag(capacity, View());
      FinalSuspend();
      CheckToRemoveTask(t, e);
    }

    // ------------------------------------------------------------ futures

    method CreateFuture() returns (f: FutureId)
      requires Valid()
      modifies this
      ensures Valid() && View() == Do(capacity, old(View()), Action.CreateFuture)
      ensures f == |old(futures)| && futures == old(futures) + [Future(false, None)]
    {
      CreateInv(capacity, View(), Action.CreateFuture);
      f := |futures|;
      futures := futures + [Future(false, None)];
    }

    /** The first value wakes the waiter and no other task; a later one does nothing. */
    method SetFutureValue(f: FutureId)
      requires Valid() && Enabled(View(), SetFuture(f))
      modifies this, ready, ready.slots
      ensures Valid() && View() == Do(capacity, old(View()), SetFuture(f)) && futures[f].isSet
      ensures forall t: TaskId :: IsReady(View(), t) <==> IsReady(old(View()), t) || WakesWhenSet(old(View()), f, t)
    {
      SetFutureInv(capacity, View(), f);
      if futures[f].isSet {
        return;
      }
      if futures[f].waiter.Some? {
        assert WakesWhenSet(View(), f, futures[f].waiter.value);
        RoomToWake(futures[f].waiter.value);
      }
      futures := futures[f := futures[f].(isSet := true)];
      if futures[f].waiter.Some? {
        SetWaiting(futures[f].waiter.value);
      }
    }

    /** The running task is the future's waiter now, and will be woken unless the value is set already;
        whoever awaited the future before will not. */
    method AwaitFuture(f: FutureId)
      requires Valid() && Enabled(View(), Action.AwaitFuture(f))
      modifies this
      ensures Valid() && View() == Do(capacity, old(View()), Action.AwaitFuture(f))
      ensures AwaitsFuture(View(), old(phase.task), f)
      ensures WakesWhenSet(View(), f, old(phase.task)) <==> !old(futures)[f].isSet
      ensures lost == old(lost) + LostBy(old(futures)[f], old(phase.task))
    {
      StepInv(capacity, View(), Action.AwaitFuture(f));
      var me := phase.task;
      lost := lost + LostBy(futures[f], me);
      tasks := tasks[me := tasks[me].(status := OnFuture(f))];
      futures := futures[f := futures[f].(waiter := Some(me))];
      phase := After(me);
    }

    // ------------------------------------------------------------ the loop

    /** One turn: the ready task whose entry is in front runs, and on an empty queue nothing happens. */
    method LoopOnce() returns (t: Option<TaskId>)
      requires Valid() && phase.Idle?
      modifies this, ready, ready.slots
      ensures Valid() && (t.None? <==> old(ready.Contents()) == [])
      ensures t.None? ==> View() == old(View())
      ensures t.Some? ==> && IsReady(old(View()), t.value) && Held(old(View()), old(ready.Contents())[0], t.value)
                          && Resumed(View(), t.value) && View() == Do(capacity, old(View()), Resume)
    {
      if ready.Contents() != [] {
        ghost var r := ResumeInv(capacity, View());
      }
      var e := ready.Pop();
      if e.None? {
        return None;
      }
      t := CheckHandle(e.value);
    }

    /** A live coroutine is resumed. */
    method CheckHandle(e: EntryId) returns (t: Option<TaskId>)
      requires Wired() && e < |entries|
      modifies this`tasks, this`phase
      ensures Wired()
      ensures var front := TaskAt(old(View()), e);
              t == if front.Some? && !old(tasks)[front.value].status.Done? then front else None
      ensures View() == if t.Some? then SetStatus(old(View()), t.value, Running).(phase := In(t.value, e))
                        else old(View())
    {
      t := entries[e];
      if t.Some? && t.value < |tasks| && !tasks[t.value].status.Done? {
        tasks := tasks[t.value := tasks[t.value].(status := Running)];
        phase := In(t.value, e);
      } else {
        t := None;
      }
    }
  }
}
