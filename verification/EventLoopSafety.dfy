/** What every respectful run of the event base keeps: entries and tasks match one to one, a ready task
    has exactly one queue entry, waiting is mutual but for the tasks recorded as lost, and acyclic, and
    release happens exactly once. */
module EventLoopSafety {
  import opened Common
  import opened EventLoop

  // ---------------------------------------------------------------- the invariant

  predicate Held(s: State, e: EntryId, t: TaskId) {
    e < |s.entries| && s.entries[e] == Some(t)
  }

  /** Registered with this entry and not released. */
  predicate Owns(s: State, t: TaskId, e: EntryId) {
    t < |s.tasks| && s.tasks[t].entry == Some(e) && s.tasks[t].releases == 0
  }

  predicate IsReady(s: State, t: TaskId) {
    t < |s.tasks| && s.tasks[t].status.Ready?
  }

  predicate IsRunning(s: State, t: TaskId) {
    t < |s.tasks| && s.tasks[t].status.Running?
  }

  predicate Resumed(s: State, t: TaskId) {
    s.phase.In? && s.phase.task == t
  }

  predicate Started(k: Task) {
    !k.status.Fresh? && !k.status.Done?
  }

  predicate AwaitsTask(s: State, t: TaskId, c: TaskId) {
    t < |s.tasks| && s.tasks[t].status == OnTask(c)
  }

  predicate WakesAtEnd(s: State, c: TaskId, t: TaskId) {
    c < |s.tasks| && Started(s.tasks[c]) && s.tasks[c].waiter == Some(t)
  }

  predicate AwaitsFuture(s: State, t: TaskId, f: FutureId) {
    t < |s.tasks| && s.tasks[t].status == OnFuture(f)
  }

  predicate WakesWhenSet(s: State, f: FutureId, t: TaskId) {
    f < |s.futures| && !s.futures[f].isSet && s.futures[f].waiter == Some(t)
  }

  /** The free entries are the ones nobody holds, and an entry and its task name each other. */
  ghost predicate PoolOk(n: nat, s: State) {
    && |s.entries| == n
    && Distinct(s.free)
    && (forall e: EntryId :: e in s.free <==> e < n && s.entries[e].None?)
    && (forall e: EntryId, t: TaskId {:trigger Held(s, e, t)} {:trigger Owns(s, t, e)} ::
          Held(s, e, t) <==> Owns(s, t, e))
  }

  /** The queue holds the entries of the ready tasks, each once, and no other. */
  ghost predicate QueueOk(n: nat, s: State) {
    && Distinct(s.queue)
    && (forall e | e in s.queue :: e < |s.entries| && s.entries[e].Some?)
    && (forall e: EntryId, t: TaskId {:trigger Held(s, e, t)} | Held(s, e, t) :: e in s.queue <==> IsReady(s, t))
    && !s.refused
  }

  /** Only the task whose resume is on is running. */
  ghost predicate PhaseOk(s: State) {
    forall t: TaskId :: IsRunning(s, t) <==> Resumed(s, t)
  }

  /** The running task was resumed by its own entry. */
  ghost predicate EntryOk(s: State) {
    s.phase.In? ==> Owns(s, s.phase.task, s.phase.entry)
  }

  /** A task awaits exactly what will wake it: a later task, or, unless it is lost, a future that is not
      set. */
  ghost predicate WaitOk(s: State) {
    && (forall t: TaskId, c: TaskId {:trigger AwaitsTask(s, t, c)} {:trigger WakesAtEnd(s, c, t)} ::
          AwaitsTask(s, t, c) <==> WakesAtEnd(s, c, t))
    && (forall t: TaskId, f: FutureId {:trigger AwaitsFuture(s, t, f)} {:trigger WakesWhenSet(s, f, t)} ::
          AwaitsFuture(s, t, f) && t !in s.lost <==> WakesWhenSet(s, f, t))
    && (forall t | t in s.lost :: t < |s.tasks| && s.tasks[t].status.OnFuture?)
  }

  /** Tasks are ranked by registration, and await only tasks of a higher rank. */
  ghost predicate RankOk(s: State) {
    && (forall t | 0 <= t < |s.tasks| :: s.tasks[t].rank <= s.clock)
    && (forall t | 0 <= t < |s.tasks| && !s.tasks[t].status.Fresh? :: s.tasks[t].rank < s.clock)
    && (forall t: TaskId, c: TaskId {:trigger AwaitsTask(s, t, c)} | AwaitsTask(s, t, c) && c < |s.tasks| ::
          s.tasks[t].rank < s.tasks[c].rank)
  }

  /** A task is registered when it leaves Fresh, and released exactly once: when it is done and its
      handle is gone. */
  ghost predicate LifeOk(s: State) {
    forall t | 0 <= t < |s.tasks| :: LifeIs(s.tasks[t])
  }

  predicate LifeIs(k: Task) {
    && (k.entry.None? <==> k.status.Fresh?)
    && k.registrations == (if k.status.Fresh? then 0 else 1)
    && k.releases == (if k.status.Done? && !k.owned then 1 else 0)
    && (!k.status.Done? ==> (k.flagged <==> !k.owned))
    && (k.status.Done? && k.owned ==> !k.flagged)
    && (k.status.Fresh? ==> k.waiter.None?)
  }

  ghost predicate Inv(n: nat, s: State) {
    && PoolOk(n, s)
    && QueueOk(n, s)
    && PhaseOk(s)
    && EntryOk(s)
    && WaitOk(s)
    && RankOk(s)
    && LifeOk(s)
  }

  lemma InitInv(n: nat)
    ensures Inv(n, Init(n))
  {
    var s := Init(n);
    assert forall e | 0 <= e < n :: s.free[e] == e && s.entries[e] == None;
    assert PoolOk(n, s);
  }

  // ---------------------------------------------------------------- the queue never overflows

  lemma RoomFor(xs: seq<nat>, x: nat, n: nat)
    requires Distinct(xs) && x !in xs && x < n && forall y | y in xs :: y < n
    ensures |xs| < n && Distinct(xs + [x])
  {
    assert forall i | 0 <= i < |xs| :: xs[i] in xs;
    PigeonHole(xs + [x], n);
  }

  lemma QueueFits(n: nat, s: State)
    requires PoolOk(n, s) && QueueOk(n, s)
    ensures |s.queue| <= n
  {
    assert forall i | 0 <= i < |s.queue| :: s.queue[i] in s.queue;
    PigeonHole(s.queue, n);
  }

  // ---------------------------------------------------------------- entries, queue and phase

  /** The parts of the invariant that speak of entries, the queue and the running task. */
  ghost predicate CoreOk(n: nat, s: State) {
    PoolOk(n, s) && QueueOk(n, s) && PhaseOk(s) && EntryOk(s)
  }

  /** Only descriptions of tasks changed that the core does not look at. */
  lemma CoreSame(n: nat, s: State, s': State)
    requires CoreOk(n, s)
    requires s'.entries == s.entries && s'.free == s.free && s'.queue == s.queue && s'.refused == s.refused
    requires forall t: TaskId, e: EntryId :: Owns(s', t, e) <==> Owns(s, t, e)
    requires forall t: TaskId :: IsReady(s', t) <==> IsReady(s, t)
    requires forall t: TaskId :: IsRunning(s', t) <==> Resumed(s', t)
    requires s'.phase.In? ==> s'.phase == s.phase
    ensures CoreOk(n, s')
  {
    assert forall e: EntryId, t: TaskId {:trigger Held(s', e, t)} :: Held(s', e, t) <==> Held(s, e, t);
  }

  lemma WakeCore(n: nat, s: State, t: TaskId, e: EntryId)
    requires CoreOk(n, s) && Held(s, e, t) && s.tasks[t].entry == Some(e)
    requires s.tasks[t].status.OnTask? || s.tasks[t].status.OnFuture?
    ensures Wake(n, s, t) == SetStatus(s, t, Ready).(queue := s.queue + [e])
    ensures CoreOk(n, Wake(n, s, t))
  {
    RoomFor(s.queue, e, n);
    var s' := SetStatus(s, t, Ready).(queue := s.queue + [e]);
    assert Owns(s, t, e);
    forall y: TaskId
      ensures IsReady(s', y) <==> IsReady(s, y) || y == t
      ensures IsRunning(s', y) <==> IsRunning(s, y)
    {
    }
    forall x: EntryId, y: TaskId
      ensures Held(s', x, y) <==> Held(s, x, y)
      ensures Owns(s', y, x) <==> Owns(s, y, x)
      ensures Held(s, x, y) && y == t ==> x == e
    {
    }
  }

  /** A fresh task after its registration, which the queue has room for. */
  function Registered(s: State, t: TaskId): State
    requires t < |s.tasks| && s.free != []
  {
    var e := s.free[0];
    var me := s.tasks[t].(status := Ready, entry := Some(e), rank := s.clock, registrations := 1);
    s.(free := s.free[1..], entries := if e < |s.entries| then s.entries[e := Some(t)] else s.entries,
       tasks := s.tasks[t := me], queue := s.queue + [e], clock := s.clock + 1)
  }

  lemma RegisterCore(n: nat, s: State, t: TaskId)
    requires CoreOk(n, s) && t < |s.tasks| && s.tasks[t].status.Fresh? && s.tasks[t].entry.None?
    requires s.tasks[t].registrations == 0 && s.tasks[t].releases == 0 && s.free != []
    ensures Register(n, s, t) == Registered(s, t)
    ensures CoreOk(n, Register(n, s, t))
  {
    var e := s.free[0];
    assert e in s.free;
    RoomFor(s.queue, e, n);
    var s' := Registered(s, t);
    assert Register(n, s, t).tasks == s'.tasks;
    forall y: TaskId
      ensures IsReady(s', y) <==> IsReady(s, y) || y == t
      ensures IsRunning(s', y) <==> IsRunning(s, y)
    {
    }
    forall x: EntryId, y: TaskId
      ensures Held(s', x, y) <==> Held(s, x, y) || (x == e && y == t)
      ensures Owns(s', y, x) <==> Owns(s, y, x) || (x == e && y == t)
      ensures !Held(s, e, y) && !Held(s, x, t)
    {
    }
    assert forall x: EntryId :: x in s'.free <==> x in s.free && x != e;
  }

  lemma ReleaseCore(n: nat, s: State, t: TaskId, e: EntryId)
    requires CoreOk(n, s) && Held(s, e, t) && s.tasks[t].status.Done?
    ensures CoreOk(n, Release(s, t, e)) && s.tasks[t].releases == 0
  {
    var s' := Release(s, t, e);
    assert Owns(s, t, e);
    forall y: TaskId
      ensures IsReady(s', y) <==> IsReady(s, y)
      ensures IsRunning(s', y) <==> IsRunning(s, y)
    {
    }
    forall x: EntryId, y: TaskId
      ensures Held(s', x, y) <==> Held(s, x, y) && x != e
      ensures Owns(s', y, x) <==> Owns(s, y, x) && y != t
      ensures Held(s, x, y) ==> (x == e <==> y == t)
    {
    }
    assert forall x: EntryId :: x in s'.free <==> x in s.free || x == e;
    assert forall x | x in s'.queue :: s'.entries[x].Some?;
  }

  // ---------------------------------------------------------------- waits and lives

  /** The parts of the invariant that speak of waiting, ranks and lives. */
  ghost predicate WaitsOk(s: State) {
    WaitOk(s) && RankOk(s) && LifeOk(s)
  }

  /** Nobody's wait changed. */
  ghost predicate SameWaits(s: State, s': State) {
    && s'.lost == s.lost
    && forall x: nat, y: TaskId ::
         && (AwaitsTask(s', y, x) <==> AwaitsTask(s, y, x))
         && (WakesAtEnd(s', x, y) <==> WakesAtEnd(s, x, y))
         && (AwaitsFuture(s', y, x) <==> AwaitsFuture(s, y, x))
         && (WakesWhenSet(s', x, y) <==> WakesWhenSet(s, x, y))
  }

  /** Ranks only rise with the clock, and only at a registration. */
  ghost predicate SameRanks(s: State, s': State) {
    && |s.tasks| <= |s'.tasks| && s.clock <= s'.clock
    && (forall t | |s.tasks| <= t < |s'.tasks| :: s'.tasks[t].status.Fresh? && s'.tasks[t].rank <= s'.clock)
    && forall t | 0 <= t < |s.tasks| ::
         s'.tasks[t].rank == s.tasks[t].rank && (s.tasks[t].status.Fresh? <==> s'.tasks[t].status.Fresh?)
  }

  lemma WaitsSame(s: State, s': State)
    requires WaitsOk(s) && SameWaits(s, s') && SameRanks(s, s') && LifeOk(s')
    requires forall t | t in s.lost :: t < |s'.tasks| && s'.tasks[t].status.OnFuture?
    ensures WaitsOk(s')
  {
    forall t: TaskId, c: TaskId | AwaitsTask(s', t, c) && c < |s'.tasks|
      ensures s'.tasks[t].rank < s'.tasks[c].rank
    {
      assert AwaitsTask(s, t, c) && WakesAtEnd(s, c, t);
    }
  }

  // ---------------------------------------------------------------- every step

  lemma CreateInv(n: nat, s: State, a: Action)
    requires Inv(n, s) && (a.CreateTask? || a.CreateFuture?)
    ensures Inv(n, Do(n, s, a))
  {
    var s' := Do(n, s, a);
    forall t: TaskId
      ensures IsReady(s', t) <==> IsReady(s, t)
      ensures IsRunning(s', t) <==> IsRunning(s, t)
    {
    }
    forall x: nat, t: TaskId
      ensures Owns(s', t, x) <==> Owns(s, t, x)
    {
    }
    CoreSame(n, s, s');
    assert SameWaits(s, s');
    WaitsSame(s, s');
  }

  lemma OwnerHolds(n: nat, s: State, t: TaskId)
    requires PoolOk(n, s) && t < |s.tasks| && LifeIs(s.tasks[t])
    requires !s.tasks[t].status.Fresh? && (s.tasks[t].status.Done? ==> s.tasks[t].owned)
    ensures s.tasks[t].entry.Some? && Held(s, s.tasks[t].entry.value, t)
  {
    assert Owns(s, t, s.tasks[t].entry.value);
  }

  /** The entry that the loop pops is never stale: it belongs to a ready task. */
  lemma FrontIsReady(n: nat, s: State) returns (t: TaskId)
    requires Inv(n, s) && s.queue != []
    ensures IsReady(s, t) && Held(s, s.queue[0], t) && Owns(s, t, s.queue[0]) && !Dangling(s, s.queue[0])
  {
    var e := s.queue[0];
    assert e in s.queue;
    t := s.entries[e].value;
    assert Held(s, e, t);
  }

  lemma ResumeCore(n: nat, s: State, t: TaskId)
    requires CoreOk(n, s) && s.phase.Idle? && s.queue != [] && IsReady(s, t) && Held(s, s.queue[0], t)
    ensures CoreOk(n, SetStatus(s, t, Running).(queue := s.queue[1..], phase := In(t, s.queue[0])))
  {
    var e := s.queue[0];
    var s' := SetStatus(s, t, Running).(queue := s.queue[1..], phase := In(t, e));
    assert Owns(s, t, e);
    forall y: TaskId
      ensures IsReady(s', y) <==> IsReady(s, y) && y != t
      ensures IsRunning(s', y) <==> y == t
    {
      assert !IsRunning(s, y);
    }
    forall x: nat, y: TaskId
      ensures Held(s', x, y) <==> Held(s, x, y)
      ensures Owns(s', y, x) <==> Owns(s, y, x)
      ensures Held(s, x, y) ==> (x == e <==> y == t)
    {
      assert Held(s, x, y) ==> Owns(s, y, x);
    }
    assert s.queue == [e] + s.queue[1..];
    assert forall x: EntryId :: x in s'.queue <==> x in s.queue && x != e;
  }

  /** The loop resumes the ready task whose entry is in front. */
  lemma ResumeInv(n: nat, s: State) returns (t: TaskId)
    requires Inv(n, s) && s.phase.Idle? && s.queue != []
    ensures Enabled(s, Resume) && Inv(n, Do(n, s, Resume))
    ensures IsReady(s, t) && Held(s, s.queue[0], t)
    ensures Do(n, s, Resume) == SetStatus(s, t, Running).(queue := s.queue[1..], phase := In(t, s.queue[0]))
  {
    t := FrontIsReady(n, s);
    var s' := SetStatus(s, t, Running).(queue := s.queue[1..], phase := In(t, s.queue[0]));
    assert Do(n, s, Resume) == s';
    ResumeCore(n, s, t);
    assert SameWaits(s, s');
    WaitsSame(s, s');
  }

  lemma DropInv(n: nat, s: State, t: TaskId)
    requires Inv(n, s) && Enabled(s, DropHandle(t))
    ensures Inv(n, Do(n, s, DropHandle(t)))
  {
    var s' := Do(n, s, DropHandle(t));
    var me := s.tasks[t];
    var mine := if me.status.Done? then me.(owned := false) else me.(owned := false, flagged := true);
    var s0 := s.(tasks := s.tasks[t := mine]);
    forall y: TaskId
      ensures IsReady(s0, y) <==> IsReady(s, y)
      ensures IsRunning(s0, y) <==> IsRunning(s, y)
    {
    }
    forall x: nat, y: TaskId
      ensures Owns(s0, y, x) <==> Owns(s, y, x)
    {
    }
    CoreSame(n, s, s0);
    assert LifeIs(me);
    if me.status.Done? {
      OwnerHolds(n, s, t);
      assert Held(s0, me.entry.value, t);
      ReleaseCore(n, s0, t, me.entry.value);
    }
    assert SameWaits(s, s');
    WaitsSame(s, s');
  }

  lemma WakeWaits(s: State, s': State, t: TaskId, f: FutureId)
    requires WaitsOk(s) && WakesWhenSet(s, f, t) && t < |s.tasks| && s.tasks[t].status == OnFuture(f)
    requires s'.tasks == s.tasks[t := s.tasks[t].(status := Ready)] && s'.clock == s.clock && s'.lost == s.lost
    requires s'.futures == s.futures[f := s.futures[f].(isSet := true)]
    ensures WaitsOk(s')
  {
    forall x: nat, y: TaskId
      ensures AwaitsTask(s', y, x) <==> AwaitsTask(s, y, x)
      ensures WakesAtEnd(s', x, y) <==> WakesAtEnd(s, x, y)
      ensures AwaitsFuture(s', y, x) <==> AwaitsFuture(s, y, x) && y != t
      ensures WakesWhenSet(s', x, y) <==> WakesWhenSet(s, x, y) && x != f
    {
    }
    forall x: nat, y: TaskId | AwaitsFuture(s, y, x) && y !in s.lost
      ensures x == f <==> y == t
    {
      assert WakesWhenSet(s, x, y);
    }
    assert AwaitsFuture(s, t, f) && t !in s.lost;
    forall y: TaskId, c: TaskId | AwaitsTask(s', y, c) && c < |s'.tasks|
      ensures s'.tasks[y].rank < s'.tasks[c].rank
    {
      assert AwaitsTask(s, y, c);
    }
  }

  /** The first value of a future wakes its waiter, and no other task. */
  lemma SetFutureInv(n: nat, s: State, f: FutureId)
    requires Inv(n, s) && Enabled(s, SetFuture(f))
    ensures Inv(n, Do(n, s, SetFuture(f)))
    ensures forall t: TaskId :: IsReady(Do(n, s, SetFuture(f)), t) <==> IsReady(s, t) || WakesWhenSet(s, f, t)
  {
    if !s.futures[f].isSet {
      var s' := Do(n, s, SetFuture(f));
      var s0 := s.(futures := s.futures[f := s.futures[f].(isSet := true)]);
      forall y: TaskId
        ensures IsRunning(s0, y) <==> IsRunning(s, y)
      {
      }
      CoreSame(n, s, s0);
      if s.futures[f].waiter.Some? {
        var t := s.futures[f].waiter.value;
        assert WakesWhenSet(s, f, t) && AwaitsFuture(s, t, f);
        OwnerHolds(n, s, t);
        assert Held(s0, s.tasks[t].entry.value, t);
        WakeCore(n, s0, t, s.tasks[t].entry.value);
        WakeWaits(s, s', t, f);
      } else {
        assert SameWaits(s, s');
        WaitsSame(s, s');
      }
    }
  }

  lemma StartWaits(s: State, t: TaskId)
    requires WaitsOk(s) && t < |s.tasks| && s.tasks[t].status.Fresh? && s.free != []
    ensures WaitsOk(Registered(s, t))
  {
    var s' := Registered(s, t);
    assert LifeIs(s.tasks[t]);
    assert SameWaits(s, s');
    forall y: TaskId, c: TaskId | AwaitsTask(s', y, c) && c < |s'.tasks|
      ensures s'.tasks[y].rank < s'.tasks[c].rank
    {
      assert AwaitsTask(s, y, c) && WakesAtEnd(s, c, y);
    }
  }

  lemma StartInv(n: nat, s: State, t: TaskId)
    requires Inv(n, s) && Respectful(s, StartTask(t))
    ensures Inv(n, Registered(s, t)) && Do(n, s, StartTask(t)) == Registered(s, t)
  {
    assert LifeIs(s.tasks[t]);
    RegisterCore(n, s, t);
    StartWaits(s, t);
  }

  /** The running task waits for a fresh one, which is to be registered. */
  function Suspended(s: State, c: TaskId): State
    requires s.phase.In? && s.phase.task < |s.tasks| && c < |s.tasks|
  {
    var s0 := SetStatus(s, s.phase.task, OnTask(c));
    s0.(tasks := s0.tasks[c := s0.tasks[c].(waiter := Some(s.phase.task))], phase := Idle)
  }

  lemma AwaitTaskCore(n: nat, s: State, c: TaskId)
    requires Inv(n, s) && Respectful(s, AwaitTask(c))
    ensures var s0 := Suspended(s, c);
            CoreOk(n, s0) && Do(n, s, AwaitTask(c)) == Registered(s0, c) && CoreOk(n, Registered(s0, c))
  {
    var s0 := Suspended(s, c);
    assert IsRunning(s, s.phase.task) && LifeIs(s.tasks[c]);
    forall y: TaskId
      ensures IsReady(s0, y) <==> IsReady(s, y)
      ensures !IsRunning(s0, y)
    {
      assert IsRunning(s, y) <==> Resumed(s, y);
    }
    forall x: nat, y: TaskId
      ensures Owns(s0, y, x) <==> Owns(s, y, x)
    {
    }
    CoreSame(n, s, s0);
    RegisterCore(n, s0, c);
  }

  lemma AwaitTaskLives(n: nat, s: State, c: TaskId)
    requires Inv(n, s) && Respectful(s, AwaitTask(c))
    ensures LifeOk(Registered(Suspended(s, c), c))
  {
    var s', me := Registered(Suspended(s, c), c), s.phase.task;
    assert IsRunning(s, me);
    forall t | 0 <= t < |s'.tasks| ensures LifeIs(s'.tasks[t]) {
      assert LifeIs(s.tasks[t]);
    }
  }

  lemma AwaitTaskWaits(n: nat, s: State, c: TaskId)
    requires Inv(n, s) && Respectful(s, AwaitTask(c))
    ensures WaitOk(Registered(Suspended(s, c), c))
  {
    var s', me := Registered(Suspended(s, c), c), s.phase.task;
    assert IsRunning(s, me) && LifeIs(s.tasks[c]);
    forall x: nat, y: TaskId
      ensures AwaitsTask(s', y, x) <==> AwaitsTask(s, y, x) || (y == me && x == c)
      ensures WakesAtEnd(s', x, y) <==> WakesAtEnd(s, x, y) || (y == me && x == c)
    {
    }
    forall x: nat, y: TaskId
      ensures AwaitsFuture(s', y, x) <==> AwaitsFuture(s, y, x)
      ensures WakesWhenSet(s', x, y) <==> WakesWhenSet(s, x, y)
    {
    }
  }

  lemma AwaitTaskRanks(n: nat, s: State, c: TaskId)
    requires Inv(n, s) && Respectful(s, AwaitTask(c))
    ensures RankOk(Registered(Suspended(s, c), c))
  {
    var s', me := Registered(Suspended(s, c), c), s.phase.task;
    assert IsRunning(s, me);
    forall t: TaskId, x: TaskId | AwaitsTask(s', t, x) && x < |s'.tasks|
      ensures s'.tasks[t].rank < s'.tasks[x].rank
    {
      assert t == me || AwaitsTask(s, t, x);
      assert AwaitsTask(s, t, x) ==> WakesAtEnd(s, x, t);
    }
  }

  lemma AwaitTaskRelates(n: nat, s: State, c: TaskId)
    requires Inv(n, s) && Respectful(s, AwaitTask(c))
    ensures var s' := Do(n, s, AwaitTask(c));
            AwaitsTask(s', s.phase.task, c) && WakesAtEnd(s', c, s.phase.task) && IsReady(s', c)
  {
    AwaitTaskCore(n, s, c);
  }

  lemma AwaitTaskInv(n: nat, s: State, c: TaskId)
    requires Inv(n, s) && Respectful(s, AwaitTask(c))
    ensures Inv(n, Do(n, s, AwaitTask(c)))
  {
    AwaitTaskCore(n, s, c);
    AwaitTaskLives(n, s, c);
    AwaitTaskWaits(n, s, c);
    AwaitTaskRanks(n, s, c);
  }

  lemma AwaitFutureCore(n: nat, s: State, f: FutureId)
    requires Inv(n, s) && Enabled(s, AwaitFuture(f))
    ensures CoreOk(n, Do(n, s, AwaitFuture(f)))
  {
    var s' := Do(n, s, AwaitFuture(f));
    assert IsRunning(s, s.phase.task);
    forall y: TaskId
      ensures IsReady(s', y) <==> IsReady(s, y)
      ensures !IsRunning(s', y)
    {
      assert IsRunning(s, y) <==> Resumed(s, y);
    }
    forall x: nat, y: TaskId
      ensures Owns(s', y, x) <==> Owns(s, y, x)
    {
    }
    CoreSame(n, s, s');
  }

  lemma AwaitFutureWaits(n: nat, s: State, f: FutureId)
    requires Inv(n, s) && Enabled(s, AwaitFuture(f))
    ensures WaitsOk(Do(n, s, AwaitFuture(f)))
  {
    var s', me, fut := Do(n, s, AwaitFuture(f)), s.phase.task, s.futures[f];
    assert IsRunning(s, me) && LifeIs(s.tasks[me]);
    forall x: nat, y: TaskId
      ensures AwaitsTask(s', y, x) <==> AwaitsTask(s, y, x)
      ensures WakesAtEnd(s', x, y) <==> WakesAtEnd(s, x, y)
      ensures AwaitsFuture(s', y, x) <==> AwaitsFuture(s, y, x) || (y == me && x == f)
      ensures WakesWhenSet(s', x, y) <==> if x == f then !fut.isSet && y == me else WakesWhenSet(s, x, y)
    {
    }
    if !fut.isSet && fut.waiter.Some? {
      assert WakesWhenSet(s, f, fut.waiter.value);
    }
    forall y: TaskId, c: TaskId | AwaitsTask(s', y, c) && c < |s'.tasks|
      ensures s'.tasks[y].rank < s'.tasks[c].rank
    {
      assert AwaitsTask(s, y, c);
    }
  }

  lemma EndExecuteInv(n: nat, s: State)
    requires Inv(n, s) && Enabled(s, EndExecute)
    ensures Inv(n, Do(n, s, EndExecute))
  {
    var s' := Do(n, s, EndExecute);
    forall t: TaskId
      ensures !IsRunning(s', t)
    {
      assert IsRunning(s, t) <==> Resumed(s, t);
    }
    CoreSame(n, s, s');
    assert SameWaits(s, s');
    WaitsSame(s, s');
  }

  // ---------------------------------------------------------------- the end of a task

  /** What the end of a task does: it is done, its waiter is ready with its entry at the back of the queue,
      and if its handle is gone its entry is free and its frame released. No other task changes. */
  ghost predicate Finished(s: State, me: TaskId, e: EntryId, s': State)
    requires me < |s.tasks|
  {
    var k := s.tasks[me];
    && |s'.tasks| == |s.tasks| && s'.futures == s.futures && s'.clock == s.clock && s'.lost == s.lost
    && s'.tasks[me] == k.(status := Done, releases := if k.flagged then k.releases + 1 else k.releases)
    && (forall t | 0 <= t < |s.tasks| && t != me ::
          s'.tasks[t] == if k.waiter == Some(t) then s.tasks[t].(status := Ready) else s.tasks[t])
    && s'.free == (if k.flagged then s.free + [e] else s.free)
    && s'.queue == (if k.waiter.Some? && EntryOf(s, k.waiter.value).Some?
                    then s.queue + [EntryOf(s, k.waiter.value).value] else s.queue)
  }

  lemma EndCore(n: nat, s: State)
    requires Inv(n, s) && Enabled(s, Finish)
    ensures IsRunning(s, s.phase.task) && Held(s, s.phase.entry, s.phase.task)
    ensures CoreOk(n, SetStatus(s, s.phase.task, Done).(phase := Idle))
  {
    var me := s.phase.task;
    assert IsRunning(s, me);
    var s0 := SetStatus(s, me, Done).(phase := Idle);
    forall y: TaskId
      ensures IsReady(s0, y) <==> IsReady(s, y)
      ensures !IsRunning(s0, y)
    {
      assert IsRunning(s, y) <==> Resumed(s, y);
    }
    forall x: nat, y: TaskId
      ensures Owns(s0, y, x) <==> Owns(s, y, x)
    {
    }
    CoreSame(n, s, s0);
  }

  lemma EndWakes(n: nat, s: State)
    requires Inv(n, s) && Enabled(s, Finish)
    ensures CoreOk(n, Woken(n, s)) && Held(Woken(n, s), s.phase.entry, s.phase.task)
    ensures s.phase.task < |Woken(n, s).tasks| && Woken(n, s).tasks[s.phase.task].status.Done?
  {
    var me := s.phase.task;
    EndCore(n, s);
    if s.tasks[me].waiter.Some? {
      var w := s.tasks[me].waiter.value;
      var s0 := SetStatus(s, me, Done).(phase := Idle);
      WaiterAwaits(n, s, me, w);
      assert Held(s0, s.tasks[w].entry.value, w);
      WakeCore(n, s0, w, s.tasks[w].entry.value);
    }
  }

  /** The end of a task up to the wake-up of its waiter. */
  function Woken(n: nat, s: State): State
    requires s.phase.In? && s.phase.task < |s.tasks|
  {
    var done := SetStatus(s, s.phase.task, Done).(phase := Idle);
    match s.tasks[s.phase.task].waiter
    case None => done
    case Some(w) => Wake(n, done, w)
  }

  lemma WokenKeepsFlag(n: nat, s: State)
    requires s.phase.In? && s.phase.task < |s.tasks|
    ensures |Woken(n, s).tasks| == |s.tasks|
    ensures Woken(n, s).tasks[s.phase.task].flagged == s.tasks[s.phase.task].flagged
  {
  }

  lemma FinishCore(n: nat, s: State)
    requires Inv(n, s) && Enabled(s, Finish)
    ensures CoreOk(n, Do(n, s, Finish))
  {
    EndWakes(n, s);
    if s.tasks[s.phase.task].flagged {
      ReleaseCore(n, Woken(n, s), s.phase.task, s.phase.entry);
    }
  }

  lemma FinishesAs(n: nat, s: State, me: TaskId, e: EntryId)
    requires me < |s.tasks|
    requires forall w | s.tasks[me].waiter == Some(w) ::
               w < |s.tasks| && w != me && s.tasks[w].entry.Some? && !s.tasks[w].status.Done? && |s.queue| < n
    ensures Finished(s, me, e, FinishTask(n, s, me, e))
  {
  }

  lemma FinishFinishes(n: nat, s: State)
    requires Inv(n, s) && Enabled(s, Finish)
    ensures Finished(s, s.phase.task, s.phase.entry, Do(n, s, Finish))
  {
    var me := s.phase.task;
    assert IsRunning(s, me);
    if s.tasks[me].waiter.Some? {
      var w := s.tasks[me].waiter.value;
      WaiterAwaits(n, s, me, w);
      RoomFor(s.queue, s.tasks[w].entry.value, n);
    }
    FinishesAs(n, s, me, s.phase.entry);
  }

  lemma WaiterAwaits(n: nat, s: State, me: TaskId, w: TaskId)
    requires Inv(n, s) && IsRunning(s, me) && s.tasks[me].waiter == Some(w)
    ensures AwaitsTask(s, w, me) && w != me && s.tasks[w].entry.Some? && Held(s, s.tasks[w].entry.value, w)
  {
    assert WakesAtEnd(s, me, w) && AwaitsTask(s, w, me) && LifeIs(s.tasks[w]);
    OwnerHolds(n, s, w);
  }

  lemma FinishLives(n: nat, s: State, me: TaskId, e: EntryId, s': State)
    requires Inv(n, s) && IsRunning(s, me) && Finished(s, me, e, s')
    ensures LifeOk(s')
  {
    if s.tasks[me].waiter.Some? {
      WaiterAwaits(n, s, me, s.tasks[me].waiter.value);
    }
    forall t | 0 <= t < |s'.tasks| ensures LifeIs(s'.tasks[t]) {
      assert LifeIs(s.tasks[t]);
    }
  }

  lemma FinishWaits(n: nat, s: State, me: TaskId, e: EntryId, s': State)
    requires Inv(n, s) && IsRunning(s, me) && Finished(s, me, e, s')
    ensures WaitOk(s')
  {
    var waiter := s.tasks[me].waiter;
    if waiter.Some? {
      WaiterAwaits(n, s, me, waiter.value);
    }
    forall x: nat, y: TaskId
      ensures AwaitsTask(s', y, x) <==> AwaitsTask(s, y, x) && Some(y) != waiter
      ensures WakesAtEnd(s', x, y) <==> WakesAtEnd(s, x, y) && x != me
      ensures AwaitsTask(s, y, x) ==> (x == me <==> Some(y) == waiter)
    {
      assert AwaitsTask(s, y, x) ==> WakesAtEnd(s, x, y);
    }
    forall x: nat, y: TaskId
      ensures AwaitsFuture(s', y, x) <==> AwaitsFuture(s, y, x)
      ensures WakesWhenSet(s', x, y) <==> WakesWhenSet(s, x, y)
    {
    }
  }

  lemma FinishRanks(n: nat, s: State, me: TaskId, e: EntryId, s': State)
    requires Inv(n, s) && IsRunning(s, me) && Finished(s, me, e, s')
    ensures RankOk(s')
  {
    if s.tasks[me].waiter.Some? {
      WaiterAwaits(n, s, me, s.tasks[me].waiter.value);
    }
    forall y: TaskId, c: TaskId | AwaitsTask(s', y, c) && c < |s'.tasks|
      ensures s'.tasks[y].rank < s'.tasks[c].rank
    {
      assert AwaitsTask(s, y, c);
    }
  }

  /** A finished task has woken its waiter and, if its handle is gone, given back its entry. */
  lemma FinishInv(n: nat, s: State)
    requires Inv(n, s) && Enabled(s, Finish)
    ensures Inv(n, Do(n, s, Finish)) && Finished(s, s.phase.task, s.phase.entry, Do(n, s, Finish))
    ensures var waiter := s.tasks[s.phase.task].waiter;
            waiter.Some? ==> IsReady(Do(n, s, Finish), waiter.value)
  {
    assert IsRunning(s, s.phase.task);
    FinishCore(n, s);
    FinishFinishes(n, s);
    FinishLives(n, s, s.phase.task, s.phase.entry, Do(n, s, Finish));
    FinishWaits(n, s, s.phase.task, s.phase.entry, Do(n, s, Finish));
    FinishRanks(n, s, s.phase.task, s.phase.entry, Do(n, s, Finish));
    if s.tasks[s.phase.task].waiter.Some? {
      WaiterAwaits(n, s, s.phase.task, s.tasks[s.phase.task].waiter.value);
    }
  }

  // ---------------------------------------------------------------- every run

  lemma StepInv(n: nat, s: State, a: Action)
    requires Inv(n, s) && Respectful(s, a)
    ensures Inv(n, Do(n, s, a))
  {
    match a
    case CreateTask => CreateInv(n, s, a);
    case CreateFuture => CreateInv(n, s, a);
    case StartTask(t) => StartInv(n, s, t);
    case DropHandle(t) => DropInv(n, s, t);
    case SetFuture(f) => SetFutureInv(n, s, f);
    case Resume => var t := ResumeInv(n, s);
    case AwaitTask(t) => AwaitTaskInv(n, s, t);
    case AwaitFuture(f) =>
      AwaitFutureCore(n, s, f);
      AwaitFutureWaits(n, s, f);
    case EndExecute => EndExecuteInv(n, s);
    case Finish => FinishInv(n, s);
  }

  lemma {:induction false} RunInv(n: nat, s: State, acts: seq<Action>, s': State)
    requires Inv(n, s) && RespectfulSteps(n, s, acts, s')
    ensures Inv(n, s')
    decreases |acts|
  {
    if acts != [] {
      StepInv(n, s, acts[0]);
      RunInv(n, Do(n, s, acts[0]), acts[1..], s');
    }
  }
}
