/** What the event base promises a respectful program: who is woken and who is not, room in the ready
    queue for every push, and one release for each finished task whose handle is gone. */
module EventLoopTheorems {
  import opened Common
  import opened EventLoop
  import opened EventLoopSafety

  // ---------------------------------------------------------------- lost wake-ups

  /** Each task of the chain awaits the next one, in rising rank, and the last one awaits a future. */
  ghost predicate WaitChain(s: State, chain: seq<TaskId>, f: FutureId) {
    && chain != []
    && (forall i | 0 <= i < |chain| :: chain[i] < |s.tasks|)
    && (forall i | 0 <= i < |chain| - 1 :: AwaitsTask(s, chain[i], chain[i + 1]))
    && (forall i, j | 0 <= i < j < |chain| :: s.tasks[chain[i]].rank < s.tasks[chain[j]].rank)
    && AwaitsFuture(s, chain[|chain| - 1], f)
  }

  /** The future at the end is not set, and setting it will wake the last task. */
  ghost predicate WillWake(s: State, chain: seq<TaskId>, f: FutureId) {
    chain != [] && WakesWhenSet(s, f, chain[|chain| - 1])
  }

  lemma {:induction false} ChainFrom(n: nat, s: State, t: TaskId) returns (chain: seq<TaskId>, f: FutureId)
    requires Inv(n, s) && s.phase.Idle? && s.queue == [] && t < |s.tasks| && Started(s.tasks[t])
    ensures WaitChain(s, chain, f) && chain[0] == t
    ensures WillWake(s, chain, f) <==> chain[|chain| - 1] !in s.lost
    decreases s.clock - s.tasks[t].rank
  {
    NobodyIsReady(n, s, t);
    match s.tasks[t].status
    case OnFuture(g) =>
      chain, f := [t], g;
      assert AwaitsFuture(s, t, g);
    case OnTask(c) =>
      assert AwaitsTask(s, t, c) && WakesAtEnd(s, c, t);
      chain, f := ChainFrom(n, s, c);
      ChainGrows(s, t, c, chain, f);
      chain := [t] + chain;
  }

  lemma NobodyIsReady(n: nat, s: State, t: TaskId)
    requires Inv(n, s) && s.phase.Idle? && s.queue == [] && t < |s.tasks| && Started(s.tasks[t])
    ensures s.tasks[t].status.OnTask? || s.tasks[t].status.OnFuture?
  {
    assert !IsRunning(s, t);
    OwnerHolds(n, s, t);
    assert !IsReady(s, t);
  }

  lemma ChainGrows(s: State, t: TaskId, c: TaskId, chain: seq<TaskId>, f: FutureId)
    requires WaitChain(s, chain, f) && chain[0] == c && AwaitsTask(s, t, c) && s.tasks[t].rank < s.tasks[c].rank
    ensures WaitChain(s, [t] + chain, f) && ([t] + chain)[|chain|] == chain[|chain| - 1]
  {
    var longer := [t] + chain;
    forall i | 0 <= i < |longer| - 1 ensures AwaitsTask(s, longer[i], longer[i + 1]) {
      assert i > 0 ==> longer[i] == chain[i - 1] && longer[i + 1] == chain[i];
    }
    forall i, j | 0 <= i < j < |longer| ensures s.tasks[longer[i]].rank < s.tasks[longer[j]].rank {
      assert longer[j] == chain[j - 1];
      assert s.tasks[c].rank <= s.tasks[chain[j - 1]].rank;
    }
  }

  /** When the event base has nothing left to do, every task that was started and has not finished waits,
      through other waiting tasks and never in a circle, for a future that is not set and will wake it, or
      else for one that will not wake a task recorded as lost. */
  lemma WakesExactly(n: nat, acts: seq<Action>, s: State, t: TaskId)
    requires RespectfulSteps(n, Init(n), acts, s)
    requires s.phase.Idle? && s.queue == [] && t < |s.tasks| && Started(s.tasks[t])
    ensures exists chain, f :: WaitChain(s, chain, f) && chain[0] == t
                            && (WillWake(s, chain, f) <==> chain[|chain| - 1] !in s.lost)
  {
    InitInv(n);
    RunInv(n, Init(n), acts, s);
    var chain, f := ChainFrom(n, s, t);
  }

  /** A careful program loses no wake-up. */
  lemma NoLostWakeUp(n: nat, acts: seq<Action>, s: State, t: TaskId)
    requires CarefulSteps(n, Init(n), acts, s)
    requires s.phase.Idle? && s.queue == [] && t < |s.tasks| && Started(s.tasks[t])
    ensures exists chain, f :: WaitChain(s, chain, f) && chain[0] == t && WillWake(s, chain, f)
  {
    InitInv(n);
    RunLoses(n, Init(n), acts, s);
    WakesExactly(n, acts, s, t);
  }

  /** A step loses a task exactly when it is not careful. */
  lemma StepLoses(n: nat, s: State, a: Action)
    requires Inv(n, s) && Respectful(s, a)
    ensures s.lost <= Do(n, s, a).lost && (Do(n, s, a).lost == s.lost <==> Careful(s, a))
  {
    if a.AwaitFuture? {
      var me, fut := s.phase.task, s.futures[a.f];
      assert IsRunning(s, me);
      if !fut.isSet && fut.waiter.Some? {
        assert WakesWhenSet(s, a.f, fut.waiter.value);
      }
    } else if a.StartTask? {
      StartInv(n, s, a.t);
    } else if a.AwaitTask? {
      AwaitTaskCore(n, s, a.t);
    }
  }

  lemma {:induction false} RunLoses(n: nat, s: State, acts: seq<Action>, s': State)
    requires Inv(n, s)
    ensures RespectfulSteps(n, s, acts, s') ==>
              s.lost <= s'.lost && (CarefulSteps(n, s, acts, s') <==> s'.lost == s.lost)
    ensures CarefulSteps(n, s, acts, s') ==> RespectfulSteps(n, s, acts, s')
    decreases |acts|
  {
    if acts != [] && Respectful(s, acts[0]) {
      StepInv(n, s, acts[0]);
      StepLoses(n, s, acts[0]);
      RunLoses(n, Do(n, s, acts[0]), acts[1..], s');
    }
  }

  /** Over a respectful run no wake-up is lost exactly when it was careful. */
  lemma LosesExactly(n: nat, acts: seq<Action>, s: State)
    requires RespectfulSteps(n, Init(n), acts, s)
    ensures s.lost == {} <==> CarefulSteps(n, Init(n), acts, s)
  {
    InitInv(n);
    RunLoses(n, Init(n), acts, s);
  }

  /** Setting a future wakes the task that awaits it exactly if that is not lost. */
  lemma SetWakesExactly(n: nat, acts: seq<Action>, s: State, f: FutureId, t: TaskId)
    requires RespectfulSteps(n, Init(n), acts, s) && f < |s.futures| && AwaitsFuture(s, t, f)
    ensures IsReady(Do(n, s, SetFuture(f)), t) <==> t !in s.lost
  {
    InitInv(n);
    RunInv(n, Init(n), acts, s);
    SetFutureInv(n, s, f);
  }

  // ---------------------------------------------------------------- lost tasks

  /** A lost task is never resumed in any respectful continuation, whatever futures are set in it. */
  lemma LostForEver(n: nat, s: State, acts: seq<Action>, s': State, t: TaskId)
    requires Inv(n, s) && RespectfulSteps(n, s, acts, s') && t in s.lost
    ensures t in s'.lost && t < |s'.tasks| && s'.tasks[t].status.OnFuture? && !Resumed(s', t)
  {
    RunLoses(n, s, acts, s');
    RunInv(n, s, acts, s');
    assert IsRunning(s', t) <==> Resumed(s', t);
  }

  /** Awaiting a future whose value is set loses the task that awaits it; awaiting one that another task
      awaits loses that other task. Neither is ever resumed again. */
  lemma AwaitLoses(n: nat, s: State, f: FutureId, acts: seq<Action>, s': State, t: TaskId)
    requires Inv(n, s) && Enabled(s, AwaitFuture(f)) && t in LostBy(s.futures[f], s.phase.task)
    requires RespectfulSteps(n, Do(n, s, AwaitFuture(f)), acts, s')
    ensures t < |s'.tasks| && s'.tasks[t].status.OnFuture? && !Resumed(s', t)
  {
    StepInv(n, s, AwaitFuture(f));
    LostForEver(n, Do(n, s, AwaitFuture(f)), acts, s', t);
  }

  // ---------------------------------------------------------------- queue and pool

  /** The ready queue holds no entry twice and only entries of ready tasks, it never holds more than the
      pool has, and no push was ever refused. */
  lemma QueueHasRoom(n: nat, acts: seq<Action>, s: State)
    requires RespectfulSteps(n, Init(n), acts, s)
    ensures Distinct(s.queue) && |s.queue| <= n && !s.refused
    ensures forall e | e in s.queue :: exists t: TaskId :: Held(s, e, t) && IsReady(s, t)
    ensures forall t: TaskId | IsReady(s, t) :: s.tasks[t].entry.Some? && s.tasks[t].entry.value in s.queue
  {
    InitInv(n);
    RunInv(n, Init(n), acts, s);
    QueueFits(n, s);
    forall e | e in s.queue
      ensures exists t: TaskId :: Held(s, e, t) && IsReady(s, t)
    {
      assert Held(s, e, s.entries[e].value) && Owns(s, s.entries[e].value, e);
    }
    forall t: TaskId | IsReady(s, t)
      ensures s.tasks[t].entry.Some? && s.tasks[t].entry.value in s.queue
    {
      OwnerHolds(n, s, t);
    }
  }

  lemma HeldIsUnreleased(n: nat, s: State, e: EntryId)
    requires Inv(n, s) && e < n && s.entries[e].Some?
    ensures s.entries[e].value < |s.tasks|
    ensures var k := s.tasks[s.entries[e].value]; !k.status.Fresh? && !(k.status.Done? && !k.owned)
  {
    var t := s.entries[e].value;
    assert Held(s, e, t) && Owns(s, t, e);
    assert LifeIs(s.tasks[t]);
  }

  /** A task is released once it has finished and its handle is gone, whichever comes first, and never
      twice; so when every started task has come that far, the whole pool is free again. */
  lemma ReleasedExactlyOnce(n: nat, acts: seq<Action>, s: State)
    requires RespectfulSteps(n, Init(n), acts, s)
    ensures forall t | 0 <= t < |s.tasks| ::
              s.tasks[t].releases == if s.tasks[t].status.Done? && !s.tasks[t].owned then 1 else 0
    ensures (forall t | 0 <= t < |s.tasks| && !s.tasks[t].status.Fresh? :: s.tasks[t].status.Done? && !s.tasks[t].owned)
            ==> forall e: EntryId | e < n :: e in s.free
  {
    InitInv(n);
    RunInv(n, Init(n), acts, s);
    forall t | 0 <= t < |s.tasks|
      ensures s.tasks[t].releases == if s.tasks[t].status.Done? && !s.tasks[t].owned then 1 else 0
    {
      assert LifeIs(s.tasks[t]);
    }
    if forall t | 0 <= t < |s.tasks| && !s.tasks[t].status.Fresh? :: s.tasks[t].status.Done? && !s.tasks[t].owned {
      forall e: EntryId | e < n
        ensures e in s.free
      {
        if s.entries[e].Some? {
          HeldIsUnreleased(n, s, e);
        }
      }
    }
  }

  // ---------------------------------------------------------------- the condition is exact

  /** From a good state, a step keeps the state good exactly when it is respectful. */
  lemma RespectExactly(n: nat, s: State, a: Action)
    requires Inv(n, s) && Enabled(s, a)
    ensures Inv(n, Do(n, s, a)) <==> Respectful(s, a)
  {
    if Respectful(s, a) {
      StepInv(n, s, a);
    } else {
      RegisteredTwice(n, s, a);
    }
  }

  /** Starting or awaiting a task that was started, and not released, gives it a second entry. */
  lemma RegisteredTwice(n: nat, s: State, a: Action)
    requires Inv(n, s) && Enabled(s, a) && (a.StartTask? || a.AwaitTask?) && !s.tasks[a.t].status.Fresh?
    ensures var e := s.tasks[a.t].entry.value; var s' := Do(n, s, a);
            && Held(s', e, a.t) && s'.tasks[a.t].entry != Some(e) && !Inv(n, s')
  {
    OwnerHolds(n, s, a.t);
    var e, taken, s' := s.tasks[a.t].entry.value, s.free[0], Do(n, s, a);
    assert taken in s.free && e != taken;
    assert s'.entries == s.entries[taken := Some(a.t)] && s'.tasks[a.t].entry == Some(taken);
    assert Held(s, e, a.t) && Held(s', e, a.t) && !Owns(s', a.t, e);
  }
}
