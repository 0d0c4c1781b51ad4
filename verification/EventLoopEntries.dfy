/** Entries of the task pool over every run, respectful or not: each registration takes one entry, each task
    gives back at most one, and the rest of its entries are never free again. */
module EventLoopEntries {
  import opened Common
  import opened EventLoop
  import opened EventLoopSafety

  function HeldCount(entries: seq<Option<TaskId>>, t: TaskId): nat {
    if entries == [] then 0 else (if entries[0] == Some(t) then 1 else 0) + HeldCount(entries[1..], t)
  }

  lemma {:induction false} HeldUpdate(entries: seq<Option<TaskId>>, e: EntryId, x: Option<TaskId>, t: TaskId)
    requires e < |entries|
    ensures HeldCount(entries[e := x], t)
         == HeldCount(entries, t) - (if entries[e] == Some(t) then 1 else 0) + (if x == Some(t) then 1 else 0)
  {
    if e == 0 {
      assert entries[e := x][1..] == entries[1..];
    } else {
      assert entries[e := x][1..] == entries[1..][e - 1 := x];
      HeldUpdate(entries[1..], e - 1, x, t);
    }
  }

  lemma {:induction false} HeldSomewhere(entries: seq<Option<TaskId>>, t: TaskId)
    ensures HeldCount(entries, t) > 0 <==> Some(t) in entries
  {
    if entries != [] {
      HeldSomewhere(entries[1..], t);
    }
  }

  // ---------------------------------------------------------------- what every step keeps

  /** The free entries are the ones that point to no task. */
  ghost predicate FreeOk(n: nat, s: State) {
    && |s.entries| == n && Distinct(s.free)
    && (forall e: EntryId :: e in s.free <==> e < n && s.entries[e].None?)
    && (forall e: EntryId {:trigger s.entries[e]} | e < n && s.entries[e].Some? :: s.entries[e].value < |s.tasks|)
  }

  /** A task is registered when it leaves Fresh, and gives back an entry when it is done and its handle is
      gone. */
  predicate LivesAs(k: Task) {
    && (k.status.Fresh? <==> k.registrations == 0)
    && (k.entry.None? <==> k.registrations == 0)
    && k.releases == (if k.status.Done? && !k.owned then 1 else 0)
    && (!k.status.Done? ==> (k.flagged <==> !k.owned))
    && (k.status.Done? && k.owned ==> !k.flagged)
  }

  /** Entries held are registrations less releases, and the latest entry is held until the release. */
  ghost predicate Balanced(s: State, t: TaskId)
    requires t < |s.tasks|
  {
    var k := s.tasks[t];
    && LivesAs(k)
    && HeldCount(s.entries, t) == k.registrations - k.releases
    && (k.entry.Some? && k.releases == 0 ==> Held(s, k.entry.value, t))
  }

  ghost predicate EntriesOk(n: nat, s: State) {
    FreeOk(n, s) && AllBalanced(s) && ResumedOk(s)
  }

  ghost predicate AllBalanced(s: State) {
    forall t | 0 <= t < |s.tasks| :: Balanced(s, t)
  }

  ghost predicate ResumedOk(s: State) {
    s.phase.In? ==>
      && Held(s, s.phase.entry, s.phase.task) && s.phase.task < |s.tasks| && !s.tasks[s.phase.task].status.Done?
  }

  lemma InitEntries(n: nat)
    ensures EntriesOk(n, Init(n))
  {
    forall e: EntryId ensures e in Init(n).free <==> e < n {
      assert e < n ==> Init(n).free[e] == e;
    }
  }

  /** Nothing changed but what no task's entries depend on. */
  ghost predicate SameLives(s: State, s': State) {
    && s'.entries == s.entries && s'.free == s.free && |s'.tasks| == |s.tasks|
    && forall t | 0 <= t < |s.tasks| ::
         var k, k' := s.tasks[t], s'.tasks[t];
         && k' == k.(status := k'.status, waiter := k'.waiter)
         && (k'.status.Fresh? <==> k.status.Fresh?) && (k'.status.Done? <==> k.status.Done?)
  }

  lemma SameLivesOk(n: nat, s: State, s': State)
    requires FreeOk(n, s) && AllBalanced(s) && SameLives(s, s')
    ensures FreeOk(n, s') && AllBalanced(s')
  {
    forall t | 0 <= t < |s'.tasks| ensures Balanced(s', t) {
      assert Balanced(s, t);
    }
  }

  lemma HoldersStarted(n: nat, s: State, e: EntryId, t: TaskId)
    requires AllBalanced(s) && Held(s, e, t) && t < |s.tasks|
    ensures s.tasks[t].registrations > 0 && !s.tasks[t].status.Fresh?
  {
    assert s.entries[e] == Some(t);
    HeldSomewhere(s.entries, t);
    assert Balanced(s, t);
  }

  lemma WakeIsSame(n: nat, s: State, t: TaskId)
    requires t < |s.tasks| ==> LivesAs(s.tasks[t])
    ensures SameLives(s, Wake(n, s, t)) && Wake(n, s, t).phase == s.phase
  {
  }

  /** A task after taking the first free entry, before it is woken. */
  function Taken(s: State, t: TaskId): State
    requires t < |s.tasks| && s.free != []
  {
    var e, k := s.free[0], s.tasks[t];
    s.(free := s.free[1..], entries := if e < |s.entries| then s.entries[e := Some(t)] else s.entries,
       tasks := s.tasks[t := k.(entry := Some(e), rank := s.clock, registrations := k.registrations + 1,
                                status := if k.status.Fresh? then Ready else k.status)],
       clock := s.clock + 1)
  }

  lemma TakenIsFree(n: nat, s: State, t: TaskId)
    requires FreeOk(n, s) && t < |s.tasks| && s.free != []
    ensures s.free[0] < n && s.entries[s.free[0]] == None && FreeOk(n, Taken(s, t))
  {
    var e, s' := s.free[0], Taken(s, t);
    assert e in s.free && s.free == [e] + s.free[1..];
    assert forall x: EntryId :: x in s'.free <==> x in s.free && x != e;
  }

  lemma TakenIsBalanced(n: nat, s: State, t: TaskId)
    requires FreeOk(n, s) && AllBalanced(s) && t < |s.tasks| && s.free != [] && s.tasks[t].owned
    ensures AllBalanced(Taken(s, t))
  {
    TakenIsFree(n, s, t);
    forall u | 0 <= u < |s.tasks| ensures Balanced(Taken(s, t), u) {
      assert Balanced(s, u);
      HeldUpdate(s.entries, s.free[0], Some(t), u);
    }
  }

  lemma RegisterEntries(n: nat, s: State, t: TaskId)
    requires EntriesOk(n, s) && t < |s.tasks| && s.free != [] && s.tasks[t].owned
    ensures EntriesOk(n, Register(n, s, t)) && Register(n, s, t) == Wake(n, Taken(s, t), t)
  {
    var s0 := Taken(s, t);
    TakenIsFree(n, s, t);
    TakenIsBalanced(n, s, t);
    assert Balanced(s0, t);
    WakeIsSame(n, s0, t);
    SameLivesOk(n, s0, Wake(n, s0, t));
  }

  lemma ReleaseEntries(n: nat, s: State, s0: State, t: TaskId, e: EntryId)
    requires FreeOk(n, s) && AllBalanced(s) && Held(s, e, t) && t < |s.tasks| && s.tasks[t].releases == 0
    requires s0.entries == s.entries && s0.free == s.free && |s0.tasks| == |s.tasks|
    requires var k := s0.tasks[t]; k.status.Done? && !k.owned
    requires s0.tasks[t] == s.tasks[t].(status := Done, owned := false, flagged := s0.tasks[t].flagged)
    requires forall u | 0 <= u < |s.tasks| && u != t ::
               s0.tasks[u] == s.tasks[u].(status := s0.tasks[u].status) && LivesAs(s0.tasks[u])
    ensures FreeOk(n, Release(s0, t, e)) && AllBalanced(Release(s0, t, e))
  {
    var s' := Release(s0, t, e);
    HoldersStarted(n, s, e, t);
    assert forall x: EntryId :: x in s'.free <==> x in s.free || x == e;
    forall u | 0 <= u < |s.tasks| ensures Balanced(s', u) {
      assert Balanced(s, u);
      HeldUpdate(s.entries, e, None, u);
    }
  }

  lemma CreateEntries(n: nat, s: State)
    requires EntriesOk(n, s)
    ensures EntriesOk(n, Do(n, s, CreateTask))
  {
    var s', t := Do(n, s, CreateTask), |s.tasks|;
    HeldSomewhere(s.entries, t);
    forall u | 0 <= u < |s'.tasks| ensures Balanced(s', u) {
      assert u < t ==> Balanced(s, u);
    }
  }

  lemma DropEntries(n: nat, s: State, t: TaskId)
    requires EntriesOk(n, s) && Enabled(s, DropHandle(t))
    ensures EntriesOk(n, Do(n, s, DropHandle(t)))
  {
    var s' := Do(n, s, DropHandle(t));
    assert Balanced(s, t);
    if s.tasks[t].status.Done? {
      forall u | 0 <= u < |s.tasks| ensures LivesAs(s.tasks[u]) {
        assert Balanced(s, u);
      }
      ReleaseEntries(n, s, s.(tasks := s.tasks[t := s.tasks[t].(owned := false)]), t, s.tasks[t].entry.value);
    } else {
      forall u | 0 <= u < |s'.tasks| ensures Balanced(s', u) {
        assert Balanced(s, u);
      }
    }
  }

  lemma SuspendEntries(n: nat, s: State, status: Status)
    requires EntriesOk(n, s) && s.phase.In? && !status.Fresh? && !status.Done?
    ensures SameLives(s, SetStatus(s, s.phase.task, status))
  {
    HoldersStarted(n, s, s.phase.entry, s.phase.task);
  }

  /** The task has ended, and perhaps another was made ready; nothing else changed. */
  ghost predicate Ended(s: State, me: TaskId, s': State)
    requires me < |s.tasks|
  {
    && s'.entries == s.entries && s'.free == s.free && |s'.tasks| == |s.tasks| && s'.phase == Idle
    && s'.tasks[me] == s.tasks[me].(status := Done)
    && forall u | 0 <= u < |s.tasks| && u != me ::
         s'.tasks[u] == s.tasks[u].(status := s'.tasks[u].status) && LivesAs(s'.tasks[u])
  }

  lemma WokenEnds(n: nat, s: State)
    requires EntriesOk(n, s) && s.phase.In?
    ensures Ended(s, s.phase.task, Woken(n, s))
  {
    forall u | 0 <= u < |s.tasks| ensures LivesAs(s.tasks[u]) {
      assert Balanced(s, u);
    }
  }

  lemma FinishEntries(n: nat, s: State)
    requires EntriesOk(n, s) && Enabled(s, Finish)
    ensures EntriesOk(n, Do(n, s, Finish))
  {
    var me, e := s.phase.task, s.phase.entry;
    var s0 := Woken(n, s);
    HoldersStarted(n, s, e, me);
    WokenEnds(n, s);
    assert Balanced(s, me);
    if s.tasks[me].flagged {
      ReleaseEntries(n, s, s0, me, e);
    } else {
      forall u | 0 <= u < |s0.tasks| ensures Balanced(s0, u) {
        assert Balanced(s, u);
      }
    }
  }

  lemma ResumeEntries(n: nat, s: State)
    requires EntriesOk(n, s) && Enabled(s, Resume)
    ensures EntriesOk(n, Do(n, s, Resume))
  {
    var t := TaskAt(s, s.queue[0]);
    if t.Some? {
      HoldersStarted(n, s, s.queue[0], t.value);
    }
    SameLivesOk(n, s, Do(n, s, Resume));
  }

  lemma StepEntries(n: nat, s: State, a: Action)
    requires EntriesOk(n, s) && Enabled(s, a)
    ensures EntriesOk(n, Do(n, s, a))
  {
    var s' := Do(n, s, a);
    match a
    case CreateTask => CreateEntries(n, s);
    case CreateFuture => SameLivesOk(n, s, s');
    case StartTask(t) => RegisterEntries(n, s, t);
    case DropHandle(t) => DropEntries(n, s, t);
    case SetFuture(f) => SetEntries(n, s, f);
    case Resume => ResumeEntries(n, s);
    case AwaitTask(t) => AwaitEntries(n, s, t);
    case AwaitFuture(f) =>
      SuspendEntries(n, s, OnFuture(f));
      SameLivesOk(n, s, s');
    case EndExecute => SameLivesOk(n, s, s');
    case Finish => FinishEntries(n, s);
  }

  lemma SetEntries(n: nat, s: State, f: FutureId)
    requires EntriesOk(n, s) && Enabled(s, SetFuture(f))
    ensures EntriesOk(n, Do(n, s, SetFuture(f)))
  {
    if !s.futures[f].isSet && s.futures[f].waiter.Some? {
      var s0, t := s.(futures := s.futures[f := s.futures[f].(isSet := true)]), s.futures[f].waiter.value;
      assert t < |s.tasks| ==> Balanced(s, t);
      WakeIsSame(n, s0, t);
    }
    SameLivesOk(n, s, Do(n, s, SetFuture(f)));
  }

  lemma AwaitEntries(n: nat, s: State, t: TaskId)
    requires EntriesOk(n, s) && Enabled(s, AwaitTask(t))
    ensures EntriesOk(n, Do(n, s, AwaitTask(t)))
  {
    SuspendEntries(n, s, OnTask(t));
    SameLivesOk(n, s, Suspended(s, t));
    RegisterEntries(n, Suspended(s, t), t);
  }

  lemma {:induction false} RunEntries(n: nat, s: State, acts: seq<Action>, s': State)
    requires EntriesOk(n, s) && Steps(n, s, acts, s')
    ensures EntriesOk(n, s')
    decreases |acts|
  {
    if acts != [] {
      StepEntries(n, s, acts[0]);
      RunEntries(n, Do(n, s, acts[0]), acts[1..], s');
    }
  }

  /** Over every run: a task holds one entry for each registration, less the one that it gives back when it
      is done and its handle is gone. */
  lemma EntriesBalance(n: nat, acts: seq<Action>, s: State, t: TaskId)
    requires Steps(n, Init(n), acts, s) && t < |s.tasks|
    ensures HeldCount(s.entries, t)
         == s.tasks[t].registrations - if s.tasks[t].status.Done? && !s.tasks[t].owned then 1 else 0
  {
    InitEntries(n);
    RunEntries(n, Init(n), acts, s);
    assert Balanced(s, t);
  }

  // ---------------------------------------------------------------- which entry comes back

  /** A task that ends flagged gives back the entry that resumed it, one that ended before gives back its
      latest entry when the handle is dropped. */
  function ReleasedBy(s: State, a: Action): Option<(TaskId, EntryId)>
    requires Enabled(s, a)
  {
    match a
    case Finish => if s.tasks[s.phase.task].flagged then Some((s.phase.task, s.phase.entry)) else None
    case DropHandle(t) =>
      if s.tasks[t].status.Done? && s.tasks[t].entry.Some? then Some((t, s.tasks[t].entry.value)) else None
    case _ => None
  }

  predicate IsRegistration(a: Action) {
    a.StartTask? || a.AwaitTask?
  }

  /** The entries are these, and no task but one has another release on record. */
  ghost predicate Moves(s: State, s': State, entries: seq<Option<TaskId>>, released: Option<TaskId>) {
    && s'.entries == entries && |s.tasks| <= |s'.tasks|
    && forall t | 0 <= t < |s.tasks| ::
         s'.tasks[t].releases == s.tasks[t].releases + if released == Some(t) then 1 else 0
  }

  /** The entries after a step: one more is held after a registration, one less after a release. */
  function EntriesAfter(s: State, a: Action): seq<Option<TaskId>>
    requires Enabled(s, a)
  {
    if IsRegistration(a) && s.free[0] < |s.entries| then s.entries[s.free[0] := Some(a.t)]
    else
      match ReleasedBy(s, a)
      case Some((t, e)) => if e < |s.entries| then s.entries[e := None] else s.entries
      case None => s.entries
  }

  function Releaser(s: State, a: Action): Option<TaskId>
    requires Enabled(s, a)
  {
    match ReleasedBy(s, a)
    case Some((t, _)) => Some(t)
    case None => None
  }

  lemma WakeMoves(n: nat, s: State, t: TaskId)
    ensures Moves(s, Wake(n, s, t), s.entries, None)
  {
  }

  lemma RegisterMoves(n: nat, s: State, t: TaskId)
    requires EntriesOk(n, s) && t < |s.tasks| && s.free != [] && s.tasks[t].owned
    ensures s.free[0] < n && s.entries[s.free[0]] == None
    ensures Moves(s, Register(n, s, t), s.entries[s.free[0] := Some(t)], None)
  {
    TakenIsFree(n, s, t);
    RegisterEntries(n, s, t);
    WakeMoves(n, Taken(s, t), t);
  }

  lemma FinishMoves(n: nat, s: State)
    requires EntriesOk(n, s) && Enabled(s, Finish)
    ensures Moves(s, Do(n, s, Finish), EntriesAfter(s, Finish), Releaser(s, Finish))
  {
    var me := s.phase.task;
    var done := SetStatus(s, me, Done).(phase := Idle);
    if s.tasks[me].waiter.Some? {
      WakeMoves(n, done, s.tasks[me].waiter.value);
    }
    assert Moves(s, Woken(n, s), s.entries, None);
  }

  lemma SetMoves(n: nat, s: State, f: FutureId)
    requires Enabled(s, SetFuture(f))
    ensures Moves(s, Do(n, s, SetFuture(f)), s.entries, None)
  {
    if !s.futures[f].isSet && s.futures[f].waiter.Some? {
      WakeMoves(n, s.(futures := s.futures[f := s.futures[f].(isSet := true)]), s.futures[f].waiter.value);
    }
  }

  lemma AwaitStart(n: nat, s: State, t: TaskId)
    requires EntriesOk(n, s) && Enabled(s, AwaitTask(t))
    ensures EntriesOk(n, Suspended(s, t))
  {
    SuspendEntries(n, s, OnTask(t));
    SameLivesOk(n, s, Suspended(s, t));
  }

  lemma AwaitMoves(n: nat, s: State, t: TaskId)
    requires EntriesOk(n, s) && Enabled(s, AwaitTask(t))
    ensures s.free[0] < n && s.entries[s.free[0]] == None
    ensures Moves(s, Do(n, s, AwaitTask(t)), s.entries[s.free[0] := Some(t)], None)
  {
    AwaitStart(n, s, t);
    RegisterMoves(n, Suspended(s, t), t);
  }

  lemma DropMoves(n: nat, s: State, t: TaskId)
    requires EntriesOk(n, s) && Enabled(s, DropHandle(t))
    ensures Moves(s, Do(n, s, DropHandle(t)), EntriesAfter(s, DropHandle(t)), Releaser(s, DropHandle(t)))
  {
  }

  lemma QuietMoves(n: nat, s: State, a: Action)
    requires Enabled(s, a) && (a.CreateTask? || a.CreateFuture? || a.Resume? || a.AwaitFuture? || a.EndExecute?)
    ensures Moves(s, Do(n, s, a), s.entries, None)
  {
  }

  lemma StepMoves(n: nat, s: State, a: Action)
    requires EntriesOk(n, s) && Enabled(s, a)
    ensures Moves(s, Do(n, s, a), EntriesAfter(s, a), Releaser(s, a))
    ensures IsRegistration(a) ==> s.free[0] < n && s.entries[s.free[0]] == None
  {
    match a
    case StartTask(t) => RegisterMoves(n, s, t);
    case AwaitTask(t) => AwaitMoves(n, s, t);
    case DropHandle(t) => DropMoves(n, s, t);
    case Finish => FinishMoves(n, s);
    case SetFuture(f) => SetMoves(n, s, f);
    case _ => QuietMoves(n, s, a);
  }

  /** What is given back was held, no task is released twice, and none that was is registered again. */
  lemma ReleasedOnce(n: nat, s: State, a: Action)
    requires EntriesOk(n, s) && Enabled(s, a)
    ensures match ReleasedBy(s, a)
            case Some((t, e)) => Held(s, e, t) && t < |s.tasks| && s.tasks[t].releases == 0
            case None => true
    ensures IsRegistration(a) ==> s.tasks[a.t].releases == 0
  {
    match a
    case Finish => assert Balanced(s, s.phase.task);
    case DropHandle(t) => assert Balanced(s, t);
    case StartTask(t) => assert Balanced(s, t);
    case AwaitTask(t) => assert Balanced(s, t);
    case _ =>
  }

  /** The entries that the release of a task leaves behind. */
  predicate LeftBy(s: State, a: Action, e: EntryId)
    requires Enabled(s, a)
  {
    match ReleasedBy(s, a)
    case Some((t, given)) => Held(s, e, t) && e != given
    case None => false
  }

  /** An entry is left dangling exactly by the release of its task with another entry. */
  lemma DanglesExactly(n: nat, s: State, a: Action, e: EntryId)
    requires EntriesOk(n, s) && Enabled(s, a)
    ensures Dangling(Do(n, s, a), e) <==> Dangling(s, e) || LeftBy(s, a, e)
  {
    StepMoves(n, s, a);
    ReleasedOnce(n, s, a);
  }

  /** And then it is never free again. */
  lemma {:induction false} DanglesForEver(n: nat, s: State, acts: seq<Action>, s': State, e: EntryId)
    requires EntriesOk(n, s) && Steps(n, s, acts, s') && Dangling(s, e)
    ensures Dangling(s', e) && e !in s'.free
    decreases |acts|
  {
    if acts == [] {
      assert s.entries[e].Some?;
    } else {
      DanglesExactly(n, s, acts[0], e);
      StepEntries(n, s, acts[0]);
      DanglesForEver(n, Do(n, s, acts[0]), acts[1..], s', e);
    }
  }

  /** When every task that was registered is over, the pool is whole exactly if each was registered once. */
  lemma PoolWholeExactly(n: nat, acts: seq<Action>, s: State)
    requires Steps(n, Init(n), acts, s)
    requires forall t | 0 <= t < |s.tasks| && s.tasks[t].registrations > 0 ::
               s.tasks[t].status.Done? && !s.tasks[t].owned
    ensures (forall e: EntryId | e < n :: e in s.free)
       <==> forall t | 0 <= t < |s.tasks| :: s.tasks[t].registrations <= 1
  {
    InitEntries(n);
    RunEntries(n, Init(n), acts, s);
    forall t | 0 <= t < |s.tasks|
      ensures s.tasks[t].registrations <= 1 <==> Some(t) !in s.entries
    {
      assert Balanced(s, t);
      HeldSomewhere(s.entries, t);
    }
    if forall t | 0 <= t < |s.tasks| :: s.tasks[t].registrations <= 1 {
      forall e: EntryId | e < n ensures s.entries[e].None? {
        assert s.entries[e] in s.entries;
      }
    }
    if t :| 0 <= t < |s.tasks| && s.tasks[t].registrations > 1 {
      var e: nat :| e < |s.entries| && s.entries[e] == Some(t);
      assert e !in s.free;
    }
  }
}
