/** Runs that show that a wake-up can be lost, and how a lost task can still be reached. */
module EventLoopWitness {
  import opened Common
  import opened EventLoop
  import opened EventLoopSafety

  lemma {:induction false} StepsSnoc(n: nat, s: State, acts: seq<Action>, s': State, a: Action)
    requires RespectfulSteps(n, s, acts, s') && Respectful(s', a)
    ensures RespectfulSteps(n, s, acts + [a], Do(n, s', a))
    decreases |acts|
  {
    if acts == [] {
      assert [a][1..] == [] && acts + [a] == [a];
    } else {
      assert (acts + [a])[1..] == acts[1..] + [a];
      StepsSnoc(n, Do(n, s, acts[0]), acts[1..], s', a);
    }
  }

  lemma Next(n: nat, acts: seq<Action>, s: State, a: Action) returns (acts': seq<Action>, s': State)
    requires RespectfulSteps(n, Init(n), acts, s) && Respectful(s, a)
    ensures RespectfulSteps(n, Init(n), acts', s') && s' == Do(n, s, a)
  {
    StepsSnoc(n, Init(n), acts, s, a);
    acts', s' := acts + [a], Do(n, s, a);
  }

  /** A task with its handle, not awaited; started with an entry, or not at all. */
  function Plain(status: Status, entry: Option<EntryId>, rank: nat): Task {
    Task(status, None, true, false, entry, rank, if entry.Some? then 1 else 0, 0)
  }

  lemma TwoTasks() returns (acts: seq<Action>, s: State)
    ensures RespectfulSteps(3, Init(3), acts, s)
    ensures s == State([Plain(Fresh, None, 0), Plain(Fresh, None, 0)], [Future(true, None)],
                       [None, None, None], [0, 1, 2], [], Idle, 0, false, {})
  {
    acts, s := [], Init(3);
    acts, s := Next(3, acts, s, CreateTask);
    acts, s := Next(3, acts, s, CreateTask);
    acts, s := Next(3, acts, s, CreateFuture);
    acts, s := Next(3, acts, s, SetFuture(0));
  }

  lemma OneStarts() returns (acts: seq<Action>, s: State)
    ensures RespectfulSteps(3, Init(3), acts, s)
    ensures s == State([Plain(Ready, Some(0), 0), Plain(Fresh, None, 0)], [Future(true, None)],
                       [Some(0), None, None], [1, 2], [0], Idle, 1, false, {})
  {
    acts, s := TwoTasks();
    acts, s := Next(3, acts, s, StartTask(0));
  }

  lemma BothStart() returns (acts: seq<Action>, s: State)
    ensures RespectfulSteps(3, Init(3), acts, s)
    ensures s == State([Plain(Ready, Some(0), 0), Plain(Ready, Some(1), 1)], [Future(true, None)],
                       [Some(0), Some(1), None], [2], [0, 1], Idle, 2, false, {})
  {
    acts, s := OneStarts();
    acts, s := Next(3, acts, s, StartTask(1));
  }

  lemma FirstRuns() returns (acts: seq<Action>, s: State)
    ensures RespectfulSteps(3, Init(3), acts, s)
    ensures s == State([Plain(Running, Some(0), 0), Plain(Ready, Some(1), 1)], [Future(true, None)],
                       [Some(0), Some(1), None], [2], [1], In(0, 0), 2, false, {})
  {
    acts, s := BothStart();
    acts, s := Next(3, acts, s, Resume);
  }

  /** A task may come to await a future whose value is set: by a respectful run, and it is lost then. */
  lemma LateAwaitHappens() returns (acts: seq<Action>, s: State)
    ensures RespectfulSteps(3, Init(3), acts, s)
    ensures s == State([Plain(OnFuture(0), Some(0), 0), Plain(Ready, Some(1), 1)], [Future(true, Some(0))],
                       [Some(0), Some(1), None], [2], [1], Idle, 2, false, {0})
  {
    acts, s := FirstRuns();
    acts, s := Next(3, acts, s, AwaitFuture(0));
    acts, s := Next(3, acts, s, EndExecute);
  }

  lemma ThreeSteps(n: nat, s: State, a: Action, b: Action, c: Action, s1: State, s2: State)
    requires Enabled(s, a) && s1 == Do(n, s, a) && Enabled(s1, b) && s2 == Do(n, s1, b) && Enabled(s2, c)
    ensures Steps(n, s, [a, b, c], Do(n, s2, c))
  {
    assert [a, b, c][1..] == [b, c] && [b, c][1..] == [c] && [c][1..] == [];
    assert Steps(n, s2, [c], Do(n, s2, c));
    assert Steps(n, s1, [b, c], Do(n, s2, c));
  }

  /** The lost task after another one has come to await it. */
  lemma LostIsAwaited(s: State) returns (s1: State, s2: State)
    requires s == State([Plain(OnFuture(0), Some(0), 0), Plain(Ready, Some(1), 1)], [Future(true, Some(0))],
                        [Some(0), Some(1), None], [2], [1], Idle, 2, false, {0})
    ensures Enabled(s, Resume) && s1 == Do(3, s, Resume)
    ensures Enabled(s1, AwaitTask(0)) && s2 == Do(3, s1, AwaitTask(0))
    ensures s2.queue == [2] && TaskAt(s2, 2) == Some(0) && s2.phase == Idle && s2.tasks != []
    ensures s2.tasks[0].releases == 0 && s2.tasks[0].status == Ready
  {
    s1 := Do(3, s, Resume);
    assert s1 == s.(tasks := [Plain(OnFuture(0), Some(0), 0), Plain(Running, Some(1), 1)],
                    queue := [], phase := In(1, 1));
    s2 := Do(3, s1, AwaitTask(0));
  }

  /** Only a second registration reaches it: another task that awaits the lost one has it resumed. */
  lemma LostIsReached() returns (acts: seq<Action>, s: State, s': State)
    ensures RespectfulSteps(3, Init(3), acts, s) && 0 in s.lost
    ensures Steps(3, s, [Resume, AwaitTask(0), Resume], s') && Resumed(s', 0)
  {
    acts, s := LateAwaitHappens();
    var s1, s2 := LostIsAwaited(s);
    s' := Do(3, s2, Resume);
    ThreeSteps(3, s, Resume, AwaitTask(0), Resume, s1, s2);
  }
}
