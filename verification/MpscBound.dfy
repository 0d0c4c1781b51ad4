/** The ring without client discipline. Push refuses only when the counter EQUALS the capacity, and the
    counter is raised after the check. With one producer that is enough. With two, both can pass the
    check at one below the capacity and carry the counter past it, after which no push is refused. */
module MpscBound {
  import opened MpscQueue

  /** Tickets reserved and not popped. */
  function Backlog(s: State): int {
    |s.reserved| - |s.popped|
  }

  ghost predicate Reachable(n: nat, producers: nat, s: State)
    requires n > 0
  {
    exists acts :: Steps(n, Init(n, producers), acts, s)
  }

  // ---------------------------------------------------------------- one producer

  /** Between its check and its ticket, a lone producer has room for one more. */
  ghost predicate RoomForOne(n: nat, s: State) {
    && Accounted(n, s) && |s.producers| == 1
    && Backlog(s) <= n - (if s.producers[0].Checked? || s.producers[0].Loaded? then 1 else 0)
  }

  lemma CountOne(ps: seq<Producer>)
    requires |ps| == 1
    ensures CountInFlight(ps) == if InFlight(ps[0]) then 1 else 0
  {
    assert ps[1..] == [];
  }

  lemma StepHasRoom(n: nat, s: State, a: Action)
    requires RoomForOne(n, s) && Enabled(s, a)
    ensures RoomForOne(n, Do(n, s, a))
  {
    DoAccounted(n, s, a);
    CountOne(s.producers);
    CountOne(Do(n, s, a).producers);
  }

  lemma {:induction false} RunHasRoom(n: nat, s: State, acts: seq<Action>, s': State)
    requires RoomForOne(n, s) && Steps(n, s, acts, s')
    ensures RoomForOne(n, s')
    decreases |acts|
  {
    if acts != [] {
      StepHasRoom(n, s, acts[0]);
      RunHasRoom(n, Do(n, s, acts[0]), acts[1..], s');
    }
  }

  // ---------------------------------------------------------------- two or more producers

  lemma {:induction false} StepsConcat(n: nat, a: State, xs: seq<Action>, b: State, ys: seq<Action>, c: State)
    requires Shaped(n, a) && Steps(n, a, xs, b) && Shaped(n, b) && Steps(n, b, ys, c)
    ensures Steps(n, a, xs + ys, c)
    decreases |xs|
  {
    if xs == [] {
      assert xs + ys == ys;
    } else {
      StepsConcat(n, Do(n, a, xs[0]), xs[1..], b, ys, c);
      assert (xs + ys)[1..] == xs[1..] + ys;
    }
  }

  lemma ReachOn(n: nat, producers: nat, s: State, a: Action)
    requires n > 0 && Reachable(n, producers, s) && Accounted(n, s) && Enabled(s, a)
    ensures Reachable(n, producers, Do(n, s, a)) && Accounted(n, Do(n, s, a))
  {
    var acts :| Steps(n, Init(n, producers), acts, s);
    DoAccounted(n, s, a);
    var s' := Do(n, s, a);
    assert Steps(n, s, [a], s') by {
      assert [a][1..] == [];
    }
    StepsConcat(n, Init(n, producers), acts, s, [a], s');
  }

  /** Nobody is inside push or pop. */
  predicate Quiet(s: State) {
    s.consumer.Ready? && forall p | 0 <= p < |s.producers| :: s.producers[p].Idle?
  }

  /** A producer that has passed the check goes through to the end. */
  lemma FinishPush(n: nat, producers: nat, s: State, p: nat) returns (s': State)
    requires n > 0 && Reachable(n, producers, s) && Accounted(n, s)
    requires p < |s.producers| && s.producers[p].Checked?
    ensures Reachable(n, producers, s') && Accounted(n, s')
    ensures s'.producers == s.producers[p := Idle] && s'.consumer == s.consumer
    ensures s'.size == s.size + 1 && Backlog(s') == Backlog(s) + 1
  {
    ReachOn(n, producers, s, LoadHead(p));
    var s1 := Do(n, s, LoadHead(p));
    ReachOn(n, producers, s1, TryReserve(p));
    var s2 := Do(n, s1, TryReserve(p));
    ReachOn(n, producers, s2, Store(p));
    var s3 := Do(n, s2, Store(p));
    ReachOn(n, producers, s3, Publish(p));
    s' := Do(n, s3, Publish(p));
  }

  lemma StartPush(n: nat, producers: nat, s: State, p: nat) returns (s': State)
    requires n > 0 && Reachable(n, producers, s) && Accounted(n, s)
    requires p < |s.producers| && s.producers[p].Idle? && s.size != n
    ensures Reachable(n, producers, s') && Accounted(n, s')
    ensures s'.producers == s.producers[p := Checked(7)] && s'.consumer == s.consumer
    ensures s'.size == s.size && Backlog(s') == Backlog(s)
  {
    ReachOn(n, producers, s, Begin(p, 7));
    var s1 := Do(n, s, Begin(p, 7));
    ReachOn(n, producers, s1, CheckSize(p));
    s' := Do(n, s1, CheckSize(p));
  }

  lemma WholePush(n: nat, producers: nat, s: State) returns (s': State)
    requires n > 0 && Reachable(n, producers, s) && Accounted(n, s)
    requires Quiet(s) && |s.producers| > 0 && s.size != n
    ensures Reachable(n, producers, s') && Accounted(n, s') && Quiet(s') && |s'.producers| == |s.producers|
    ensures s'.size == s.size + 1 && Backlog(s') == Backlog(s) + 1
  {
    var s1 := StartPush(n, producers, s, 0);
    s' := FinishPush(n, producers, s1, 0);
  }

  /** Pushes one after another, as long as the counter never meets the capacity. */
  lemma {:induction false} ManyPushes(n: nat, producers: nat, s: State, k: nat) returns (s': State)
    requires n > 0 && Reachable(n, producers, s) && Accounted(n, s) && Quiet(s) && |s.producers| > 0
    requires s.size + k <= n || s.size > n
    ensures Reachable(n, producers, s') && Accounted(n, s') && Quiet(s') && |s'.producers| == |s.producers|
    ensures s'.size == s.size + k && Backlog(s') == Backlog(s) + k
    decreases k
  {
    s' := s;
    if k > 0 {
      var s1 := WholePush(n, producers, s);
      s' := ManyPushes(n, producers, s1, k - 1);
    }
  }

  /** With two producers the backlog can pass any bound, for every capacity. */
  lemma Unbounded(n: nat, producers: nat, bound: nat) returns (s: State)
    requires n > 0 && producers >= 2
    ensures Reachable(n, producers, s) && Backlog(s) > bound
  {
    s := Init(n, producers);
    InitAccounted(n, producers);
    assert Steps(n, s, [], s);
    s := ManyPushes(n, producers, s, n - 1);
    s := StartPush(n, producers, s, 0);
    s := StartPush(n, producers, s, 1);
    s := FinishPush(n, producers, s, 0);
    s := FinishPush(n, producers, s, 1);
    s := ManyPushes(n, producers, s, bound);
  }

  ghost predicate Exceeds(n: nat, producers: nat, bound: nat)
    requires n > 0
  {
    exists s :: Reachable(n, producers, s) && Backlog(s) > bound
  }

  /** Whatever the clients do, the backlog stays within the capacity exactly when there is at most one
      producer; and with two or more it stays within no bound at all. */
  lemma BoundedExactly(n: nat, producers: nat)
    requires n > 0
    ensures Exceeds(n, producers, n) <==> producers >= 2
    ensures producers >= 2 ==> forall bound: nat :: Exceeds(n, producers, bound)
  {
    InitAccounted(n, producers);
    if producers >= 2 {
      forall bound: nat
        ensures Exceeds(n, producers, bound)
      {
        var s := Unbounded(n, producers, bound);
      }
    } else {
      forall s | Reachable(n, producers, s)
        ensures Backlog(s) <= n
      {
        var acts :| Steps(n, Init(n, producers), acts, s);
        if producers == 1 {
          RunHasRoom(n, Init(n, producers), acts, s);
        } else {
          NobodyPushes(n, Init(n, producers), acts, s);
        }
      }
    }
  }

  lemma {:induction false} NobodyPushes(n: nat, s: State, acts: seq<Action>, s': State)
    requires Accounted(n, s) && s.producers == [] && s.reserved == [] && Steps(n, s, acts, s')
    ensures s'.reserved == []
    decreases |acts|
  {
    if acts != [] {
      DoAccounted(n, s, acts[0]);
      NobodyPushes(n, Do(n, s, acts[0]), acts[1..], s');
    }
  }
}
