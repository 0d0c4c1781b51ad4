/** How many threads may use a pool: one acquirer with one releaser, but for a pool of one object. With a
    second acquirer both can pass the size check for the last object, and with a second releaser a slot can
    be counted before an earlier slot is stored; either way a stale slot is read and an object gets two
    owners. */
module PoolOwners {
  import opened Common
  import opened CachePool
  import opened PoolSteps

  ghost predicate CanReach(n: nat, acquirers: nat, releasers: nat, s: State)
    requires n > 0
  {
    exists acts :: Steps(Init(n, acquirers, releasers), acts, s)
  }

  ghost predicate AlwaysSole(n: nat, acquirers: nat, releasers: nat)
    requires n > 0
  {
    forall s | CanReach(n, acquirers, releasers, s) :: SoleOwners(s)
  }

  lemma {:induction false} OneMoreStep(s: State, acts: seq<Action>, s': State, c: Action)
    requires Shaped(s) && Steps(s, acts, s') && Shaped(s') && Enabled(s', c)
    ensures Steps(s, acts + [c], Do(s', c))
    decreases |acts|
  {
    if acts == [] {
      assert [c][1..] == [] && acts + [c] == [c];
      DoKeepsShape(s, c);
    } else {
      DoKeepsShape(s, acts[0]);
      OneMoreStep(Do(s, acts[0]), acts[1..], s', c);
      assert (acts + [c])[1..] == acts[1..] + [c];
    }
  }

  /** One step further from a reachable state. */
  lemma Further(n: nat, acquirers: nat, releasers: nat, s: State, c: Action) returns (s': State)
    requires n > 0 && CanReach(n, acquirers, releasers, s) && Shaped(s) && Enabled(s, c)
    ensures s' == Do(s, c) && Shaped(s') && CanReach(n, acquirers, releasers, s')
  {
    var acts :| Steps(Init(n, acquirers, releasers), acts, s);
    OneMoreStep(Init(n, acquirers, releasers), acts, s, c);
    DoKeepsShape(s, c);
    s' := Do(s, c);
  }

  /** An acquirer that passed the check reserves the slot at the head and reads it. */
  lemma ReadHead(n: nat, acquirers: nat, releasers: nat, s: State, a: nat) returns (s': State)
    requires n > 0 && CanReach(n, acquirers, releasers, s) && Shaped(s)
    requires a < |s.acquirers| && s.acquirers[a].Approved?
    ensures Shaped(s') && CanReach(n, acquirers, releasers, s')
    ensures s' == s.(head := (s.head + 1) % |s.slots|, acquirers := s.acquirers[a := Holding(s.slots[s.head])])
  {
    s' := Further(n, acquirers, releasers, s, LoadHead(a));
    s' := Further(n, acquirers, releasers, s', TryHead(a));
    s' := Further(n, acquirers, releasers, s', LoadSlot(a));
    assert s'.acquirers == s.acquirers[a := Holding(s.slots[s.head])];
  }

  lemma WholeAcquire(n: nat, acquirers: nat, releasers: nat, s: State) returns (s': State)
    requires n > 0 && CanReach(n, acquirers, releasers, s) && Shaped(s)
    requires s.acquirers != [] && s.acquirers[0].Resting? && s.size != 0
    ensures Shaped(s') && CanReach(n, acquirers, releasers, s')
    ensures s' == s.(head := (s.head + 1) % |s.slots|, size := s.size - 1, held := s.held + {s.slots[s.head]})
  {
    s' := Further(n, acquirers, releasers, s, SeeSize(0));
    s' := ReadHead(n, acquirers, releasers, s', 0);
    s' := Further(n, acquirers, releasers, s', Uncount(0));
    assert s'.acquirers == s.acquirers;
  }

  /** A releaser has reserved the slot at the tail for its object. */
  lemma PromiseTail(n: nat, acquirers: nat, releasers: nat, s: State, r: nat, x: nat) returns (s': State)
    requires n > 0 && CanReach(n, acquirers, releasers, s) && Shaped(s)
    requires r < |s.releasers| && s.releasers[r].Idle? && x in s.held
    ensures Shaped(s') && CanReach(n, acquirers, releasers, s')
    ensures s' == s.(tail := (s.tail + 1) % |s.slots|, held := s.held - {x},
                     releasers := s.releasers[r := Promised(x, s.tail)])
  {
    s' := Further(n, acquirers, releasers, s, Begin(r, x));
    s' := Further(n, acquirers, releasers, s', LoadTail(r));
    s' := Further(n, acquirers, releasers, s', TryTail(r));
    assert s'.releasers == s.releasers[r := Promised(x, s.tail)];
  }

  lemma KeepPromise(n: nat, acquirers: nat, releasers: nat, s: State, r: nat) returns (s': State)
    requires n > 0 && CanReach(n, acquirers, releasers, s) && Shaped(s)
    requires r < |s.releasers| && s.releasers[r].Promised?
    ensures Shaped(s') && CanReach(n, acquirers, releasers, s')
    ensures s' == s.(slots := s.slots[s.releasers[r].slot := s.releasers[r].x], size := s.size + 1,
                     releasers := s.releasers[r := Idle])
  {
    s' := Further(n, acquirers, releasers, s, Store(r));
    s' := Further(n, acquirers, releasers, s', Count(r));
    assert s'.releasers == s.releasers[r := Idle];
  }

  function Below(k: nat): (r: set<nat>)
    ensures forall i: nat :: i in r <==> i < k
  {
    if k == 0 then {} else Below(k - 1) + {k - 1}
  }

  /** After k acquires from the full pool. */
  function Drained(n: nat, acquirers: nat, releasers: nat, k: nat): State {
    Init(n, acquirers, releasers).(head := if k == n then 0 else k, size := n - k, held := Below(k))
  }

  lemma {:induction false} CanDrain(n: nat, acquirers: nat, releasers: nat, k: nat)
    requires k <= n && n > 0 && acquirers > 0
    ensures Shaped(Drained(n, acquirers, releasers, k))
    ensures CanReach(n, acquirers, releasers, Drained(n, acquirers, releasers, k))
  {
    if k == 0 {
      assert Steps(Init(n, acquirers, releasers), [], Drained(n, acquirers, releasers, 0));
    } else {
      CanDrain(n, acquirers, releasers, k - 1);
      WrapIs(n, k - 1);
      var s := WholeAcquire(n, acquirers, releasers, Drained(n, acquirers, releasers, k - 1));
      assert s == Drained(n, acquirers, releasers, k);
    }
  }

  /** Two acquirers race for the last object; the second reads what is left in the next slot. */
  lemma TwoAcquirersCollide(n: nat, acquirers: nat, releasers: nat)
    requires n > 0 && acquirers >= 2
    ensures !AlwaysSole(n, acquirers, releasers)
  {
    CanDrain(n, acquirers, releasers, n - 1);
    var s := Drained(n, acquirers, releasers, n - 1);
    s := Further(n, acquirers, releasers, s, SeeSize(0));
    s := Further(n, acquirers, releasers, s, SeeSize(1));
    s := ReadHead(n, acquirers, releasers, s, 0);
    assert s.head == 0 by { WrapIs(n, n - 1); }
    s := ReadHead(n, acquirers, releasers, s, 1);
    assert Owns(s, Taker(1), 0);
    assert Owns(s, if n == 1 then Taker(0) else Clients, 0);
  }

  /** The second releaser counts its object while the first has not stored into the slot before it. */
  lemma TwoReleasersCollide(n: nat, acquirers: nat, releasers: nat)
    requires n > 1 && acquirers >= 1 && releasers >= 2
    ensures !AlwaysSole(n, acquirers, releasers)
  {
    CanDrain(n, acquirers, releasers, n);
    var s := Drained(n, acquirers, releasers, n);
    s := PromiseTail(n, acquirers, releasers, s, 0, 0);
    assert s.tail == 1 by { WrapIs(n, 0); }
    s := PromiseTail(n, acquirers, releasers, s, 1, 1);
    s := KeepPromise(n, acquirers, releasers, s, 1);
    s := Further(n, acquirers, releasers, s, SeeSize(0));
    s := ReadHead(n, acquirers, releasers, s, 0);
    assert Owns(s, Taker(0), 0) && Owns(s, Giver(0), 0);
  }

  /** Where nobody acquires, nothing can be released. */
  lemma NobodyAcquires(s: State, acts: seq<Action>, s': State)
    requires Shaped(s) && s.acquirers == [] && s.held == {} && Steps(s, acts, s')
    requires forall r | 0 <= r < |s.releasers| :: s.releasers[r].Idle?
    ensures s' == s && SoleOwners(s')
  {
    forall c ensures !Enabled(s, c) {
    }
  }

  // ---------------------------------------------------------------- a pool of one object

  /** The one object is free, or with the acquirer, or with the clients, or on its way back with the one
      releaser that is busy. */
  predicate LoneObject(s: State, busy: Option<nat>) {
    && s.slots == [0] && s.head == 0 && s.tail == 0 && |s.acquirers| == 1 && s.held <= {0}
    && (forall r | 0 <= r < |s.releasers| :: s.releasers[r].Idle? <==> busy != Some(r))
    && (busy.Some? ==> && busy.value < |s.releasers| && s.held == {} && s.acquirers[0].Resting?
                       && (IsGiver(s.releasers[busy.value]) ==> s.releasers[busy.value].x == 0)
                       && (s.releasers[busy.value].Promised? ==> s.releasers[busy.value].slot == 0))
    && s.size == (if s.held == {} && busy.None? then 1 else 0)
    && (s.held != {} ==> s.acquirers[0].Resting?)
    && (s.acquirers[0].Holding? ==> s.acquirers[0].x == 0)
    && (s.acquirers[0].Reserved? ==> s.acquirers[0].slot == 0)
  }

  lemma LoneObjectIsSole(s: State, busy: Option<nat>)
    requires LoneObject(s, busy)
    ensures SoleOwners(s)
  {
    forall x: nat, o | Owns(s, o, x)
      ensures o == if 0 in s.held then Clients else if busy.Some? then Giver(busy.value) else Taker(0)
    {
    }
  }

  function BusyAfter(c: Action, busy: Option<nat>): Option<nat> {
    match c
    case Begin(r, _) => Some(r)
    case Count(_) => None
    case _ => busy
  }

  lemma StepLone(s: State, c: Action, busy: Option<nat>)
    requires LoneObject(s, busy) && Shaped(s) && Enabled(s, c)
    ensures LoneObject(Do(s, c), BusyAfter(c, busy))
  {
  }

  lemma {:induction false} RunLone(s: State, acts: seq<Action>, s': State, busy: Option<nat>)
    requires LoneObject(s, busy) && Shaped(s) && Steps(s, acts, s')
    ensures SoleOwners(s')
    decreases |acts|
  {
    if acts == [] {
      LoneObjectIsSole(s, busy);
    } else {
      DoKeepsShape(s, acts[0]);
      StepLone(s, acts[0], busy);
      RunLone(Do(s, acts[0]), acts[1..], s', BusyAfter(acts[0], busy));
    }
  }

  /** Every object always has at most one owner exactly when nobody acquires, or one does and there is at
      most one releaser, or only one object to release. */
  lemma SoleExactly(n: nat, acquirers: nat, releasers: nat)
    requires n > 0
    ensures AlwaysSole(n, acquirers, releasers)
       <==> acquirers == 0 || (acquirers == 1 && (releasers <= 1 || n == 1))
  {
    if acquirers >= 2 {
      TwoAcquirersCollide(n, acquirers, releasers);
    } else if acquirers == 1 && releasers >= 2 && n > 1 {
      TwoReleasersCollide(n, acquirers, releasers);
    } else {
      forall s | CanReach(n, acquirers, releasers, s)
        ensures SoleOwners(s)
      {
        var acts :| Steps(Init(n, acquirers, releasers), acts, s);
        if acquirers == 0 {
          NobodyAcquires(Init(n, acquirers, releasers), acts, s);
        } else if n == 1 {
          RunLone(Init(n, acquirers, releasers), acts, s, None);
        } else {
          InitStandsFor(n, acquirers, releasers);
          RunRefines(n, Init(n, acquirers, releasers), acts, s, Fresh(n));
        }
      }
    }
  }
}
