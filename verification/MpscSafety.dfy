/** The ring under client discipline, for any number of producers and any interleaving: if no push
    begins while as many items as the ring has slots are begun and not yet fully popped, then items
    come out in ticket order, none lost, doubled or overwritten, and push never refuses. */
module MpscSafety {
  import opened Common
  import opened MpscQueue

  /** Items that a push has begun and that pop has not fully removed. */
  function Outstanding(s: State): int {
    |s.reserved| - |s.popped| + CountPending(s.producers)
  }

  /** The client's side of the bargain. */
  predicate Allowed(n: nat, s: State, a: Action) {
    Enabled(s, a) && (a.Begin? ==> Outstanding(s) < n)
  }

  predicate DisciplinedSteps(n: nat, s: State, acts: seq<Action>, s': State)
    requires Shaped(n, s)
    decreases |acts|
  {
    if acts == [] then s == s'
    else Allowed(n, s, acts[0]) && (DoKeepsShape(n, s, acts[0]); DisciplinedSteps(n, Do(n, s, acts[0]), acts[1..], s'))
  }

  // ---------------------------------------------------------------- the invariant

  /** The ticket is reserved and its producer has not stored yet. */
  ghost predicate Unstored(s: State, t: nat) {
    exists p :: 0 <= p < |s.producers| && s.producers[p].Reserved? && s.producers[p].ticket == t
  }

  /** What the slot of a ticket in the live window holds. */
  ghost function Content(s: State, t: nat): Option<Item> {
    if t >= |s.reserved| || Unstored(s, t) || (s.consumer.Cleared? && t == Taken(s)) then None
    else Some(s.reserved[t])
  }

  ghost predicate TicketsOk(n: nat, s: State)
    requires n > 0
  {
    && (forall p | 0 <= p < |s.producers| && s.producers[p].Reserved? ::
          var me := s.producers[p];
          && Taken(s) <= me.ticket < |s.reserved|
          && me.slot == me.ticket % n && me.item == s.reserved[me.ticket])
    && (forall p, q | 0 <= p < q < |s.producers| && s.producers[p].Reserved? && s.producers[q].Reserved? ::
          s.producers[p].ticket != s.producers[q].ticket)
  }

  ghost predicate SlotsOk(n: nat, s: State)
    requires Shaped(n, s)
  {
    forall t: nat {:trigger Content(s, t)} | Taken(s) <= t < Taken(s) + n :: s.slots[t % n] == Content(s, t)
  }

  ghost predicate ConsumerOk(s: State) {
    && |s.popped| <= |s.reserved|
    && s.popped == s.reserved[..|s.popped|]
    && (s.consumer.Took? || s.consumer.Cleared? ==>
          && |s.popped| < |s.reserved| && s.consumer.item == s.reserved[|s.popped|]
          && !Unstored(s, |s.popped|))
    && (s.consumer.Advanced? ==> |s.popped| < |s.reserved| && s.consumer.item == s.reserved[|s.popped|])
  }

  ghost predicate Safe(n: nat, s: State) {
    && Accounted(n, s)
    && Outstanding(s) <= n
    && TicketsOk(n, s)
    && SlotsOk(n, s)
    && ConsumerOk(s)
    && s.thrown == 0
  }

  // ---------------------------------------------------------------- the window visits each slot once

  lemma ModDistinct(a: nat, b: nat, n: nat)
    requires n > 0 && a < b < a + n
    ensures a % n != b % n
  {
    if a % n == b % n {
      var p, q := a / n, b / n;
      assert a == p * n + a % n && b == q * n + b % n;
      if q > p {
        MulGap(q, p, n);
      } else if p > q {
        MulGap(p, q, n);
      }
    }
  }

  lemma ModWraps(a: nat, n: nat)
    requires n > 0
    ensures (a + n) % n == a % n
  {
    var q, r := a / n, a % n;
    assert a == q * n + r;
    assert a + n == (q + 1) * n + r;
    ModIs(a + n, q + 1, r, n);
  }

  // ---------------------------------------------------------------- each step keeps it

  lemma InitSafe(n: nat, producers: nat)
    requires n > 0
    ensures Safe(n, Init(n, producers))
  {
    InitAccounted(n, producers);
    CountNone(Init(n, producers).producers);
  }

  /** A step of one producer changes what its own ticket, and no other, contributes. */
  lemma UnstoredUpdate(s: State, p: nat, q: Producer, t: nat)
    requires p < |s.producers| && (s.producers[p].Reserved? ==> s.producers[p].ticket != t)
    requires q.Reserved? ==> q.ticket != t
    ensures Unstored(s.(producers := s.producers[p := q]), t) <==> Unstored(s, t)
  {
    var s' := s.(producers := s.producers[p := q]);
    if i :| 0 <= i < |s.producers| && s.producers[i].Reserved? && s.producers[i].ticket == t {
      assert s'.producers[i] == s.producers[i];
    }
    if i :| 0 <= i < |s'.producers| && s'.producers[i].Reserved? && s'.producers[i].ticket == t {
      assert s'.producers[i] == s.producers[i];
    }
  }

  /** Steps inside push that touch neither slots nor tickets. */
  lemma QuietStepSafe(n: nat, s: State, a: Action)
    requires Safe(n, s) && Allowed(n, s, a)
    requires a.Begin? || a.CheckSize? || a.LoadHead? || a.FailSpuriously? || a.Publish?
          || (a.TryReserve? && s.producers[a.p].current != s.head)
    ensures Safe(n, Do(n, s, a))
  {
    var s' := Do(n, s, a);
    DoAccounted(n, s, a);
    assert s'.producers == s.producers[a.p := s'.producers[a.p]];
    assert Outstanding(s') <= n && s'.thrown == 0 by {
      CountUpdate(s.producers, a.p, s'.producers[a.p]);
      CountPositive(s.producers, a.p);
    }
    assert SlotsOk(n, s') && TicketsOk(n, s') && ConsumerOk(s') by {
      QuietKeepsWindow(n, s, a.p, s');
    }
  }

  lemma QuietKeepsWindow(n: nat, s: State, p: nat, s': State)
    requires Shaped(n, s) && SlotsOk(n, s) && p < |s.producers| && !s.producers[p].Reserved?
    requires Shaped(n, s') && |s'.producers| == |s.producers| && TicketsOk(n, s) && ConsumerOk(s)
    requires s'.producers == s.producers[p := s'.producers[p]] && !s'.producers[p].Reserved?
    requires s'.slots == s.slots && s'.reserved == s.reserved && s'.popped == s.popped && s'.consumer == s.consumer
    ensures SlotsOk(n, s') && TicketsOk(n, s') && ConsumerOk(s')
  {
    forall t: nat
      ensures Unstored(s', t) <==> Unstored(s, t)
    {
      UnstoredUpdate(s, p, s'.producers[p], t);
      assert Unstored(s.(producers := s'.producers), t) <==> Unstored(s', t);
    }
    forall t: nat | Taken(s) <= t < Taken(s) + n
      ensures s'.slots[t % n] == Content(s', t)
    {
      assert Content(s, t) == Content(s', t);
    }
  }

  lemma {:induction false} CountPositive(ps: seq<Producer>, p: nat)
    requires p < |ps|
    ensures Pending(ps[p]) ==> CountPending(ps) > 0
    ensures InFlight(ps[p]) ==> CountInFlight(ps) > 0
  {
    if p > 0 {
      CountPositive(ps[1..], p - 1);
    }
  }

  /** Winning the exchange takes the next ticket, whose slot is free. */
  lemma ReserveSafe(n: nat, s: State, p: nat)
    requires Safe(n, s) && p < |s.producers| && s.producers[p].Loaded? && s.producers[p].current == s.head
    ensures Safe(n, Do(n, s, TryReserve(p)))
  {
    var s' := Do(n, s, TryReserve(p));
    var ticket := |s.reserved|;
    DoAccounted(n, s, TryReserve(p));
    CountUpdate(s.producers, p, s'.producers[p]);
    CountPositive(s.producers, p);
    forall t: nat | t != ticket
      ensures Unstored(s', t) <==> Unstored(s, t)
    {
      UnstoredUpdate(s, p, s'.producers[p], t);
      assert Unstored(s.(producers := s'.producers), t) <==> Unstored(s', t);
    }
    assert Unstored(s', ticket) by {
      assert s'.producers[p].Reserved? && s'.producers[p].ticket == ticket;
    }
    forall t: nat | Taken(s) <= t < Taken(s) + n
      ensures s'.slots[t % n] == Content(s', t)
    {
      assert Content(s, t) == Content(s', t);
    }
  }

  /** A store fills its own slot, which was empty, and no other. */
  lemma StoreSafe(n: nat, s: State, p: nat)
    requires Safe(n, s) && p < |s.producers| && s.producers[p].Reserved?
    ensures s.slots[s.producers[p].slot] == None
    ensures Safe(n, Do(n, s, Store(p)))
  {
    var s' := Do(n, s, Store(p));
    var ticket := s.producers[p].ticket;
    DoAccounted(n, s, Store(p));
    CountUpdate(s.producers, p, s'.producers[p]);
    assert Unstored(s, ticket) && Content(s, ticket) == None;
    assert !Unstored(s', ticket) by {
      assert forall i | 0 <= i < |s.producers| && i != p :: s'.producers[i] == s.producers[i];
    }
    forall t: nat | t != ticket
      ensures Unstored(s', t) <==> Unstored(s, t)
    {
      UnstoredUpdate(s, p, s'.producers[p], t);
      assert Unstored(s.(producers := s'.producers), t) <==> Unstored(s', t);
    }
    forall t: nat | Taken(s) <= t < Taken(s) + n
      ensures s'.slots[t % n] == Content(s', t)
    {
      if t < ticket {
        ModDistinct(t, ticket, n);
      } else if ticket < t {
        ModDistinct(ticket, t, n);
      }
      assert t != ticket ==> Content(s, t) == Content(s', t);
    }
  }

  /** What the steps of the consumer leave alone. */
  lemma ConsumerStep(s: State, a: Action, n: nat, t: nat)
    requires Shaped(n, s) && Enabled(s, a)
    requires a.SeeSize? || a.TakeSlot? || a.ClearSlot? || a.MoveTail? || a.Discount?
    ensures Do(n, s, a).producers == s.producers
    ensures Unstored(Do(n, s, a), t) <==> Unstored(s, t)
  {
  }

  lemma TakeSafe(n: nat, s: State, a: Action)
    requires Safe(n, s) && Enabled(s, a) && (a.SeeSize? || a.TakeSlot?)
    ensures Safe(n, Do(n, s, a))
    ensures a.TakeSlot? && s.slots[s.tail] == None ==> Unstored(s, |s.popped|)
  {
    var s' := Do(n, s, a);
    DoAccounted(n, s, a);
    assert Content(s, Taken(s)) == s.slots[s.tail];
    ConsumerStep(s, a, n, |s.popped|);
    forall t: nat | Taken(s) <= t < Taken(s) + n
      ensures s'.slots[t % n] == Content(s', t)
    {
      ConsumerStep(s, a, n, t);
      assert Content(s, t) == Content(s', t);
    }
  }

  lemma ClearSafe(n: nat, s: State)
    requires Safe(n, s) && s.consumer.Took?
    ensures Safe(n, Do(n, s, ClearSlot))
  {
    var s' := Do(n, s, ClearSlot);
    DoAccounted(n, s, ClearSlot);
    ConsumerStep(s, ClearSlot, n, |s.popped|);
    forall t: nat | Taken(s) <= t < Taken(s) + n
      ensures s'.slots[t % n] == Content(s', t)
    {
      ConsumerStep(s, ClearSlot, n, t);
      if Taken(s) < t {
        ModDistinct(Taken(s), t, n);
        assert Content(s, t) == Content(s', t);
      }
    }
  }

  /** The slot that the window gains is the one just cleared, and no ticket has it yet. */
  lemma MoveSafe(n: nat, s: State)
    requires Safe(n, s) && s.consumer.Cleared?
    ensures Safe(n, Do(n, s, MoveTail))
  {
    var s' := Do(n, s, MoveTail);
    var taken := Taken(s);
    DoAccounted(n, s, MoveTail);
    assert Content(s, taken) == None;
    ConsumerStep(s, MoveTail, n, taken);
    forall p | 0 <= p < |s.producers| && s.producers[p].Reserved?
      ensures s.producers[p].ticket != taken
    {
      assert !Unstored(s, taken);
    }
    forall t: nat | taken + 1 <= t < taken + 1 + n
      ensures s'.slots[t % n] == Content(s', t)
    {
      ConsumerStep(s, MoveTail, n, t);
      if t == taken + n {
        ModWraps(taken, n);
      } else {
        assert Content(s, t) == Content(s', t);
      }
    }
  }

  lemma DiscountSafe(n: nat, s: State)
    requires Safe(n, s) && s.consumer.Advanced?
    ensures Safe(n, Do(n, s, Discount))
  {
    var s' := Do(n, s, Discount);
    DoAccounted(n, s, Discount);
    forall t: nat | Taken(s) <= t < Taken(s) + n
      ensures s'.slots[t % n] == Content(s', t)
    {
      ConsumerStep(s, Discount, n, t);
      assert Content(s, t) == Content(s', t);
    }
  }

  lemma StepSafe(n: nat, s: State, a: Action)
    requires Safe(n, s) && Allowed(n, s, a)
    ensures Safe(n, Do(n, s, a))
  {
    match a
    case Begin(_, _) => QuietStepSafe(n, s, a);
    case CheckSize(_) => QuietStepSafe(n, s, a);
    case LoadHead(_) => QuietStepSafe(n, s, a);
    case FailSpuriously(_) => QuietStepSafe(n, s, a);
    case Publish(_) => QuietStepSafe(n, s, a);
    case TryReserve(p) =>
      if s.producers[p].current == s.head {
        ReserveSafe(n, s, p);
      } else {
        QuietStepSafe(n, s, a);
      }
    case Store(p) => StoreSafe(n, s, p);
    case SeeSize => TakeSafe(n, s, a);
    case TakeSlot => TakeSafe(n, s, a);
    case ClearSlot => ClearSafe(n, s);
    case MoveTail => MoveSafe(n, s);
    case Discount => DiscountSafe(n, s);
  }

  lemma {:induction false} RunSafe(n: nat, s: State, acts: seq<Action>, s': State)
    requires Safe(n, s) && DisciplinedSteps(n, s, acts, s')
    ensures Safe(n, s')
    decreases |acts|
  {
    if acts != [] {
      StepSafe(n, s, acts[0]);
      RunSafe(n, Do(n, s, acts[0]), acts[1..], s');
    }
  }

  // ---------------------------------------------------------------- what a client sees

  /** From the empty ring: pop returns the items in ticket order, push never refuses, and every ticket
      not yet popped is in its slot, or still with its producer, or in the consumer's hands. */
  lemma FifoNothingLost(n: nat, producers: nat, acts: seq<Action>, s: State)
    requires n > 0 && DisciplinedSteps(n, Init(n, producers), acts, s)
    ensures Shaped(n, s) && s.popped <= s.reserved && s.thrown == 0
    ensures forall t | |s.popped| <= t < |s.reserved| ::
              || s.slots[t % n] == Some(s.reserved[t])
              || Unstored(s, t)
              || (t == |s.popped| && (s.consumer.Cleared? || s.consumer.Advanced?) && s.consumer.item == s.reserved[t])
  {
    InitSafe(n, producers);
    RunSafe(n, Init(n, producers), acts, s);
    forall t | |s.popped| <= t < |s.reserved|
      ensures || s.slots[t % n] == Some(s.reserved[t])
              || Unstored(s, t)
              || (t == |s.popped| && (s.consumer.Cleared? || s.consumer.Advanced?) && s.consumer.item == s.reserved[t])
    {
      var c := Content(s, t);
    }
  }

  /** No store ever overwrites an item, and a pop that finds the counter positive but the oldest slot
      empty has caught that slot's producer between reserving and storing. */
  lemma NoOverwrite(n: nat, producers: nat, acts: seq<Action>, s: State)
    requires n > 0 && DisciplinedSteps(n, Init(n, producers), acts, s)
    ensures Shaped(n, s)
    ensures forall p | 0 <= p < |s.producers| && s.producers[p].Reserved? :: s.slots[s.producers[p].slot] == None
    ensures s.consumer.NonEmpty? && s.slots[s.tail] == None ==> Unstored(s, |s.popped|)
  {
    InitSafe(n, producers);
    RunSafe(n, Init(n, producers), acts, s);
    forall p | 0 <= p < |s.producers| && s.producers[p].Reserved?
      ensures s.slots[s.producers[p].slot] == None
    {
      StoreSafe(n, s, p);
    }
    if s.consumer.NonEmpty? {
      TakeSafe(n, s, TakeSlot);
    }
  }

  /** When nobody is inside push or pop, the counter is the number of items and the slots from `tail` on
      hold them in order. */
  lemma QuiescentIsQueue(n: nat, producers: nat, acts: seq<Action>, s: State)
    requires n > 0 && DisciplinedSteps(n, Init(n, producers), acts, s)
    requires s.consumer.Ready? && forall p | 0 <= p < |s.producers| :: s.producers[p].Idle?
    ensures Shaped(n, s) && s.size == |s.reserved| - |s.popped| && s.tail == |s.popped| % n
    ensures forall t | |s.popped| <= t < |s.reserved| :: s.slots[t % n] == Some(s.reserved[t])
  {
    FifoNothingLost(n, producers, acts, s);
    InitSafe(n, producers);
    RunSafe(n, Init(n, producers), acts, s);
    CountNone(s.producers);
  }
}
