/** The multi-producer single-consumer ring: an interleaving of atomic steps on `head`, `tail`, `size`
    and the slots. Each producer reserves a ticket by moving `head`, stores into the ticket's slot, and
    only then counts the item; the consumer empties a slot, moves `tail`, and only then uncounts.

    `reserved` lists the items in ticket order and `popped` those that pop has returned: they only
    record history, and no step looks at them. */
module MpscQueue {
  import opened Common

  type Item = nat

  /** Where a producer stands inside push. */
  datatype Producer =
    | Idle
    | Begun(item: Item)
    | Checked(item: Item)
    | Loaded(item: Item, current: nat)
    | Reserved(item: Item, slot: nat, ticket: nat)
    | Stored(item: Item)

  /** Where the consumer stands inside pop. */
  datatype Consumer =
    | Ready
    | NonEmpty
    | Took(item: Item)
    | Cleared(item: Item)
    | Advanced(item: Item)

  datatype State = State(
    head: nat, tail: nat, size: int, slots: seq<Option<Item>>,
    producers: seq<Producer>, consumer: Consumer,
    reserved: seq<Item>, popped: seq<Item>, thrown: nat)

  datatype Action =
    | Begin(p: nat, item: Item)
    | CheckSize(p: nat)
    | LoadHead(p: nat)
    | TryReserve(p: nat)
    | FailSpuriously(p: nat)
    | Store(p: nat)
    | Publish(p: nat)
    | SeeSize
    | TakeSlot
    | ClearSlot
    | MoveTail
    | Discount

  function Init(n: nat, producers: nat): State {
    State(0, 0, 0, seq(n, _ => None), seq(producers, _ => Idle), Ready, [], [], 0)
  }

  predicate Shaped(n: nat, s: State) {
    n > 0 && |s.slots| == n && s.head < n && s.tail < n
    && forall p | 0 <= p < |s.producers| && s.producers[p].Reserved? :: s.producers[p].slot < n
  }

  predicate Enabled(s: State, a: Action) {
    match a
    case Begin(p, _) => p < |s.producers| && s.producers[p].Idle?
    case CheckSize(p) => p < |s.producers| && s.producers[p].Begun?
    case LoadHead(p) => p < |s.producers| && s.producers[p].Checked?
    case TryReserve(p) => p < |s.producers| && s.producers[p].Loaded?
    case FailSpuriously(p) => p < |s.producers| && s.producers[p].Loaded?
    case Store(p) => p < |s.producers| && s.producers[p].Reserved?
    case Publish(p) => p < |s.producers| && s.producers[p].Stored?
    case SeeSize => s.consumer.Ready?
    case TakeSlot => s.consumer.NonEmpty?
    case ClearSlot => s.consumer.Took?
    case MoveTail => s.consumer.Cleared?
    case Discount => s.consumer.Advanced?
  }

  /** One atomic step. */
  function Do(n: nat, s: State, a: Action): State
    requires Shaped(n, s) && Enabled(s, a)
  {
    match a
    case Begin(p, item) => s.(producers := s.producers[p := Begun(item)])
    case CheckSize(p) =>
      // A count equal to the capacity is refused by an exception.
      if s.size == n then s.(producers := s.producers[p := Idle], thrown := s.thrown + 1)
      else s.(producers := s.producers[p := Checked(s.producers[p].item)])
    case LoadHead(p) => s.(producers := s.producers[p := Loaded(s.producers[p].item, s.head)])
    case TryReserve(p) =>
      var me := s.producers[p];
      if me.current == s.head then
        s.(head := (me.current + 1) % n,
           reserved := s.reserved + [me.item],
           producers := s.producers[p := Reserved(me.item, me.current, |s.reserved|)])
      else s.(producers := s.producers[p := Loaded(me.item, s.head)])
    case FailSpuriously(p) => s.(producers := s.producers[p := Loaded(s.producers[p].item, s.head)])
    case Store(p) =>
      var me := s.producers[p];
      s.(slots := s.slots[me.slot := Some(me.item)], producers := s.producers[p := Stored(me.item)])
    case Publish(p) => s.(size := s.size + 1, producers := s.producers[p := Idle])
    case SeeSize => if s.size == 0 then s else s.(consumer := NonEmpty)
    case TakeSlot =>
      if s.slots[s.tail].None? then s.(consumer := Ready)
      else s.(consumer := Took(s.slots[s.tail].value))
    case ClearSlot => s.(slots := s.slots[s.tail := None], consumer := Cleared(s.consumer.item))
    case MoveTail => s.(tail := (s.tail + 1) % n, consumer := Advanced(s.consumer.item))
    case Discount => s.(size := s.size - 1, consumer := Ready, popped := s.popped + [s.consumer.item])
  }

  lemma DoKeepsShape(n: nat, s: State, a: Action)
    requires Shaped(n, s) && Enabled(s, a)
    ensures Shaped(n, Do(n, s, a))
  {
  }

  /** The states that a list of steps leads from one to the other. */
  predicate Steps(n: nat, s: State, acts: seq<Action>, s': State)
    requires Shaped(n, s)
    decreases |acts|
  {
    if acts == [] then s == s'
    else Enabled(s, acts[0]) && (DoKeepsShape(n, s, acts[0]); Steps(n, Do(n, s, acts[0]), acts[1..], s'))
  }

  // ---------------------------------------------------------------- counting producers

  predicate InFlight(p: Producer) {
    p.Reserved? || p.Stored?
  }

  predicate Pending(p: Producer) {
    p.Begun? || p.Checked? || p.Loaded?
  }

  function CountInFlight(ps: seq<Producer>): nat {
    if ps == [] then 0 else (if InFlight(ps[0]) then 1 else 0) + CountInFlight(ps[1..])
  }

  function CountPending(ps: seq<Producer>): nat {
    if ps == [] then 0 else (if Pending(ps[0]) then 1 else 0) + CountPending(ps[1..])
  }

  lemma {:induction false} CountUpdate(ps: seq<Producer>, p: nat, q: Producer)
    requires p < |ps|
    ensures CountInFlight(ps[p := q])
         == CountInFlight(ps) - (if InFlight(ps[p]) then 1 else 0) + (if InFlight(q) then 1 else 0)
    ensures CountPending(ps[p := q])
         == CountPending(ps) - (if Pending(ps[p]) then 1 else 0) + (if Pending(q) then 1 else 0)
  {
    if p == 0 {
      assert ps[p := q][1..] == ps[1..];
    } else {
      CountUpdate(ps[1..], p - 1, q);
      assert ps[p := q][1..] == ps[1..][p - 1 := q];
    }
  }

  lemma {:induction false} CountNone(ps: seq<Producer>)
    ensures (forall p | 0 <= p < |ps| :: !InFlight(ps[p])) ==> CountInFlight(ps) == 0
    ensures (forall p | 0 <= p < |ps| :: !Pending(ps[p])) ==> CountPending(ps) == 0
    ensures CountInFlight(ps) + CountPending(ps) <= |ps|
  {
    if ps != [] {
      CountNone(ps[1..]);
      assert forall p | 0 <= p < |ps| - 1 :: ps[1..][p] == ps[p + 1];
    }
  }

  // ---------------------------------------------------------------- exact accounting, whatever the clients do

  /** How often the tail has moved. */
  function Taken(s: State): nat {
    |s.popped| + if s.consumer.Advanced? then 1 else 0
  }

  /** The counter is the published items that pop has not uncounted; it is at least one while the
      consumer is inside pop, so it never goes below zero. */
  ghost predicate Accounted(n: nat, s: State) {
    && Shaped(n, s)
    && s.head == |s.reserved| % n
    && s.tail == Taken(s) % n
    && s.size == |s.reserved| - |s.popped| - CountInFlight(s.producers)
    && s.size >= (if s.consumer.Ready? then 0 else 1)
  }

  lemma NextIndex(t: nat, n: nat)
    requires n > 0
    ensures (t % n + 1) % n == (t + 1) % n
  {
    var q, r := t / n, t % n;
    NextQuotient(t, q, r, n);
    if r + 1 < n {
      ModIs(t + 1, q, r + 1, n);
      ModIs(r + 1, 0, r + 1, n);
    } else {
      ModIs(t + 1, q + 1, 0, n);
      ModIs(r + 1, 1, 0, n);
    }
  }

  lemma NextQuotient(t: nat, q: nat, r: nat, n: nat)
    requires n > 0 && q == t / n && r == t % n
    ensures r < n && t + 1 == q * n + (r + 1) && (r + 1 == n ==> t + 1 == (q + 1) * n)
  {
    assert t == q * n + r;
  }

  lemma ModIs(x: nat, q: nat, r: nat, n: nat)
    requires n > 0 && r < n && x == q * n + r
    ensures x % n == r
  {
    QuotientIs(x, x / n, x % n, q, r, n);
  }

  /** Quotient and remainder are unique. */
  lemma QuotientIs(x: nat, q': nat, r': nat, q: nat, r: nat, n: nat)
    requires r < n && r' < n && x == q * n + r && x == q' * n + r'
    ensures r' == r
  {
    if q' > q {
      MulGap(q', q, n);
    } else if q > q' {
      MulGap(q, q', n);
    }
  }

  lemma MulGap(a: nat, b: nat, n: nat)
    requires a > b
    ensures a * n >= b * n + n
  {
    assert a * n == b * n + (a - b) * n;
    assert (a - b) * n >= n by {
      var d := a - b;
      assert d * n == n + (d - 1) * n;
    }
  }

  lemma InitAccounted(n: nat, producers: nat)
    requires n > 0
    ensures Accounted(n, Init(n, producers))
  {
    CountNone(Init(n, producers).producers);
  }

  lemma DoAccounted(n: nat, s: State, a: Action)
    requires Accounted(n, s) && Enabled(s, a)
    ensures Accounted(n, Do(n, s, a))
  {
    var s' := Do(n, s, a);
    DoKeepsShape(n, s, a);
    NextIndex(|s.reserved|, n);
    NextIndex(Taken(s), n);
    if a.Begin? || a.CheckSize? || a.LoadHead? || a.TryReserve? || a.FailSpuriously? || a.Store? || a.Publish? {
      CountUpdate(s.producers, a.p, s'.producers[a.p]);
      assert s'.producers == s.producers[a.p := s'.producers[a.p]];
    }
  }

  /** In every reachable state the counter says exactly: tickets reserved, less items popped, less
      producers between reserving and counting. */
  lemma {:induction false} RunAccounted(n: nat, s: State, acts: seq<Action>, s': State)
    requires Accounted(n, s) && Steps(n, s, acts, s')
    ensures Accounted(n, s')
    decreases |acts|
  {
    if acts != [] {
      DoAccounted(n, s, acts[0]);
      RunAccounted(n, Do(n, s, acts[0]), acts[1..], s');
    }
  }
}
