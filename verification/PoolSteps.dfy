/** The pool allocator under interleaving: every atomic step of acquire and release by itself. A failed
    compare-and-swap reloads its index; one that fails although the index matches changes nothing, so it
    is no step here.

    An acquirer passes the check, reserves a slot, reads it and only then uncounts the object; a
    releaser reserves a slot, stores into it and only then counts the object. What an acquirer returns
    may be released by any releaser. */
module PoolSteps {
  import opened CachePool

  datatype Acquirer = Resting | Approved | Aiming(at: nat) | Reserved(slot: nat) | Holding(x: nat)

  datatype Releaser = Idle | Giving(x: nat) | Aimed(x: nat, at: nat) | Promised(x: nat, slot: nat) | Stored

  datatype State = State(
    slots: seq<nat>, head: nat, tail: nat, size: int, held: set<nat>,
    acquirers: seq<Acquirer>, releasers: seq<Releaser>)

  datatype Action =
    | SeeSize(a: nat)
    | LoadHead(a: nat)
    | TryHead(a: nat)
    | LoadSlot(a: nat)
    | Uncount(a: nat)
    | Begin(r: nat, x: nat)
    | LoadTail(r: nat)
    | TryTail(r: nat)
    | Store(r: nat)
    | Count(r: nat)

  function Init(n: nat, acquirers: nat, releasers: nat): State {
    State(seq(n, i => i), 0, 0, n, {}, seq(acquirers, _ => Resting), seq(releasers, _ => Idle))
  }

  predicate Shaped(s: State) {
    && s.head < |s.slots| && s.tail < |s.slots|
    && (forall a | 0 <= a < |s.acquirers| && s.acquirers[a].Reserved? :: s.acquirers[a].slot < |s.slots|)
    && (forall r | 0 <= r < |s.releasers| && s.releasers[r].Promised? :: s.releasers[r].slot < |s.slots|)
  }

  predicate Enabled(s: State, c: Action) {
    match c
    case SeeSize(a) => a < |s.acquirers| && s.acquirers[a].Resting?
    case LoadHead(a) => a < |s.acquirers| && s.acquirers[a].Approved?
    case TryHead(a) => a < |s.acquirers| && s.acquirers[a].Aiming?
    case LoadSlot(a) => a < |s.acquirers| && s.acquirers[a].Reserved?
    case Uncount(a) => a < |s.acquirers| && s.acquirers[a].Holding?
    case Begin(r, x) => r < |s.releasers| && s.releasers[r].Idle? && x in s.held
    case LoadTail(r) => r < |s.releasers| && s.releasers[r].Giving?
    case TryTail(r) => r < |s.releasers| && s.releasers[r].Aimed?
    case Store(r) => r < |s.releasers| && s.releasers[r].Promised?
    case Count(r) => r < |s.releasers| && s.releasers[r].Stored?
  }

  function Do(s: State, c: Action): State
    requires Shaped(s) && Enabled(s, c)
  {
    match c
    case SeeSize(a) =>
      // At zero the original throws.
      if s.size == 0 then s else s.(acquirers := s.acquirers[a := Approved])
    case LoadHead(a) => s.(acquirers := s.acquirers[a := Aiming(s.head)])
    case TryHead(a) =>
      if s.acquirers[a].at != s.head then s.(acquirers := s.acquirers[a := Aiming(s.head)])
      else s.(acquirers := s.acquirers[a := Reserved(s.head)], head := (s.head + 1) % |s.slots|)
    case LoadSlot(a) => s.(acquirers := s.acquirers[a := Holding(s.slots[s.acquirers[a].slot])])
    case Uncount(a) =>
      s.(acquirers := s.acquirers[a := Resting], size := s.size - 1, held := s.held + {s.acquirers[a].x})
    case Begin(r, x) => s.(releasers := s.releasers[r := Giving(x)], held := s.held - {x})
    case LoadTail(r) => s.(releasers := s.releasers[r := Aimed(s.releasers[r].x, s.tail)])
    case TryTail(r) =>
      var x := s.releasers[r].x;
      if s.releasers[r].at != s.tail then s.(releasers := s.releasers[r := Aimed(x, s.tail)])
      else s.(releasers := s.releasers[r := Promised(x, s.tail)], tail := (s.tail + 1) % |s.slots|)
    case Store(r) =>
      var me := s.releasers[r];
      s.(releasers := s.releasers[r := Stored], slots := s.slots[me.slot := me.x])
    case Count(r) => s.(releasers := s.releasers[r := Idle], size := s.size + 1)
  }

  lemma DoKeepsShape(s: State, c: Action)
    requires Shaped(s) && Enabled(s, c)
    ensures Shaped(Do(s, c))
  {
  }

  predicate Steps(s: State, acts: seq<Action>, s': State)
    requires Shaped(s)
    decreases |acts|
  {
    if acts == [] then s == s'
    else Enabled(s, acts[0]) && (DoKeepsShape(s, acts[0]); Steps(Do(s, acts[0]), acts[1..], s'))
  }

  // ---------------------------------------------------------------- owners

  /** Who may use an object: the clients between two calls, an acquirer that has read it, a releaser that
      has not stored it yet. */
  datatype Owner = Clients | Taker(a: nat) | Giver(r: nat)

  predicate Owns(s: State, o: Owner, x: nat) {
    match o
    case Clients => x in s.held
    case Taker(a) => a < |s.acquirers| && s.acquirers[a] == Holding(x)
    case Giver(r) =>
      && r < |s.releasers|
      && (s.releasers[r].Giving? || s.releasers[r].Aimed? || s.releasers[r].Promised?)
      && s.releasers[r].x == x
  }

  ghost predicate SoleOwners(s: State) {
    forall x: nat, o, o' | Owns(s, o, x) && Owns(s, o', x) :: o == o'
  }

  // ---------------------------------------------------------------- one acquirer, one releaser

  /** The slot of the next object to be read, and the slot after the last one stored. */
  function Front(s: State): nat
    requires |s.acquirers| <= 1
  {
    if s.acquirers != [] && s.acquirers[0].Reserved? then s.acquirers[0].slot else s.head
  }

  function Back(s: State): nat
    requires |s.releasers| <= 1
  {
    if s.releasers != [] && s.releasers[0].Promised? then s.releasers[0].slot else s.tail
  }

  function TakerOwns(s: State): set<nat> {
    if s.acquirers != [] && s.acquirers[0].Holding? then {s.acquirers[0].x} else {}
  }

  predicate IsGiver(r: Releaser) {
    r.Giving? || r.Aimed? || r.Promised?
  }

  function GiverOwns(s: State): set<nat> {
    if s.releasers != [] && IsGiver(s.releasers[0]) then {s.releasers[0].x} else {}
  }

  /** The pool that the state stands for: an object changes hands when it is read, and when it is stored. */
  ghost predicate StandsFor(n: nat, s: State, p: PoolState) {
    && Shaped(s) && |s.slots| == n && |s.acquirers| <= 1 && |s.releasers| <= 1
    && Partitioned(n, p)
    && Shares(s, p.held)
    && IsWindow(s.slots, Front(s), p.free)
    && Back(s) == Wrap(n, Front(s) + |p.free|)
    && Counted(n, s, |p.free|)
  }

  /** The objects in use, each with one owner. */
  predicate Shares(s: State, held: set<nat>) {
    && held == s.held + TakerOwns(s) + GiverOwns(s)
    && s.held !! TakerOwns(s) && s.held !! GiverOwns(s) && TakerOwns(s) !! GiverOwns(s)
  }

  /** Indices and counter of a lone acquirer and a lone releaser, with that many objects free. */
  predicate Counted(n: nat, s: State, free: nat)
    requires |s.acquirers| <= 1 && |s.releasers| <= 1
  {
    && (s.acquirers != [] && s.acquirers[0].Reserved? ==> s.head == Wrap(n, Front(s) + 1))
    && (s.releasers != [] && s.releasers[0].Promised? ==> s.tail == Wrap(n, Back(s) + 1))
    && s.size == free + (if s.acquirers != [] && s.acquirers[0].Holding? then 1 else 0)
                      - (if s.releasers != [] && s.releasers[0].Stored? then 1 else 0)
    && s.size >= (if s.acquirers != [] && !s.acquirers[0].Resting? then 1 else 0)
  }

  lemma StandsForIsSole(n: nat, s: State, p: PoolState)
    requires StandsFor(n, s, p)
    ensures SoleOwners(s)
  {
    forall x: nat, o | Owns(s, o, x)
      ensures o == if x in s.held then Clients else if x in TakerOwns(s) then Taker(0) else Giver(0)
    {
    }
  }

  /** What a step does to that pool. */
  function Effect(s: State, c: Action, p: PoolState): PoolState
    requires Enabled(s, c)
  {
    match c
    case LoadSlot(_) => Next(p, Take)
    case Store(r) => Next(p, Give(s.releasers[r].x))
    case _ => p
  }

  lemma StepShares(s: State, c: Action, held: set<nat>)
    requires Shaped(s) && Enabled(s, c) && |s.acquirers| <= 1 && |s.releasers| <= 1 && Shares(s, held)
    requires c.LoadSlot? ==> s.slots[s.acquirers[c.a].slot] !in held
    ensures Shares(Do(s, c), match c
                             case LoadSlot(a) => held + {s.slots[s.acquirers[a].slot]}
                             case Store(r) => held - {s.releasers[r].x}
                             case _ => held)
  {
  }

  predicate IsAcquiring(c: Action) {
    c.SeeSize? || c.LoadHead? || c.TryHead? || c.LoadSlot? || c.Uncount?
  }

  /** How many objects are free after a step. */
  function FreeAfter(c: Action, free: nat): int {
    if c.LoadSlot? then free - 1 else if c.Store? then free + 1 else free
  }

  ghost predicate CountsOn(n: nat, s: State, c: Action, free: nat, s': State)
    requires |s.acquirers| <= 1 && |s.releasers| <= 1
  {
    && |s'.acquirers| <= 1 && |s'.releasers| <= 1
    && FreeAfter(c, free) >= 0 && Counted(n, s', FreeAfter(c, free))
    && Front(s') == (if c.LoadSlot? then Wrap(n, Front(s) + 1) else Front(s))
    && Back(s') == (if c.Store? then Wrap(n, Back(s) + 1) else Back(s))
  }

  lemma AcquiringCounts(n: nat, s: State, c: Action, free: nat)
    requires Shaped(s) && Enabled(s, c) && |s.slots| == n && |s.acquirers| <= 1 && |s.releasers| <= 1
    requires Counted(n, s, free) && IsAcquiring(c)
    ensures CountsOn(n, s, c, free, Do(s, c))
  {
    WrapIs(n, s.head);
  }

  lemma ReleasingCounts(n: nat, s: State, c: Action, free: nat)
    requires Shaped(s) && Enabled(s, c) && |s.slots| == n && |s.acquirers| <= 1 && |s.releasers| <= 1
    requires Counted(n, s, free) && !IsAcquiring(c)
    ensures CountsOn(n, s, c, free, Do(s, c))
  {
    WrapIs(n, s.tail);
  }

  lemma StepCounts(n: nat, s: State, c: Action, free: nat)
    requires Shaped(s) && Enabled(s, c) && |s.slots| == n && |s.acquirers| <= 1 && |s.releasers| <= 1
    requires Counted(n, s, free)
    ensures CountsOn(n, s, c, free, Do(s, c))
  {
    if IsAcquiring(c) {
      AcquiringCounts(n, s, c, free);
    } else {
      ReleasingCounts(n, s, c, free);
    }
  }

  lemma LoadTakesFirst(n: nat, s: State, c: Action, p: PoolState)
    requires StandsFor(n, s, p) && Enabled(s, c) && c.LoadSlot?
    ensures p.free != [] && s.slots[s.acquirers[c.a].slot] == p.free[0] && p.free[0] !in p.held
    ensures IsWindow(s.slots, Wrap(n, Front(s) + 1), p.free[1..]) && Partitioned(n, Next(p, Take))
  {
    StepCounts(n, s, c, |p.free|);
    TakeFromWindow(s.slots, Front(s), p.free);
    StepStaysPartitioned(n, p, Take);
    assert p.free[0] in p.free;
  }

  lemma LoadStandsFor(n: nat, s: State, c: Action, p: PoolState)
    requires StandsFor(n, s, p) && Enabled(s, c) && c.LoadSlot?
    ensures p.free != [] && s.slots[s.acquirers[c.a].slot] == p.free[0]
    ensures StandsFor(n, Do(s, c), Next(p, Take))
  {
    DoKeepsShape(s, c);
    LoadTakesFirst(n, s, c, p);
    StepCounts(n, s, c, |p.free|);
    assert Shares(Do(s, c), Next(p, Take).held) by {
      StepShares(s, c, p.held);
    }
    WindowWraps(n, Front(s), |p.free|);
  }

  lemma WindowWraps(n: nat, front: nat, free: nat)
    requires front < n && 0 < free <= n
    ensures Wrap(n, Wrap(n, front + 1) + (free - 1)) == Wrap(n, front + free)
  {
  }

  lemma StoreStandsFor(n: nat, s: State, c: Action, p: PoolState)
    requires StandsFor(n, s, p) && Enabled(s, c) && c.Store?
    ensures s.releasers[c.r].x in p.held
    ensures StandsFor(n, Do(s, c), Next(p, Give(s.releasers[c.r].x)))
  {
    var x := s.releasers[c.r].x;
    assert x in GiverOwns(s);
    DoKeepsShape(s, c);
    StepCounts(n, s, c, |p.free|);
    assert IsWindow(Do(s, c).slots, Front(s), p.free + [x]) by {
      RoomToGive(n, p, x);
      GiveToWindow(s.slots, Front(s), p.free, x);
    }
    assert Partitioned(n, Next(p, Give(x))) by {
      StepStaysPartitioned(n, p, Give(x));
    }
    assert Shares(Do(s, c), p.held - {x}) by {
      StepShares(s, c, p.held);
    }
  }

  lemma QuietStandsFor(n: nat, s: State, c: Action, p: PoolState)
    requires StandsFor(n, s, p) && Enabled(s, c) && !c.LoadSlot? && !c.Store?
    ensures StandsFor(n, Do(s, c), p)
  {
    DoKeepsShape(s, c);
    StepCounts(n, s, c, |p.free|);
    StepShares(s, c, p.held);
  }

  /** Each step of the interleaving is one call on that pool, or none; what is read is the first free
      object, and what is stored was in use. */
  lemma StepStandsFor(n: nat, s: State, c: Action, p: PoolState)
    requires StandsFor(n, s, p) && Enabled(s, c)
    ensures StandsFor(n, Do(s, c), Effect(s, c, p))
    ensures c.LoadSlot? ==> p.free != [] && s.slots[s.acquirers[c.a].slot] == p.free[0]
    ensures c.Store? ==> s.releasers[c.r].x in p.held
  {
    if c.LoadSlot? {
      LoadStandsFor(n, s, c, p);
    } else if c.Store? {
      StoreStandsFor(n, s, c, p);
    } else {
      QuietStandsFor(n, s, c, p);
    }
  }

  /** The calls that a run amounts to: an acquire at each read of a slot, a release at each store. */
  function Calls(s: State, acts: seq<Action>): seq<Call>
    requires Shaped(s)
    decreases |acts|
  {
    if acts == [] || !Enabled(s, acts[0]) then []
    else
      DoKeepsShape(s, acts[0]);
      var now := match acts[0]
        case LoadSlot(_) => [Take]
        case Store(r) => [Give(s.releasers[r].x)]
        case _ => [];
      now + Calls(Do(s, acts[0]), acts[1..])
  }

  /** The objects that acquirers read, in the order of their reads. */
  function ObjectsRead(s: State, acts: seq<Action>): seq<nat>
    requires Shaped(s)
    decreases |acts|
  {
    if acts == [] || !Enabled(s, acts[0]) then []
    else
      DoKeepsShape(s, acts[0]);
      (if acts[0].LoadSlot? then [s.slots[s.acquirers[acts[0].a].slot]] else [])
      + ObjectsRead(Do(s, acts[0]), acts[1..])
  }

  lemma InitStandsFor(n: nat, acquirers: nat, releasers: nat)
    requires n > 0 && acquirers <= 1 && releasers <= 1
    ensures StandsFor(n, Init(n, acquirers, releasers), Fresh(n))
  {
    FreshIsPartitioned(n);
  }

  /** One acquirer interleaved with one releaser is the pool used by one caller at a time: the same
      objects come out, in the same order, and no object has two owners at any step. */
  lemma {:induction false} RunRefines(n: nat, s: State, acts: seq<Action>, s': State, p: PoolState)
    requires StandsFor(n, s, p) && Steps(s, acts, s')
    ensures LegalRun(p, Calls(s, acts)) && StandsFor(n, s', Run(p, Calls(s, acts))) && SoleOwners(s')
    ensures ObjectsRead(s, acts) == HandedOut(p, Calls(s, acts))
    decreases |acts|
  {
    if acts == [] {
      StandsForIsSole(n, s, p);
    } else {
      var t, q, rest := Do(s, acts[0]), Effect(s, acts[0], p), acts[1..];
      StepStandsFor(n, s, acts[0], p);
      RunRefines(n, t, rest, s', q);
      match acts[0]
      case LoadSlot(_) =>
        assert Calls(s, acts) == [Take] + Calls(t, rest);
      case Store(r) =>
        assert Calls(s, acts) == [Give(s.releasers[r].x)] + Calls(t, rest);
      case _ =>
        assert Calls(s, acts) == Calls(t, rest);
    }
  }
}
