/** The ring as an object, push and pop written out as they update its fields. Called one at a time it is
    a bounded first-in first-out queue. The ghost field `steps` is the state of the interleaving model
    that the object is in, and a whole call is a run of its steps. */
module MpscRing {
  import opened Common
  import opened MpscQueue
  import opened MpscSafety

  // ---------------------------------------------------------------- a call without interleaving

  lemma TakeStep(n: nat, s: State, a: Action) returns (s': State)
    requires Safe(n, s) && Allowed(n, s, a)
    ensures s' == Do(n, s, a) && Safe(n, s')
  {
    StepSafe(n, s, a);
    s' := Do(n, s, a);
  }

  lemma PushBegins(n: nat, s: State, p: nat, item: Item) returns (s': State)
    requires Safe(n, s) && p < |s.producers| && s.producers[p].Idle? && Outstanding(s) < n && s.size < n
    ensures Safe(n, s') && s' == s.(producers := s.producers[p := Loaded(item, s.head)])
  {
    s' := TakeStep(n, s, Begin(p, item));
    s' := TakeStep(n, s', CheckSize(p));
    s' := TakeStep(n, s', LoadHead(p));
    assert s'.producers == s.producers[p := Loaded(item, s.head)];
  }

  lemma PushEnds(n: nat, s: State, p: nat) returns (s': State)
    requires Safe(n, s) && p < |s.producers| && s.producers[p].Loaded? && s.producers[p].current == s.head
    ensures Safe(n, s')
    ensures s' == s.(head := (s.head + 1) % n, size := s.size + 1, producers := s.producers[p := Idle],
                     slots := s.slots[s.head := Some(s.producers[p].item)],
                     reserved := s.reserved + [s.producers[p].item])
  {
    s' := TakeStep(n, s, TryReserve(p));
    s' := TakeStep(n, s', Store(p));
    s' := TakeStep(n, s', Publish(p));
    assert s'.producers == s.producers[p := Idle];
  }

  lemma PushAlone(n: nat, s: State, p: nat, item: Item) returns (s': State)
    requires Safe(n, s) && p < |s.producers| && s.producers[p].Idle? && Outstanding(s) < n && s.size < n
    ensures Safe(n, s')
    ensures s' == s.(head := (s.head + 1) % n, size := s.size + 1,
                     slots := s.slots[s.head := Some(item)], reserved := s.reserved + [item])
  {
    s' := PushBegins(n, s, p, item);
    s' := PushEnds(n, s', p);
    assert s'.producers == s.producers;
  }

  /** With nobody inside push, the slot at the tail is filled as long as the counter is positive. */
  lemma PopTakes(n: nat, s: State) returns (s': State)
    requires Safe(n, s) && s.consumer.Ready? && s.size > 0
    requires forall p | 0 <= p < |s.producers| :: s.producers[p].Idle?
    ensures |s.popped| < |s.reserved| && s.slots[s.tail] == Some(s.reserved[|s.popped|])
    ensures Safe(n, s') && s' == s.(consumer := Took(s.reserved[|s.popped|]))
  {
    CountNone(s.producers);
    assert s.slots[Taken(s) % n] == Content(s, Taken(s));
    s' := TakeStep(n, s, SeeSize);
    s' := TakeStep(n, s', TakeSlot);
  }

  lemma PopLeaves(n: nat, s: State) returns (s': State)
    requires Safe(n, s) && s.consumer.Took?
    ensures Safe(n, s')
    ensures s' == s.(tail := (s.tail + 1) % n, size := s.size - 1, slots := s.slots[s.tail := None],
                     consumer := Ready, popped := s.popped + [s.consumer.item])
  {
    s' := TakeStep(n, s, ClearSlot);
    s' := TakeStep(n, s', MoveTail);
    s' := TakeStep(n, s', Discount);
  }

  // ---------------------------------------------------------------- the object

  class Ring {
    const capacity: nat
    const slots: array<Option<Item>>
    var head: nat
    var tail: nat
    var size: int
    ghost var steps: State

    /** The fields are those of the model. */
    ghost predicate Mirrors()
      reads this, slots
    {
      && capacity > 0 && Safe(capacity, steps)
      && slots[..] == steps.slots && head == steps.head && tail == steps.tail && size == steps.size
    }

    /** Nobody is inside push or pop. */
    ghost predicate Valid()
      reads this, slots
    {
      && Mirrors() && steps.consumer.Ready?
      && forall p | 0 <= p < |steps.producers| :: steps.producers[p].Idle?
    }

    ghost function Contents(): seq<Item>
      reads this, slots
      requires Mirrors()
    {
      steps.reserved[|steps.popped|..]
    }

    constructor (n: nat, producers: nat)
      requires n > 0
      ensures Valid() && fresh(slots) && capacity == n && |steps.producers| == producers && Contents() == []
    {
      capacity := n;
      slots := new Option<Item>[n](_ => None);
      head, tail, size := 0, 0, 0;
      steps := Init(n, producers);
      new;
      InitSafe(n, producers);
      assert slots[..] == steps.slots;
    }

    /** Refused, with nothing changed, where the original throws. */
    method Push(p: nat, item: Item) returns (ok: bool)
      requires Valid() && p < |steps.producers|
      modifies this, slots
      ensures Valid() && |steps.producers| == old(|steps.producers|)
      ensures ok == (|old(Contents())| < capacity)
      ensures Contents() == if ok then old(Contents()) + [item] else old(Contents())
    {
      CountNone(steps.producers);
      if size == capacity {
        return false;
      }
      steps := PushAlone(capacity, steps, p, item);
      var at := head;
      head := (at + 1) % capacity;
      slots[at] := Some(item);
      size := size + 1;
      return true;
    }

    /** Nothing on an empty ring. */
    method Pop() returns (item: Option<Item>)
      requires Valid()
      modifies this, slots
      ensures Valid() && |steps.producers| == old(|steps.producers|)
      ensures old(Contents()) == [] ==> item == None && Contents() == []
      ensures old(Contents()) != [] ==> item == Some(old(Contents())[0]) && Contents() == old(Contents())[1..]
    {
      CountNone(steps.producers);
      if size == 0 {
        return None;
      }
      steps := PopTakes(capacity, steps);
      var at := tail;
      item := slots[at];
      if item.None? {
        return None;
      }
      steps := PopLeaves(capacity, steps);
      slots[at] := None;
      tail := (at + 1) % capacity;
      size := size - 1;
    }
  }
}
