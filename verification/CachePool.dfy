/** The pool allocator: a ring of pointers to the free objects. Object i of the pool is named i. */
module CachePool {
  import opened Common

  // ---------------------------------------------------------------- what a pool is

  /** The free objects in the order in which they will be handed out, and the ones in use. */
  datatype PoolState = PoolState(free: seq<nat>, held: set<nat>)

  datatype Call = Take | Give(x: nat)

  /** Each of the n objects is either free, once, or in use. */
  ghost predicate Partitioned(n: nat, s: PoolState) {
    Distinct(s.free) && forall x: nat :: if x < n then x in s.free <==> x !in s.held else x !in s.free && x !in s.held
  }

  function Fresh(n: nat): PoolState {
    PoolState(seq(n, i => i), {})
  }

  predicate Legal(s: PoolState, c: Call) {
    c.Give? ==> c.x in s.held
  }

  function Next(s: PoolState, c: Call): PoolState {
    match c
    case Take => if s.free == [] then s else PoolState(s.free[1..], s.held + {s.free[0]})
    case Give(x) => PoolState(s.free + [x], s.held - {x})
  }

  predicate LegalRun(s: PoolState, calls: seq<Call>)
    decreases |calls|
  {
    calls == [] || (Legal(s, calls[0]) && LegalRun(Next(s, calls[0]), calls[1..]))
  }

  function Run(s: PoolState, calls: seq<Call>): PoolState
    decreases |calls|
  {
    if calls == [] then s else Run(Next(s, calls[0]), calls[1..])
  }

  /** The objects handed out, and those given back, in order. */
  function HandedOut(s: PoolState, calls: seq<Call>): seq<nat>
    decreases |calls|
  {
    if calls == [] then []
    else (if calls[0].Take? && s.free != [] then [s.free[0]] else []) + HandedOut(Next(s, calls[0]), calls[1..])
  }

  function GivenBack(calls: seq<Call>): seq<nat> {
    if calls == [] then []
    else (if calls[0].Give? then [calls[0].x] else []) + GivenBack(calls[1..])
  }

  lemma FreshIsPartitioned(n: nat)
    ensures Partitioned(n, Fresh(n))
  {
    forall x: nat ensures x < n <==> x in Fresh(n).free {
      assert x < n ==> Fresh(n).free[x] == x;
    }
  }

  lemma StepStaysPartitioned(n: nat, s: PoolState, c: Call)
    requires Partitioned(n, s) && Legal(s, c)
    ensures Partitioned(n, Next(s, c))
  {
    if c.Take? && s.free != [] {
      assert s.free == [s.free[0]] + s.free[1..];
      assert s.free[0] !in s.free[1..];
    }
  }

  /** No object ever has two owners, and none is lost. */
  lemma {:induction false} RunStaysPartitioned(n: nat, s: PoolState, calls: seq<Call>)
    requires Partitioned(n, s) && LegalRun(s, calls)
    ensures Partitioned(n, Run(s, calls))
    decreases |calls|
  {
    if calls != [] {
      StepStaysPartitioned(n, s, calls[0]);
      RunStaysPartitioned(n, Next(s, calls[0]), calls[1..]);
    }
  }

  /** What is handed out, and then what is free, is what was free at first and then what came back: an
      object given back waits for all that were free before it. */
  lemma {:induction false} FirstBackFirstOut(s: PoolState, calls: seq<Call>)
    ensures HandedOut(s, calls) + Run(s, calls).free == s.free + GivenBack(calls)
    decreases |calls|
  {
    if calls != [] {
      var s', rest := Next(s, calls[0]), calls[1..];
      FirstBackFirstOut(s', rest);
      match calls[0]
      case Take =>
        if s.free != [] {
          assert s.free + GivenBack(calls) == [s.free[0]] + (s'.free + GivenBack(rest));
          assert HandedOut(s, calls) == [s.free[0]] + HandedOut(s', rest);
        }
      case Give(x) =>
        assert s.free + GivenBack(calls) == s'.free + GivenBack(rest);
    }
  }

  /** While an object is in use, the ring has a slot to spare for it. */
  lemma RoomToGive(n: nat, s: PoolState, x: nat)
    requires Partitioned(n, s) && x in s.held
    ensures |s.free| < n
  {
    forall i | 0 <= i < |s.free + [x]| ensures (s.free + [x])[i] < n {
      assert i < |s.free| ==> s.free[i] in s.free;
    }
    assert x < n && x !in s.free;
    PigeonHole(s.free + [x], n);
  }

  // ---------------------------------------------------------------- the ring

  /** An index that has run past the end of the ring by less than its length. */
  function Wrap(n: nat, i: nat): nat {
    if i < n then i else i - n
  }

  ghost predicate IsWindow(ring: seq<nat>, front: nat, free: seq<nat>) {
    && front < |ring| && |free| <= |ring|
    && forall k {:trigger free[k]} | 0 <= k < |free| :: ring[Wrap(|ring|, front + k)] == free[k]
  }

  lemma WrapIs(n: nat, i: nat)
    requires i < n
    ensures (i + 1) % n == Wrap(n, i + 1)
  {
  }

  lemma TakeFromWindow(ring: seq<nat>, front: nat, free: seq<nat>)
    requires IsWindow(ring, front, free) && free != []
    ensures ring[front] == free[0]
    ensures IsWindow(ring, Wrap(|ring|, front + 1), free[1..])
  {
    var n := |ring|;
    var front' := Wrap(n, front + 1);
    assert ring[Wrap(n, front + 0)] == free[0];
    forall k | 0 <= k < |free| - 1 ensures ring[Wrap(n, front' + k)] == free[1..][k] {
      assert free[1..][k] == free[k + 1] && Wrap(n, front' + k) == Wrap(n, front + (k + 1));
    }
  }

  lemma GiveToWindow(ring: seq<nat>, front: nat, free: seq<nat>, x: nat)
    requires IsWindow(ring, front, free) && |free| < |ring|
    ensures IsWindow(ring[Wrap(|ring|, front + |free|) := x], front, free + [x])
  {
  }

  class Pool {
    const items: array<nat>
    var head: nat
    var tail: nat
    var size: nat
    ghost var view: PoolState

    ghost predicate Valid()
      reads this, items
    {
      && IsWindow(items[..], head, view.free)
      && size == |view.free|
      && tail == Wrap(items.Length, head + size)
      && Partitioned(items.Length, view)
    }

    constructor (n: nat)
      requires n > 0
      ensures Valid() && fresh(items) && items.Length == n && view == Fresh(n)
      ensures |view.free| == n && view.held == {} && forall i | 0 <= i < n :: view.free[i] == i
    {
      items := new nat[n];
      head, tail, size := 0, 0, n;
      view := Fresh(n);
      new;
      for i := 0 to n
        modifies items
        invariant forall k | 0 <= k < i :: items[k] == k
      {
        items[i] := i;
      }
      FreshIsPartitioned(n);
    }

    /** No object where the original throws. */
    method Acquire() returns (item: Option<nat>)
      requires Valid()
      modifies this
      ensures Valid() && view == Next(old(view), Take)
      ensures old(view).free == [] ==> item.None?
      ensures old(view).free != [] ==> item == Some(old(view).free[0]) && item.value !in old(view).held
    {
      if size == 0 {
        return None;
      }
      var at := head;
      WrapIs(items.Length, at);
      head := (at + 1) % items.Length;
      item := Some(items[at]);
      size := size - 1;
      StepStaysPartitioned(items.Length, view, Take);
      TakeFromWindow(items[..], at, view.free);
      assert view.free[0] in view.free;
      view := Next(view, Take);
    }

    /** The null pointer is refused. */
    method Release(item: Option<nat>) returns (ok: bool)
      requires Valid() && (item.Some? ==> item.value in view.held)
      modifies this, items
      ensures Valid() && ok == item.Some?
      ensures view == if ok then Next(old(view), Give(item.value)) else old(view)
    {
      if item.None? {
        return false;
      }
      RoomToGive(items.Length, view, item.value);
      StepStaysPartitioned(items.Length, view, Give(item.value));
      GiveToWindow(items[..], head, view.free, item.value);
      var at := tail;
      WrapIs(items.Length, at);
      tail := (at + 1) % items.Length;
      ghost var ring := items[..];
      items[at] := item.value;
      assert items[..] == ring[at := item.value];
      size := size + 1;
      view := Next(view, Give(item.value));
      return true;
    }
  }
}
