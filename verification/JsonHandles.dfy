/** Handles to counted objects, as operations that update the objects one after the other. */
module JsonHandles {
  import opened Common
  import opened RefCount
  import opened RefCountTheorems
  import opened RefCountReach

  /** The objects of the pool and the handles that variables hold. */
  class JsonHeap {
    var nodes: seq<Node>
    var roots: seq<Handle>

    constructor (n: nat, variables: nat)
      ensures nodes == seq(n, _ => Node(0, [])) && roots == seq(variables, _ => Nothing)
    {
      nodes := seq(n, _ => Node(0, []));
      roots := seq(variables, _ => Nothing);
    }

    function View(): Heap
      reads this
    {
      Heap(nodes, roots)
    }

    /** The destructor of a handle. */
    method Release(h: Handle)
      requires Closed(nodes) && Named(nodes, [h])
      modifies this`nodes
      ensures nodes == Drop(old(nodes), [h])
      decreases LiveCount(nodes), 0
    {
      if h.Object? {
        assert [h][0] == h;
        var id, node := h.id, nodes[h.id];
        RecountLives(nodes, id);
        nodes := nodes[id := node.(count := node.count - 1)];
        if node.count == 1 {
          nodes := nodes[id := Node(0, [])];
          assert nodes == Recount(old(nodes), id);
          ReleaseAll(node.slots);
        }
        assert Orphans(old(nodes), id) + [h][1..] == Orphans(old(nodes), id);
      }
    }

    /** Emptying a container. */
    method ReleaseAll(hs: seq<Handle>)
      requires Closed(nodes) && Named(nodes, hs)
      modifies this`nodes
      ensures nodes == Drop(old(nodes), hs)
      decreases LiveCount(nodes), 1
    {
      for i := 0 to |hs|
        invariant Closed(nodes) && |nodes| == |old(nodes)| && LiveCount(nodes) <= old(LiveCount(nodes))
        invariant Drop(nodes, hs[i..]) == Drop(old(nodes), hs)
      {
        assert hs[i..] == [hs[i]] + hs[i + 1..];
        DropConcat(nodes, [hs[i]], hs[i + 1..]);
        Release(hs[i]);
      }
    }

    method Store(p: Place, h: Handle)
      requires Has(View(), p)
      modifies this
      ensures View() == With(old(View()), p, h)
    {
      match p
      case Root(i) => roots := roots[i := h];
      case Slot(u, k) => nodes := nodes[u := nodes[u].(slots := nodes[u].slots[k := h])];
    }

    /** The handle is empty; without cycles, exactly what no other handle leads to has gone. */
    method Clear(p: Place)
      requires Exact(View()) && Has(View(), p)
      modifies this
      ensures View() == Empty(old(View()), p) && Exact(View())
      ensures Acyclic(old(nodes)) ==> forall q | Has(old(View()), q) ::
                Has(View(), q) <==> Anchored(With(old(View()), p, Nothing), q)
      ensures Untouched(old(View()), View(), {p}) && (Has(View(), p) ==> At(View(), p) == Nothing)
    {
      ghost var s, h := View(), At(View(), p);
      EmptyOutcome(s, p);
      EmptyIsSound(s, p);
      if Acyclic(nodes) {
        forall q | Has(s, q) ensures Has(Empty(s, p), q) <==> Anchored(With(s, p, Nothing), q) {
          SurvivesExactly(s, p, q);
        }
      }
      var held := At(View(), p);
      Store(p, Nothing);
      Release(held);
    }

    method Retain(h: Handle)
      requires Named(nodes, [h])
      modifies this`nodes
      ensures nodes == RefCount.Retain(old(nodes), h)
    {
      if h.Object? {
        assert [h][0] == h;
        nodes := nodes[h.id := nodes[h.id].(count := nodes[h.id].count + 1)];
      }
    }

    /** Not ok where the original reads freed memory: without cycles, exactly where no handle leads to the
        source once the target is emptied. Else the target holds what the source held. */
    method CopyAssign(target: Place, source: Place) returns (ok: bool)
      requires Exact(View()) && Has(View(), target) && Has(View(), source)
      modifies this
      ensures Exact(View()) && ok == Assign(old(View()), target, source).Some?
      ensures ok ==> View() == Assign(old(View()), target, source).value
      ensures ok ==> Has(View(), target) && At(View(), target) == At(old(View()), source)
      ensures ok ==> Has(View(), source) && At(View(), source) == At(View(), target)
      ensures ok ==> Untouched(old(View()), View(), {target})
      ensures Acyclic(old(nodes)) && target != source ==>
                (ok <==> Anchored(With(old(View()), target, Nothing), source))
    {
      AssignOutcome(View(), target, source);
      ok := ReleaseAndCopy(target, source);
      if !ok {
        EmptyStaysExact(old(View()), target);
      }
    }

    method ReleaseAndCopy(target: Place, source: Place) returns (ok: bool)
      requires Exact(View()) && Has(View(), target) && Has(View(), source)
      modifies this
      ensures ok == Assign(old(View()), target, source).Some?
      ensures View() == if ok then Assign(old(View()), target, source).value else Empty(old(View()), target)
    {
      if target == source {
        return true;
      }
      Clear(target);
      if !Has(View(), target) || !Has(View(), source) {
        return false;
      }
      var h := At(View(), source);
      HandlesAreNamed(View(), source);
      Retain(h);
      Store(target, h);
      return true;
    }

    /** As a copy, but the source is empty afterwards. */
    method MoveAssign(target: Place, source: Place) returns (ok: bool)
      requires Exact(View()) && Has(View(), target) && Has(View(), source)
      modifies this
      ensures Exact(View()) && ok == Move(old(View()), target, source).Some?
      ensures ok ==> View() == Move(old(View()), target, source).value
      ensures ok ==> Has(View(), target) && At(View(), target) == At(old(View()), source)
      ensures ok && target != source ==> Has(View(), source) && At(View(), source) == Nothing
      ensures ok ==> Untouched(old(View()), View(), {target, source})
      ensures Acyclic(old(nodes)) && target != source ==>
                (ok <==> Anchored(With(old(View()), target, Nothing), source))
    {
      MoveOutcome(View(), target, source);
      ok := ReleaseAndTake(target, source);
      if !ok {
        EmptyStaysExact(old(View()), target);
      }
    }

    method ReleaseAndTake(target: Place, source: Place) returns (ok: bool)
      requires Exact(View()) && Has(View(), target) && Has(View(), source)
      modifies this
      ensures ok == Move(old(View()), target, source).Some?
      ensures View() == if ok then Move(old(View()), target, source).value else Empty(old(View()), target)
    {
      if target == source {
        return true;
      }
      Clear(target);
      if !Has(View(), target) || !Has(View(), source) {
        return false;
      }
      var h := At(View(), source);
      Store(source, Nothing);
      Store(target, h);
      return true;
    }

    /** A plain value: what the target held is released. */
    method AssignPlain(target: Place) returns (ok: bool)
      requires Exact(View()) && Has(View(), target)
      modifies this
      ensures Exact(View()) && ok == Overwrite(old(View()), target).Some?
      ensures ok ==> View() == Overwrite(old(View()), target).value && At(View(), target) == Leaf
      ensures ok ==> Untouched(old(View()), View(), {target})
      ensures Acyclic(old(nodes)) ==> ok
    {
      ghost var s := View();
      if Acyclic(nodes) {
        TargetIsAnchored(s, target);
        SurvivesExactly(s, target, target);
      }
      if Overwrite(s, target).Some? {
        OverwriteStaysExact(s, target);
        OverwriteLeavesAlone(s, target);
      }
      Clear(target);
      if !Has(View(), target) {
        return false;
      }
      Store(target, Leaf);
      return true;
    }

    /** The target holds the only handle to a new empty object, and every other place what it held. */
    method CreateObject(target: Place, id: nat)
      requires Exact(View()) && Has(View(), target) && !At(View(), target).Object?
      requires id < |nodes| && nodes[id] == Node(0, [])
      modifies this
      ensures View() == Create(old(View()), target, id) && Exact(View())
      ensures Has(View(), target) && At(View(), target) == Object(id)
      ensures nodes[id].slots == [] && Occurs(roots, id) + SlotRefs(nodes, id) == 1
      ensures forall q | q != target && Has(old(View()), q) :: Has(View(), q) && At(View(), q) == At(old(View()), q)
    {
      ghost var s := View();
      CreateStaysExact(s, target, id);
      CreateLeavesAlone(s, target, id);
      nodes := nodes[id := Node(1, [])];
      Store(target, Object(id));
    }

    /** One more slot, empty, and every other place as it was. */
    method AddSlot(u: nat)
      requires Exact(View()) && u < |nodes| && nodes[u].count > 0
      modifies this
      ensures View() == Grow(old(View()), u) && Exact(View())
      ensures Has(View(), Slot(u, |old(nodes)[u].slots|)) && At(View(), Slot(u, |old(nodes)[u].slots|)) == Nothing
      ensures forall q | Has(old(View()), q) :: Has(View(), q) && At(View(), q) == At(old(View()), q)
      ensures forall q | Has(View(), q) :: Has(old(View()), q) || q == Slot(u, |old(nodes)[u].slots|)
    {
      GrowStaysExact(View(), u);
      nodes := nodes[u := nodes[u].(slots := nodes[u].slots + [Nothing])];
    }

    /** A slot taken out, and what it held released. The slots behind it move up, and no other handle changes. */
    method RemoveSlot(u: nat, k: nat)
      requires Exact(View()) && Has(View(), Slot(u, k))
      modifies this
      ensures View() == Remove(old(View()), u, k) && Exact(View())
      ensures |roots| == |old(roots)| && forall q | Has(View(), q) ::
                Has(old(View()), Behind(q, u, k)) && At(View(), q) == At(old(View()), Behind(q, u, k))
    {
      RemoveStaysExact(View(), u, k);
      RemoveLeavesAlone(View(), u, k);
      RemoveIsSound(View(), u, k);
      var h, slots := nodes[u].slots[k], nodes[u].slots;
      nodes := nodes[u := nodes[u].(slots := slots[..k] + slots[k + 1..])];
      Release(h);
    }
  }

  lemma EmptyOutcome(s: Heap, p: Place)
    requires Exact(s) && Has(s, p)
    ensures var r := Empty(s, p); Exact(r) && Untouched(s, r, {p}) && (Has(r, p) ==> At(r, p) == Nothing)
  {
    EmptyStaysExact(s, p);
    EmptyLeavesAlone(s, p);
    if Has(Empty(s, p), p) {
      TargetIsEmpty(s, p);
    }
  }

  lemma AssignOutcome(s: Heap, target: Place, source: Place)
    requires Exact(s) && Has(s, target) && Has(s, source)
    ensures var r := Assign(s, target, source);
            && (r.Some? ==> Exact(r.value) && Has(r.value, target) && At(r.value, target) == At(s, source))
            && (r.Some? ==> && Untouched(s, r.value, {target})
                            && Has(r.value, source) && At(r.value, source) == At(s, source))
            && (Acyclic(s.nodes) && target != source ==> (r.Some? <==> Anchored(With(s, target, Nothing), source)))
  {
    if Assign(s, target, source).Some? {
      AssignStaysExact(s, target, source);
      AssignLeavesAlone(s, target, source);
    }
    if Acyclic(s.nodes) && target != source {
      AssignExactly(s, target, source);
    }
  }

  lemma MoveOutcome(s: Heap, target: Place, source: Place)
    requires Exact(s) && Has(s, target) && Has(s, source)
    ensures var r := Move(s, target, source);
            && (r.Some? ==> && Exact(r.value) && Has(r.value, target) && At(r.value, target) == At(s, source)
                            && Untouched(s, r.value, {target, source})
                            && (target != source ==> Has(r.value, source) && At(r.value, source) == Nothing))
            && (Acyclic(s.nodes) && target != source ==> (r.Some? <==> Anchored(With(s, target, Nothing), source)))
  {
    if Move(s, target, source).Some? {
      MoveStaysExact(s, target, source);
      MoveLeavesAlone(s, target, source);
    }
    if Acyclic(s.nodes) && target != source {
      AssignExactly(s, target, source);
    }
  }

  lemma CreateLeavesAlone(s: Heap, target: Place, id: nat)
    requires Exact(s) && Has(s, target) && !At(s, target).Object? && id < |s.nodes| && s.nodes[id] == Node(0, [])
    ensures var r := Create(s, target, id);
            && |r.nodes| == |s.nodes| && r.nodes[id] == Node(1, [])
            && forall q | q != target && Has(s, q) :: Has(r, q) && At(r, q) == At(s, q)
  {
    var t := s.(nodes := s.nodes[id := Node(1, [])]);
    assert forall q | Has(s, q) :: Has(t, q) && At(t, q) == At(s, q);
  }
}
