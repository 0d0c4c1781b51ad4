/** What counting keeps: over every run of creating, growing, copying, moving and clearing, the counts are
    exact, and an object is returned to the pool at most once. */
module RefCountTheorems {
  import opened Common
  import opened RefCount

  /** Each object counts the handles outside and the slots that refer to it, and a free one is empty. */
  ghost predicate Counted(nodes: seq<Node>, outside: seq<Handle>) {
    && Closed(nodes) && Named(nodes, outside)
    && forall id: nat {:trigger nodes[id]} | id < |nodes| ::
         && nodes[id].count == Occurs(outside, id) + SlotRefs(nodes, id)
         && (nodes[id].count == 0 ==> nodes[id].slots == [])
  }

  lemma StepStaysCounted(nodes: seq<Node>, work: seq<Handle>, outside: seq<Handle>)
    requires Counted(nodes, work + outside) && work != [] && work[0].Object?
    ensures work[0].id < |nodes| && nodes[work[0].id].count > 0
    ensures var id := work[0].id; Counted(Recount(nodes, id), Orphans(nodes, id) + work[1..] + outside)
  {
    assert (work + outside)[0] == work[0];
    var id := work[0].id;
    var nodes' := Recount(nodes, id);
    var rest := work[1..] + outside;
    var outside' := Orphans(nodes, id) + work[1..] + outside;
    assert work + outside == [work[0]] + rest && outside' == Orphans(nodes, id) + rest;
    forall j: nat | j < |nodes|
      ensures Occurs(work + outside, j) == (if j == id then 1 else 0) + Occurs(rest, j)
      ensures nodes'[j].count == Occurs(outside', j) + SlotRefs(nodes', j)
    {
      OccursConcat(Orphans(nodes, id), rest, j);
      SlotRefsUpdate(nodes, id, nodes'[id], j);
    }
    RecountLives(nodes, id);
    forall i | 0 <= i < |rest| && rest[i].Object? ensures rest[i].id < |nodes| {
      assert rest[i] == (work + outside)[i + 1];
    }
  }

  /** Releasing handles keeps every count exact for the handles that stay. */
  lemma {:induction false} DropStaysCounted(nodes: seq<Node>, work: seq<Handle>, outside: seq<Handle>)
    requires Counted(nodes, work + outside)
    ensures Named(nodes, work) && Counted(Drop(nodes, work), outside)
    decreases LiveCount(nodes), |work|
  {
    forall i | 0 <= i < |work| && work[i].Object? ensures work[i].id < |nodes| {
      assert work[i] == (work + outside)[i];
    }
    if work == [] {
      assert work + outside == outside;
    } else if work[0].Object? {
      var id := work[0].id;
      StepStaysCounted(nodes, work, outside);
      RecountLives(nodes, id);
      DropStaysCounted(Recount(nodes, id), Orphans(nodes, id) + work[1..], outside);
    } else {
      assert work + outside == [work[0]] + (work[1..] + outside);
      NotAnObject(nodes, work[0], work[1..] + outside);
      DropStaysCounted(nodes, work[1..], outside);
    }
  }

  lemma NotAnObject(nodes: seq<Node>, h: Handle, rest: seq<Handle>)
    requires Counted(nodes, [h] + rest) && !h.Object?
    ensures Counted(nodes, rest)
  {
    forall id: nat ensures Occurs([h] + rest, id) == Occurs(rest, id) {
      assert ([h] + rest)[1..] == rest;
    }
    forall i | 0 <= i < |rest| && rest[i].Object? ensures rest[i].id < |nodes| {
      assert rest[i] == ([h] + rest)[i + 1];
    }
  }

  /** A surviving object keeps its slots, and no free object comes to life. */
  lemma {:induction false} SurvivorsAreWhole(nodes: seq<Node>, work: seq<Handle>, id: nat)
    requires Closed(nodes) && Named(nodes, work) && id < |nodes|
    ensures var r := Drop(nodes, work);
            r[id].count <= nodes[id].count && (r[id].count > 0 ==> r[id].slots == nodes[id].slots)
    decreases LiveCount(nodes), |work|
  {
    if work != [] {
      if work[0].Object? {
        RecountLives(nodes, work[0].id);
        SurvivorsAreWhole(Recount(nodes, work[0].id), Orphans(nodes, work[0].id) + work[1..], id);
      } else {
        SurvivorsAreWhole(nodes, work[1..], id);
      }
    }
  }

  /** What goes back to the pool are those objects that died. */
  lemma {:induction false} FreedAre(nodes: seq<Node>, work: seq<Handle>, outside: seq<Handle>, x: nat)
    requires Counted(nodes, work + outside) && Named(nodes, work)
    ensures x in Freed(nodes, work) <==> x < |nodes| && nodes[x].count > 0 && Drop(nodes, work)[x].count == 0
    decreases LiveCount(nodes), |work|
  {
    if work != [] {
      if work[0].Object? {
        var id := work[0].id;
        var nodes', work' := Recount(nodes, id), Orphans(nodes, id) + work[1..];
        StepStaysCounted(nodes, work, outside);
        RecountLives(nodes, id);
        DropStaysCounted(nodes', work', outside);
        FreedAre(nodes', work', outside, x);
        SurvivorsAreWhole(nodes', work', id);
      } else {
        assert work + outside == [work[0]] + (work[1..] + outside);
        NotAnObject(nodes, work[0], work[1..] + outside);
        FreedAre(nodes, work[1..], outside, x);
      }
    }
  }

  /** And each does so once. */
  lemma {:induction false} FreedOnce(nodes: seq<Node>, work: seq<Handle>, outside: seq<Handle>)
    requires Counted(nodes, work + outside) && Named(nodes, work)
    ensures Distinct(Freed(nodes, work))
    decreases LiveCount(nodes), |work|
  {
    if work != [] {
      if work[0].Object? {
        var id := work[0].id;
        var nodes', work' := Recount(nodes, id), Orphans(nodes, id) + work[1..];
        StepStaysCounted(nodes, work, outside);
        RecountLives(nodes, id);
        FreedOnce(nodes', work', outside);
        FreedAre(nodes', work', outside, id);
      } else {
        assert work + outside == [work[0]] + (work[1..] + outside);
        NotAnObject(nodes, work[0], work[1..] + outside);
        FreedOnce(nodes, work[1..], outside);
      }
    }
  }

  // ---------------------------------------------------------------- runs

  ghost predicate Exact(s: Heap) {
    Counted(s.nodes, s.roots)
  }

  lemma TakeCounts(s: Heap, p: Place)
    requires Exact(s) && Has(s, p)
    ensures var r := With(s, p, Nothing); Counted(r.nodes, [At(s, p)] + r.roots)
  {
    var r, h := With(s, p, Nothing), At(s, p);
    forall id: nat
      ensures Occurs([h] + r.roots, id) == (if h == Object(id) then 1 else 0) + Occurs(r.roots, id)
      ensures Occurs([h] + r.roots, id) + SlotRefs(r.nodes, id) == Occurs(s.roots, id) + SlotRefs(s.nodes, id)
    {
      assert ([h] + r.roots)[1..] == r.roots;
      match p
      case Root(i) => OccursUpdate(s.roots, i, Nothing, id);
      case Slot(u, k) =>
        OccursUpdate(s.nodes[u].slots, k, Nothing, id);
        SlotRefsUpdate(s.nodes, u, r.nodes[u], id);
    }
  }

  lemma PutCounts(s: Heap, p: Place, h: Handle)
    requires Counted(s.nodes, [h] + s.roots) && Has(s, p) && !At(s, p).Object?
    ensures Exact(With(s, p, h))
  {
    var r := With(s, p, h);
    assert ([h] + s.roots)[0] == h;
    assert ([h] + s.roots)[1..] == s.roots;
    forall i | 0 <= i < |s.roots| && s.roots[i].Object? ensures s.roots[i].id < |s.nodes| {
      assert s.roots[i] == ([h] + s.roots)[i + 1];
    }
    forall id: nat
      ensures Occurs([h] + s.roots, id) == (if h == Object(id) then 1 else 0) + Occurs(s.roots, id)
      ensures Occurs([h] + s.roots, id) + SlotRefs(s.nodes, id) == Occurs(r.roots, id) + SlotRefs(r.nodes, id)
    {
      match p
      case Root(i) => OccursUpdate(s.roots, i, h, id);
      case Slot(u, k) =>
        OccursUpdate(s.nodes[u].slots, k, h, id);
        SlotRefsUpdate(s.nodes, u, r.nodes[u], id);
    }
  }

  lemma RetainCounts(nodes: seq<Node>, outside: seq<Handle>, h: Handle)
    requires Counted(nodes, outside) && Named(nodes, [h])
    requires h.Object? ==> h.id < |nodes| && nodes[h.id].count > 0
    ensures Counted(Retain(nodes, h), [h] + outside)
  {
    var r := Retain(nodes, h);
    assert [h][0] == h && ([h] + outside)[1..] == outside;
    forall id: nat ensures SlotRefs(r, id) == SlotRefs(nodes, id) {
      if h.Object? {
        SlotRefsUpdate(nodes, h.id, r[h.id], id);
      }
    }
  }

  lemma HeldIsLive(s: Heap, p: Place)
    requires Exact(s) && Has(s, p) && At(s, p).Object?
    ensures At(s, p).id < |s.nodes| && s.nodes[At(s, p).id].count > 0
  {
    var id := At(s, p).id;
    match p
    case Root(i) => OccursSomewhere(s.roots, id);
    case Slot(u, k) =>
      OccursSomewhere(s.nodes[u].slots, id);
      assert Named(s.nodes, s.nodes[u].slots);
      SlotRefsBound(s.nodes, u, id);
  }

  lemma EmptyStaysExact(s: Heap, p: Place)
    requires Exact(s) && Has(s, p)
    ensures Exact(Empty(s, p))
  {
    var bare := With(s, p, Nothing);
    TakeCounts(s, p);
    EmptyIsSound(s, p);
    DropStaysCounted(bare.nodes, [At(s, p)], bare.roots);
  }

  /** Every place that is still there, other than these, was there before and holds what it held. */
  ghost predicate Untouched(s: Heap, r: Heap, except: set<Place>) {
    && |r.roots| == |s.roots|
    && forall q | q !in except && Has(r, q) :: Has(s, q) && At(r, q) == At(s, q)
  }

  /** A release changes no handle of the objects that survive it. */
  lemma DropLeavesAlone(s: Heap, work: seq<Handle>, q: Place)
    requires Counted(s.nodes, work + s.roots) && Named(s.nodes, work)
    ensures var r := Heap(Drop(s.nodes, work), s.roots); Has(r, q) ==> Has(s, q) && At(r, q) == At(s, q)
  {
    DropStaysCounted(s.nodes, work, s.roots);
    if q.Slot? && q.u < |s.nodes| {
      SurvivorsAreWhole(s.nodes, work, q.u);
    }
  }

  /** Nothing but the emptied place changes its handle, whatever is freed. */
  lemma EmptyLeavesAlone(s: Heap, p: Place)
    requires Exact(s) && Has(s, p)
    ensures Untouched(s, Empty(s, p), {p})
  {
    var bare, r := With(s, p, Nothing), Empty(s, p);
    EmptyIsSound(s, p);
    TakeCounts(s, p);
    forall q | q != p && Has(r, q)
      ensures Has(s, q) && At(r, q) == At(s, q)
    {
      DropLeavesAlone(bare, [At(s, p)], q);
    }
  }

  lemma WithKeepsPlaces(s: Heap, p: Place, h: Handle, q: Place)
    requires Has(s, p)
    ensures Has(With(s, p, h), q) <==> Has(s, q)
  {
  }

  lemma RetainKeepsPlaces(s: Heap, h: Handle, q: Place)
    requires Named(s.nodes, [h])
    ensures var r := s.(nodes := Retain(s.nodes, h)); (Has(r, q) <==> Has(s, q)) && (Has(s, q) ==> At(r, q) == At(s, q))
  {
    assert [h][0] == h;
  }

  lemma TargetIsEmpty(s: Heap, p: Place)
    requires Sound(s) && Has(s, p) && Has(Empty(s, p), p) && Exact(Empty(s, p))
    ensures At(Empty(s, p), p) == Nothing
  {
    EmptyIsSound(s, p);
    if p.Slot? {
      SurvivorsAreWhole(With(s, p, Nothing).nodes, [At(s, p)], p.u);
    }
  }

  lemma AssignStaysExact(s: Heap, target: Place, source: Place)
    requires Exact(s) && Has(s, target) && Has(s, source) && Assign(s, target, source).Some?
    ensures var r := Assign(s, target, source).value; Exact(r) && Has(r, target) && At(r, target) == At(s, source)
  {
    if target != source {
      var t := Empty(s, target);
      EmptyStaysExact(s, target);
      EmptyLeavesAlone(s, target);
      TargetIsEmpty(s, target);
      HandlesAreNamed(t, source);
      var h := At(t, source);
      if h.Object? {
        HeldIsLive(t, source);
      }
      RetainCounts(t.nodes, t.roots, h);
      PutCounts(t.(nodes := Retain(t.nodes, h)), target, h);
    }
  }

  lemma MoveStaysExact(s: Heap, target: Place, source: Place)
    requires Exact(s) && Has(s, target) && Has(s, source) && Move(s, target, source).Some?
    ensures var r := Move(s, target, source).value;
            && Exact(r) && Has(r, target) && At(r, target) == At(s, source)
            && (target != source ==> Has(r, source) && At(r, source) == Nothing)
  {
    if target != source {
      var t := Empty(s, target);
      EmptyStaysExact(s, target);
      EmptyLeavesAlone(s, target);
      TargetIsEmpty(s, target);
      TakeCounts(t, source);
      PutCounts(With(t, source, Nothing), target, At(t, source));
    }
  }

  /** A copy leaves every handle but the target's alone, the source's too, so that both hold the same. */
  lemma AssignLeavesAlone(s: Heap, target: Place, source: Place)
    requires Exact(s) && Has(s, target) && Has(s, source) && Assign(s, target, source).Some?
    ensures var r := Assign(s, target, source).value;
            && Untouched(s, r, {target})
            && Has(r, target) && Has(r, source) && At(r, target) == At(r, source) == At(s, source)
            && (target != source ==> forall q :: Has(r, q) <==> Has(Empty(s, target), q))
  {
    if target != source {
      var t := Empty(s, target);
      EmptyStaysExact(s, target);
      EmptyLeavesAlone(s, target);
      HandlesAreNamed(t, source);
      var h := At(t, source);
      var u := t.(nodes := Retain(t.nodes, h));
      forall q
        ensures Has(With(u, target, h), q) <==> Has(t, q)
        ensures q != target && Has(t, q) ==> At(With(u, target, h), q) == At(t, q)
      {
        RetainKeepsPlaces(t, h, q);
        WithKeepsPlaces(u, target, h, q);
      }
    }
  }

  /** A move leaves every handle but the two alone. */
  lemma MoveLeavesAlone(s: Heap, target: Place, source: Place)
    requires Exact(s) && Has(s, target) && Has(s, source) && Move(s, target, source).Some?
    ensures var r := Move(s, target, source).value;
            && Untouched(s, r, {target, source})
            && (target != source ==> forall q :: Has(r, q) <==> Has(Empty(s, target), q))
  {
    if target != source {
      var t := Empty(s, target);
      EmptyLeavesAlone(s, target);
      var u := With(t, source, Nothing);
      forall q
        ensures Has(With(u, target, At(t, source)), q) <==> Has(t, q)
      {
        WithKeepsPlaces(t, source, Nothing, q);
        WithKeepsPlaces(u, target, At(t, source), q);
      }
    }
  }

  lemma OverwriteLeavesAlone(s: Heap, target: Place)
    requires Exact(s) && Has(s, target) && Overwrite(s, target).Some?
    ensures Untouched(s, Overwrite(s, target).value, {target})
  {
    EmptyLeavesAlone(s, target);
    forall q
      ensures Has(With(Empty(s, target), target, Leaf), q) <==> Has(Empty(s, target), q)
    {
      WithKeepsPlaces(Empty(s, target), target, Leaf, q);
    }
  }

  function Behind(q: Place, u: nat, k: nat): Place {
    if q.Slot? && q.u == u && q.k >= k then Slot(u, q.k + 1) else q
  }

  lemma CutMoves(s: Heap, u: nat, k: nat, q: Place)
    requires Has(s, Slot(u, k))
    ensures Has(Cut(s, u, k), q) <==> Has(s, Behind(q, u, k))
    ensures Has(Cut(s, u, k), q) ==> At(Cut(s, u, k), q) == At(s, Behind(q, u, k))
  {
    var slots := s.nodes[u].slots;
    var rest := slots[..k] + slots[k + 1..];
    assert forall j | 0 <= j < |rest| :: rest[j] == slots[if j < k then j else j + 1];
  }

  /** A slot taken out: those behind it move up by one, and every other place holds what it held. */
  lemma RemoveLeavesAlone(s: Heap, u: nat, k: nat)
    requires Exact(s) && Has(s, Slot(u, k))
    ensures var r := Remove(s, u, k);
            && |r.roots| == |s.roots|
            && forall q | Has(r, q) :: Has(s, Behind(q, u, k)) && At(r, q) == At(s, Behind(q, u, k))
  {
    CutCounts(s, u, k);
    RemoveIsSound(s, u, k);
    forall q | Has(Remove(s, u, k), q)
      ensures Has(s, Behind(q, u, k)) && At(Remove(s, u, k), q) == At(s, Behind(q, u, k))
    {
      DropLeavesAlone(Cut(s, u, k), [At(s, Slot(u, k))], q);
      CutMoves(s, u, k, q);
    }
  }

  lemma CreateStaysExact(s: Heap, target: Place, id: nat)
    requires Exact(s) && Has(s, target) && !At(s, target).Object? && id < |s.nodes| && s.nodes[id] == Node(0, [])
    ensures Exact(Create(s, target, id))
  {
    var t := s.(nodes := s.nodes[id := Node(1, [])]);
    assert ([Object(id)] + t.roots)[1..] == t.roots;
    forall j: nat ensures SlotRefs(t.nodes, j) == SlotRefs(s.nodes, j) {
      SlotRefsUpdate(s.nodes, id, Node(1, []), j);
    }
    PutCounts(t, target, Object(id));
  }

  lemma GrowStaysExact(s: Heap, u: nat)
    requires Exact(s) && u < |s.nodes| && s.nodes[u].count > 0
    ensures Exact(Grow(s, u))
  {
    var t := Grow(s, u);
    forall j: nat ensures SlotRefs(t.nodes, j) == SlotRefs(s.nodes, j) {
      OccursConcat(s.nodes[u].slots, [Nothing], j);
      SlotRefsUpdate(s.nodes, u, t.nodes[u], j);
    }
  }

  lemma OverwriteStaysExact(s: Heap, target: Place)
    requires Exact(s) && Has(s, target) && Overwrite(s, target).Some?
    ensures Exact(Overwrite(s, target).value)
  {
    var t := Empty(s, target);
    EmptyStaysExact(s, target);
    TargetIsEmpty(s, target);
    LeafCounts(t);
    PutCounts(t, target, Leaf);
  }

  lemma LeafCounts(s: Heap)
    requires Exact(s)
    ensures Counted(s.nodes, [Leaf] + s.roots)
  {
    assert ([Leaf] + s.roots)[1..] == s.roots;
  }

  lemma CutCounts(s: Heap, u: nat, k: nat)
    requires Exact(s) && Has(s, Slot(u, k))
    ensures var r := Cut(s, u, k); Counted(r.nodes, [At(s, Slot(u, k))] + r.roots)
  {
    var r, h, slots := Cut(s, u, k), At(s, Slot(u, k)), s.nodes[u].slots;
    RemoveIsSound(s, u, k);
    assert [h][0] == h && ([h] + r.roots)[1..] == r.roots;
    forall id: nat
      ensures Occurs([h] + r.roots, id) + SlotRefs(r.nodes, id) == Occurs(s.roots, id) + SlotRefs(s.nodes, id)
    {
      assert slots == slots[..k] + slots[k..] && slots[k..][1..] == slots[k + 1..];
      OccursConcat(slots[..k], slots[k..], id);
      OccursConcat(slots[..k], slots[k + 1..], id);
      SlotRefsUpdate(s.nodes, u, r.nodes[u], id);
    }
  }

  lemma RemoveStaysExact(s: Heap, u: nat, k: nat)
    requires Exact(s) && Has(s, Slot(u, k))
    ensures Exact(Remove(s, u, k))
  {
    CutCounts(s, u, k);
    RemoveIsSound(s, u, k);
    DropStaysCounted(Cut(s, u, k).nodes, [At(s, Slot(u, k))], s.roots);
  }

  datatype Op =
    | Fill(target: Place, id: nat)
    | Widen(u: nat)
    | Plain(target: Place)
    | Narrow(u: nat, k: nat)
    | Copy(target: Place, source: Place)
    | Take(target: Place, source: Place)
    | Clear(target: Place)

  predicate Possible(s: Heap, op: Op) {
    match op
    case Fill(p, id) => Has(s, p) && !At(s, p).Object? && id < |s.nodes| && s.nodes[id] == Node(0, [])
    case Widen(u) => u < |s.nodes| && s.nodes[u].count > 0
    case Plain(p) => Has(s, p)
    case Narrow(u, k) => Has(s, Slot(u, k))
    case Copy(p, q) => Has(s, p) && Has(s, q)
    case Take(p, q) => Has(s, p) && Has(s, q)
    case Clear(p) => Has(s, p)
  }

  /** Nothing where an assignment reads freed memory. */
  function Apply(s: Heap, op: Op): Option<Heap>
    requires Sound(s) && Possible(s, op)
  {
    match op
    case Fill(p, id) => Some(Create(s, p, id))
    case Widen(u) => Some(Grow(s, u))
    case Plain(p) => Overwrite(s, p)
    case Narrow(u, k) => Some(Remove(s, u, k))
    case Copy(p, q) => Assign(s, p, q)
    case Take(p, q) => Move(s, p, q)
    case Clear(p) => Some(Empty(s, p))
  }

  lemma ApplyStaysExact(s: Heap, op: Op)
    requires Exact(s) && Possible(s, op) && Apply(s, op).Some?
    ensures Exact(Apply(s, op).value)
  {
    match op
    case Fill(p, id) => CreateStaysExact(s, p, id);
    case Widen(u) => GrowStaysExact(s, u);
    case Plain(p) => OverwriteStaysExact(s, p);
    case Narrow(u, k) => RemoveStaysExact(s, u, k);
    case Copy(p, q) => AssignStaysExact(s, p, q);
    case Take(p, q) => MoveStaysExact(s, p, q);
    case Clear(p) => EmptyStaysExact(s, p);
  }

  ghost predicate Leads(s: Heap, ops: seq<Op>, s': Heap)
    decreases |ops|
  {
    if ops == [] then s == s'
    else Sound(s) && Possible(s, ops[0]) && Apply(s, ops[0]).Some? && Leads(Apply(s, ops[0]).value, ops[1..], s')
  }

  /** Over every run each object counts exactly the handles and slots that refer to it. */
  lemma {:induction false} RunStaysExact(s: Heap, ops: seq<Op>, s': Heap)
    requires Exact(s) && Leads(s, ops, s')
    ensures Exact(s')
    decreases |ops|
  {
    if ops != [] {
      ApplyStaysExact(s, ops[0]);
      RunStaysExact(Apply(s, ops[0]).value, ops[1..], s');
    }
  }

  lemma {:induction false} StartIsExact(n: nat, variables: nat)
    ensures Exact(Heap(seq(n, _ => Node(0, [])), seq(variables, _ => Nothing)))
  {
    var nodes, roots := seq(n, _ => Node(0, [])), seq(variables, _ => Nothing);
    forall id: nat ensures Occurs(roots, id) == 0 && SlotRefs(nodes, id) == 0 {
      OccursSomewhere(roots, id);
      if SlotRefs(nodes, id) > 0 {
        var u := SlotRefsSomewhere(nodes, id);
      }
    }
  }
}
