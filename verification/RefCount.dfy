/** Reference counting of JSON objects. The object pool is a sequence of nodes, and an object is named by
    its place in it. A handle to an object is counted by that object; a handle to a plain value owns the
    value alone, so plain values need no names. */
module RefCount {
  import opened Common

  datatype Handle = Nothing | Leaf | Object(id: nat)

  /** A node in the pool; its slots are the values of the map and the items of the vector. */
  datatype Node = Node(count: int, slots: seq<Handle>)

  predicate Named(nodes: seq<Node>, hs: seq<Handle>) {
    forall i | 0 <= i < |hs| && hs[i].Object? :: hs[i].id < |nodes|
  }

  predicate Closed(nodes: seq<Node>) {
    forall u | 0 <= u < |nodes| :: Named(nodes, nodes[u].slots)
  }

  // ---------------------------------------------------------------- counting

  function Occurs(hs: seq<Handle>, id: nat): nat {
    if hs == [] then 0 else (if hs[0] == Object(id) then 1 else 0) + Occurs(hs[1..], id)
  }

  function SlotRefs(nodes: seq<Node>, id: nat): nat {
    if nodes == [] then 0 else Occurs(nodes[0].slots, id) + SlotRefs(nodes[1..], id)
  }

  function LiveCount(nodes: seq<Node>): nat {
    if nodes == [] then 0 else (if nodes[0].count > 0 then 1 else 0) + LiveCount(nodes[1..])
  }

  lemma {:induction false} OccursConcat(a: seq<Handle>, b: seq<Handle>, id: nat)
    ensures Occurs(a + b, id) == Occurs(a, id) + Occurs(b, id)
  {
    if a == [] {
      assert a + b == b;
    } else {
      assert (a + b)[1..] == a[1..] + b;
      OccursConcat(a[1..], b, id);
    }
  }

  lemma {:induction false} OccursSomewhere(hs: seq<Handle>, id: nat)
    ensures Occurs(hs, id) > 0 <==> Object(id) in hs
  {
    if hs != [] {
      OccursSomewhere(hs[1..], id);
    }
  }

  lemma {:induction false} OccursUpdate(hs: seq<Handle>, k: nat, h: Handle, id: nat)
    requires k < |hs|
    ensures Occurs(hs[k := h], id)
         == Occurs(hs, id) - (if hs[k] == Object(id) then 1 else 0) + (if h == Object(id) then 1 else 0)
  {
    if k == 0 {
      assert hs[k := h][1..] == hs[1..];
    } else {
      assert hs[k := h][1..] == hs[1..][k - 1 := h];
      OccursUpdate(hs[1..], k - 1, h, id);
    }
  }

  lemma {:induction false} SlotRefsUpdate(nodes: seq<Node>, u: nat, node: Node, id: nat)
    requires u < |nodes|
    ensures SlotRefs(nodes[u := node], id)
         == SlotRefs(nodes, id) - Occurs(nodes[u].slots, id) + Occurs(node.slots, id)
  {
    if u == 0 {
      assert nodes[u := node][1..] == nodes[1..];
    } else {
      assert nodes[u := node][1..] == nodes[1..][u - 1 := node];
      SlotRefsUpdate(nodes[1..], u - 1, node, id);
    }
  }

  lemma {:induction false} SlotRefsSomewhere(nodes: seq<Node>, id: nat) returns (u: nat)
    requires SlotRefs(nodes, id) > 0
    ensures u < |nodes| && Object(id) in nodes[u].slots
  {
    OccursSomewhere(nodes[0].slots, id);
    if Object(id) in nodes[0].slots {
      u := 0;
    } else {
      u := SlotRefsSomewhere(nodes[1..], id);
      u := u + 1;
    }
  }

  lemma {:induction false} SlotRefsBound(nodes: seq<Node>, u: nat, id: nat)
    requires u < |nodes|
    ensures Occurs(nodes[u].slots, id) <= SlotRefs(nodes, id)
  {
    if u > 0 {
      SlotRefsBound(nodes[1..], u - 1, id);
    }
  }

  lemma {:induction false} LiveUpdate(nodes: seq<Node>, u: nat, node: Node)
    requires u < |nodes|
    ensures LiveCount(nodes[u := node])
         == LiveCount(nodes) - (if nodes[u].count > 0 then 1 else 0) + (if node.count > 0 then 1 else 0)
  {
    if u == 0 {
      assert nodes[u := node][1..] == nodes[1..];
    } else {
      assert nodes[u := node][1..] == nodes[1..][u - 1 := node];
      LiveUpdate(nodes[1..], u - 1, node);
    }
  }

  // ---------------------------------------------------------------- releasing

  /** An object that nobody counts is back in the pool, cleared. */
  function Recount(nodes: seq<Node>, id: nat): (r: seq<Node>)
    requires id < |nodes|
    ensures |r| == |nodes|
  {
    if nodes[id].count == 1 then nodes[id := Node(0, [])]
    else nodes[id := Node(nodes[id].count - 1, nodes[id].slots)]
  }

  /** The slots that a release sets free. */
  function Orphans(nodes: seq<Node>, id: nat): seq<Handle>
    requires id < |nodes|
  {
    if nodes[id].count == 1 then nodes[id].slots else []
  }

  lemma RecountLives(nodes: seq<Node>, id: nat)
    requires id < |nodes| && Closed(nodes)
    ensures Closed(Recount(nodes, id)) && Named(Recount(nodes, id), Orphans(nodes, id))
    ensures LiveCount(Recount(nodes, id)) == LiveCount(nodes) - (if nodes[id].count == 1 then 1 else 0)
  {
    assert Named(nodes, nodes[id].slots);
    LiveUpdate(nodes, id, Recount(nodes, id)[id]);
  }

  /** Releasing these handles one after the other, what each sets free before the next. */
  function Drop(nodes: seq<Node>, work: seq<Handle>): (r: seq<Node>)
    requires Closed(nodes) && Named(nodes, work)
    ensures |r| == |nodes| && Closed(r) && LiveCount(r) <= LiveCount(nodes)
    decreases LiveCount(nodes), |work|
  {
    if work == [] then nodes
    else if !work[0].Object? then Drop(nodes, work[1..])
    else
      var id := work[0].id;
      RecountLives(nodes, id);
      Drop(Recount(nodes, id), Orphans(nodes, id) + work[1..])
  }

  /** The objects that this returns to the pool, in order. */
  function Freed(nodes: seq<Node>, work: seq<Handle>): seq<nat>
    requires Closed(nodes) && Named(nodes, work)
    decreases LiveCount(nodes), |work|
  {
    if work == [] then []
    else if !work[0].Object? then Freed(nodes, work[1..])
    else
      var id := work[0].id;
      RecountLives(nodes, id);
      (if nodes[id].count == 1 then [id] else []) + Freed(Recount(nodes, id), Orphans(nodes, id) + work[1..])
  }

  lemma {:induction false} DropConcat(nodes: seq<Node>, a: seq<Handle>, b: seq<Handle>)
    requires Closed(nodes) && Named(nodes, a) && Named(nodes, b)
    ensures Named(Drop(nodes, a), b) && Drop(nodes, a + b) == Drop(Drop(nodes, a), b)
    decreases LiveCount(nodes), |a|
  {
    if a == [] {
      assert a + b == b;
    } else {
      assert (a + b)[1..] == a[1..] + b;
      if !a[0].Object? {
        DropConcat(nodes, a[1..], b);
      } else {
        var id := a[0].id;
        RecountLives(nodes, id);
        DropConcat(Recount(nodes, id), Orphans(nodes, id) + a[1..], b);
        assert Orphans(nodes, id) + a[1..] + b == Orphans(nodes, id) + (a[1..] + b);
      }
    }
  }

  // ---------------------------------------------------------------- places and handles

  /** Where a handle can be: a variable, or a slot of an object. */
  datatype Place = Root(i: nat) | Slot(u: nat, k: nat)

  datatype Heap = Heap(nodes: seq<Node>, roots: seq<Handle>)

  predicate Has(s: Heap, p: Place) {
    match p
    case Root(i) => i < |s.roots|
    case Slot(u, k) => u < |s.nodes| && k < |s.nodes[u].slots|
  }

  function At(s: Heap, p: Place): Handle
    requires Has(s, p)
  {
    match p
    case Root(i) => s.roots[i]
    case Slot(u, k) => s.nodes[u].slots[k]
  }

  function With(s: Heap, p: Place, h: Handle): (r: Heap)
    requires Has(s, p)
    ensures Has(r, p) && At(r, p) == h
    ensures forall q | q != p && Has(s, q) :: Has(r, q) && At(r, q) == At(s, q)
  {
    match p
    case Root(i) => s.(roots := s.roots[i := h])
    case Slot(u, k) => s.(nodes := s.nodes[u := s.nodes[u].(slots := s.nodes[u].slots[k := h])])
  }

  predicate Sound(s: Heap) {
    Closed(s.nodes) && Named(s.nodes, s.roots)
  }

  function Retain(nodes: seq<Node>, h: Handle): seq<Node>
    requires Named(nodes, [h])
  {
    if h.Object? then
      assert [h][0] == h;
      nodes[h.id := nodes[h.id].(count := nodes[h.id].count + 1)]
    else nodes
  }

  /** The target is emptied and what it held is released. */
  function Empty(s: Heap, p: Place): (r: Heap)
    requires Sound(s) && Has(s, p)
    ensures Sound(r)
  {
    var bare := With(s, p, Nothing);
    EmptyIsSound(s, p);
    Heap(Drop(bare.nodes, [At(s, p)]), bare.roots)
  }

  lemma EmptyIsSound(s: Heap, p: Place)
    requires Sound(s) && Has(s, p)
    ensures Sound(With(s, p, Nothing)) && Named(With(s, p, Nothing).nodes, [At(s, p)])
  {
  }

  /** Copy assignment releases the target's old value before it looks at the source; if the source, or
      the target itself, went with it, freed memory is read. A plain value is copied with its handle. */
  function Assign(s: Heap, target: Place, source: Place): Option<Heap>
    requires Sound(s) && Has(s, target) && Has(s, source)
  {
    if target == source then Some(s)
    else
      var t := Empty(s, target);
      if !Has(t, target) || !Has(t, source) then None
      else
        HandlesAreNamed(t, source);
        Some(With(t.(nodes := Retain(t.nodes, At(t, source))), target, At(t, source)))
  }

  /** Move assignment takes the source's handle away instead of counting a second one. */
  function Move(s: Heap, target: Place, source: Place): Option<Heap>
    requires Sound(s) && Has(s, target) && Has(s, source)
  {
    if target == source then Some(s)
    else
      var t := Empty(s, target);
      if !Has(t, target) || !Has(t, source) then None
      else Some(With(With(t, source, Nothing), target, At(t, source)))
  }

  /** A new object from the pool, for a handle that refers to none. */
  function Create(s: Heap, target: Place, id: nat): Heap
    requires Sound(s) && Has(s, target) && !At(s, target).Object? && id < |s.nodes| && s.nodes[id] == Node(0, [])
  {
    With(s.(nodes := s.nodes[id := Node(1, [])]), target, Object(id))
  }

  /** Another slot in an object: a new key, or the next index. */
  function Grow(s: Heap, u: nat): Heap
    requires u < |s.nodes|
  {
    s.(nodes := s.nodes[u := s.nodes[u].(slots := s.nodes[u].slots + [Nothing])])
  }

  /** A plain value in place of what was there. */
  function Overwrite(s: Heap, target: Place): Option<Heap>
    requires Sound(s) && Has(s, target)
  {
    var t := Empty(s, target);
    if Has(t, target) then Some(With(t, target, Leaf)) else None
  }

  /** A slot taken out of an object, and what it held released: a removed key, or a cut index. */
  function Remove(s: Heap, u: nat, k: nat): (r: Heap)
    requires Sound(s) && Has(s, Slot(u, k))
    ensures Sound(r)
  {
    RemoveIsSound(s, u, k);
    Heap(Drop(Cut(s, u, k).nodes, [At(s, Slot(u, k))]), s.roots)
  }

  function Cut(s: Heap, u: nat, k: nat): Heap
    requires Has(s, Slot(u, k))
  {
    var slots := s.nodes[u].slots;
    s.(nodes := s.nodes[u := s.nodes[u].(slots := slots[..k] + slots[k + 1..])])
  }

  lemma RemoveIsSound(s: Heap, u: nat, k: nat)
    requires Sound(s) && Has(s, Slot(u, k))
    ensures Sound(Cut(s, u, k)) && Named(Cut(s, u, k).nodes, [At(s, Slot(u, k))])
  {
    assert Named(s.nodes, s.nodes[u].slots);
  }

  lemma HandlesAreNamed(s: Heap, p: Place)
    requires Sound(s) && Has(s, p)
    ensures Named(s.nodes, [At(s, p)])
  {
  }
}
