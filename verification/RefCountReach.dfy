/** What a release gives back: the objects that no remaining handle leads to, unless such objects refer to
    one another in a circle; and when an assignment may look at its source. */
module RefCountReach {
  import opened Common
  import opened RefCount
  import opened RefCountTheorems

  // ---------------------------------------------------------------- reachability

  /** A way from a handle outside, through slots, to the object at its end. */
  predicate IsPath(nodes: seq<Node>, outside: seq<Handle>, path: seq<nat>) {
    && path != []
    && Object(path[0]) in outside
    && (forall i | 0 <= i < |path| :: path[i] < |nodes|)
    && forall i | 0 <= i < |path| - 1 :: Object(path[i + 1]) in nodes[path[i]].slots
  }

  ghost predicate LedTo(nodes: seq<Node>, outside: seq<Handle>, id: nat) {
    exists path :: IsPath(nodes, outside, path) && path[|path| - 1] == id
  }

  /** No object is inside itself: a rank falls along every slot. */
  ghost predicate Ranked(nodes: seq<Node>, rank: seq<nat>) {
    && |rank| == |nodes|
    && forall u, v: nat | 0 <= u < |nodes| && v < |nodes| && Object(v) in nodes[u].slots :: rank[v] < rank[u]
  }

  ghost predicate Acyclic(nodes: seq<Node>) {
    exists rank :: Ranked(nodes, rank)
  }

  lemma SlotIsCounted(nodes: seq<Node>, outside: seq<Handle>, u: nat, v: nat)
    requires Counted(nodes, outside) && u < |nodes| && Object(v) in nodes[u].slots
    ensures v < |nodes| && nodes[v].count > 0
  {
    assert Named(nodes, nodes[u].slots);
    OccursSomewhere(nodes[u].slots, v);
    SlotRefsBound(nodes, u, v);
  }

  /** What a remaining handle leads to is never freed. */
  lemma {:induction false} PathSurvives(nodes: seq<Node>, work: seq<Handle>, outside: seq<Handle>, path: seq<nat>)
    requires Counted(nodes, work + outside) && Named(nodes, work) && IsPath(nodes, outside, path)
    ensures Drop(nodes, work)[path[|path| - 1]].count > 0
    decreases |path|
  {
    DropStaysCounted(nodes, work, outside);
    var v := path[|path| - 1];
    if |path| == 1 {
      OccursSomewhere(outside, v);
    } else {
      var u := path[|path| - 2];
      PathSurvives(nodes, work, outside, path[..|path| - 1]);
      SurvivorsAreWhole(nodes, work, u);
      SlotIsCounted(Drop(nodes, work), outside, u, v);
    }
  }

  lemma LedOn(nodes: seq<Node>, outside: seq<Handle>, u: nat, v: nat)
    requires LedTo(nodes, outside, u) && u < |nodes| && v < |nodes| && Object(v) in nodes[u].slots
    ensures LedTo(nodes, outside, v)
  {
    var path :| IsPath(nodes, outside, path) && path[|path| - 1] == u;
    assert IsPath(nodes, outside, path + [v]);
  }

  ghost predicate HeldFrom(nodes: seq<Node>, knot: set<nat>, v: nat) {
    exists u :: u in knot && u < |nodes| && Object(v) in nodes[u].slots
  }

  /** Objects in use that keep each other alive. */
  ghost predicate SelfHeld(nodes: seq<Node>, knot: set<nat>) {
    forall v {:trigger HeldFrom(nodes, knot, v)} | v in knot ::
      v < |nodes| && nodes[v].count > 0 && HeldFrom(nodes, knot, v)
  }

  /** And to which no handle leads. */
  ghost predicate Knot(nodes: seq<Node>, outside: seq<Handle>, knot: set<nat>) {
    knot != {} && SelfHeld(nodes, knot) && forall v | v in knot :: !LedTo(nodes, outside, v)
  }

  lemma RecountKeepsKnot(nodes: seq<Node>, id: nat, rest: seq<Handle>, knot: set<nat>)
    requires id < |nodes| && Counted(nodes, [Object(id)] + rest) && SelfHeld(nodes, knot)
    ensures SelfHeld(Recount(nodes, id), knot)
  {
    var nodes' := Recount(nodes, id);
    if id in knot {
      assert HeldFrom(nodes, knot, id);
      var u :| u in knot && u < |nodes| && Object(id) in nodes[u].slots;
      OccursSomewhere(nodes[u].slots, id);
      SlotRefsBound(nodes, u, id);
    }
    forall x | x in knot ensures x < |nodes| && nodes'[x].count > 0 && HeldFrom(nodes', knot, x) {
      assert HeldFrom(nodes, knot, x);
      var u :| u in knot && u < |nodes| && Object(x) in nodes[u].slots;
      assert nodes'[u].slots == nodes[u].slots;
    }
  }

  /** Such objects survive every release. */
  lemma {:induction false} KnotSurvives(nodes: seq<Node>, work: seq<Handle>, outside: seq<Handle>, knot: set<nat>)
    requires Counted(nodes, work + outside) && Named(nodes, work) && SelfHeld(nodes, knot)
    ensures SelfHeld(Drop(nodes, work), knot)
    decreases LiveCount(nodes), |work|
  {
    if work != [] {
      assert work + outside == [work[0]] + (work[1..] + outside);
      if work[0].Object? {
        var id := work[0].id;
        StepStaysCounted(nodes, work, outside);
        RecountLives(nodes, id);
        RecountKeepsKnot(nodes, id, work[1..] + outside, knot);
        KnotSurvives(Recount(nodes, id), Orphans(nodes, id) + work[1..], outside, knot);
      } else {
        NotAnObject(nodes, work[0], work[1..] + outside);
        KnotSurvives(nodes, work[1..], outside, knot);
      }
    }
  }

  ghost predicate Leaked(nodes: seq<Node>, work: seq<Handle>, outside: seq<Handle>, v: nat)
    requires Closed(nodes) && Named(nodes, work)
  {
    v < |nodes| && Drop(nodes, work)[v].count > 0 && !LedTo(nodes, outside, v)
  }

  /** A release leaves something behind exactly when a knot was there. */
  lemma LeaksExactly(nodes: seq<Node>, work: seq<Handle>, outside: seq<Handle>)
    requires Counted(nodes, work + outside) && Named(nodes, work)
    ensures (exists v: nat :: Leaked(nodes, work, outside, v)) <==> exists knot :: Knot(nodes, outside, knot)
  {
    if knot :| Knot(nodes, outside, knot) {
      KnotSurvives(nodes, work, outside, knot);
      var v :| v in knot;
      assert HeldFrom(Drop(nodes, work), knot, v);
      assert Leaked(nodes, work, outside, v);
    }
    if v: nat :| Leaked(nodes, work, outside, v) {
      var knot := set u: nat | u < |nodes| && Leaked(nodes, work, outside, u);
      assert v in knot;
      LeakIsKnot(nodes, work, outside, knot);
    }
  }

  lemma LeakIsKnot(nodes: seq<Node>, work: seq<Handle>, outside: seq<Handle>, knot: set<nat>)
    requires Counted(nodes, work + outside) && Named(nodes, work) && knot != {}
    requires forall v: nat :: v in knot <==> Leaked(nodes, work, outside, v)
    ensures Knot(nodes, outside, knot)
  {
    forall v | v in knot ensures nodes[v].count > 0 && HeldFrom(nodes, knot, v) {
      SurvivorsAreWhole(nodes, work, v);
      var u := SurvivorIsHeld(nodes, work, outside, v);
      if LedTo(nodes, outside, u) {
        LedOn(nodes, outside, u, v);
      }
      assert Leaked(nodes, work, outside, u);
    }
  }

  lemma SurvivorIsHeld(nodes: seq<Node>, work: seq<Handle>, outside: seq<Handle>, v: nat) returns (u: nat)
    requires Counted(nodes, work + outside) && Named(nodes, work) && v < |nodes| && Drop(nodes, work)[v].count > 0
    requires !LedTo(nodes, outside, v)
    ensures u < |nodes| && Drop(nodes, work)[u].count > 0 && Object(v) in nodes[u].slots
  {
    var after := Drop(nodes, work);
    DropStaysCounted(nodes, work, outside);
    OccursSomewhere(outside, v);
    if Object(v) in outside {
      assert IsPath(nodes, outside, [v]);
    }
    u := SlotRefsSomewhere(after, v);
    SurvivorsAreWhole(nodes, work, u);
  }

  // ---------------------------------------------------------------- without cycles

  function Top(rank: seq<nat>): (r: nat)
    ensures forall i | 0 <= i < |rank| :: rank[i] <= r
  {
    if rank == [] then 0
    else
      var rest := Top(rank[1..]);
      assert forall i | 1 <= i < |rank| :: rank[i] == rank[1..][i - 1];
      if rank[0] > rest then rank[0] else rest
  }

  lemma {:induction false} KnotsClimb(nodes: seq<Node>, outside: seq<Handle>, rank: seq<nat>, knot: set<nat>, v: nat)
    requires Ranked(nodes, rank) && Knot(nodes, outside, knot) && v in knot && v < |nodes|
    ensures false
    decreases Top(rank) - rank[v]
  {
    assert HeldFrom(nodes, knot, v);
    var u :| u in knot && u < |nodes| && Object(v) in nodes[u].slots;
    KnotsClimb(nodes, outside, rank, knot, u);
  }

  lemma AcyclicHasNoKnot(nodes: seq<Node>, outside: seq<Handle>, knot: set<nat>)
    requires Acyclic(nodes)
    ensures !Knot(nodes, outside, knot)
  {
    var rank :| Ranked(nodes, rank);
    if Knot(nodes, outside, knot) {
      var v :| v in knot;
      assert HeldFrom(nodes, knot, v);
      KnotsClimb(nodes, outside, rank, knot, v);
    }
  }

  /** Without cycles the survivors are exactly the objects that a remaining handle leads to, and what went
      back to the pool, each once, is exactly the rest of what was in use. */
  lemma ReleaseIsExact(nodes: seq<Node>, work: seq<Handle>, outside: seq<Handle>, id: nat)
    requires Counted(nodes, work + outside) && Named(nodes, work) && Acyclic(nodes) && id < |nodes|
    ensures Drop(nodes, work)[id].count > 0 <==> LedTo(nodes, outside, id)
    ensures id in Freed(nodes, work) <==> nodes[id].count > 0 && !LedTo(nodes, outside, id)
    ensures Distinct(Freed(nodes, work))
  {
    if path :| IsPath(nodes, outside, path) && path[|path| - 1] == id {
      PathSurvives(nodes, work, outside, path);
    }
    LeaksExactly(nodes, work, outside);
    forall knot ensures !Knot(nodes, outside, knot) {
      AcyclicHasNoKnot(nodes, outside, knot);
    }
    assert !Leaked(nodes, work, outside, id);
    FreedAre(nodes, work, outside, id);
    FreedOnce(nodes, work, outside);
    DropStaysCounted(nodes, work, outside);
  }

  // ---------------------------------------------------------------- when assignment is safe

  /** A variable is always there; a slot is, as long as some handle leads to its object. */
  ghost predicate Anchored(s: Heap, p: Place) {
    p.Slot? ==> LedTo(s.nodes, s.roots, p.u)
  }

  lemma {:induction false} RankFalls(nodes: seq<Node>, outside: seq<Handle>, rank: seq<nat>, path: seq<nat>, i: nat)
    requires Ranked(nodes, rank) && IsPath(nodes, outside, path) && i < |path| - 1
    ensures rank[path[i]] > rank[path[|path| - 1]]
    decreases |path| - i
  {
    assert Object(path[i + 1]) in nodes[path[i]].slots;
    if i + 1 < |path| - 1 {
      RankFalls(nodes, outside, rank, path, i + 1);
    }
  }

  lemma PathAvoids(s: Heap, target: Place, rank: seq<nat>, path: seq<nat>)
    requires Has(s, target) && target.Slot? && Ranked(s.nodes, rank)
    requires IsPath(s.nodes, s.roots, path) && path[|path| - 1] == target.u
    ensures IsPath(With(s, target, Nothing).nodes, s.roots, path)
  {
    forall i | 0 <= i < |path| - 1
      ensures Object(path[i + 1]) in With(s, target, Nothing).nodes[path[i]].slots
    {
      RankFalls(s.nodes, s.roots, rank, path, i);
    }
  }

  /** An object does not keep itself in use through one of its own slots. */
  lemma TargetIsAnchored(s: Heap, target: Place)
    requires Exact(s) && Acyclic(s.nodes) && Has(s, target)
    ensures Anchored(With(s, target, Nothing), target)
  {
    if target.Slot? {
      var u := target.u;
      assert s.nodes[u].count > 0;
      assert [] + s.roots == s.roots;
      ReleaseIsExact(s.nodes, [], s.roots, u);
      var rank :| Ranked(s.nodes, rank);
      var path :| IsPath(s.nodes, s.roots, path) && path[|path| - 1] == u;
      PathAvoids(s, target, rank, path);
    }
  }

  lemma EmptyingKeepsRanks(s: Heap, target: Place)
    requires Acyclic(s.nodes) && Has(s, target)
    ensures Acyclic(With(s, target, Nothing).nodes)
  {
    var bare := With(s, target, Nothing);
    var rank :| Ranked(s.nodes, rank);
    forall u, v: nat | 0 <= u < |bare.nodes| && v < |bare.nodes| && Object(v) in bare.nodes[u].slots
      ensures rank[v] < rank[u]
    {
      assert Object(v) in s.nodes[u].slots;
    }
    assert Ranked(bare.nodes, rank);
  }

  /** What emptying a handle leaves: every variable, and the slots of the objects still led to. */
  lemma SurvivesExactly(s: Heap, target: Place, q: Place)
    requires Exact(s) && Acyclic(s.nodes) && Has(s, target) && Has(s, q)
    ensures Has(Empty(s, target), q) <==> Anchored(With(s, target, Nothing), q)
  {
    var bare, h := With(s, target, Nothing), At(s, target);
    if q.Slot? {
      TakeCounts(s, target);
      EmptyIsSound(s, target);
      EmptyingKeepsRanks(s, target);
      ReleaseIsExact(bare.nodes, [h], bare.roots, q.u);
      SurvivorsAreWhole(bare.nodes, [h], q.u);
      DropStaysCounted(bare.nodes, [h], bare.roots);
    }
  }

  /** On a heap without cycles, copy and move assignment are safe exactly when some handle still leads to
      the source once the target has been emptied. */
  lemma AssignExactly(s: Heap, target: Place, source: Place)
    requires Exact(s) && Acyclic(s.nodes) && Has(s, target) && Has(s, source) && target != source
    ensures Assign(s, target, source).Some? <==> Anchored(With(s, target, Nothing), source)
    ensures Move(s, target, source).Some? <==> Anchored(With(s, target, Nothing), source)
  {
    TargetIsAnchored(s, target);
    SurvivesExactly(s, target, target);
    SurvivesExactly(s, target, source);
  }

  /** A variable cannot be assigned what lives only inside its own old value. */
  lemma OwnChildIsLost(s: Heap, i: nat, u: nat, k: nat)
    requires Exact(s) && i < |s.roots| && s.roots[i] == Object(u) && Has(s, Slot(u, k)) && s.nodes[u].count == 1
    ensures Assign(s, Root(i), Slot(u, k)) == None && Move(s, Root(i), Slot(u, k)) == None
  {
    var bare, h := With(s, Root(i), Nothing), Object(u);
    TakeCounts(s, Root(i));
    EmptyIsSound(s, Root(i));
    DropStaysCounted(bare.nodes, [h], bare.roots);
    assert [h][0] == h && Orphans(bare.nodes, u) + [h][1..] == bare.nodes[u].slots;
    RecountLives(bare.nodes, u);
    SurvivorsAreWhole(Recount(bare.nodes, u), bare.nodes[u].slots, u);
  }
}
