/** The order book engine: price-indexed levels, a cached total per level, and an index from order id
    to the node that holds the order. Every message changes several of these at once.

    `view` is the flat list that the engine stands for, and `places[i]` the node that holds
    `view.entries[i]`. Each operation is proved to take `view` where PriorityBook.Step takes it. */
module OrderBookEngine {
  import opened Common
  import opened MachineInts
  import opened PriorityBook
  import opened OrderQueue
  import opened BookRows
  import opened BookLevels
  import opened BookAlgebra
  import opened BookRuns
  import opened BookSides

  datatype Ref = Ref(isBid: bool, index: nat, it: Node, price: int64)

  function RefTo(e: Entry, n: Node): Ref {
    Ref(e.key.isBid, e.key.index, n, e.price)
  }

  /** The index maps the ids of the tracked entries, and no others, to their nodes. */
  ghost predicate Indexed(es: seq<Entry>, places: seq<Node>, refs: map<uint64, Ref>) {
    && |places| == |es|
    && (forall i | 0 <= i < |es| && es[i].tracked :: es[i].id in refs && refs[es[i].id] == RefTo(es[i], places[i]))
    && (forall id {:trigger Resting(es, id)} | id in refs :: Resting(es, id))
  }

  /** What an index entry says is the tracked entry of that id. */
  lemma IndexedAt(es: seq<Entry>, places: seq<Node>, refs: map<uint64, Ref>, id: uint64)
    requires Indexed(es, places, refs)
    ensures id in refs <==> Resting(es, id)
    ensures id in refs ==> refs[id] == RefTo(es[Find(es, id)], places[Find(es, id)])
  {
  }

  /** No id is tracked twice. */
  lemma TrackedOnce(es: seq<Entry>, places: seq<Node>, refs: map<uint64, Ref>, i: nat)
    requires Indexed(es, places, refs) && Distinct(places) && i < |es| && es[i].tracked
    ensures Find(es, es[i].id) == i
  {
  }

  /** A tracked entry is enough to rest. */
  lemma RestsWith(es: seq<Entry>, i: nat)
    requires i < |es| && es[i].tracked
    ensures Resting(es, es[i].id)
  {
  }

  lemma DistinctRemove(places: seq<Node>, i: nat)
    requires Distinct(places) && i < |places|
    ensures Distinct(RemoveAt(places, i))
  {
    var r := RemoveAt(places, i);
    forall j, k | 0 <= j < k < |r|
      ensures r[j] != r[k]
    {
      assert places[if j < i then j else j + 1] != places[if k < i then k else k + 1];
    }
  }

  lemma RestingWithout(es: seq<Entry>, places: seq<Node>, refs: map<uint64, Ref>, id: uint64, other: uint64)
    requires Indexed(es, places, refs) && Resting(es, id) && Resting(es, other) && other != id
    ensures Resting(RemoveAt(es, Find(es, id)), other)
  {
    var i, k := Find(es, id), Find(es, other);
    var k' := if k < i then k else k - 1;
    assert RemoveAt(es, i)[k'] == es[k];
    RestsWith(RemoveAt(es, i), k');
  }

  lemma NamedWithout(es: seq<Entry>, places: seq<Node>, refs: map<uint64, Ref>, id: uint64, j: nat)
    requires Indexed(es, places, refs) && Distinct(places) && Resting(es, id) && j < |es| - 1
    requires var e := RemoveAt(es, Find(es, id))[j]; e.tracked
    ensures var e := RemoveAt(es, Find(es, id))[j];
            e.id in refs && e.id != id && refs[e.id] == RefTo(e, RemoveAt(places, Find(es, id))[j])
  {
    var i := Find(es, id);
    TrackedOnce(es, places, refs, if j < i then j else j + 1);
  }

  lemma IndexedRemove(es: seq<Entry>, places: seq<Node>, refs: map<uint64, Ref>, id: uint64)
    requires Indexed(es, places, refs) && Distinct(places) && Resting(es, id)
    ensures var i := Find(es, id); Indexed(RemoveAt(es, i), RemoveAt(places, i), refs - {id})
  {
    var es', places', refs' := RemoveAt(es, Find(es, id)), RemoveAt(places, Find(es, id)), refs - {id};
    forall j | 0 <= j < |es'| && es'[j].tracked
      ensures es'[j].id in refs' && refs'[es'[j].id] == RefTo(es'[j], places'[j])
    {
      NamedWithout(es, places, refs, id, j);
    }
    forall other | other in refs'
      ensures Resting(es', other)
    {
      RestingWithout(es, places, refs, id, other);
    }
  }

  lemma IndexedUntrack(es: seq<Entry>, places: seq<Node>, refs: map<uint64, Ref>, id: uint64)
    requires Indexed(es, places, refs) && Distinct(places)
    ensures Indexed(Untrack(es, id), places, refs - {id})
  {
    var es' := Untrack(es, id);
    forall j | 0 <= j < |es'| && es'[j].tracked
      ensures es'[j].id in refs - {id} && refs[es'[j].id] == RefTo(es'[j], places[j])
    {
      TrackedOnce(es, places, refs, j);
    }
    forall other | other in refs - {id}
      ensures Resting(es', other)
    {
      assert Resting(es, other);
      RestsWith(es', Find(es, other));
    }
  }

  lemma IndexedAppend(es: seq<Entry>, places: seq<Node>, refs: map<uint64, Ref>, e: Entry, n: Node)
    requires Indexed(es, places, refs) && e.tracked && e.id !in refs
    ensures Indexed(es + [e], places + [n], refs[e.id := RefTo(e, n)])
  {
    var es' := es + [e];
    forall other | other in refs
      ensures Resting(es', other)
    {
      assert Resting(es, other);
      RestsWith(es', Find(es, other));
    }
    RestsWith(es', |es|);
  }

  lemma IndexedAfterAppend(b: Book, places: seq<Node>, refs: map<uint64, Ref>,
                           m: Msg, key: LevelKey, n: Node)
    requires Indexed(b.entries, places, refs) && Distinct(places)
    ensures Indexed(Append(b, m.orderId, m.size, key, m.price).entries, places + [n],
                    refs[m.orderId := Ref(key.isBid, key.index, n, m.price)])
  {
    var es := Untrack(b.entries, m.orderId);
    var e := Entry(m.orderId, m.size, key, m.price, true, b.clock);
    IndexedUntrack(b.entries, places, refs, m.orderId);
    IndexedAppend(es, places, refs - {m.orderId}, e, n);
    assert (refs - {m.orderId})[m.orderId := RefTo(e, n)] == refs[m.orderId := RefTo(e, n)];
  }

  lemma IndexedResize(b: Book, places: seq<Node>, refs: map<uint64, Ref>, i: nat, size: uint32)
    requires Indexed(b.entries, places, refs) && i < |b.entries|
    ensures Indexed(Resize(b, i, size).entries, places, refs)
  {
    var es := Resize(b, i, size).entries;
    forall other | other in refs
      ensures Resting(es, other)
    {
      assert Resting(b.entries, other);
      RestsWith(es, Find(b.entries, other));
    }
  }

  lemma IndexedMove(b: Book, places: seq<Node>, refs: map<uint64, Ref>, i: nat, size: uint32)
    requires Indexed(b.entries, places, refs) && Distinct(places)
    requires i < |b.entries| && b.entries[i].tracked
    ensures Indexed(MoveToEnd(b, i, size).entries, RemoveAt(places, i) + [places[i]], refs)
  {
    var id := b.entries[i].id;
    TrackedOnce(b.entries, places, refs, i);
    IndexedRemove(b.entries, places, refs, id);
    var e := b.entries[i].(size := size, stamp := b.clock);
    IndexedAppend(RemoveAt(b.entries, i), RemoveAt(places, i), refs - {id}, e, places[i]);
    assert (refs - {id})[id := RefTo(e, places[i])] == refs;
  }

  class OrderBook {
    const grid: Grid
    const bids: seq<Level>
    const asks: seq<Level>
    var ordersRef: map<uint64, Ref>

    ghost var view: Book
    ghost var places: seq<Node>

    // ---------------------------------------------------------------- the invariant

    ghost predicate Shape() {
      && grid.Valid()
      && |bids| == |asks| == grid.NumLevels()
      && (forall i | 0 <= i < |bids| :: bids[i].key == LevelKey(true, i))
      && (forall i | 0 <= i < |asks| :: asks[i].key == LevelKey(false, i))
    }

    predicate HasLevel(key: LevelKey) {
      key.index < |bids| && key.index < |asks|
    }

    function GetSide(key: LevelKey): Level
      requires HasLevel(key)
    {
      if key.isBid then bids[key.index] else asks[key.index]
    }

    /** Each flat entry has its own node, in the level of its key. */
    ghost predicate Housed(es: seq<Entry>, places: seq<Node>) {
      && |places| == |es|
      && (forall i | 0 <= i < |es| ::
            HasLevel(es[i].key) && places[i].home == GetSide(es[i].key) && places[i].id == es[i].id)
      && Distinct(places)
    }

    lemma HousedAfterAppend(b: Book, places: seq<Node>, m: Msg, key: LevelKey, n: Node)
      requires Housed(b.entries, places) && n !in places
      requires HasLevel(key) && n.home == GetSide(key) && n.id == m.orderId
      ensures Housed(Append(b, m.orderId, m.size, key, m.price).entries, places + [n])
    {
    }

    lemma HousedRemove(es: seq<Entry>, places: seq<Node>, i: nat)
      requires Housed(es, places) && i < |es|
      ensures Housed(RemoveAt(es, i), RemoveAt(places, i)) && places[i] !in RemoveAt(places, i)
    {
      DistinctRemove(places, i);
    }

    lemma HousedMove(b: Book, places: seq<Node>, i: nat, size: uint32)
      requires Housed(b.entries, places) && i < |b.entries|
      ensures Housed(MoveToEnd(b, i, size).entries, RemoveAt(places, i) + [places[i]])
    {
      HousedRemove(b.entries, places, i);
    }

    ghost predicate Sized()
      reads this, places
    {
      && |places| == |view.entries|
      && forall i | 0 <= i < |places| :: places[i].size == view.entries[i].size
    }

    /** A level queues exactly its own part of the flat list, and caches its volume. */
    ghost predicate LevelOk(key: LevelKey)
      requires HasLevel(key)
      reads this, GetSide(key), places
    {
      var lv := GetSide(key);
      && |places| == |view.entries|
      && lv.nodes == Select(view.entries, places, key)
      && (forall i | 0 <= i < |lv.nodes| :: lv.nodes[i] in places)
      && lv.Linked()
      && Caches(lv.totalSize, view.entries, key)
    }

    ghost predicate LevelsOk()
      reads this, bids, asks, places
    {
      forall key {:trigger LevelOk(key)} | HasLevel(key) :: LevelOk(key)
    }

    ghost predicate Valid()
      reads this, bids, asks, places
    {
      && Shape()
      && Housed(view.entries, places)
      && Sized()
      && LevelsOk()
      && Indexed(view.entries, places, ordersRef)
    }

    /** The nodes of a level, from first to last, hold the orders of the flat list's queue. */
    lemma LevelIsQueue(key: LevelKey)
      requires Valid() && HasLevel(key)
      ensures var q, ns := Queue(view.entries, key), GetSide(key).nodes;
              |q| == |ns| && forall k | 0 <= k < |q| :: ns[k].id == q[k].id && ns[k].size == q[k].size
      ensures GetSide(key).Linked() && GetSide(key).totalSize == Volume(view.entries, key) % TWO_64
    {
      assert LevelOk(key);
      NodesMirror(view.entries, places, key);
    }

    lemma {:induction false} NodesMirror(es: seq<Entry>, ns: seq<Node>, key: LevelKey)
      requires |es| == |ns| && forall i | 0 <= i < |es| :: ns[i].id == es[i].id && ns[i].size == es[i].size
      ensures var q, s := Queue(es, key), Select(es, ns, key);
              |q| == |s| && forall k | 0 <= k < |q| :: s[k].id == q[k].id && s[k].size == q[k].size
    {
      if es != [] {
        NodesMirror(es[1..], ns[1..], key);
      }
    }

    /** Every index entry leads to the node of its own order, in the level and at the price it names,
        and no two entries share a node. Without orphans every resting node is reached this way. */
    lemma IndexNamesNodes()
      requires Valid()
      ensures forall id | id in ordersRef ::
                var ref := ordersRef[id];
                && ref.it in places && ref.it.id == id
                && HasLevel(LevelKey(ref.isBid, ref.index)) && ref.it in GetSide(LevelKey(ref.isBid, ref.index)).nodes
                && OrderOf(view.entries, id).Some? && OrderOf(view.entries, id).value.price == ref.price
      ensures forall id, id' | id in ordersRef && id' in ordersRef && id != id' ::
                ordersRef[id].it != ordersRef[id'].it
      ensures AllTracked(view.entries) ==>
                forall key, n | HasLevel(key) && n in GetSide(key).nodes ::
                  n.id in ordersRef && ordersRef[n.id].it == n
    {
      forall id | id in ordersRef
        ensures Resting(view.entries, id)
        ensures var i, ref := Find(view.entries, id), ordersRef[id];
                && ref == RefTo(view.entries[i], places[i])
                && HasLevel(LevelKey(ref.isBid, ref.index)) && ref.it in GetSide(LevelKey(ref.isBid, ref.index)).nodes
      {
        IndexedAt(view.entries, places, ordersRef, id);
        Lookup(id);
      }
      assert AllTracked(view.entries) ==> forall n | n in places :: n.id in ordersRef && ordersRef[n.id].it == n;
      forall key, n | HasLevel(key) && n in GetSide(key).nodes ensures n in places {
        assert LevelOk(key);
      }
    }

    /** After a run from the empty book without an Add of a resting id, the index and the queued nodes name
        each other one to one. */
    lemma RunIndexesEveryNode(ms: seq<Msg>)
      requires Valid() && view == Run(grid, EMPTY_BOOK, ms) && Throughout(grid, EMPTY_BOOK, ms, AddsNew)
      ensures forall key, n | HasLevel(key) && n in GetSide(key).nodes ::
                n.id in ordersRef && ordersRef[n.id].it == n
      ensures forall id | id in ordersRef ::
                var ref := ordersRef[id];
                && HasLevel(LevelKey(ref.isBid, ref.index)) && ref.it in GetSide(LevelKey(ref.isBid, ref.index)).nodes
                && ref.it.id == id
    {
      RunKeepsTracked(grid, EMPTY_BOOK, ms);
      IndexNamesNodes();
    }

    /** Only one level and its own nodes were touched. */
    twostate predicate OnlyTouched(key: LevelKey, was: seq<Node>)
      requires HasLevel(key)
      reads bids, asks, was
    {
      && (forall k: LevelKey {:trigger GetSide(k)} | HasLevel(k) && k != key :: unchanged(GetSide(k)))
      && (forall n | n in was && n.home != GetSide(key) :: unchanged(n))
    }

    /** The flat list changed nobody's part but the touched level's. */
    twostate predicate SamePart(key: LevelKey)
      reads this
    {
      && |places| == |view.entries|
      && |old(places)| == |old(view.entries)|
      && Select(view.entries, places, key) == Select(old(view.entries), old(places), key)
      && Volume(view.entries, key) == Volume(old(view.entries), key)
    }

    /** A level whose part did not change, and that was not touched, is still right. */
    twostate lemma LevelsKept(touched: LevelKey)
      requires Shape() && HasLevel(touched) && old(LevelsOk()) && OnlyTouched(touched, old(places))
      requires forall k | HasLevel(k) && k != touched :: SamePart(k)
      ensures forall k | HasLevel(k) && k != touched :: LevelOk(k)
    {
      forall key | HasLevel(key) && key != touched
        ensures LevelOk(key)
      {
        assert old(LevelOk(key));
        var lv := GetSide(key);
        assert SamePart(key) && lv != GetSide(touched);
        assert forall i | 0 <= i < |lv.nodes| :: lv.nodes[i].home == lv && lv.nodes[i] in old(places);
      }
    }

    // ---------------------------------------------------------------- adding

    /** No node enters the book except a new one. */
    twostate predicate OnlyFreshEnter(was: seq<Node>)
      reads this
    {
      forall i | 0 <= i < |places| :: places[i] in was || fresh(places[i])
    }

    /** The levels after a node has been put at the back of one queue. */
    twostate lemma LevelsAfterAppend(new m: Msg, new key: LevelKey, new it: Node)
      requires |old(places)| == |old(view.entries)|
      requires Shape() && HasLevel(key) && old(LevelsOk()) && OnlyTouched(key, old(places))
      requires view == Append(old(view), m.orderId, m.size, key, m.price) && places == old(places) + [it]
      requires GetSide(key).Linked()
      requires GetSide(key).nodes == old(GetSide(key).nodes) + [it]
      requires GetSide(key).totalSize == Add64(old(GetSide(key).totalSize), m.size)
      ensures LevelsOk()
    {
      var b, ns := old(view), old(places);
      assert old(LevelOk(key));
      TotalAfterAppend(old(GetSide(key).totalSize), b, m.orderId, m.size, key, m.price);
      forall k | HasLevel(k)
        ensures k == key || SamePart(k)
        ensures k == key ==> LevelOk(k)
      {
        AppendMoves(b, m.orderId, m.size, key, m.price, ns, it, k);
      }
      LevelsKept(key);
    }

    /** A new node at the back of a queue, its size on the level's total. */
    method Enqueue(id: uint64, size: uint32, key: LevelKey) returns (it: Node)
      requires Shape() && HasLevel(key) && LevelsOk()
      modifies GetSide(key), places
      ensures fresh(it) && it.id == id && it.size == size && it.home == GetSide(key)
      ensures OnlyTouched(key, places) && forall n | n in places :: n.size == old(n.size)
      ensures GetSide(key).Linked() && GetSide(key).nodes == old(GetSide(key).nodes) + [it]
      ensures GetSide(key).totalSize == Add64(old(GetSide(key).totalSize), size)
    {
      var level := GetSide(key);
      assert LevelOk(key);
      it := level.PushBack(id, size);
      level.totalSize := Add64(level.totalSize, size);
    }

    twostate lemma SizedAfterAppend(new m: Msg, new key: LevelKey, new it: Node)
      requires old(Sized()) && it.size == m.size && forall n | n in old(places) :: n.size == old(n.size)
      requires view == Append(old(view), m.orderId, m.size, key, m.price) && places == old(places) + [it]
      ensures Sized()
    {
    }

    /** The invariant after the flat list, the index and one queue have all gained the same order. */
    twostate lemma ValidAfterAppend(new m: Msg, new key: LevelKey, new it: Node)
      requires old(Valid()) && HasLevel(key) && OnlyTouched(key, old(places))
      requires it !in old(places) && it.id == m.orderId && it.size == m.size && it.home == GetSide(key)
      requires forall n | n in old(places) :: n.size == old(n.size)
      requires view == Append(old(view), m.orderId, m.size, key, m.price) && places == old(places) + [it]
      requires ordersRef == old(ordersRef)[m.orderId := Ref(key.isBid, key.index, it, m.price)]
      requires GetSide(key).Linked() && GetSide(key).nodes == old(GetSide(key).nodes) + [it]
      requires GetSide(key).totalSize == Add64(old(GetSide(key).totalSize), m.size)
      ensures Valid()
    {
      IndexedAfterAppend(old(view), old(places), old(ordersRef), m, key, it);
      HousedAfterAppend(old(view), old(places), m, key, it);
      SizedAfterAppend(m, key, it);
      LevelsAfterAppend(m, key, it);
    }

    method Add(m: Msg, key: LevelKey)
      requires Valid() && HasLevel(key)
      modifies this, bids, asks, places
      ensures Valid() && view == Append(old(view), m.orderId, m.size, key, m.price)
      ensures OnlyFreshEnter(old(places))
    {
      var it := Enqueue(m.orderId, m.size, key);
      ordersRef := ordersRef[m.orderId := Ref(key.isBid, key.index, it, m.price)];
      view := Append(view, m.orderId, m.size, key, m.price);
      places := places + [it];
      ValidAfterAppend(m, key, it);
    }

    // ---------------------------------------------------------------- erasing

    /** The level after a node has been erased from its queue. */
    twostate lemma LevelAfterErase(new i: nat, new key: LevelKey)
      requires |old(places)| == |old(view.entries)| && i < |old(places)| && old(view.entries)[i].key == key
      requires HasLevel(key) && old(LevelOk(key))
      requires view.entries == RemoveAt(old(view.entries), i) && places == RemoveAt(old(places), i)
      requires GetSide(key).Linked() && Rank(old(view.entries), i) < |old(GetSide(key).nodes)|
      requires GetSide(key).nodes == RemoveAt(old(GetSide(key).nodes), Rank(old(view.entries), i))
      requires GetSide(key).totalSize == Sub64(old(GetSide(key).totalSize), old(view.entries)[i].size)
      ensures LevelOk(key)
    {
      var es := old(view.entries);
      SelectRemove(es, old(places), i, key);
      TotalAfterRemove(old(GetSide(key).totalSize), es, i);
    }

    twostate lemma OthersAfterErase(new i: nat, new key: LevelKey)
      requires |old(places)| == |old(view.entries)| && i < |old(places)| && old(view.entries)[i].key == key
      requires Shape() && HasLevel(key) && old(LevelsOk()) && OnlyTouched(key, old(places))
      requires view.entries == RemoveAt(old(view.entries), i) && places == RemoveAt(old(places), i)
      ensures forall k | HasLevel(k) && k != key :: LevelOk(k)
    {
      forall k | HasLevel(k) && k != key
        ensures SamePart(k)
      {
        SelectRemove(old(view.entries), old(places), i, k);
      }
      LevelsKept(key);
    }

    twostate lemma SizedAfterErase(new i: nat)
      requires old(Sized()) && i < |old(places)| && forall n | n in old(places) :: n.size == old(n.size)
      requires view.entries == RemoveAt(old(view.entries), i) && places == RemoveAt(old(places), i)
      ensures Sized()
    {
      assert forall j | 0 <= j < |places| :: places[j] == old(places)[if j < i then j else j + 1];
    }

    twostate lemma ValidAfterErase(it: Node, new id: uint64, new i: nat, new key: LevelKey)
      requires old(Valid()) && old(IsAt(it, key, i)) && i == Find(old(view.entries), id)
      requires HasLevel(key) && OnlyTouched(key, old(places))
      requires forall n | n in old(places) :: n.size == old(n.size)
      requires view == Remove(old(view), id) && places == RemoveAt(old(places), i)
      requires ordersRef == old(ordersRef) - {id}
      requires GetSide(key).Linked()
      requires GetSide(key).nodes == RemoveAt(old(GetSide(key).nodes), Rank(old(view.entries), i))
      requires GetSide(key).totalSize == Sub64(old(GetSide(key).totalSize), old(view.entries)[i].size)
      ensures Valid()
    {
      IndexedRemove(old(view.entries), old(places), old(ordersRef), id);
      HousedRemove(old(view.entries), old(places), i);
      SizedAfterErase(i);
      assert old(LevelOk(key));
      LevelAfterErase(i, key);
      OthersAfterErase(i, key);
    }

    /** The index leads to the node that holds the order, where its queue has it. */
    lemma Lookup(id: uint64)
      requires Valid() && id in ordersRef
      ensures Resting(view.entries, id)
      ensures var i, ref := Find(view.entries, id), ordersRef[id];
              IsAt(ref.it, LevelKey(ref.isBid, ref.index), i) && ref.price == view.entries[i].price
    {
      var i := Find(view.entries, id);
      IndexedAt(view.entries, places, ordersRef, id);
      assert LevelOk(view.entries[i].key);
      SelectAt(view.entries, places, i);
    }

    /** A node taken out of its queue, its size off the level's total. */
    method Dequeue(it: Node, key: LevelKey, ghost k: nat)
      requires Shape() && HasLevel(key) && LevelsOk()
      requires k < |GetSide(key).nodes| && GetSide(key).nodes[k] == it
      modifies GetSide(key), places
      ensures OnlyTouched(key, places) && forall n | n in places :: n.size == old(n.size)
      ensures GetSide(key).Linked() && GetSide(key).nodes == RemoveAt(old(GetSide(key).nodes), k)
      ensures GetSide(key).totalSize == Sub64(old(GetSide(key).totalSize), old(it.size))
    {
      var level := GetSide(key);
      assert LevelOk(key);
      level.totalSize := Sub64(level.totalSize, it.size);
      level.Erase(it, k);
    }

    /** What a cancel, a trade, a fill and two paths of a modify do to an order that leaves: take its
        size off its level, erase its node, forget its id. */
    method EraseOrder(id: uint64)
      requires Valid() && id in ordersRef
      modifies this, bids, asks, places
      ensures Valid() && view == Remove(old(view), id) && id !in ordersRef
      ensures forall i | 0 <= i < |places| :: places[i] in old(places)
    {
      Lookup(id);
      var ref := ordersRef[id];
      EraseAt(id, ref.it, LevelKey(ref.isBid, ref.index), Find(view.entries, id));
    }

    /** The node holds the tracked entry at a place of the flat list, at its rank in the queue of its level. */
    ghost predicate IsAt(it: Node, key: LevelKey, i: nat)
      reads this, bids, asks, places
    {
      && i < |view.entries| == |places| && HasLevel(key) && view.entries[i].key == key && view.entries[i].tracked
      && it == places[i] && it.size == view.entries[i].size
      && Rank(view.entries, i) < |GetSide(key).nodes| && GetSide(key).nodes[Rank(view.entries, i)] == it
    }

    method EraseAt(id: uint64, it: Node, key: LevelKey, ghost i: nat)
      requires Valid() && IsAt(it, key, i) && i == Find(view.entries, id)
      modifies this, bids, asks, places
      ensures Valid() && view == Remove(old(view), id) && ordersRef == old(ordersRef) - {id}
      ensures forall n | n in places :: n in old(places)
    {
      Dequeue(it, key, Rank(view.entries, i));
      ordersRef := ordersRef - {id};
      view, places := Remove(view, id), RemoveAt(places, i);
      assert Valid() by {
        ValidAfterErase(it, id, i, key);
      }
      RemoveAtAddsNothing(old(places), i);
    }

    // ---------------------------------------------------------------- shrinking in place

    twostate lemma LevelsAfterShrink(new i: nat, new key: LevelKey, new amount: uint32)
      requires i < |old(view.entries)| == |old(places)| && old(view.entries)[i].key == key
      requires amount <= old(view.entries)[i].size
      requires Shape() && HasLevel(key) && old(LevelsOk()) && OnlyTouched(key, old(places))
      requires view == Resize(old(view), i, old(view.entries)[i].size - amount)
      requires places == old(places)
      requires GetSide(key).Linked() && GetSide(key).nodes == old(GetSide(key).nodes)
      requires GetSide(key).totalSize == Sub64(old(GetSide(key).totalSize), amount)
      ensures LevelsOk()
    {
      var es, e := old(view.entries), view.entries[i];
      assert old(LevelOk(key));
      TotalAfterShrink(old(GetSide(key).totalSize), old(view), i, amount);
      forall k | HasLevel(k)
        ensures k == key || SamePart(k)
        ensures k == key ==> LevelOk(k)
      {
        SelectEdit(es, places, i, e, k);
      }
      LevelsKept(key);
    }

    twostate lemma ValidAfterShrink(new i: nat, new key: LevelKey, new amount: uint32)
      requires old(Valid()) && i < |old(places)| && old(view.entries)[i].key == key
      requires amount <= old(view.entries)[i].size
      requires HasLevel(key) && OnlyTouched(key, old(places))
      requires view == Resize(old(view), i, old(view.entries)[i].size - amount)
      requires places == old(places) && ordersRef == old(ordersRef)
      requires forall n | n in places :: n.size == if n == places[i] then old(n.size) - amount else old(n.size)
      requires GetSide(key).Linked() && GetSide(key).nodes == old(GetSide(key).nodes)
      requires GetSide(key).totalSize == Sub64(old(GetSide(key).totalSize), amount)
      ensures Valid()
    {
      IndexedResize(old(view), places, ordersRef, i, old(view.entries)[i].size - amount);
      LevelsAfterShrink(i, key, amount);
    }

    /** Size taken off a node and off its level's total. */
    method Shrink(it: Node, key: LevelKey, amount: uint32)
      requires Shape() && HasLevel(key) && LevelsOk() && amount <= it.size
      requires it in places && it.home == GetSide(key)
      modifies GetSide(key), places
      ensures OnlyTouched(key, places)
      ensures forall n | n in places :: n.size == if n == it then old(n.size) - amount else old(n.size)
      ensures GetSide(key).Linked() && GetSide(key).nodes == old(GetSide(key).nodes)
      ensures GetSide(key).totalSize == Sub64(old(GetSide(key).totalSize), amount)
    {
      var level := GetSide(key);
      assert LevelOk(key);
      it.size := it.size - amount;
      level.totalSize := Sub64(level.totalSize, amount);
    }

    /** What a partial cancel, a partial trade and a size decrease do: nothing moves. */
    method ShrinkOrder(id: uint64, amount: uint32)
      requires Valid() && id in ordersRef && Resting(view.entries, id)
      requires amount <= view.entries[Find(view.entries, id)].size
      modifies this, bids, asks, places
      ensures Valid() && places == old(places) && OnlyFreshEnter(old(places))
      ensures view == Shrunk(old(view), id, amount)
    {
      Lookup(id);
      var ref := ordersRef[id];
      ghost var i := Find(view.entries, id);
      ghost var after := Shrunk(view, id, amount);
      assert after == Resize(view, i, view.entries[i].size - amount);
      ShrinkAt(ref.it, LevelKey(ref.isBid, ref.index), amount, i);
    }

    method ShrinkAt(it: Node, key: LevelKey, amount: uint32, ghost i: nat)
      requires Valid() && IsAt(it, key, i) && amount <= it.size
      modifies this, bids, asks, places
      ensures Valid() && places == old(places)
      ensures view == Resize(old(view), i, old(view.entries)[i].size - amount)
    {
      ghost var after := Resize(view, i, view.entries[i].size - amount);
      Shrink(it, key, amount);
      view := after;
      assert Valid() by {
        ValidAfterShrink(i, key, amount);
      }
    }

    // ---------------------------------------------------------------- growing, which moves to the end

    twostate lemma LevelAfterGrow(new i: nat, new key: LevelKey, new size: uint32)
      requires i < |old(view.entries)| == |old(places)| && old(view.entries)[i].key == key
      requires HasLevel(key) && old(LevelOk(key)) && size >= old(view.entries)[i].size
      requires view == MoveToEnd(old(view), i, size) && places == RemoveAt(old(places), i) + [old(places)[i]]
      requires GetSide(key).Linked() && Rank(old(view.entries), i) < |old(GetSide(key).nodes)|
      requires GetSide(key).nodes == RemoveAt(old(GetSide(key).nodes), Rank(old(view.entries), i)) + [old(places)[i]]
      requires GetSide(key).totalSize == Add64(old(GetSide(key).totalSize), size - old(view.entries)[i].size)
      ensures LevelOk(key)
    {
      assert GetSide(key).nodes == Select(view.entries, places, key) by {
        MoveMoves(old(view), i, size, old(places), key);
      }
      assert Caches(GetSide(key).totalSize, view.entries, key) by {
        TotalAfterGrow(old(GetSide(key).totalSize), old(view), i, size);
      }
    }

    twostate lemma OthersAfterGrow(new i: nat, new key: LevelKey, new size: uint32)
      requires i < |old(view.entries)| == |old(places)| && old(view.entries)[i].key == key
      requires Shape() && HasLevel(key) && old(LevelsOk()) && OnlyTouched(key, old(places))
      requires view == MoveToEnd(old(view), i, size) && places == RemoveAt(old(places), i) + [old(places)[i]]
      ensures forall k | HasLevel(k) && k != key :: LevelOk(k)
    {
      forall k | HasLevel(k) && k != key
        ensures SamePart(k)
      {
        MoveMoves(old(view), i, size, old(places), k);
      }
      LevelsKept(key);
    }

    twostate lemma SizedAfterGrow(new i: nat, new size: uint32)
      requires old(Sized()) && i < |old(places)| && Distinct(old(places))
      requires forall n | n in old(places) :: n.size == if n == old(places)[i] then size else old(n.size)
      requires view == MoveToEnd(old(view), i, size) && places == RemoveAt(old(places), i) + [old(places)[i]]
      ensures Sized()
    {
      forall j | 0 <= j < |places| - 1
        ensures places[j].size == view.entries[j].size
      {
        assert places[j] == old(places)[if j < i then j else j + 1];
      }
    }

    twostate lemma ValidAfterGrow(it: Node, new i: nat, new key: LevelKey, new size: uint32)
      requires old(Valid()) && old(IsAt(it, key, i)) && size >= old(view.entries)[i].size
      requires HasLevel(key) && OnlyTouched(key, old(places)) && ordersRef == old(ordersRef)
      requires forall n | n in old(places) :: n.size == if n == old(places)[i] then size else old(n.size)
      requires view == MoveToEnd(old(view), i, size) && places == RemoveAt(old(places), i) + [old(places)[i]]
      requires GetSide(key).Linked()
      requires GetSide(key).nodes == RemoveAt(old(GetSide(key).nodes), Rank(old(view.entries), i)) + [it]
      requires GetSide(key).totalSize == Add64(old(GetSide(key).totalSize), size - old(view.entries)[i].size)
      ensures Valid()
    {
      IndexedMove(old(view), old(places), ordersRef, i, size);
      HousedMove(old(view), old(places), i, size);
      SizedAfterGrow(i, size);
      assert old(LevelOk(key));
      LevelAfterGrow(i, key, size);
      OthersAfterGrow(i, key, size);
    }

    /** Size put on a node and on its level's total, and the node spliced behind all others. */
    method Grow(it: Node, key: LevelKey, size: uint32, ghost k: nat, ghost more: uint64)
      requires Shape() && HasLevel(key) && LevelsOk() && it.size + more == size
      requires k < |GetSide(key).nodes| && GetSide(key).nodes[k] == it
      modifies GetSide(key), places
      ensures OnlyTouched(key, places)
      ensures forall n | n in places :: n.size == if n == it then size else old(n.size)
      ensures GetSide(key).Linked() && GetSide(key).nodes == RemoveAt(old(GetSide(key).nodes), k) + [it]
      ensures GetSide(key).totalSize == Add64(old(GetSide(key).totalSize), more)
    {
      var level := GetSide(key);
      assert LevelOk(key);
      level.totalSize := Add64(level.totalSize, size - it.size);
      it.size := size;
      level.SpliceToEnd(it, k);
    }

    /** What a size increase at the same price does. */
    method GrowOrder(id: uint64, size: uint32)
      requires Valid() && id in ordersRef && Resting(view.entries, id)
      requires size >= view.entries[Find(view.entries, id)].size
      modifies this, bids, asks, places
      ensures Valid() && view == Grown(old(view), id, size)
      ensures OnlyFreshEnter(old(places))
    {
      Lookup(id);
      var ref := ordersRef[id];
      ghost var i := Find(view.entries, id);
      ghost var after := Grown(view, id, size);
      assert after == MoveToEnd(view, i, size);
      GrowAt(ref.it, LevelKey(ref.isBid, ref.index), size, i);
    }

    method GrowAt(it: Node, key: LevelKey, size: uint32, ghost i: nat)
      requires Valid() && IsAt(it, key, i) && size >= it.size
      modifies this, bids, asks, places
      ensures Valid() && view == MoveToEnd(old(view), i, size) && OnlyFreshEnter(old(places))
    {
      ghost var after, ns := MoveToEnd(view, i, size), RemoveAt(places, i) + [places[i]];
      Grow(it, key, size, Rank(view.entries, i), size - view.entries[i].size);
      view, places := after, ns;
      assert Valid() by {
        ValidAfterGrow(it, i, key, size);
      }
      assert OnlyFreshEnter(old(places)) by {
        MoveAddsNothing(old(places), i);
      }
    }

    // ---------------------------------------------------------------- messages

    /** The shared logic of a cancel and a trade. */
    method ReduceOrder(id: uint64, amount: uint32)
      requires Valid()
      modifies this, bids, asks, places
      ensures Valid() && view == Reduce(old(view), id, amount) && OnlyFreshEnter(old(places))
    {
      ghost var after := Reduce(view, id, amount);
      IndexedAt(view.entries, places, ordersRef, id);
      if id in ordersRef {
        Lookup(id);
        if amount >= ordersRef[id].it.size {
          EraseOrder(id);
        } else {
          ShrinkOrder(id, amount);
        }
      }
      assert view == after;
    }

    method Cancel(m: Msg)
      requires Valid()
      modifies this, bids, asks, places
      ensures Valid() && view == Reduce(old(view), m.orderId, m.size) && OnlyFreshEnter(old(places))
    {
      ReduceOrder(m.orderId, m.size);
    }

    method HandleTrade(m: Msg)
      requires Valid()
      modifies this, bids, asks, places
      ensures Valid() && view == Reduce(old(view), m.orderId, m.size) && OnlyFreshEnter(old(places))
    {
      ReduceOrder(m.orderId, m.size);
    }

    method HandleNonPrinted(m: Msg)
      requires Valid()
      modifies this, bids, asks, places
      ensures Valid() && view == Reduce(old(view), m.orderId, m.size) && OnlyFreshEnter(old(places))
    {
      HandleTrade(m);
    }

    method HandleFullFill(m: Msg)
      requires Valid()
      modifies this, bids, asks, places
      ensures Valid() && view == Remove(old(view), m.orderId) && OnlyFreshEnter(old(places))
    {
      IndexedAt(view.entries, places, ordersRef, m.orderId);
      if m.orderId in ordersRef {
        EraseOrder(m.orderId);
      }
    }

    method ModifyOrder(m: Msg, newKey: LevelKey)
      requires Valid() && m.action == 'M' && HasSide(m)
      requires Places(view, m) ==> HasLevel(newKey)
      modifies this, bids, asks, places
      ensures Valid() && view == Modify(old(view), m, newKey) && OnlyFreshEnter(old(places))
    {
      IndexedAt(view.entries, places, ordersRef, m.orderId);
      if m.orderId !in ordersRef {
        // An unknown id is an Add.
        Add(m, newKey);
      } else {
        ModifyKnown(m, newKey);
      }
    }

    /** A new price: out of the old queue, to the back of the new one. */
    method Requeue(m: Msg, newKey: LevelKey)
      requires Valid() && m.orderId in ordersRef && HasLevel(newKey)
      modifies this, bids, asks, places
      ensures Valid() && OnlyFreshEnter(old(places))
      ensures view == Append(Remove(old(view), m.orderId), m.orderId, m.size, newKey, m.price)
    {
      EraseOrder(m.orderId);
      Add(m, newKey);
    }

    method ModifyKnown(m: Msg, newKey: LevelKey)
      requires Valid() && m.action == 'M' && HasSide(m) && m.orderId in ordersRef
      requires Places(view, m) ==> HasLevel(newKey)
      modifies this, bids, asks, places
      ensures Valid() && view == Modify(old(view), m, newKey) && OnlyFreshEnter(old(places))
    {
      ghost var after := Modify(view, m, newKey);
      Lookup(m.orderId);
      ModifyIs(view, m, newKey);
      if m.size == 0 {
        EraseOrder(m.orderId);
      } else if m.price != ordersRef[m.orderId].price {
        Requeue(m, newKey);
      } else {
        ChangeSize(m.orderId, m.size);
      }
      assert view == after;
    }

    /** The same price: a larger size costs the place, a smaller one does not. */
    method ChangeSize(id: uint64, size: uint32)
      requires Valid() && id in ordersRef && Resting(view.entries, id)
      modifies this, bids, asks, places
      ensures Valid() && OnlyFreshEnter(old(places))
      ensures var was := old(view.entries)[Find(old(view.entries), id)].size;
              && (size > was ==> view == Grown(old(view), id, size))
              && (size <= was ==> view == Shrunk(old(view), id, was - size))
    {
      var oldSize := ordersRef[id].it.size;
      assert oldSize == view.entries[Find(view.entries, id)].size by {
        Lookup(id);
      }
      if size > oldSize {
        GrowOrder(id, size);
      } else {
        ShrinkOrder(id, oldSize - size);
      }
    }

    lemma BlankIsValid()
      requires Shape() && view == EMPTY_BOOK && places == [] && ordersRef == map[]
      requires forall key | HasLevel(key) :: GetSide(key).Blank()
      ensures Valid()
    {
      forall key | HasLevel(key)
        ensures LevelOk(key)
      {
        assert GetSide(key).Blank();
      }
    }

    /** Every level is replaced by an empty one, and every id forgotten. */
    method Clear()
      requires Valid()
      modifies this, bids, asks
      ensures Valid() && view == EMPTY_BOOK && places == []
    {
      assert forall i, j | 0 <= i < |bids| && 0 <= j < |asks| :: bids[i] != asks[j];
      ResetAll(bids);
      ResetAll(asks);
      ordersRef := map[];
      view, places := EMPTY_BOOK, [];
      BlankIsValid();
    }

    /** One message: the engine goes where the flat list goes. An order that is queued is queued on the side
        that its letter names, and a message with another letter changes nothing unless it is a reset. */
    method Apply(m: Msg)
      requires Valid() && Accepts(grid, view, m)
      modifies this, bids, asks, places
      ensures Valid() && view == Step(grid, old(view), m) && OnlyFreshEnter(old(places))
      ensures (m.side == 'A' || m.side == 'B') && Queues(old(view), m) ==>
                QueuedLast(grid, view.entries, m, old(view).clock)
      ensures m.side != 'A' && m.side != 'B' ==> view == if m.action == 'R' then EMPTY_BOOK else old(view)
    {
      MessageOutcome(m);
      if m.action == 'R' {
        Clear();
        return;
      }
      if m.side != 'A' && m.side != 'B' {
        return;
      }
      var key := LevelKey(m.side == 'B', grid.PriceToIndex(m.price));
      match m.action
      case 'T' => HandleTrade(m);
      case 'F' => HandleFullFill(m);
      case 'N' => HandleNonPrinted(m);
      case 'A' => Add(m, key);
      case 'C' => Cancel(m);
      case 'M' => ModifyOrder(m, key);
      case _ =>
    }

    lemma MessageOutcome(m: Msg)
      requires grid.Valid() && Accepts(grid, view, m)
      ensures (m.side == 'A' || m.side == 'B') && Queues(view, m) ==>
                QueuedLast(grid, Step(grid, view, m).entries, m, view.clock)
      ensures m.side != 'A' && m.side != 'B' ==> Step(grid, view, m) == if m.action == 'R' then EMPTY_BOOK else view
    {
      if m.side != 'A' && m.side != 'B' {
        OtherSidesIgnored(grid, view, m);
      } else if Queues(view, m) {
        QueuedWhere(grid, view, m);
      }
    }

    /** A run of messages, one after the other. */
    method Replay(ms: seq<Msg>)
      requires Valid() && AcceptsAll(grid, view, ms)
      modifies this, bids, asks, places
      ensures Valid() && view == Run(grid, old(view), ms)
    {
      for i := 0 to |ms|
        invariant Valid() && OnlyFreshEnter(old(places)) && AcceptsAll(grid, view, ms[i..])
        invariant Run(grid, view, ms[i..]) == Run(grid, old(view), ms)
      {
        assert ms[i..][1..] == ms[i + 1..];
        Apply(ms[i]);
      }
    }

    // ---------------------------------------------------------------- queries

    /** A level as a query reads it: nothing when it is empty. */
    function CellsOf(lv: Level, i: nat): seq<Cell>
      reads lv
    {
      if lv.IsEmpty() then [] else [Cell(grid.PriceAt(i), lv.totalSize, lv.count)]
    }

    /** The same, for a rendering that leaves out levels with a zero total. */
    function PositiveCellsOf(lv: Level, i: nat): seq<Cell>
      reads lv
    {
      if !lv.IsEmpty() && lv.totalSize > 0 then [Cell(grid.PriceAt(i), lv.totalSize, lv.count)] else []
    }

    /** What every level says of itself is what the flat list says of it. */
    ghost predicate Readable(buys: seq<seq<Cell>>, sells: seq<seq<Cell>>)
      reads bids, asks
    {
      && |bids| == |buys| && |asks| == |sells|
      && (forall i | 0 <= i < |bids| :: CellsOf(bids[i], i) == buys[i])
      && (forall i | 0 <= i < |asks| :: CellsOf(asks[i], i) == sells[i])
    }

    lemma ValidReads()
      requires Valid()
      ensures Readable(SideCells(grid, view.entries, true), SideCells(grid, view.entries, false))
    {
      forall i | 0 <= i < |bids|
        ensures CellsOf(bids[i], i) == Cells(grid, view.entries, LevelKey(true, i))
        ensures CellsOf(asks[i], i) == Cells(grid, view.entries, LevelKey(false, i))
      {
        assert LevelOk(LevelKey(true, i)) && LevelOk(LevelKey(false, i));
      }
    }

    method BestBid() returns (r: Option<(int, uint64)>)
      requires Valid()
      ensures var cells := BidCells(grid, view.entries);
              r == if cells == [] then None else Some((cells[0].price, cells[0].size))
      ensures ShowsBest(grid, view.entries, true, r)
    {
      BestIs(grid, view.entries, true);
      ValidReads();
      r := FirstBid(SideCells(grid, view.entries, true), SideCells(grid, view.entries, false));
    }

    method FirstBid(ghost buys: seq<seq<Cell>>, ghost sells: seq<seq<Cell>>) returns (r: Option<(int, uint64)>)
      requires Readable(buys, sells)
      ensures var cells := Falling(buys, 0);
              r == if cells == [] then None else Some((cells[0].price, cells[0].size))
    {
      for i := |bids| downto 0
        invariant forall k | i <= k < |bids| :: buys[k] == []
      {
        assert CellsOf(bids[i], i) == buys[i];
        if !bids[i].IsEmpty() {
          FallingFirst(buys, i);
          return Some((grid.PriceAt(i), bids[i].totalSize));
        }
      }
      FallingEmpty(buys, 0);
      return None;
    }

    method BestAsk() returns (r: Option<(int, uint64)>)
      requires Valid()
      ensures var cells := AskCells(grid, view.entries);
              r == if cells == [] then None else Some((cells[0].price, cells[0].size))
      ensures ShowsBest(grid, view.entries, false, r)
    {
      BestIs(grid, view.entries, false);
      ValidReads();
      r := FirstAsk(SideCells(grid, view.entries, true), SideCells(grid, view.entries, false));
    }

    method FirstAsk(ghost buys: seq<seq<Cell>>, ghost sells: seq<seq<Cell>>) returns (r: Option<(int, uint64)>)
      requires Readable(buys, sells)
      ensures var cells := Rising(sells, |sells|);
              r == if cells == [] then None else Some((cells[0].price, cells[0].size))
    {
      for i := 0 to |asks|
        invariant forall k | 0 <= k < i :: sells[k] == []
      {
        assert CellsOf(asks[i], i) == sells[i];
        if !asks[i].IsEmpty() {
          RisingFirst(sells, i);
          return Some((grid.PriceAt(i), asks[i].totalSize));
        }
      }
      RisingEmpty(sells, |sells|);
      return None;
    }

    /** The first rows of each side. A negative depth makes the original's vectors refuse to reserve. */
    method GetDepth(levels: int) returns (r: Option<(seq<Row>, seq<Row>)>)
      requires Valid()
      ensures r.None? <==> levels < 0
      ensures levels >= 0 ==>
                && r.value.0 == Rows(Take(BidCells(grid, view.entries), levels))
                && r.value.1 == Rows(Take(AskCells(grid, view.entries), levels))
      ensures levels >= 0 ==>
                && ShowsDepth(grid, view.entries, true, levels, r.value.0)
                && ShowsDepth(grid, view.entries, false, levels, r.value.1)
      ensures levels >= 0 && OnGrid(grid, view.entries) ==>
                && DepthByPrice(view.entries, true, levels, r.value.0)
                && DepthByPrice(view.entries, false, levels, r.value.1)
    {
      if levels < 0 {
        return None;
      }
      ValidReads();
      var bidRows, askRows := DepthOf(levels, SideCells(grid, view.entries, true), SideCells(grid, view.entries, false));
      DepthReads(levels, true, bidRows);
      DepthReads(levels, false, askRows);
      return Some((bidRows, askRows));
    }

    lemma DepthReads(levels: nat, isBid: bool, rows: seq<Row>)
      requires grid.Valid() && rows == Rows(Take(ShownCells(grid, view.entries, isBid), levels))
      ensures ShowsDepth(grid, view.entries, isBid, levels, rows)
      ensures OnGrid(grid, view.entries) ==> DepthByPrice(view.entries, isBid, levels, rows)
    {
      DepthIs(grid, view.entries, isBid, levels);
      if OnGrid(grid, view.entries) {
        DepthIsByPrice(grid, view.entries, isBid, levels, rows);
      }
    }

    /** Each scan stops with enough rows or with no level left. */
    method DepthOf(levels: nat, ghost buys: seq<seq<Cell>>, ghost sells: seq<seq<Cell>>)
      returns (bidRows: seq<Row>, askRows: seq<Row>)
      requires Readable(buys, sells)
      ensures bidRows == Rows(Take(Falling(buys, 0), levels))
      ensures askRows == Rows(Take(Rising(sells, |sells|), levels))
    {
      bidRows := BidDepth(levels, buys, sells);
      askRows := AskDepth(levels, buys, sells);
    }

    method BidDepth(levels: nat, ghost buys: seq<seq<Cell>>, ghost sells: seq<seq<Cell>>) returns (rows: seq<Row>)
      requires Readable(buys, sells)
      ensures rows == Rows(Take(Falling(buys, 0), levels))
    {
      rows := [];
      var i := |bids|;
      while i > 0 && |rows| < levels
        invariant 0 <= i <= |bids| && |rows| <= levels
        invariant rows == Rows(Falling(buys, i))
      {
        i := i - 1;
        assert CellsOf(bids[i], i) == buys[i];
        if !bids[i].IsEmpty() {
          rows := rows + [Row(grid.PriceAt(i), bids[i].totalSize)];
        }
      }
      FallingPrefix(buys, i);
    }

    method AskDepth(levels: nat, ghost buys: seq<seq<Cell>>, ghost sells: seq<seq<Cell>>) returns (rows: seq<Row>)
      requires Readable(buys, sells)
      ensures rows == Rows(Take(Rising(sells, |sells|), levels))
    {
      rows := [];
      var i := 0;
      while i < |asks| && |rows| < levels
        invariant 0 <= i <= |asks| && |rows| <= levels
        invariant rows == Rows(Rising(sells, i))
      {
        assert CellsOf(asks[i], i) == sells[i];
        RisingNext(sells, i);
        if !asks[i].IsEmpty() {
          rows := rows + [Row(grid.PriceAt(i), asks[i].totalSize)];
        }
        i := i + 1;
      }
      RisingPrefix(sells, i);
    }

    /** All rows of both sides. A total is shown as a signed 64-bit number. */
    method BuildSnapshot() returns (bidRows: seq<SignedRow>, askRows: seq<SignedRow>)
      requires Valid()
      ensures bidRows == SignedRows(BidCells(grid, view.entries))
      ensures askRows == SignedRows(AskCells(grid, view.entries))
      ensures ShowsSnapshot(grid, view.entries, true, bidRows) && ShowsSnapshot(grid, view.entries, false, askRows)
      ensures OnGrid(grid, view.entries) ==>
                SnapshotByPrice(view.entries, true, bidRows) && SnapshotByPrice(view.entries, false, askRows)
    {
      ValidReads();
      bidRows, askRows := SnapshotOf(SideCells(grid, view.entries, true), SideCells(grid, view.entries, false));
      SnapshotReads(true, bidRows);
      SnapshotReads(false, askRows);
    }

    lemma SnapshotReads(isBid: bool, rows: seq<SignedRow>)
      requires grid.Valid() && rows == SignedRows(ShownCells(grid, view.entries, isBid))
      ensures ShowsSnapshot(grid, view.entries, isBid, rows)
      ensures OnGrid(grid, view.entries) ==> SnapshotByPrice(view.entries, isBid, rows)
    {
      SnapshotIs(grid, view.entries, isBid);
      if OnGrid(grid, view.entries) {
        SnapshotIsByPrice(grid, view.entries, isBid, rows);
      }
    }

    method SnapshotOf(ghost buys: seq<seq<Cell>>, ghost sells: seq<seq<Cell>>)
      returns (bidRows: seq<SignedRow>, askRows: seq<SignedRow>)
      requires Readable(buys, sells)
      ensures bidRows == SignedRows(Falling(buys, 0))
      ensures askRows == SignedRows(Rising(sells, |sells|))
    {
      bidRows, askRows := [], [];
      for i := |bids| downto 0
        invariant bidRows == SignedRows(Falling(buys, i))
      {
        assert CellsOf(bids[i], i) == buys[i];
        if !bids[i].IsEmpty() {
          bidRows := bidRows + [SignedRow(grid.PriceAt(i), ToInt64(bids[i].totalSize))];
        }
      }
      for i := 0 to |asks|
        invariant askRows == SignedRows(Rising(sells, i))
      {
        assert CellsOf(asks[i], i) == sells[i];
        RisingNext(sells, i);
        if !asks[i].IsEmpty() {
          askRows := askRows + [SignedRow(grid.PriceAt(i), ToInt64(asks[i].totalSize))];
        }
      }
    }

    /** The levels of both sides whose totals are not zero, side by side, and how many pairs there
        are. Each side is first gathered in a buffer of fixed size, which must not overflow. */
    method BuildBidAskPairs() returns (pairs: seq<Pair>, numLevels: nat)
      requires Valid()
      requires |Positive(BidCells(grid, view.entries))| <= BUFFER_LEVELS
      requires |Positive(AskCells(grid, view.entries))| <= BUFFER_LEVELS
      ensures pairs == PaddedZip(Positive(BidCells(grid, view.entries)), Positive(AskCells(grid, view.entries)))
      ensures numLevels == |pairs|
      ensures ShowsPairs(grid, view.entries, pairs)
    {
      PairsAre(grid, view.entries);
      ghost var buys, sells := SideCells(grid, view.entries, true), SideCells(grid, view.entries, false);
      ValidReads();
      PositiveFalling(buys, 0);
      PositiveRising(sells, |sells|);
      PositiveReads(buys, sells);
      pairs, numLevels := PairsOf(PositiveSide(buys), PositiveSide(sells));
    }

    lemma PositiveReads(buys: seq<seq<Cell>>, sells: seq<seq<Cell>>)
      requires Readable(buys, sells)
      ensures |buys| == |bids| && forall i | 0 <= i < |bids| :: PositiveCellsOf(bids[i], i) == PositiveSide(buys)[i]
      ensures |sells| == |asks| && forall i | 0 <= i < |asks| :: PositiveCellsOf(asks[i], i) == PositiveSide(sells)[i]
    {
      forall i | 0 <= i < |bids|
        ensures PositiveCellsOf(bids[i], i) == PositiveSide(buys)[i]
      {
        assert CellsOf(bids[i], i) == buys[i];
        PositiveOne(Cell(grid.PriceAt(i), bids[i].totalSize, bids[i].count));
      }
      forall i | 0 <= i < |asks|
        ensures PositiveCellsOf(asks[i], i) == PositiveSide(sells)[i]
      {
        assert CellsOf(asks[i], i) == sells[i];
        PositiveOne(Cell(grid.PriceAt(i), asks[i].totalSize, asks[i].count));
      }
    }

    method PairsOf(ghost buys: seq<seq<Cell>>, ghost sells: seq<seq<Cell>>) returns (pairs: seq<Pair>, numLevels: nat)
      requires |buys| == |bids| && forall i | 0 <= i < |bids| :: PositiveCellsOf(bids[i], i) == buys[i]
      requires |sells| == |asks| && forall i | 0 <= i < |asks| :: PositiveCellsOf(asks[i], i) == sells[i]
      requires |Falling(buys, 0)| <= BUFFER_LEVELS && |Rising(sells, |sells|)| <= BUFFER_LEVELS
      ensures pairs == PaddedZip(Falling(buys, 0), Rising(sells, |sells|)) && numLevels == |pairs|
    {
      var bidLevels, bidCount := GatherBids(buys);
      var askLevels, askCount := GatherAsks(sells);
      pairs, numLevels := PairUp(bidLevels, bidCount, askLevels, askCount);
    }

    method GatherBids(ghost side: seq<seq<Cell>>) returns (levels: array<Cell>, count: nat)
      requires |side| == |bids| && forall i | 0 <= i < |bids| :: PositiveCellsOf(bids[i], i) == side[i]
      requires |Falling(side, 0)| <= BUFFER_LEVELS
      ensures fresh(levels) && count <= levels.Length && levels[..count] == Falling(side, 0)
    {
      levels, count := new Cell[BUFFER_LEVELS], 0;
      for i := |bids| downto 0
        invariant count <= levels.Length == BUFFER_LEVELS && fresh(levels)
        invariant forall k | 0 <= k < i :: PositiveCellsOf(bids[k], k) == side[k]
        invariant levels[..count] == Falling(side, i)
      {
        assert PositiveCellsOf(bids[i], i) == side[i];
        FallingPrefix(side, i);
        if !bids[i].IsEmpty() && bids[i].totalSize > 0 {
          Store(levels, count, Cell(grid.PriceAt(i), bids[i].totalSize, bids[i].count));
          count := count + 1;
        }
      }
    }

    method GatherAsks(ghost side: seq<seq<Cell>>) returns (levels: array<Cell>, count: nat)
      requires |side| == |asks| && forall i | 0 <= i < |asks| :: PositiveCellsOf(asks[i], i) == side[i]
      requires |Rising(side, |side|)| <= BUFFER_LEVELS
      ensures fresh(levels) && count <= levels.Length && levels[..count] == Rising(side, |side|)
    {
      levels, count := new Cell[BUFFER_LEVELS], 0;
      for i := 0 to |asks|
        invariant count <= levels.Length == BUFFER_LEVELS && fresh(levels)
        invariant forall k | i <= k < |asks| :: PositiveCellsOf(asks[k], k) == side[k]
        invariant levels[..count] == Rising(side, i)
      {
        assert PositiveCellsOf(asks[i], i) == side[i];
        RisingNext(side, i);
        RisingPrefix(side, i + 1);
        if !asks[i].IsEmpty() && asks[i].totalSize > 0 {
          Store(levels, count, Cell(grid.PriceAt(i), asks[i].totalSize, asks[i].count));
          count := count + 1;
        }
      }
    }

    constructor (grid: Grid)
      requires grid.Valid()
      ensures Valid() && this.grid == grid && view == EMPTY_BOOK && places == []
      ensures fresh(bids) && fresh(asks)
    {
      this.grid := grid;
      var buys := EmptyLevels(true, grid.NumLevels());
      var sells := EmptyLevels(false, grid.NumLevels());
      bids, asks := buys, sells;
      ordersRef := map[];
      view, places := EMPTY_BOOK, [];
      new;
      BlankIsValid();
    }
  }

  method PairUp(bidLevels: array<Cell>, bidCount: nat, askLevels: array<Cell>, askCount: nat)
    returns (pairs: seq<Pair>, numLevels: nat)
    requires bidCount <= bidLevels.Length && askCount <= askLevels.Length
    ensures pairs == PaddedZip(bidLevels[..bidCount], askLevels[..askCount]) && numLevels == |pairs|
  {
    numLevels := Max(bidCount, askCount);
    pairs := [];
    for i := 0 to numLevels
      invariant pairs == PaddedZip(bidLevels[..bidCount], askLevels[..askCount])[..i]
    {
      var bid := if i < bidCount then bidLevels[i] else BLANK;
      var ask := if i < askCount then askLevels[i] else BLANK;
      pairs := pairs + [Pair(QuoteOf(bid), QuoteOf(ask))];
    }
  }

  method Store(levels: array<Cell>, i: nat, c: Cell)
    requires i < levels.Length
    modifies levels
    ensures levels[..i + 1] == old(levels[..i]) + [c]
  {
    levels[i] := c;
  }

  method ResetAll(levels: seq<Level>)
    requires forall i, j | 0 <= i < j < |levels| :: levels[i] != levels[j]
    modifies levels
    ensures forall i | 0 <= i < |levels| :: levels[i].Blank()
  {
    for i := 0 to |levels|
      invariant forall j | 0 <= j < i :: levels[j].Blank()
    {
      levels[i].Reset();
    }
  }

  method EmptyLevels(isBid: bool, n: nat) returns (levels: seq<Level>)
    ensures |levels| == n && fresh(levels)
    ensures forall i | 0 <= i < n ::
              levels[i].key == LevelKey(isBid, i) && levels[i].Blank()
  {
    levels := [];
    for i := 0 to n
      invariant |levels| == i && fresh(levels)
      invariant forall j | 0 <= j < i ::
                  levels[j].key == LevelKey(isBid, j) && levels[j].Blank()
    {
      var level := new Level(LevelKey(isBid, i));
      levels := levels + [level];
    }
  }
}
