/** What every message keeps, and what whole runs promise, of the flat list that the engine refines. */
module BookTheorems {
  import opened MachineInts
  import opened PriorityBook

  // ---------------------------------------------------------------- the list in time order

  /** The list is in strict order of stamps, and no stamp lies in the future. */
  ghost predicate Ordered(b: Book) {
    && (forall i, j | 0 <= i < j < |b.entries| :: b.entries[i].stamp < b.entries[j].stamp)
    && (forall i | 0 <= i < |b.entries| :: b.entries[i].stamp < b.clock)
  }

  lemma RemoveKeepsOrder(b: Book, id: uint64)
    requires Ordered(b)
    ensures Ordered(Remove(b, id))
  {
  }

  lemma AppendKeepsOrder(b: Book, id: uint64, size: uint32, key: LevelKey, price: int64)
    requires Ordered(b)
    ensures Ordered(Append(b, id, size, key, price))
  {
  }

  lemma MoveKeepsOrder(b: Book, i: nat, size: uint32)
    requires Ordered(b) && i < |b.entries|
    ensures Ordered(MoveToEnd(b, i, size))
  {
    var es := RemoveAt(b.entries, i);
    assert Ordered(b.(entries := es));
  }

  lemma ResizeKeepsOrder(b: Book, i: nat, size: uint32)
    requires Ordered(b) && i < |b.entries|
    ensures Ordered(Resize(b, i, size))
  {
  }

  lemma ReduceKeepsOrder(b: Book, id: uint64, amount: uint32)
    requires Ordered(b)
    ensures Ordered(Reduce(b, id, amount))
  {
    var i := Find(b.entries, id);
    RemoveKeepsOrder(b, id);
    if i < |b.entries| && amount < b.entries[i].size {
      ResizeKeepsOrder(b, i, b.entries[i].size - amount);
    }
  }

  lemma ModifyKeepsOrder(b: Book, m: Msg, key: LevelKey)
    requires Ordered(b)
    ensures Ordered(Modify(b, m, key))
  {
    var i := Find(b.entries, m.orderId);
    if i == |b.entries| {
      AppendKeepsOrder(b, m.orderId, m.size, key, m.price);
    } else if m.size == 0 {
      RemoveKeepsOrder(b, m.orderId);
    } else if m.price != b.entries[i].price {
      RemoveKeepsOrder(b, m.orderId);
      AppendKeepsOrder(Remove(b, m.orderId), m.orderId, m.size, key, m.price);
    } else if m.size > b.entries[i].size {
      MoveKeepsOrder(b, i, m.size);
    } else {
      ResizeKeepsOrder(b, i, m.size);
    }
  }

  lemma StepKeepsOrder(g: Grid, b: Book, m: Msg)
    requires g.Valid() && Ordered(b)
    ensures Ordered(Step(g, b, m))
  {
    ReduceKeepsOrder(b, m.orderId, m.size);
    RemoveKeepsOrder(b, m.orderId);
    AppendKeepsOrder(b, m.orderId, m.size, g.KeyOf(m), m.price);
    ModifyKeepsOrder(b, m, g.KeyOf(m));
  }

  /** Time priority over whole runs: from the empty book on, the list is always in stamp order. */
  lemma {:induction false} RunKeepsOrder(g: Grid, b: Book, ms: seq<Msg>)
    requires g.Valid() && Ordered(b)
    ensures Ordered(Run(g, b, ms))
    decreases |ms|
  {
    if ms != [] {
      StepKeepsOrder(g, b, ms[0]);
      RunKeepsOrder(g, Step(g, b, ms[0]), ms[1..]);
    }
  }

  /** So every level serves its orders strictly by stamp. */
  lemma {:induction false} QueueIsFifo(es: seq<Entry>, key: LevelKey)
    requires forall i, j | 0 <= i < j < |es| :: es[i].stamp < es[j].stamp
    ensures var q := Queue(es, key);
            && (forall e | e in q :: e in es && e.key == key)
            && (forall e | e in es && e.key == key :: e in q)
            && forall i, j | 0 <= i < j < |q| :: q[i].stamp < q[j].stamp
  {
    if es != [] {
      QueueIsFifo(es[1..], key);
      assert es == [es[0]] + es[1..];
    }
  }

  // ---------------------------------------------------------------- nobody jumps the queue

  /** Where an order stands: everything but its size. */
  ghost predicate SamePlace(e: Entry, e': Entry) {
    e.id == e'.id && e.key == e'.key && e.price == e'.price && e.stamp == e'.stamp
  }

  /** Every order of the later book that is not newer than the earlier one was already there, in the
      same place and at least as large. */
  ghost predicate OnlyShrank(b: Book, b': Book) {
    && b.clock <= b'.clock
    && forall e' | e' in b'.entries && e'.stamp < b.clock ::
         exists e :: e in b.entries && SamePlace(e, e') && e'.size <= e.size
  }

  lemma ShrankTransitive(a: Book, b: Book, c: Book)
    requires OnlyShrank(a, b) && OnlyShrank(b, c)
    ensures OnlyShrank(a, c)
  {
    forall e | e in c.entries && e.stamp < a.clock
      ensures exists e0 :: e0 in a.entries && SamePlace(e0, e) && e.size <= e0.size
    {
      var e1 :| e1 in b.entries && SamePlace(e1, e) && e.size <= e1.size;
      var e0 :| e0 in a.entries && SamePlace(e0, e1) && e1.size <= e0.size;
    }
  }

  lemma ShrankRefl(b: Book)
    ensures OnlyShrank(b, b)
  {
    forall e | e in b.entries
      ensures exists e0 :: e0 in b.entries && SamePlace(e0, e) && e.size <= e0.size
    {
      assert SamePlace(e, e);
    }
  }

  lemma RemoveShrinks(b: Book, id: uint64)
    ensures OnlyShrank(b, Remove(b, id))
  {
    ShrankRefl(b);
    if Resting(b.entries, id) {
      RemoveAtAddsNothing(b.entries, Find(b.entries, id));
    }
  }

  lemma AppendShrinks(b: Book, id: uint64, size: uint32, key: LevelKey, price: int64)
    ensures OnlyShrank(b, Append(b, id, size, key, price))
  {
    var es := Untrack(b.entries, id);
    forall e' | e' in es
      ensures exists e :: e in b.entries && SamePlace(e, e') && e'.size <= e.size
    {
      var j :| 0 <= j < |es| && es[j] == e';
      assert SamePlace(b.entries[j], e');
    }
  }

  lemma MoveShrinks(b: Book, i: nat, size: uint32)
    requires i < |b.entries|
    ensures OnlyShrank(b, MoveToEnd(b, i, size))
  {
    ShrankRefl(b);
    RemoveAtAddsNothing(b.entries, i);
  }

  lemma ResizeShrinks(b: Book, i: nat, size: uint32)
    requires i < |b.entries| && size <= b.entries[i].size
    ensures OnlyShrank(b, Resize(b, i, size))
  {
    var es := Resize(b, i, size).entries;
    forall e' | e' in es
      ensures exists e :: e in b.entries && SamePlace(e, e') && e'.size <= e.size
    {
      var j :| 0 <= j < |es| && es[j] == e';
      assert SamePlace(b.entries[j], e');
    }
  }

  lemma ReduceShrinks(b: Book, id: uint64, amount: uint32)
    ensures OnlyShrank(b, Reduce(b, id, amount))
  {
    var i := Find(b.entries, id);
    if i == |b.entries| {
      ShrankRefl(b);
    } else if amount >= b.entries[i].size {
      RemoveShrinks(b, id);
    } else {
      ResizeShrinks(b, i, b.entries[i].size - amount);
    }
  }

  lemma ModifyShrinks(b: Book, m: Msg, key: LevelKey)
    ensures OnlyShrank(b, Modify(b, m, key))
  {
    var i := Find(b.entries, m.orderId);
    if i == |b.entries| {
      AppendShrinks(b, m.orderId, m.size, key, m.price);
    } else if m.size == 0 {
      RemoveShrinks(b, m.orderId);
    } else if m.price != b.entries[i].price {
      var b' := Remove(b, m.orderId);
      RemoveShrinks(b, m.orderId);
      AppendShrinks(b', m.orderId, m.size, key, m.price);
      ShrankTransitive(b, b', Append(b', m.orderId, m.size, key, m.price));
    } else if m.size > b.entries[i].size {
      MoveShrinks(b, i, m.size);
    } else {
      ResizeShrinks(b, i, m.size);
    }
  }

  lemma StepShrinks(g: Grid, b: Book, m: Msg)
    requires g.Valid() && m.action != 'R'
    ensures OnlyShrank(b, Step(g, b, m))
  {
    ShrankRefl(b);
    ReduceShrinks(b, m.orderId, m.size);
    RemoveShrinks(b, m.orderId);
    AppendShrinks(b, m.orderId, m.size, g.KeyOf(m), m.price);
    ModifyShrinks(b, m, g.KeyOf(m));
  }

  /** Over any run without a reset, an order that keeps its stamp keeps its level, its price and its
      place, and can only lose size: a place once lost is never regained, because an order that was
      re-queued carries a later stamp for ever. */
  lemma {:induction false} RunShrinks(g: Grid, b: Book, ms: seq<Msg>)
    requires g.Valid() && forall m | m in ms :: m.action != 'R'
    ensures OnlyShrank(b, Run(g, b, ms))
    decreases |ms|
  {
    ShrankRefl(b);
    if ms != [] {
      var b' := Step(g, b, ms[0]);
      assert ms[0] in ms;
      StepShrinks(g, b, ms[0]);
      RunShrinks(g, b', ms[1..]);
      ShrankTransitive(b, b', Run(g, b', ms[1..]));
    }
  }

  /** The size that waits in a level ahead of a stamp. */
  function Ahead(es: seq<Entry>, key: LevelKey, stamp: nat): nat {
    if es == [] then 0
    else (if es[0].key == key && es[0].stamp < stamp then es[0].size else 0) + Ahead(es[1..], key, stamp)
  }

  lemma {:induction false} AheadConcat(es: seq<Entry>, es': seq<Entry>, key: LevelKey, stamp: nat)
    ensures Ahead(es + es', key, stamp) == Ahead(es, key, stamp) + Ahead(es', key, stamp)
  {
    if es == [] {
      assert es + es' == es';
    } else {
      AheadConcat(es[1..], es', key, stamp);
      assert (es + es')[1..] == es[1..] + es';
    }
  }

  /** In an ordered book, what is ahead of an order is what its queue holds before it. */
  lemma {:induction false} AheadIsPrefix(es: seq<Entry>, i: nat)
    requires i < |es| && forall j, k | 0 <= j < k < |es| :: es[j].stamp < es[k].stamp
    ensures Ahead(es, es[i].key, es[i].stamp) == Volume(es[..i], es[i].key)
  {
    AheadOfOlder(es[..i], es[i].key, es[i].stamp);
    AheadOfNewer(es[i..], es[i].key, es[i].stamp);
    AheadConcat(es[..i], es[i..], es[i].key, es[i].stamp);
    assert es[..i] + es[i..] == es;
  }

  lemma {:induction false} AheadOfOlder(es: seq<Entry>, key: LevelKey, stamp: nat)
    requires forall j | 0 <= j < |es| :: es[j].stamp < stamp
    ensures Ahead(es, key, stamp) == Volume(es, key)
  {
    if es != [] {
      AheadOfOlder(es[1..], key, stamp);
    }
  }

  lemma {:induction false} AheadOfNewer(es: seq<Entry>, key: LevelKey, stamp: nat)
    requires forall j | 0 <= j < |es| :: es[j].stamp >= stamp
    ensures Ahead(es, key, stamp) == 0
  {
    if es != [] {
      AheadOfNewer(es[1..], key, stamp);
    }
  }

  lemma AheadEdit(es: seq<Entry>, i: nat, e: Entry, key: LevelKey, stamp: nat)
    requires i < |es| && e.key == es[i].key && e.stamp == es[i].stamp && e.size <= es[i].size
    ensures Ahead(es[i := e], key, stamp) <= Ahead(es, key, stamp)
  {
    var es' := es[i := e];
    AheadConcat(es[..i], es[i..], key, stamp);
    AheadConcat(es'[..i], es'[i..], key, stamp);
    assert es[..i] + es[i..] == es && es'[..i] + es'[i..] == es';
    assert es'[..i] == es[..i] && es'[i..][1..] == es[i..][1..];
  }

  lemma AheadRemoveAt(es: seq<Entry>, i: nat, key: LevelKey, stamp: nat)
    requires i < |es|
    ensures Ahead(RemoveAt(es, i), key, stamp) <= Ahead(es, key, stamp)
  {
    RemoveAtSplits(es, i);
    AheadConcat(es[..i], es[i + 1..], key, stamp);
    AheadConcat(es[..i], es[i..], key, stamp);
    assert es[..i] + es[i..] == es && es[i..][1..] == es[i + 1..];
  }

  lemma AheadAppend(es: seq<Entry>, e: Entry, key: LevelKey, stamp: nat)
    requires e.stamp >= stamp
    ensures Ahead(es + [e], key, stamp) == Ahead(es, key, stamp)
  {
    AheadConcat(es, [e], key, stamp);
  }

  lemma AheadRemove(b: Book, id: uint64, key: LevelKey, stamp: nat)
    ensures Ahead(Remove(b, id).entries, key, stamp) <= Ahead(b.entries, key, stamp)
  {
    if Resting(b.entries, id) {
      AheadRemoveAt(b.entries, Find(b.entries, id), key, stamp);
    }
  }

  lemma AheadAdd(b: Book, id: uint64, size: uint32, at: LevelKey, price: int64, key: LevelKey, stamp: nat)
    requires stamp <= b.clock
    ensures Ahead(Append(b, id, size, at, price).entries, key, stamp) <= Ahead(b.entries, key, stamp)
  {
    var i := Find(b.entries, id);
    if i < |b.entries| {
      AheadEdit(b.entries, i, b.entries[i].(tracked := false), key, stamp);
    }
    AheadAppend(Untrack(b.entries, id), Entry(id, size, at, price, true, b.clock), key, stamp);
  }

  lemma AheadReduce(b: Book, id: uint64, amount: uint32, key: LevelKey, stamp: nat)
    ensures Ahead(Reduce(b, id, amount).entries, key, stamp) <= Ahead(b.entries, key, stamp)
  {
    var i := Find(b.entries, id);
    AheadRemove(b, id, key, stamp);
    if i < |b.entries| && amount < b.entries[i].size {
      AheadEdit(b.entries, i, b.entries[i].(size := b.entries[i].size - amount), key, stamp);
    }
  }

  lemma AheadModify(b: Book, m: Msg, at: LevelKey, key: LevelKey, stamp: nat)
    requires stamp <= b.clock
    ensures Ahead(Modify(b, m, at).entries, key, stamp) <= Ahead(b.entries, key, stamp)
  {
    var i := Find(b.entries, m.orderId);
    if i == |b.entries| {
      AheadAdd(b, m.orderId, m.size, at, m.price, key, stamp);
    } else {
      AheadRemove(b, m.orderId, key, stamp);
      AheadAdd(Remove(b, m.orderId), m.orderId, m.size, at, m.price, key, stamp);
      if m.size > b.entries[i].size {
        AheadRemoveAt(b.entries, i, key, stamp);
        AheadAppend(RemoveAt(b.entries, i), b.entries[i].(size := m.size, stamp := b.clock), key, stamp);
      } else {
        AheadEdit(b.entries, i, b.entries[i].(size := m.size), key, stamp);
      }
    }
  }

  lemma AheadStep(g: Grid, b: Book, m: Msg, key: LevelKey, stamp: nat)
    requires g.Valid() && m.action != 'R' && stamp <= b.clock
    ensures Ahead(Step(g, b, m).entries, key, stamp) <= Ahead(b.entries, key, stamp)
    ensures b.clock <= Step(g, b, m).clock
  {
    AheadReduce(b, m.orderId, m.size, key, stamp);
    AheadRemove(b, m.orderId, key, stamp);
    AheadAdd(b, m.orderId, m.size, g.KeyOf(m), m.price, key, stamp);
    AheadModify(b, m, g.KeyOf(m), key, stamp);
  }

  /** The size waiting ahead of a place never grows, whatever messages arrive, until a reset. */
  lemma {:induction false} AheadNeverGrows(g: Grid, b: Book, ms: seq<Msg>, key: LevelKey, stamp: nat)
    requires g.Valid() && stamp <= b.clock && forall m | m in ms :: m.action != 'R'
    ensures Ahead(Run(g, b, ms).entries, key, stamp) <= Ahead(b.entries, key, stamp)
    decreases |ms|
  {
    if ms != [] {
      assert ms[0] in ms;
      AheadStep(g, b, ms[0], key, stamp);
      AheadNeverGrows(g, Step(g, b, ms[0]), ms[1..], key, stamp);
    }
  }

  lemma StampNamesEntry(b: Book, b': Book, i: nat, j: nat)
    requires Ordered(b) && OnlyShrank(b, b') && i < |b.entries| && j < |b'.entries|
    requires b'.entries[j].stamp == b.entries[i].stamp
    ensures SamePlace(b.entries[i], b'.entries[j]) && b'.entries[j].size <= b.entries[i].size
  {
    var e' := b'.entries[j];
    assert e' in b'.entries;
    var e :| e in b.entries && SamePlace(e, e') && e'.size <= e.size;
    var k :| 0 <= k < |b.entries| && b.entries[k] == e;
    assert k == i;
  }

  /** For an order that still has its stamp: same level, same price, no larger, and no more waiting
      before it in its queue than there was. */
  lemma PlaceNeverWorsens(g: Grid, b: Book, ms: seq<Msg>, b': Book, i: nat, j: nat)
    requires g.Valid() && Ordered(b) && b' == Run(g, b, ms) && forall m | m in ms :: m.action != 'R'
    requires i < |b.entries| && j < |b'.entries| && b'.entries[j].stamp == b.entries[i].stamp
    ensures SamePlace(b.entries[i], b'.entries[j]) && b'.entries[j].size <= b.entries[i].size
    ensures Volume(b'.entries[..j], b.entries[i].key) <= Volume(b.entries[..i], b.entries[i].key)
  {
    var key, stamp := b.entries[i].key, b.entries[i].stamp;
    RunKeepsOrder(g, b, ms);
    RunShrinks(g, b, ms);
    StampNamesEntry(b, b', i, j);
    AheadNeverGrows(g, b, ms, key, stamp);
    AheadIsPrefix(b.entries, i);
    AheadIsPrefix(b'.entries, j);
  }
}
