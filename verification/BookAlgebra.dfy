/** What becomes of the order a message names, what it leaves alone, what volume it moves, and how
    runs compose. */
module BookAlgebra {
  import opened Common
  import opened MachineInts
  import opened PriorityBook

  // ---------------------------------------------------------------- ids are tracked once

  ghost predicate UniqueTracked(es: seq<Entry>) {
    forall i, j | 0 <= i < j < |es| && es[i].tracked && es[j].tracked :: es[i].id != es[j].id
  }

  function OrderOf(es: seq<Entry>, id: uint64): Option<Entry> {
    if Resting(es, id) then Some(es[Find(es, id)]) else None
  }

  lemma OrderOfIs(es: seq<Entry>, i: nat)
    requires UniqueTracked(es) && i < |es| && es[i].tracked
    ensures OrderOf(es, es[i].id) == Some(es[i])
  {
  }

  lemma RemoveForgets(b: Book, id: uint64)
    requires UniqueTracked(b.entries)
    ensures UniqueTracked(Remove(b, id).entries) && OrderOf(Remove(b, id).entries, id) == None
  {
    var i, es := Find(b.entries, id), Remove(b, id).entries;
    if i < |b.entries| {
      assert forall j | 0 <= j < |es| :: es[j] == b.entries[if j < i then j else j + 1];
    }
  }

  lemma AppendIntroduces(b: Book, id: uint64, size: uint32, key: LevelKey, price: int64)
    requires UniqueTracked(b.entries)
    ensures var b' := Append(b, id, size, key, price);
            && UniqueTracked(b'.entries)
            && OrderOf(b'.entries, id) == Some(Entry(id, size, key, price, true, b.clock))
  {
    var b' := Append(b, id, size, key, price);
    assert forall j | 0 <= j < |b.entries| && b'.entries[j].tracked :: b'.entries[j].id != id;
    OrderOfIs(b'.entries, |b.entries|);
  }

  lemma MoveRenews(b: Book, i: nat, size: uint32)
    requires UniqueTracked(b.entries) && i < |b.entries| && b.entries[i].tracked
    ensures var b' := MoveToEnd(b, i, size);
            && UniqueTracked(b'.entries)
            && OrderOf(b'.entries, b.entries[i].id) == Some(b.entries[i].(size := size, stamp := b.clock))
  {
    var b' := MoveToEnd(b, i, size);
    assert forall j | 0 <= j < |b.entries| - 1 :: b'.entries[j] == b.entries[if j < i then j else j + 1];
    OrderOfIs(b'.entries, |b.entries| - 1);
  }

  lemma ResizeEdits(b: Book, i: nat, size: uint32)
    requires UniqueTracked(b.entries) && i < |b.entries| && b.entries[i].tracked
    ensures var b' := Resize(b, i, size);
            && UniqueTracked(b'.entries)
            && OrderOf(b'.entries, b.entries[i].id) == Some(b.entries[i].(size := size))
  {
    OrderOfIs(Resize(b, i, size).entries, i);
  }

  // ---------------------------------------------------------------- the order that the message names

  /** A cancel or trade takes its amount, and a remainder of zero or less is gone. */
  function AfterReduce(e: Option<Entry>, amount: uint32): Option<Entry> {
    match e
    case None => None
    case Some(o) => if o.size <= amount then None else Some(o.(size := o.size - amount))
  }

  /** A modify to size zero deletes. A new price re-queues the order on the message's side; at the
      same price the side of the message plays no part, and only an increase costs the place. */
  function AfterModify(e: Option<Entry>, m: Msg, placed: Entry): Option<Entry> {
    match e
    case None => Some(placed)
    case Some(o) =>
      if m.size == 0 then None
      else if m.price != o.price then Some(placed)
      else Some(o.(size := m.size, stamp := if m.size > o.size then placed.stamp else o.stamp))
  }

  function AfterMessage(g: Grid, e: Option<Entry>, m: Msg, clock: nat): Option<Entry>
    requires g.Valid()
  {
    var placed := Entry(m.orderId, m.size, g.KeyOf(m), m.price, true, clock);
    if m.action == 'R' then None
    else if !HasSide(m) then e
    else match m.action
      case 'A' => Some(placed)
      case 'M' => AfterModify(e, m, placed)
      case 'F' => None
      case 'C' => AfterReduce(e, m.size)
      case 'T' => AfterReduce(e, m.size)
      case 'N' => AfterReduce(e, m.size)
      case _ => e
  }

  lemma ReduceOutcome(b: Book, id: uint64, amount: uint32)
    requires UniqueTracked(b.entries)
    ensures UniqueTracked(Reduce(b, id, amount).entries)
    ensures OrderOf(Reduce(b, id, amount).entries, id) == AfterReduce(OrderOf(b.entries, id), amount)
  {
    var i := Find(b.entries, id);
    RemoveForgets(b, id);
    if i < |b.entries| && amount < b.entries[i].size {
      ResizeEdits(b, i, b.entries[i].size - amount);
    }
  }

  lemma ModifyOutcome(b: Book, m: Msg, key: LevelKey)
    requires UniqueTracked(b.entries)
    ensures UniqueTracked(Modify(b, m, key).entries)
    ensures OrderOf(Modify(b, m, key).entries, m.orderId)
         == AfterModify(OrderOf(b.entries, m.orderId), m, Entry(m.orderId, m.size, key, m.price, true, b.clock))
  {
    var i := Find(b.entries, m.orderId);
    RemoveForgets(b, m.orderId);
    if i == |b.entries| {
      AppendIntroduces(b, m.orderId, m.size, key, m.price);
    } else if m.size != 0 && m.price != b.entries[i].price {
      AppendIntroduces(Remove(b, m.orderId), m.orderId, m.size, key, m.price);
    } else if m.size > b.entries[i].size {
      MoveRenews(b, i, m.size);
    } else {
      ResizeEdits(b, i, m.size);
    }
  }

  /** What a message does to the order it names, whatever else rests in the book. */
  lemma StepOutcome(g: Grid, b: Book, m: Msg)
    requires g.Valid() && UniqueTracked(b.entries)
    ensures UniqueTracked(Step(g, b, m).entries)
    ensures OrderOf(Step(g, b, m).entries, m.orderId) == AfterMessage(g, OrderOf(b.entries, m.orderId), m, b.clock)
  {
    if m.action in {'C', 'T', 'N'} {
      ReduceOutcome(b, m.orderId, m.size);
    } else if m.action == 'F' {
      RemoveForgets(b, m.orderId);
    } else if m.action == 'A' {
      AppendIntroduces(b, m.orderId, m.size, g.KeyOf(m), m.price);
    } else if m.action == 'M' {
      ModifyOutcome(b, m, g.KeyOf(m));
    }
  }

  // ---------------------------------------------------------------- everybody else

  /** The list without the orders of one id. */
  function Without(es: seq<Entry>, id: uint64): seq<Entry> {
    if es == [] then []
    else if es[0].id == id then Without(es[1..], id)
    else [es[0]] + Without(es[1..], id)
  }

  lemma {:induction false} WithoutConcat(es: seq<Entry>, es': seq<Entry>, id: uint64)
    ensures Without(es + es', id) == Without(es, id) + Without(es', id)
  {
    if es == [] {
      assert es + es' == es';
    } else {
      WithoutConcat(es[1..], es', id);
      assert (es + es')[1..] == es[1..] + es';
      Regroup([es[0]], Without(es[1..], id), Without(es', id));
    }
  }

  lemma {:induction false} WithoutRemoveAt(es: seq<Entry>, i: nat)
    requires i < |es|
    ensures Without(RemoveAt(es, i), es[i].id) == Without(es, es[i].id)
  {
    if i == 0 {
      assert RemoveAt(es, 0) == es[1..];
    } else {
      WithoutRemoveAt(es[1..], i - 1);
      assert RemoveAt(es, i) == [es[0]] + RemoveAt(es[1..], i - 1);
    }
  }

  lemma WithoutEdit(es: seq<Entry>, i: nat, e: Entry)
    requires i < |es| && e.id == es[i].id
    ensures Without(es[i := e], e.id) == Without(es, e.id)
  {
    var es' := es[i := e];
    WithoutConcat(es[..i], es[i..], e.id);
    WithoutConcat(es'[..i], es'[i..], e.id);
    assert es[..i] + es[i..] == es && es'[..i] + es'[i..] == es';
    assert es'[..i] == es[..i] && es'[i..][1..] == es[i..][1..];
  }

  lemma WithoutRemove(b: Book, id: uint64)
    ensures Without(Remove(b, id).entries, id) == Without(b.entries, id)
  {
    if Resting(b.entries, id) {
      WithoutRemoveAt(b.entries, Find(b.entries, id));
    }
  }

  lemma WithoutAppend(b: Book, id: uint64, size: uint32, key: LevelKey, price: int64)
    ensures Without(Append(b, id, size, key, price).entries, id) == Without(b.entries, id)
  {
    var i := Find(b.entries, id);
    if i < |b.entries| {
      WithoutEdit(b.entries, i, b.entries[i].(tracked := false));
    }
    WithoutConcat(Untrack(b.entries, id), [Entry(id, size, key, price, true, b.clock)], id);
  }

  lemma WithoutReduce(b: Book, id: uint64, amount: uint32)
    ensures Without(Reduce(b, id, amount).entries, id) == Without(b.entries, id)
  {
    var i := Find(b.entries, id);
    WithoutRemove(b, id);
    if i < |b.entries| && amount < b.entries[i].size {
      WithoutEdit(b.entries, i, b.entries[i].(size := b.entries[i].size - amount));
    }
  }

  lemma WithoutModify(b: Book, m: Msg, key: LevelKey)
    ensures Without(Modify(b, m, key).entries, m.orderId) == Without(b.entries, m.orderId)
  {
    var i := Find(b.entries, m.orderId);
    if i == |b.entries| {
      WithoutAppend(b, m.orderId, m.size, key, m.price);
    } else {
      WithoutRemove(b, m.orderId);
      WithoutAppend(Remove(b, m.orderId), m.orderId, m.size, key, m.price);
      WithoutRemoveAt(b.entries, i);
      WithoutConcat(RemoveAt(b.entries, i), [b.entries[i].(size := m.size, stamp := b.clock)], m.orderId);
      WithoutEdit(b.entries, i, b.entries[i].(size := m.size));
    }
  }

  /** A message leaves every other order exactly as it was, and in the same order. */
  lemma StepIsLocal(g: Grid, b: Book, m: Msg)
    requires g.Valid() && m.action != 'R'
    ensures Without(Step(g, b, m).entries, m.orderId) == Without(b.entries, m.orderId)
  {
    WithoutReduce(b, m.orderId, m.size);
    WithoutRemove(b, m.orderId);
    WithoutAppend(b, m.orderId, m.size, g.KeyOf(m), m.price);
    WithoutModify(b, m, g.KeyOf(m));
  }

  // ---------------------------------------------------------------- volume is conserved

  function Total(es: seq<Entry>): nat {
    if es == [] then 0 else es[0].size + Total(es[1..])
  }

  lemma {:induction false} TotalConcat(es: seq<Entry>, es': seq<Entry>)
    ensures Total(es + es') == Total(es) + Total(es')
  {
    if es == [] {
      assert es + es' == es';
    } else {
      assert (es + es')[1..] == es[1..] + es';
      TotalConcat(es[1..], es');
    }
  }

  lemma {:induction false} TotalEdit(es: seq<Entry>, i: nat, e: Entry)
    requires i < |es|
    ensures Total(es[i := e]) == Total(es) - es[i].size + e.size
  {
    if i == 0 {
      assert es[i := e][1..] == es[1..];
    } else {
      assert es[i := e][1..] == es[1..][i - 1 := e];
      TotalEdit(es[1..], i - 1, e);
    }
  }

  lemma TotalRemoveAt(es: seq<Entry>, i: nat)
    requires i < |es|
    ensures Total(RemoveAt(es, i)) == Total(es) - es[i].size
  {
    RemoveAtSplits(es, i);
    TotalConcat(es[..i], es[i + 1..]);
    TotalConcat(es[..i], es[i..]);
    assert es == es[..i] + es[i..] && es[i..][1..] == es[i + 1..];
  }

  lemma TotalAppend(b: Book, id: uint64, size: uint32, key: LevelKey, price: int64)
    ensures Total(Append(b, id, size, key, price).entries) == Total(b.entries) + size
  {
    var es, i, e := Untrack(b.entries, id), Find(b.entries, id), Entry(id, size, key, price, true, b.clock);
    if i < |b.entries| {
      TotalEdit(b.entries, i, b.entries[i].(tracked := false));
    }
    TotalConcat(es, [e]);
    assert Total([e]) == size by { assert [e][1..] == []; }
  }

  lemma TotalMove(b: Book, i: nat, size: uint32)
    requires i < |b.entries|
    ensures Total(MoveToEnd(b, i, size).entries) == Total(b.entries) - b.entries[i].size + size
  {
    var e := b.entries[i].(size := size, stamp := b.clock);
    TotalRemoveAt(b.entries, i);
    TotalConcat(RemoveAt(b.entries, i), [e]);
    assert Total([e]) == size by { assert [e][1..] == []; }
  }

  /** What a message brings in, by itself and by the live order of its id. */
  function Gain(e: Option<Entry>, m: Msg): nat {
    if !HasSide(m) then 0
    else if m.action == 'A' then m.size
    else if m.action != 'M' then 0
    else match e
      case None => m.size
      case Some(o) =>
        if m.size == 0 then 0
        else if m.price != o.price then m.size
        else if m.size > o.size then m.size - o.size else 0
  }

  /** What it takes out of the live order of its id. */
  function Loss(e: Option<Entry>, m: Msg): nat {
    if !HasSide(m) || e.None? then 0
    else
      var o := e.value;
      if m.action in {'C', 'T', 'N'} then if m.size < o.size then m.size else o.size
      else if m.action == 'F' then o.size
      else if m.action == 'M' then
        if m.size == 0 || m.price != o.price then o.size
        else if m.size < o.size then o.size - m.size else 0
      else 0
  }

  lemma ReduceVolume(b: Book, m: Msg)
    requires HasSide(m) && m.action in {'C', 'T', 'N'}
    ensures Total(Reduce(b, m.orderId, m.size).entries) + Loss(OrderOf(b.entries, m.orderId), m) == Total(b.entries)
  {
    var i := Find(b.entries, m.orderId);
    if i < |b.entries| {
      var e := b.entries[i];
      TotalRemoveAt(b.entries, i);
      if m.size < e.size {
        TotalEdit(b.entries, i, e.(size := e.size - m.size));
      }
    }
  }

  lemma ModifyVolume(b: Book, m: Msg, key: LevelKey)
    requires HasSide(m) && m.action == 'M'
    ensures var e := OrderOf(b.entries, m.orderId);
            Total(Modify(b, m, key).entries) + Loss(e, m) == Total(b.entries) + Gain(e, m)
  {
    var i := Find(b.entries, m.orderId);
    TotalAppend(b, m.orderId, m.size, key, m.price);
    if i < |b.entries| {
      var e := b.entries[i];
      TotalRemoveAt(b.entries, i);
      TotalAppend(Remove(b, m.orderId), m.orderId, m.size, key, m.price);
      TotalMove(b, i, m.size);
      TotalEdit(b.entries, i, e.(size := m.size));
    }
  }

  /** One message moves the volume at rest by exactly its gain less its loss. */
  lemma StepVolume(g: Grid, b: Book, m: Msg)
    requires g.Valid() && m.action != 'R'
    ensures var e := OrderOf(b.entries, m.orderId);
            Total(Step(g, b, m).entries) + Loss(e, m) == Total(b.entries) + Gain(e, m)
  {
    if HasSide(m) {
      if m.action in {'C', 'T', 'N'} {
        ReduceVolume(b, m);
      } else if m.action == 'F' {
        if Resting(b.entries, m.orderId) {
          TotalRemoveAt(b.entries, Find(b.entries, m.orderId));
        }
      } else if m.action == 'A' {
        TotalAppend(b, m.orderId, m.size, g.KeyOf(m), m.price);
      } else if m.action == 'M' {
        ModifyVolume(b, m, g.KeyOf(m));
      }
    }
  }

  function Entered(g: Grid, b: Book, ms: seq<Msg>): nat
    requires g.Valid()
    decreases |ms|
  {
    if ms == [] then 0
    else
      var now := if ms[0].action == 'R' then 0 else Gain(OrderOf(b.entries, ms[0].orderId), ms[0]);
      now + Entered(g, Step(g, b, ms[0]), ms[1..])
  }

  /** A reset takes out everything. */
  function Left(g: Grid, b: Book, ms: seq<Msg>): nat
    requires g.Valid()
    decreases |ms|
  {
    if ms == [] then 0
    else
      var now := if ms[0].action == 'R' then Total(b.entries) else Loss(OrderOf(b.entries, ms[0].orderId), ms[0]);
      now + Left(g, Step(g, b, ms[0]), ms[1..])
  }

  /** Over any run, what rested and what entered is what rests and what left. */
  lemma {:induction false} VolumeConserved(g: Grid, b: Book, ms: seq<Msg>)
    requires g.Valid()
    ensures Total(b.entries) + Entered(g, b, ms) == Total(Run(g, b, ms).entries) + Left(g, b, ms)
    decreases |ms|
  {
    if ms != [] {
      if ms[0].action != 'R' {
        StepVolume(g, b, ms[0]);
      }
      VolumeConserved(g, Step(g, b, ms[0]), ms[1..]);
    }
  }

  /** A cached total is exact as long as the true volume fits 64 bits, which it does while fewer than
      2^32 orders rest. */
  lemma TotalsExact(total: uint64, es: seq<Entry>, key: LevelKey)
    requires Caches(total, es, key)
    ensures total == Volume(es, key) <==> Volume(es, key) < TWO_64
    ensures |es| < TWO_32 ==> total == Volume(es, key)
  {
    VolumeBound(es, key);
  }

  // ---------------------------------------------------------------- orphans

  ghost predicate AllTracked(es: seq<Entry>) {
    forall i | 0 <= i < |es| :: es[i].tracked
  }

  /** The one message that orphans an order is an Add of an id that rests already. */
  lemma OrphanedExactly(g: Grid, b: Book, m: Msg)
    requires g.Valid() && AllTracked(b.entries) && UniqueTracked(b.entries)
    ensures AllTracked(Step(g, b, m).entries)
        <==> !(m.action == 'A' && HasSide(m) && Resting(b.entries, m.orderId))
  {
    var i, es := Find(b.entries, m.orderId), Step(g, b, m).entries;
    RemoveForgets(b, m.orderId);
    if m.action == 'A' && HasSide(m) && i < |b.entries| {
      assert !es[i].tracked;
    } else if i < |b.entries| {
      assert forall j | 0 <= j < |RemoveAt(b.entries, i)| :: RemoveAt(b.entries, i)[j].tracked;
    }
  }

  lemma AppendKeepsOrphan(b: Book, id: uint64, size: uint32, key: LevelKey, price: int64, e: Entry)
    requires e in b.entries && !e.tracked
    ensures e in Append(b, id, size, key, price).entries
  {
    var j :| 0 <= j < |b.entries| && b.entries[j] == e;
    assert Append(b, id, size, key, price).entries[j] == e;
  }

  lemma RemoveKeepsOrphan(b: Book, i: nat, e: Entry)
    requires e in b.entries && !e.tracked && i < |b.entries| && b.entries[i].tracked
    ensures e in RemoveAt(b.entries, i)
  {
    var j :| 0 <= j < |b.entries| && b.entries[j] == e;
    assert RemoveAt(b.entries, i)[if j < i then j else j - 1] == e;
  }

  lemma ResizeKeepsOrphan(b: Book, i: nat, size: uint32, e: Entry)
    requires e in b.entries && !e.tracked && i < |b.entries| && b.entries[i].tracked
    ensures e in Resize(b, i, size).entries
  {
    var j :| 0 <= j < |b.entries| && b.entries[j] == e;
    assert Resize(b, i, size).entries[j] == e;
  }

  lemma ModifyKeepsOrphan(b: Book, m: Msg, key: LevelKey, e: Entry)
    requires e in b.entries && !e.tracked
    ensures e in Modify(b, m, key).entries
  {
    var i := Find(b.entries, m.orderId);
    if i == |b.entries| {
      AppendKeepsOrphan(b, m.orderId, m.size, key, m.price, e);
    } else {
      RemoveKeepsOrphan(b, i, e);
      AppendKeepsOrphan(Remove(b, m.orderId), m.orderId, m.size, key, m.price, e);
      ResizeKeepsOrphan(b, i, m.size, e);
    }
  }

  /** No message but a reset can reach an orphan: it rests unchanged. */
  lemma OrphanStays(g: Grid, b: Book, m: Msg, e: Entry)
    requires g.Valid() && m.action != 'R' && e in b.entries && !e.tracked
    ensures e in Step(g, b, m).entries
  {
    var i := Find(b.entries, m.orderId);
    if m.action == 'M' {
      ModifyKeepsOrphan(b, m, g.KeyOf(m), e);
    } else if m.action == 'A' {
      AppendKeepsOrphan(b, m.orderId, m.size, g.KeyOf(m), m.price, e);
    } else if i < |b.entries| {
      RemoveKeepsOrphan(b, i, e);
      if m.size < b.entries[i].size {
        ResizeKeepsOrphan(b, i, b.entries[i].size - m.size, e);
      }
    }
  }

  /** Two Adds of one id and a cancel of it: the first order is still there. */
  lemma DuplicateAddOrphans(g: Grid, price: int64, first: uint32, second: uint32)
    requires g.Valid()
    ensures var add1 := Msg('A', 'B', 7, price, first);
            var add2 := Msg('A', 'B', 7, price, second);
            var cancel := Msg('C', 'B', 7, price, second);
            Run(g, EMPTY_BOOK, [add1, add2, cancel]).entries == [Entry(7, first, g.KeyOf(add1), price, false, 0)]
  {
    var add1, add2 := Msg('A', 'B', 7, price, first), Msg('A', 'B', 7, price, second);
    var cancel := Msg('C', 'B', 7, price, second);
    var b1 := Step(g, EMPTY_BOOK, add1);
    assert b1.entries == [Entry(7, first, g.KeyOf(add1), price, true, 0)];
    var b2 := Step(g, b1, add2);
    assert b2.entries
        == [Entry(7, first, g.KeyOf(add1), price, false, 0), Entry(7, second, g.KeyOf(add2), price, true, 1)];
    assert Find(b2.entries, 7) == 1;
    var ms := [add1, add2, cancel];
    assert ms[1..] == [add2, cancel] && ms[1..][1..] == [cancel] && ms[1..][1..][1..] == [];
    assert Run(g, EMPTY_BOOK, ms) == Run(g, b1, ms[1..]) == Run(g, b2, ms[1..][1..]) == Step(g, b2, cancel);
  }

  // ---------------------------------------------------------------- sizes stay positive

  ghost predicate AllPositive(es: seq<Entry>) {
    forall i | 0 <= i < |es| :: es[i].size > 0
  }

  lemma RemovePositive(b: Book, i: nat)
    requires AllPositive(b.entries) && i < |b.entries|
    ensures AllPositive(RemoveAt(b.entries, i))
  {
  }

  lemma AppendPositive(b: Book, id: uint64, size: uint32, key: LevelKey, price: int64)
    requires AllPositive(b.entries)
    ensures AllPositive(Append(b, id, size, key, price).entries) <==> size > 0
  {
    var es := Append(b, id, size, key, price).entries;
    assert es[|es| - 1].size == size;
  }

  lemma ModifyPositive(b: Book, m: Msg, key: LevelKey)
    requires AllPositive(b.entries) && m.action == 'M' && HasSide(m)
    ensures AllPositive(Modify(b, m, key).entries) <==> !(Places(b, m) && m.size == 0)
  {
    var i := Find(b.entries, m.orderId);
    if i == |b.entries| {
      AppendPositive(b, m.orderId, m.size, key, m.price);
    } else {
      RemovePositive(b, i);
      AppendPositive(Remove(b, m.orderId), m.orderId, m.size, key, m.price);
    }
  }

  /** The one message that rests an empty order is one that places size zero. */
  lemma PositiveExactly(g: Grid, b: Book, m: Msg)
    requires g.Valid() && AllPositive(b.entries)
    ensures AllPositive(Step(g, b, m).entries) <==> !(Places(b, m) && m.size == 0)
  {
    var i := Find(b.entries, m.orderId);
    if m.action == 'M' && HasSide(m) {
      ModifyPositive(b, m, g.KeyOf(m));
    } else if m.action == 'A' && HasSide(m) {
      AppendPositive(b, m.orderId, m.size, g.KeyOf(m), m.price);
    } else if i < |b.entries| {
      RemovePositive(b, i);
    }
  }

  // ---------------------------------------------------------------- run algebra

  lemma {:induction false} RunConcat(g: Grid, b: Book, ms: seq<Msg>, ms': seq<Msg>)
    requires g.Valid()
    ensures Run(g, b, ms + ms') == Run(g, Run(g, b, ms), ms')
    decreases |ms|
  {
    if ms == [] {
      assert ms + ms' == ms';
    } else {
      RunConcat(g, Step(g, b, ms[0]), ms[1..], ms');
      assert (ms + ms')[1..] == ms[1..] + ms';
    }
  }

  /** What came before a reset leaves no trace. */
  lemma ResetForgets(g: Grid, b: Book, before: seq<Msg>, reset: Msg, after: seq<Msg>)
    requires g.Valid() && reset.action == 'R'
    ensures Run(g, b, before + [reset] + after) == Run(g, EMPTY_BOOK, after)
  {
    RunConcat(g, b, before + [reset], after);
    RunConcat(g, b, before, [reset]);
    assert Run(g, Run(g, b, before), [reset]) == Run(g, EMPTY_BOOK, []);
  }

  /** A cancel, walking the list. */
  function Walk(es: seq<Entry>, id: uint64, amount: uint32): seq<Entry> {
    if es == [] then []
    else if !Matches(es[0], id) then [es[0]] + Walk(es[1..], id, amount)
    else if amount >= es[0].size then es[1..]
    else [es[0].(size := es[0].size - amount)] + es[1..]
  }

  lemma {:induction false} ReduceWalks(es: seq<Entry>, clock: nat, id: uint64, amount: uint32)
    ensures Reduce(Book(es, clock), id, amount) == Book(Walk(es, id, amount), clock)
  {
    var i := Find(es, id);
    if es != [] {
      if Matches(es[0], id) {
        assert RemoveAt(es, 0) == es[1..];
      } else {
        ReduceWalks(es[1..], clock, id, amount);
        if i < |es| {
          assert RemoveAt(es, i) == [es[0]] + RemoveAt(es[1..], i - 1);
        }
        assert Reduce(Book(es, clock), id, amount).entries
            == [es[0]] + Reduce(Book(es[1..], clock), id, amount).entries;
      }
    }
  }

  lemma {:induction false} WalksCommute(es: seq<Entry>, x: uint64, a: uint32, y: uint64, c: uint32)
    requires x != y
    ensures Walk(Walk(es, x, a), y, c) == Walk(Walk(es, y, c), x, a)
  {
    if es != [] {
      WalksCommute(es[1..], x, a, y, c);
    }
  }

  /** Cancels and trades of distinct orders commute. */
  lemma CancelsCommute(b: Book, x: uint64, a: uint32, y: uint64, c: uint32)
    requires x != y
    ensures Reduce(Reduce(b, x, a), y, c) == Reduce(Reduce(b, y, c), x, a)
  {
    ReduceWalks(b.entries, b.clock, x, a);
    ReduceWalks(b.entries, b.clock, y, c);
    ReduceWalks(Walk(b.entries, x, a), b.clock, y, c);
    ReduceWalks(Walk(b.entries, y, c), b.clock, x, a);
    WalksCommute(b.entries, x, a, y, c);
  }

  lemma RemoveAtIgnores<T>(s: seq<T>, i: nat, x: T)
    requires i < |s|
    ensures RemoveAt(s[i := x], i) == RemoveAt(s, i)
  {
    var r, r' := RemoveAt(s, i), RemoveAt(s[i := x], i);
    assert |r'| == |r| && forall j | 0 <= j < |r| :: r'[j] == r[j];
  }

  lemma {:induction false} FindResized(es: seq<Entry>, id: uint64, size: uint32)
    requires Resting(es, id)
    ensures var i := Find(es, id); Find(es[i := es[i].(size := size)], id) == i
  {
    var i := Find(es, id);
    if i > 0 {
      assert es[i := es[i].(size := size)][1..] == es[1..][i - 1 := es[1..][i - 1].(size := size)];
      FindResized(es[1..], id, size);
    }
  }

  /** Cancelling twice is cancelling the sum. */
  lemma CancelsAdd(b: Book, id: uint64, a: uint32, c: uint32)
    requires UniqueTracked(b.entries) && a + c < TWO_32
    ensures Reduce(Reduce(b, id, a), id, c) == Reduce(b, id, a + c)
  {
    RemoveForgets(b, id);
    var i := Find(b.entries, id);
    if i < |b.entries| && a < b.entries[i].size {
      var e := b.entries[i];
      FindResized(b.entries, id, e.size - a);
      RemoveAtIgnores(b.entries, i, e.(size := e.size - a));
      if a + c < e.size {
        assert b.entries[i := e.(size := e.size - a)][i := e.(size := e.size - (a + c))]
            == b.entries[i := e.(size := e.size - (a + c))];
      }
    }
  }
}
