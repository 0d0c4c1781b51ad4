/** The simple form of the order book: one flat list of resting orders in priority order.

    A message removes an entry, appends one, edits one in place, or moves one to the end.
    The engine in OrderBookEngine.dfy is proved to be a fast form of this list. */
module PriorityBook {
  import opened Common
  import opened MachineInts

  datatype Msg = Msg(action: char, side: char, orderId: uint64, price: int64, size: uint32)

  /** Which queue an order waits in. */
  datatype LevelKey = LevelKey(isBid: bool, index: nat)

  /** The price grid that a book is constructed with. */
  datatype Grid = Grid(priceMin: int64, priceMax: int64, tick: int64) {
    predicate Valid() {
      && tick > 0
      && priceMin <= priceMax
      && priceMax - priceMin < TWO_63
      && (priceMax - priceMin) / tick + 1 < TWO_31
    }

    function NumLevels(): nat
      requires Valid()
    {
      (priceMax - priceMin) / tick + 1
    }

    function PriceToIndex(px: int64): uint64
      requires Valid()
    {
      ToUint64(TruncDiv(px - priceMin, tick))
    }

    function PriceAt(index: nat): int {
      priceMin + index * tick
    }

    function KeyOf(m: Msg): LevelKey
      requires Valid()
    {
      LevelKey(m.side == 'B', PriceToIndex(m.price))
    }
  }

  /** A resting order. An entry that is not tracked was orphaned by a second Add of its id: it
      still waits in its queue, but no message can reach it any more. The stamp says when the order
      was last given its place. */
  datatype Entry = Entry(id: uint64, size: uint32, key: LevelKey, price: int64, tracked: bool, stamp: nat)

  datatype Book = Book(entries: seq<Entry>, clock: nat)

  const EMPTY_BOOK := Book([], 0)

  // ---------------------------------------------------------------- looking up

  predicate Matches(e: Entry, id: uint64) {
    e.tracked && e.id == id
  }

  /** The place of the tracked entry with this id, or the length of the list. */
  function Find(es: seq<Entry>, id: uint64): (i: nat)
    ensures i <= |es|
    ensures i < |es| ==> Matches(es[i], id)
    ensures forall j | 0 <= j < i :: !Matches(es[j], id)
  {
    if es == [] || Matches(es[0], id) then 0 else 1 + Find(es[1..], id)
  }

  predicate Resting(es: seq<Entry>, id: uint64) {
    Find(es, id) < |es|
  }

  // ---------------------------------------------------------------- the four edits

  function RemoveAt<T>(s: seq<T>, i: nat): (r: seq<T>)
    requires i < |s|
    ensures |r| == |s| - 1
  {
    seq(|s| - 1, j requires 0 <= j < |s| - 1 => if j < i then s[j] else s[j + 1])
  }

  lemma RemoveAtSplits<T>(s: seq<T>, i: nat)
    requires i < |s|
    ensures RemoveAt(s, i) == s[..i] + s[i + 1..]
  {
  }

  lemma RemoveAtAddsNothing<T>(s: seq<T>, i: nat)
    requires i < |s|
    ensures forall x | x in RemoveAt(s, i) :: x in s
  {
    forall x | x in RemoveAt(s, i)
      ensures x in s
    {
      var j :| 0 <= j < |s| - 1 && RemoveAt(s, i)[j] == x;
      assert s[if j < i then j else j + 1] == x;
    }
  }

  lemma MoveAddsNothing<T>(s: seq<T>, i: nat)
    requires i < |s|
    ensures var r := RemoveAt(s, i) + [s[i]]; forall j | 0 <= j < |r| :: r[j] in s
  {
    RemoveAtAddsNothing(s, i);
  }

  function Resize(b: Book, i: nat, size: uint32): Book
    requires i < |b.entries|
  {
    b.(entries := b.entries[i := b.entries[i].(size := size)])
  }

  /** The tracked order of this id keeps its place and loses part of its size. */
  function Shrunk(b: Book, id: uint64, amount: uint32): Book
    requires Resting(b.entries, id) && amount <= b.entries[Find(b.entries, id)].size
  {
    var i := Find(b.entries, id);
    Resize(b, i, b.entries[i].size - amount)
  }

  function Untrack(es: seq<Entry>, id: uint64): (r: seq<Entry>)
    ensures |r| == |es|
  {
    var i := Find(es, id);
    if i < |es| then es[i := es[i].(tracked := false)] else es
  }

  function Append(b: Book, id: uint64, size: uint32, key: LevelKey, price: int64): Book {
    Book(Untrack(b.entries, id) + [Entry(id, size, key, price, true, b.clock)], b.clock + 1)
  }

  function MoveToEnd(b: Book, i: nat, size: uint32): Book
    requires i < |b.entries|
  {
    Book(RemoveAt(b.entries, i) + [b.entries[i].(size := size, stamp := b.clock)], b.clock + 1)
  }

  /** The tracked order of this id goes behind all others with a new size. */
  function Grown(b: Book, id: uint64, size: uint32): Book
    requires Resting(b.entries, id)
  {
    MoveToEnd(b, Find(b.entries, id), size)
  }

  function Remove(b: Book, id: uint64): Book {
    var i := Find(b.entries, id);
    if i < |b.entries| then b.(entries := RemoveAt(b.entries, i)) else b
  }

  function Reduce(b: Book, id: uint64, amount: uint32): Book {
    var i := Find(b.entries, id);
    if i == |b.entries| then b
    else if amount >= b.entries[i].size then Remove(b, id)
    else Shrunk(b, id, amount)
  }

  function Modify(b: Book, m: Msg, key: LevelKey): Book {
    var i := Find(b.entries, m.orderId);
    if i == |b.entries| then Append(b, m.orderId, m.size, key, m.price)
    else
      var e := b.entries[i];
      if m.size == 0 then Remove(b, m.orderId)
      else if m.price != e.price then Append(Remove(b, m.orderId), m.orderId, m.size, key, m.price)
      else if m.size > e.size then Grown(b, m.orderId, m.size)
      else Resize(b, i, m.size)
  }

  /** The paths of a modify of a resting order. */
  lemma ModifyIs(b: Book, m: Msg, key: LevelKey)
    requires Resting(b.entries, m.orderId)
    ensures var e, r := b.entries[Find(b.entries, m.orderId)], Modify(b, m, key);
            if m.size == 0 then r == Remove(b, m.orderId)
            else if m.price != e.price then r == Append(Remove(b, m.orderId), m.orderId, m.size, key, m.price)
            else if m.size > e.size then r == Grown(b, m.orderId, m.size)
            else r == Shrunk(b, m.orderId, e.size - m.size)
  {
  }

  // ---------------------------------------------------------------- messages and runs

  predicate HasSide(m: Msg) {
    m.side == 'A' || m.side == 'B'
  }

  /** One message. A reset works whatever its side; every other message needs a side. */
  function Step(g: Grid, b: Book, m: Msg): Book
    requires g.Valid()
  {
    if m.action == 'R' then EMPTY_BOOK
    else if !HasSide(m) then b
    else if m.action in {'T', 'N', 'C'} then Reduce(b, m.orderId, m.size)
    else if m.action == 'F' then Remove(b, m.orderId)
    else if m.action == 'A' then Append(b, m.orderId, m.size, g.KeyOf(m), m.price)
    else if m.action == 'M' then Modify(b, m, g.KeyOf(m))
    else b
  }

  /** Whether the message puts an order into the queue that its own price names. */
  predicate Places(b: Book, m: Msg) {
    && m.action != 'R'
    && HasSide(m)
    && (|| m.action == 'A'
        || (&& m.action == 'M'
            && var i := Find(b.entries, m.orderId);
               i < |b.entries| ==> m.size > 0 && m.price != b.entries[i].price))
  }

  /** What the engine demands of its caller: the index it computes must not overflow, and must name
      a level whenever it is used. */
  predicate Accepts(g: Grid, b: Book, m: Msg)
    requires g.Valid()
  {
    && (m.action != 'R' && HasSide(m) ==> FitsInt64(m.price - g.priceMin))
    && (Places(b, m) ==> g.PriceToIndex(m.price) < g.NumLevels())
  }

  function Run(g: Grid, b: Book, ms: seq<Msg>): Book
    requires g.Valid()
    decreases |ms|
  {
    if ms == [] then b else Run(g, Step(g, b, ms[0]), ms[1..])
  }

  predicate AcceptsAll(g: Grid, b: Book, ms: seq<Msg>)
    requires g.Valid()
    decreases |ms|
  {
    ms != [] ==> Accepts(g, b, ms[0]) && AcceptsAll(g, Step(g, b, ms[0]), ms[1..])
  }

  // ---------------------------------------------------------------- one level's queue

  function Count(es: seq<Entry>, key: LevelKey): nat {
    if es == [] then 0 else (if es[0].key == key then 1 else 0) + Count(es[1..], key)
  }

  /** The items that stand beside the entries of one level, in priority order. */
  function Select<T>(es: seq<Entry>, xs: seq<T>, key: LevelKey): (r: seq<T>)
    requires |es| == |xs|
    ensures |r| == Count(es, key)
    ensures forall x | x in r :: x in xs
  {
    if es == [] then []
    else (if es[0].key == key then [xs[0]] else []) + Select(es[1..], xs[1..], key)
  }

  /** The queue of a level: its entries in priority order. */
  function Queue(es: seq<Entry>, key: LevelKey): seq<Entry> {
    Select(es, es, key)
  }

  /** The size that rests in a level. */
  function Volume(es: seq<Entry>, key: LevelKey): nat {
    if es == [] then 0 else (if es[0].key == key then es[0].size else 0) + Volume(es[1..], key)
  }

  lemma {:induction false} SelectConcat<T>(es: seq<Entry>, xs: seq<T>, es': seq<Entry>, xs': seq<T>, key: LevelKey)
    requires |es| == |xs| && |es'| == |xs'|
    ensures Select(es + es', xs + xs', key) == Select(es, xs, key) + Select(es', xs', key)
  {
    if es == [] {
      assert es + es' == es' && xs + xs' == xs';
    } else {
      SelectConcat(es[1..], xs[1..], es', xs', key);
      assert (es + es')[1..] == es[1..] + es' && (xs + xs')[1..] == xs[1..] + xs';
      Regroup(if es[0].key == key then [xs[0]] else [], Select(es[1..], xs[1..], key), Select(es', xs', key));
    }
  }

  lemma {:induction false} VolumeBound(es: seq<Entry>, key: LevelKey)
    ensures Volume(es, key) <= |es| * (TWO_32 - 1)
  {
    if es != [] {
      VolumeBound(es[1..], key);
    }
  }

  lemma {:induction false} VolumeConcat(es: seq<Entry>, es': seq<Entry>, key: LevelKey)
    ensures Volume(es + es', key) == Volume(es, key) + Volume(es', key)
  {
    if es == [] {
      assert es + es' == es';
    } else {
      VolumeConcat(es[1..], es', key);
      assert (es + es')[1..] == es[1..] + es';
    }
  }

  /** Where the entry at place i stands in the queue of its level. */
  function Rank(es: seq<Entry>, i: nat): nat
    requires i < |es|
  {
    Count(es[..i], es[i].key)
  }

  lemma SplitAt<T>(es: seq<Entry>, xs: seq<T>, i: nat, key: LevelKey)
    requires i < |es| == |xs|
    ensures Select(es, xs, key)
         == Select(es[..i], xs[..i], key)
            + (if es[i].key == key then [xs[i]] else [])
            + Select(es[i + 1..], xs[i + 1..], key)
    ensures Volume(es, key)
         == Volume(es[..i], key) + (if es[i].key == key then es[i].size else 0) + Volume(es[i + 1..], key)
  {
    var e, x := [es[i]], [xs[i]];
    assert es == es[..i] + (e + es[i + 1..]);
    assert xs == xs[..i] + (x + xs[i + 1..]);
    SelectConcat(es[..i], xs[..i], e + es[i + 1..], x + xs[i + 1..], key);
    SelectConcat(e, x, es[i + 1..], xs[i + 1..], key);
    VolumeConcat(es[..i], e + es[i + 1..], key);
    VolumeConcat(e, es[i + 1..], key);
  }

  lemma SelectAt<T>(es: seq<Entry>, xs: seq<T>, i: nat)
    requires i < |es| == |xs|
    ensures Rank(es, i) < Count(es, es[i].key)
    ensures Select(es, xs, es[i].key)[Rank(es, i)] == xs[i]
  {
    SplitAt(es, xs, i, es[i].key);
    assert Rank(es, i) == |Select(es[..i], xs[..i], es[i].key)|;
  }

  lemma VolumeRemove(es: seq<Entry>, i: nat, key: LevelKey)
    requires i < |es|
    ensures Volume(RemoveAt(es, i), key) == Volume(es, key) - (if es[i].key == key then es[i].size else 0)
  {
    SplitAt(es, es, i, key);
    RemoveAtSplits(es, i);
    VolumeConcat(es[..i], es[i + 1..], key);
  }

  /** What is selected without the item at a place: the two parts around it. */
  lemma SelectAround<T>(es: seq<Entry>, xs: seq<T>, i: nat, key: LevelKey)
    requires i < |es| == |xs|
    ensures Select(RemoveAt(es, i), RemoveAt(xs, i), key)
         == Select(es[..i], xs[..i], key) + Select(es[i + 1..], xs[i + 1..], key)
  {
    RemoveAtSplits(es, i);
    RemoveAtSplits(xs, i);
    SelectConcat(es[..i], xs[..i], es[i + 1..], xs[i + 1..], key);
  }

  lemma RemoveMiddle<T>(a: seq<T>, x: T, c: seq<T>)
    ensures RemoveAt(a + [x] + c, |a|) == a + c
  {
    var s := a + [x] + c;
    RemoveAtSplits(s, |a|);
    assert s[..|a|] == a && s[|a| + 1..] == c;
  }

  lemma SelectRemove<T>(es: seq<Entry>, xs: seq<T>, i: nat, key: LevelKey)
    requires i < |es| == |xs|
    ensures Rank(es, i) < Count(es, es[i].key)
    ensures Select(RemoveAt(es, i), RemoveAt(xs, i), key)
         == if es[i].key == key then RemoveAt(Select(es, xs, key), Rank(es, i)) else Select(es, xs, key)
    ensures Volume(RemoveAt(es, i), key)
         == Volume(es, key) - (if es[i].key == key then es[i].size else 0)
  {
    VolumeRemove(es, i, key);
    SelectAt(es, xs, i);
    SelectAround(es, xs, i, key);
    SplitAt(es, xs, i, key);
    if es[i].key == key {
      RemoveMiddle(Select(es[..i], xs[..i], key), xs[i], Select(es[i + 1..], xs[i + 1..], key));
    }
  }

  lemma SelectAppend<T>(es: seq<Entry>, xs: seq<T>, e: Entry, x: T, key: LevelKey)
    requires |es| == |xs|
    ensures Select(es + [e], xs + [x], key) == Select(es, xs, key) + if e.key == key then [x] else []
    ensures Volume(es + [e], key) == Volume(es, key) + if e.key == key then e.size else 0
  {
    SelectConcat(es, xs, [e], [x], key);
    VolumeConcat(es, [e], key);
  }

  /** Editing an entry in place, at the same level, moves nobody. */
  lemma SelectEdit<T>(es: seq<Entry>, xs: seq<T>, i: nat, e: Entry, key: LevelKey)
    requires i < |es| == |xs| && e.key == es[i].key
    ensures Select(es[i := e], xs, key) == Select(es, xs, key)
    ensures Volume(es[i := e], key)
         == Volume(es, key) + if e.key == key then e.size - es[i].size else 0
  {
    var es' := es[i := e];
    SplitAt(es, xs, i, key);
    SplitAt(es', xs, i, key);
    assert es'[..i] == es[..i] && es'[i + 1..] == es[i + 1..];
  }

  /** Its own queue is edited at its rank. */
  lemma QueueEdit(es: seq<Entry>, i: nat, e: Entry, key: LevelKey)
    requires i < |es| && e.key == es[i].key
    ensures Rank(es, i) < |Queue(es, e.key)| && Queue(es, e.key)[Rank(es, i)] == es[i]
    ensures Queue(es[i := e], key) == if key == e.key then Queue(es, key)[Rank(es, i) := e] else Queue(es, key)
  {
    var es' := es[i := e];
    SelectAt(es, es, i);
    SplitAt(es, es, i, key);
    SplitAt(es', es', i, key);
    assert es'[..i] == es[..i] && es'[i + 1..] == es[i + 1..];
  }

  lemma UntrackMovesNobody<T>(es: seq<Entry>, xs: seq<T>, id: uint64, key: LevelKey)
    requires |es| == |xs|
    ensures Select(Untrack(es, id), xs, key) == Select(es, xs, key)
    ensures Volume(Untrack(es, id), key) == Volume(es, key)
  {
    var i := Find(es, id);
    if i < |es| {
      SelectEdit(es, xs, i, es[i].(tracked := false), key);
    }
  }

  lemma AppendMoves<T>(b: Book, id: uint64, size: uint32, key: LevelKey, price: int64, xs: seq<T>, x: T, k: LevelKey)
    requires |b.entries| == |xs|
    ensures Select(Append(b, id, size, key, price).entries, xs + [x], k)
         == Select(b.entries, xs, k) + if k == key then [x] else []
    ensures Volume(Append(b, id, size, key, price).entries, k)
         == Volume(b.entries, k) + if k == key then size else 0
  {
    UntrackMovesNobody(b.entries, xs, id, k);
    SelectAppend(Untrack(b.entries, id), xs, Entry(id, size, key, price, true, b.clock), x, k);
  }

  lemma MoveMoves<T>(b: Book, i: nat, size: uint32, xs: seq<T>, k: LevelKey)
    requires i < |b.entries| == |xs|
    ensures Rank(b.entries, i) < Count(b.entries, b.entries[i].key)
    ensures Select(MoveToEnd(b, i, size).entries, RemoveAt(xs, i) + [xs[i]], k)
         == if b.entries[i].key == k then RemoveAt(Select(b.entries, xs, k), Rank(b.entries, i)) + [xs[i]]
            else Select(b.entries, xs, k)
    ensures Volume(MoveToEnd(b, i, size).entries, k)
         == Volume(b.entries, k) + if b.entries[i].key == k then size - b.entries[i].size else 0
  {
    SelectRemove(b.entries, xs, i, k);
    SelectAppend(RemoveAt(b.entries, i), RemoveAt(xs, i), b.entries[i].(size := size, stamp := b.clock), xs[i], k);
  }

  // ---------------------------------------------------------------- the cached total follows the volume

  ghost predicate Caches(total: uint64, es: seq<Entry>, key: LevelKey) {
    total == Volume(es, key) % TWO_64
  }

  lemma TotalAfterAppend(total: uint64, b: Book, id: uint64, size: uint32, key: LevelKey, price: int64)
    requires Caches(total, b.entries, key)
    ensures Caches(Add64(total, size), Append(b, id, size, key, price).entries, key)
  {
    AppendMoves(b, id, size, key, price, b.entries, Entry(id, size, key, price, true, 0), key);
    Add64Follows(Volume(b.entries, key), size);
  }

  lemma TotalAfterRemove(total: uint64, es: seq<Entry>, i: nat)
    requires i < |es| && Caches(total, es, es[i].key)
    ensures Caches(Sub64(total, es[i].size), RemoveAt(es, i), es[i].key)
  {
    SelectRemove(es, es, i, es[i].key);
    Sub64Follows(Volume(es, es[i].key), es[i].size);
  }

  lemma TotalAfterShrink(total: uint64, b: Book, i: nat, amount: uint32)
    requires i < |b.entries| && amount <= b.entries[i].size && Caches(total, b.entries, b.entries[i].key)
    ensures Caches(Sub64(total, amount), Resize(b, i, b.entries[i].size - amount).entries, b.entries[i].key)
  {
    var e := b.entries[i];
    SplitAt(b.entries, b.entries, i, e.key);
    SelectEdit(b.entries, b.entries, i, e.(size := e.size - amount), e.key);
    Sub64Follows(Volume(b.entries, e.key), amount);
  }

  lemma TotalAfterGrow(total: uint64, b: Book, i: nat, size: uint32)
    requires i < |b.entries| && size >= b.entries[i].size && Caches(total, b.entries, b.entries[i].key)
    ensures Caches(Add64(total, size - b.entries[i].size), MoveToEnd(b, i, size).entries, b.entries[i].key)
  {
    MoveMoves(b, i, size, b.entries, b.entries[i].key);
    Add64Follows(Volume(b.entries, b.entries[i].key), size - b.entries[i].size);
  }
}
