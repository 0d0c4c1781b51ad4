/** What the queries of the book report: one row per occupied level, best price first, and what those
    rows say about the resting orders. */
module BookRows {
  import opened Common
  import opened MachineInts
  import opened PriorityBook

  /** A level as a query sees it: its grid price, its cached total and its number of orders. */
  datatype Cell = Cell(price: int, size: uint64, count: nat)

  predicate Occupied(es: seq<Entry>, key: LevelKey) {
    Count(es, key) > 0
  }

  function CellAt(g: Grid, es: seq<Entry>, key: LevelKey): Cell {
    Cell(g.PriceAt(key.index), ToUint64(Volume(es, key)), Count(es, key))
  }

  /** The cell of a level if it is occupied. */
  function Cells(g: Grid, es: seq<Entry>, key: LevelKey): seq<Cell> {
    if Occupied(es, key) then [CellAt(g, es, key)] else []
  }

  /** One side of the book, level by level. */
  function SideCells(g: Grid, es: seq<Entry>, isBid: bool): (r: seq<seq<Cell>>)
    requires g.Valid()
    ensures |r| == g.NumLevels()
  {
    seq(g.NumLevels(), i requires i >= 0 => Cells(g, es, LevelKey(isBid, i)))
  }

  /** The cells of the levels below n, lowest level first. */
  function Rising(side: seq<seq<Cell>>, n: nat): seq<Cell>
    requires n <= |side|
  {
    if n == 0 then [] else Rising(side, n - 1) + side[n - 1]
  }

  /** The cells of the levels from i on, highest level first. */
  function Falling(side: seq<seq<Cell>>, i: nat): seq<Cell>
    requires i <= |side|
    decreases |side| - i
  {
    if i == |side| then [] else Falling(side, i + 1) + side[i]
  }

  /** What the book shows: bids from the best, that is the highest, asks from the lowest. */
  function BidCells(g: Grid, es: seq<Entry>): seq<Cell>
    requires g.Valid()
  {
    Falling(SideCells(g, es, true), 0)
  }

  function AskCells(g: Grid, es: seq<Entry>): seq<Cell>
    requires g.Valid()
  {
    Rising(SideCells(g, es, false), g.NumLevels())
  }

  lemma RisingNext(side: seq<seq<Cell>>, i: nat)
    requires i < |side|
    ensures Rising(side, i + 1) == Rising(side, i) + side[i]
  {
  }

  /** A scan that stops early has reported the best rows. */
  lemma {:induction false} RisingPrefix(side: seq<seq<Cell>>, i: nat)
    requires i <= |side|
    ensures Rising(side, i) <= Rising(side, |side|)
    decreases |side| - i
  {
    if i < |side| {
      RisingPrefix(side, i + 1);
    }
  }

  lemma {:induction false} FallingPrefix(side: seq<seq<Cell>>, i: nat)
    requires i <= |side|
    ensures Falling(side, i) <= Falling(side, 0)
    decreases i
  {
    if i > 0 {
      FallingPrefix(side, i - 1);
    }
  }

  lemma {:induction false} RisingEmpty(side: seq<seq<Cell>>, i: nat)
    requires i <= |side| && forall k | 0 <= k < i :: side[k] == []
    ensures Rising(side, i) == []
  {
    if i > 0 {
      RisingEmpty(side, i - 1);
    }
  }

  /** The first level from below that is not empty gives the first row. */
  lemma RisingFirst(side: seq<seq<Cell>>, i: nat)
    requires i < |side| && forall k | 0 <= k < i :: side[k] == []
    ensures side[i] <= Rising(side, |side|)
  {
    RisingEmpty(side, i);
    RisingNext(side, i);
    assert [] + side[i] == side[i];
    RisingPrefix(side, i + 1);
  }

  lemma {:induction false} FallingEmpty(side: seq<seq<Cell>>, i: nat)
    requires i <= |side| && forall k | i <= k < |side| :: side[k] == []
    ensures Falling(side, i) == []
    decreases |side| - i
  {
    if i < |side| {
      FallingEmpty(side, i + 1);
    }
  }

  /** The first level from above that is not empty gives the first row. */
  lemma FallingFirst(side: seq<seq<Cell>>, i: nat)
    requires i < |side| && forall k | i < k < |side| :: side[k] == []
    ensures side[i] <= Falling(side, 0)
  {
    FallingEmpty(side, i + 1);
    assert [] + side[i] == side[i];
    FallingPrefix(side, i);
  }

  datatype Row = Row(price: int, size: uint64)

  datatype SignedRow = SignedRow(price: int, size: int64)

  function Rows(cells: seq<Cell>): (r: seq<Row>)
    ensures |r| == |cells|
  {
    seq(|cells|, i requires 0 <= i < |cells| => Row(cells[i].price, cells[i].size))
  }

  function SignedRows(cells: seq<Cell>): (r: seq<SignedRow>)
    ensures |r| == |cells|
  {
    seq(|cells|, i requires 0 <= i < |cells| => SignedRow(cells[i].price, ToInt64(cells[i].size)))
  }

  function Take<T>(s: seq<T>, k: nat): seq<T> {
    if k < |s| then s[..k] else s
  }

  // ---------------------------------------------------------------- the rows are the book

  /** Each level shows at most one cell, at its own grid price. */
  ghost predicate Priced(g: Grid, side: seq<seq<Cell>>) {
    && g.tick > 0
    && forall i, c | 0 <= i < |side| && c in side[i] :: side[i] == [c] && c.price == g.PriceAt(i)
  }

  ghost predicate Shows(side: seq<seq<Cell>>, lo: nat, hi: nat, c: Cell) {
    exists i :: lo <= i < hi <= |side| && c in side[i]
  }

  lemma NextPrice(g: Grid, i: nat)
    ensures g.PriceAt(i + 1) == g.PriceAt(i) + g.tick
  {
  }

  lemma AtMostOne(g: Grid, side: seq<seq<Cell>>, i: nat)
    requires Priced(g, side) && i < |side|
    ensures |side[i]| <= 1
  {
    if side[i] != [] {
      var c := side[i][0];
      assert c in side[i];
      assert side[i] == [c];
    }
  }

  ghost predicate Climbs(r: seq<Cell>) {
    forall i, j | 0 <= i < j < |r| :: r[i].price < r[j].price
  }

  ghost predicate Falls(r: seq<Cell>) {
    forall i, j | 0 <= i < j < |r| :: r[i].price > r[j].price
  }

  /** One more level on top. */
  lemma Appended(t: seq<Cell>, x: seq<Cell>)
    requires |x| <= 1
    ensures forall c :: c in t + x <==> c in t || c in x
    ensures Climbs(t) && (forall c | c in t :: forall d | d in x :: c.price < d.price) ==> Climbs(t + x)
    ensures Falls(t) && (forall c | c in t :: forall d | d in x :: c.price > d.price) ==> Falls(t + x)
  {
    var r := t + x;
    forall i, j | 0 <= i < j < |r|
      ensures r[i] in t && (if j < |t| then r[i] == t[i] && r[j] == t[j] else r[j] in x)
    {
    }
  }

  lemma ShowsNext(side: seq<seq<Cell>>, lo: nat, hi: nat, c: Cell)
    requires lo < hi <= |side|
    ensures Shows(side, lo, hi, c) <==> Shows(side, lo, hi - 1, c) || c in side[hi - 1]
    ensures Shows(side, lo, hi, c) <==> Shows(side, lo + 1, hi, c) || c in side[lo]
  {
  }

  lemma {:induction false} RisingSorted(g: Grid, side: seq<seq<Cell>>, n: nat)
    requires Priced(g, side) && n <= |side|
    ensures forall c :: c in Rising(side, n) <==> Shows(side, 0, n, c)
    ensures forall c | c in Rising(side, n) :: c.price < g.PriceAt(n)
    ensures Climbs(Rising(side, n))
  {
    if n != 0 {
      RisingSorted(g, side, n - 1);
      NextPrice(g, n - 1);
      AtMostOne(g, side, n - 1);
      Appended(Rising(side, n - 1), side[n - 1]);
      forall c
        ensures c in Rising(side, n) <==> Shows(side, 0, n, c)
      {
        ShowsNext(side, 0, n, c);
      }
    }
  }

  lemma {:induction false} FallingSorted(g: Grid, side: seq<seq<Cell>>, lo: nat)
    requires Priced(g, side) && lo <= |side|
    ensures forall c :: c in Falling(side, lo) <==> Shows(side, lo, |side|, c)
    ensures forall c | c in Falling(side, lo) :: c.price >= g.PriceAt(lo)
    ensures Falls(Falling(side, lo))
    decreases |side| - lo
  {
    if lo < |side| {
      FallingSorted(g, side, lo + 1);
      NextPrice(g, lo);
      AtMostOne(g, side, lo);
      Appended(Falling(side, lo + 1), side[lo]);
      forall c
        ensures c in Falling(side, lo) <==> Shows(side, lo, |side|, c)
      {
        ShowsNext(side, lo, |side|, c);
      }
    }
  }

  ghost predicate HasRow(g: Grid, es: seq<Entry>, isBid: bool, c: Cell)
    requires g.Valid()
  {
    exists i :: 0 <= i < g.NumLevels() && Occupied(es, LevelKey(isBid, i)) && c == CellAt(g, es, LevelKey(isBid, i))
  }

  /** Strictly falling bid prices and strictly rising ask prices, one row for each occupied level and
      none else. */
  lemma SidesSorted(g: Grid, es: seq<Entry>)
    requires g.Valid()
    ensures forall c :: c in BidCells(g, es) <==> HasRow(g, es, true, c)
    ensures forall c :: c in AskCells(g, es) <==> HasRow(g, es, false, c)
    ensures Falls(BidCells(g, es)) && Climbs(AskCells(g, es))
  {
    var n := g.NumLevels();
    FallingSorted(g, SideCells(g, es, true), 0);
    RisingSorted(g, SideCells(g, es, false), n);
    forall isBid, c
      ensures Shows(SideCells(g, es, isBid), 0, n, c) <==> HasRow(g, es, isBid, c)
    {
      ShowsRow(g, es, isBid, c);
    }
  }

  lemma ShowsRow(g: Grid, es: seq<Entry>, isBid: bool, c: Cell)
    requires g.Valid()
    ensures Shows(SideCells(g, es, isBid), 0, g.NumLevels(), c) <==> HasRow(g, es, isBid, c)
  {
    var side := SideCells(g, es, isBid);
    if HasRow(g, es, isBid, c) {
      var i :| 0 <= i < g.NumLevels() && Occupied(es, LevelKey(isBid, i)) && c == CellAt(g, es, LevelKey(isBid, i));
      assert c in side[i];
    }
  }

  // ---------------------------------------------------------------- prices on the grid

  predicate PriceOnGrid(g: Grid, price: int64)
    requires g.Valid()
  {
    g.priceMin <= price <= g.priceMax && (price - g.priceMin) % g.tick == 0
  }

  predicate AtGridPrice(g: Grid, e: Entry)
    requires g.Valid()
  {
    PriceOnGrid(g, e.price) && e.key.index < g.NumLevels() && g.PriceAt(e.key.index) == e.price
  }

  /** Every order rests in the level of its own price, and that price is on the grid. */
  ghost predicate OnGrid(g: Grid, es: seq<Entry>)
    requires g.Valid()
  {
    forall i | 0 <= i < |es| :: AtGridPrice(g, es[i])
  }

  lemma DivMul(x: int, t: int)
    requires t > 0
    ensures (x / t) * t <= x < (x / t) * t + t
    ensures x % t == x - (x / t) * t
  {
  }

  lemma MulLess(a: int, b: int, t: int)
    requires a < b && t > 0
    ensures a * t + t <= b * t
  {
    assert (b - a) * t == b * t - a * t;
    MulBound(b - a - 1, t);
    assert (b - a - 1) * t == (b - a) * t - t;
  }

  lemma DivInRange(x: int, y: int, t: int)
    requires t > 0 && 0 <= x <= y
    ensures 0 <= x / t <= y / t
    ensures x / t <= x
  {
    var p, q := x / t, y / t;
    DivMul(x, t);
    DivMul(y, t);
    if p < 0 {
      MulLess(p, 0, t);
    } else if q < p {
      MulLess(q, p, t);
    }
    MulBound(p, t);
  }

  lemma MulBound(q: int, t: int)
    requires t > 0
    ensures q >= 0 ==> q * t >= q
    ensures q > 0 ==> q * t >= t
  {
    if q > 0 {
      MulBound(q - 1, t);
      assert q * t == (q - 1) * t + t;
    }
  }

  /** A price in range belongs to an existing level, whose grid price is at most one tick below it;
      a price on the grid is that grid price. */
  lemma PriceHasLevel(g: Grid, price: int64)
    requires g.Valid() && g.priceMin <= price <= g.priceMax
    ensures g.PriceToIndex(price) < g.NumLevels()
    ensures var i := g.PriceToIndex(price); g.PriceAt(i) <= price < g.PriceAt(i) + g.tick
    ensures PriceOnGrid(g, price) <==> g.PriceAt(g.PriceToIndex(price)) == price
  {
    var x := price - g.priceMin;
    DivMul(x, g.tick);
    DivInRange(x, g.priceMax - g.priceMin, g.tick);
    assert ToUint64(x / g.tick) == x / g.tick;
  }

  /** The highest level is the last one whose grid price is in range. */
  lemma HighestLevel(g: Grid)
    requires g.Valid()
    ensures g.NumLevels() > 0 && g.PriceAt(g.NumLevels() - 1) <= g.priceMax < g.PriceAt(g.NumLevels())
  {
    DivMul(g.priceMax - g.priceMin, g.tick);
    DivInRange(0, g.priceMax - g.priceMin, g.tick);
    NextPrice(g, g.NumLevels() - 1);
  }

  /** Different levels have different grid prices. */
  lemma LevelsHaveOwnPrices(g: Grid, i: nat, j: nat)
    requires g.tick > 0
    ensures g.PriceAt(i) == g.PriceAt(j) <==> i == j
    ensures i < j ==> g.PriceAt(i) < g.PriceAt(j)
  {
    assert g.PriceAt(j) - g.PriceAt(i) == (j - i) * g.tick;
    assert g.PriceAt(i) - g.PriceAt(j) == (i - j) * g.tick;
    MulBound(j - i, g.tick);
    MulBound(i - j, g.tick);
  }

  /** While messages only place orders at grid prices, every order rests at its grid price. */
  lemma StepKeepsGrid(g: Grid, b: Book, m: Msg)
    requires g.Valid() && OnGrid(g, b.entries) && (Places(b, m) ==> PriceOnGrid(g, m.price))
    ensures OnGrid(g, Step(g, b, m).entries)
  {
    var i := Find(b.entries, m.orderId);
    if m.action == 'M' && HasSide(m) {
      ModifyKeepsGrid(g, b, m);
    } else if m.action == 'A' && HasSide(m) {
      PriceHasLevel(g, m.price);
      AppendKeepsGrid(g, b, m.orderId, m.size, g.KeyOf(m), m.price);
    } else if i < |b.entries| {
      RemoveKeepsGrid(g, b, i);
      if m.size < b.entries[i].size {
        ResizeKeepsGrid(g, b, i, b.entries[i].size - m.size);
      }
    }
  }

  lemma AppendKeepsGrid(g: Grid, b: Book, id: uint64, size: uint32, key: LevelKey, price: int64)
    requires g.Valid() && OnGrid(g, b.entries) && AtGridPrice(g, Entry(id, size, key, price, true, b.clock))
    ensures OnGrid(g, Append(b, id, size, key, price).entries)
  {
  }

  lemma RemoveKeepsGrid(g: Grid, b: Book, i: nat)
    requires g.Valid() && OnGrid(g, b.entries) && i < |b.entries|
    ensures OnGrid(g, RemoveAt(b.entries, i))
  {
  }

  lemma MoveKeepsGrid(g: Grid, b: Book, i: nat, size: uint32)
    requires g.Valid() && OnGrid(g, b.entries) && i < |b.entries|
    ensures OnGrid(g, MoveToEnd(b, i, size).entries)
  {
    RemoveKeepsGrid(g, b, i);
    assert AtGridPrice(g, b.entries[i]);
  }

  lemma ResizeKeepsGrid(g: Grid, b: Book, i: nat, size: uint32)
    requires g.Valid() && OnGrid(g, b.entries) && i < |b.entries|
    ensures OnGrid(g, Resize(b, i, size).entries)
  {
    assert AtGridPrice(g, b.entries[i]);
  }

  lemma ModifyKeepsGrid(g: Grid, b: Book, m: Msg)
    requires g.Valid() && OnGrid(g, b.entries) && m.action == 'M' && HasSide(m)
    requires Places(b, m) ==> PriceOnGrid(g, m.price)
    ensures OnGrid(g, Modify(b, m, g.KeyOf(m)).entries)
  {
    var i := Find(b.entries, m.orderId);
    if Places(b, m) {
      PriceHasLevel(g, m.price);
    }
    if i == |b.entries| {
      AppendKeepsGrid(g, b, m.orderId, m.size, g.KeyOf(m), m.price);
    } else {
      RemoveKeepsGrid(g, b, i);
      if Places(b, m) {
        AppendKeepsGrid(g, Remove(b, m.orderId), m.orderId, m.size, g.KeyOf(m), m.price);
      }
      MoveKeepsGrid(g, b, i, m.size);
      ResizeKeepsGrid(g, b, i, m.size);
    }
  }

  /** The size and the number of the orders of one side at one price. */
  function SizeAtPrice(es: seq<Entry>, isBid: bool, price: int): nat {
    if es == [] then 0
    else
      (if es[0].key.isBid == isBid && es[0].price == price then es[0].size else 0)
      + SizeAtPrice(es[1..], isBid, price)
  }

  function OrdersAtPrice(es: seq<Entry>, isBid: bool, price: int): nat {
    if es == [] then 0
    else (if es[0].key.isBid == isBid && es[0].price == price then 1 else 0) + OrdersAtPrice(es[1..], isBid, price)
  }

  lemma {:induction false} LevelIsPrice(g: Grid, es: seq<Entry>, key: LevelKey)
    requires g.Valid() && OnGrid(g, es)
    ensures Volume(es, key) == SizeAtPrice(es, key.isBid, g.PriceAt(key.index))
    ensures Count(es, key) == OrdersAtPrice(es, key.isBid, g.PriceAt(key.index))
  {
    if es != [] {
      assert OnGrid(g, es[1..]);
      LevelIsPrice(g, es[1..], key);
      LevelsHaveOwnPrices(g, es[0].key.index, key.index);
    }
  }

  lemma {:induction false} PriceHasOrder(g: Grid, es: seq<Entry>, isBid: bool, price: int)
    requires g.Valid() && OnGrid(g, es) && OrdersAtPrice(es, isBid, price) > 0
    ensures exists i :: 0 <= i < g.NumLevels() && g.PriceAt(i) == price
  {
    if es[0].key.isBid != isBid || es[0].price != price {
      assert OnGrid(g, es[1..]);
      PriceHasOrder(g, es[1..], isBid, price);
    }
  }

  /** With prices on the grid, a side shows a row for a price exactly when orders rest there, and the
      row holds their number and their summed size. */
  lemma RowsByPrice(g: Grid, es: seq<Entry>, c: Cell)
    requires g.Valid() && OnGrid(g, es)
    ensures c in BidCells(g, es)
        <==> OrdersAtPrice(es, true, c.price) > 0
             && c.count == OrdersAtPrice(es, true, c.price) && c.size == ToUint64(SizeAtPrice(es, true, c.price))
    ensures c in AskCells(g, es)
        <==> OrdersAtPrice(es, false, c.price) > 0
             && c.count == OrdersAtPrice(es, false, c.price) && c.size == ToUint64(SizeAtPrice(es, false, c.price))
  {
    SidesSorted(g, es);
    RowByPrice(g, es, true, c);
    RowByPrice(g, es, false, c);
  }

  lemma RowByPrice(g: Grid, es: seq<Entry>, isBid: bool, c: Cell)
    requires g.Valid() && OnGrid(g, es)
    ensures HasRow(g, es, isBid, c)
        <==> OrdersAtPrice(es, isBid, c.price) > 0
             && c.count == OrdersAtPrice(es, isBid, c.price) && c.size == ToUint64(SizeAtPrice(es, isBid, c.price))
  {
    forall i | 0 <= i < g.NumLevels()
      ensures Volume(es, LevelKey(isBid, i)) == SizeAtPrice(es, isBid, g.PriceAt(i))
      ensures Count(es, LevelKey(isBid, i)) == OrdersAtPrice(es, isBid, g.PriceAt(i))
    {
      LevelIsPrice(g, es, LevelKey(isBid, i));
    }
    if OrdersAtPrice(es, isBid, c.price) > 0 {
      PriceHasOrder(g, es, isBid, c.price);
    }
  }

  // ---------------------------------------------------------------- the two renderings

  /** The levels whose cached total is not zero. */
  function Positive(cells: seq<Cell>): seq<Cell> {
    if cells == [] then []
    else if cells[0].size > 0 then [cells[0]] + Positive(cells[1..])
    else Positive(cells[1..])
  }

  lemma PositiveOne(c: Cell)
    ensures Positive([c]) == if c.size > 0 then [c] else []
  {
    assert [c][1..] == [];
  }

  lemma {:induction false} PositiveConcat(xs: seq<Cell>, ys: seq<Cell>)
    ensures Positive(xs + ys) == Positive(xs) + Positive(ys)
  {
    if xs == [] {
      assert xs + ys == ys;
    } else {
      PositiveConcat(xs[1..], ys);
      assert (xs + ys)[1..] == xs[1..] + ys;
      Regroup(if xs[0].size > 0 then [xs[0]] else [], Positive(xs[1..]), Positive(ys));
    }
  }

  lemma {:induction false} PositiveLength(xs: seq<Cell>)
    ensures |Positive(xs)| <= |xs|
    ensures Positive(xs) == xs <==> forall c | c in xs :: c.size > 0
  {
    if xs != [] {
      PositiveLength(xs[1..]);
      assert xs == [xs[0]] + xs[1..];
    }
  }

  function PositiveSide(side: seq<seq<Cell>>): (r: seq<seq<Cell>>)
    ensures |r| == |side|
  {
    seq(|side|, i requires 0 <= i < |side| => Positive(side[i]))
  }

  lemma {:induction false} PositiveRising(side: seq<seq<Cell>>, n: nat)
    requires n <= |side|
    ensures Rising(PositiveSide(side), n) == Positive(Rising(side, n))
  {
    if n > 0 {
      PositiveRising(side, n - 1);
      PositiveConcat(Rising(side, n - 1), side[n - 1]);
    }
  }

  lemma {:induction false} PositiveFalling(side: seq<seq<Cell>>, lo: nat)
    requires lo <= |side|
    ensures Falling(PositiveSide(side), lo) == Positive(Falling(side, lo))
    decreases |side| - lo
  {
    if lo < |side| {
      PositiveFalling(side, lo + 1);
      PositiveConcat(Falling(side, lo + 1), side[lo]);
    }
  }

  /** How many levels of one side fit the buffers of the pair rendering. */
  const BUFFER_LEVELS: nat := 2000

  const BLANK := Cell(0, 0, 0)

  /** One side of a pair: total and count are shown as signed 64-bit numbers. */
  datatype Quote = Quote(price: int, size: int64, count: int64)

  datatype Pair = Pair(bid: Quote, ask: Quote)

  function QuoteOf(c: Cell): Quote {
    Quote(c.price, ToInt64(c.size), ToInt64(ToUint64(c.count)))
  }

  function CellOr(cells: seq<Cell>, i: nat): Cell {
    if i < |cells| then cells[i] else BLANK
  }

  function Max(a: nat, b: nat): nat {
    if a < b then b else a
  }

  /** The zip of two columns, the shorter one padded with zeros. */
  function PaddedZip(bids: seq<Cell>, asks: seq<Cell>): (r: seq<Pair>)
    ensures |r| == Max(|bids|, |asks|)
  {
    seq(Max(|bids|, |asks|), i requires i >= 0 => Pair(QuoteOf(CellOr(bids, i)), QuoteOf(CellOr(asks, i))))
  }

  lemma {:induction false} LevelIsPositive(es: seq<Entry>, key: LevelKey)
    requires forall i | 0 <= i < |es| :: es[i].size > 0
    ensures Occupied(es, key) <==> Volume(es, key) > 0
  {
    if es != [] {
      LevelIsPositive(es[1..], key);
    }
  }

  /** When all resting sizes are positive and few enough to be summed in 64 bits, an occupied level is
      one with a positive total, so the pairs show the very rows of the snapshot. */
  lemma RenderingsAgree(g: Grid, es: seq<Entry>)
    requires g.Valid() && |es| < TWO_32
    requires forall i | 0 <= i < |es| :: es[i].size > 0
    ensures Positive(BidCells(g, es)) == BidCells(g, es)
    ensures Positive(AskCells(g, es)) == AskCells(g, es)
  {
    SidesSorted(g, es);
    forall isBid, c | HasRow(g, es, isBid, c)
      ensures c.size > 0
    {
      var i :| 0 <= i < g.NumLevels() && Occupied(es, LevelKey(isBid, i)) && c == CellAt(g, es, LevelKey(isBid, i));
      CellIsPositive(g, es, LevelKey(isBid, i));
    }
    PositiveLength(BidCells(g, es));
    PositiveLength(AskCells(g, es));
  }

  lemma CellIsPositive(g: Grid, es: seq<Entry>, key: LevelKey)
    requires |es| < TWO_32 && Occupied(es, key) && forall i | 0 <= i < |es| :: es[i].size > 0
    ensures CellAt(g, es, key).size > 0
  {
    LevelIsPositive(es, key);
    VolumeBound(es, key);
  }
}
