/** Which side and which level a message means, from its letter and its price. */
module BookSides {
  import opened Common
  import opened MachineInts
  import opened PriorityBook
  import opened BookRows
  import opened BookAlgebra

  /** A level takes the prices from its own up to the next one's. The lowest one also takes what is less
      than a tick below it, because the division drops the fraction. */
  predicate Takes(g: Grid, index: nat, price: int) {
    || g.PriceAt(index) <= price < g.PriceAt(index) + g.tick
    || (index == 0 && g.priceMin - g.tick < price < g.priceMin)
  }

  lemma TakenFromAbove(g: Grid, price: int64)
    requires g.Valid() && 0 <= price - g.priceMin < TWO_63
    ensures g.PriceToIndex(price) == (price - g.priceMin) / g.tick && Takes(g, g.PriceToIndex(price), price)
  {
    var d := price - g.priceMin;
    DivMul(d, g.tick);
    DivInRange(d, d, g.tick);
    assert ToUint64(d / g.tick) == d / g.tick;
  }

  /** Below the lowest price the quotient is zero or, as an unsigned number, beyond every level. */
  lemma TakenFromBelow(g: Grid, price: int64)
    requires g.Valid() && -TWO_63 <= price - g.priceMin < 0
    ensures if price - g.priceMin > -g.tick then g.PriceToIndex(price) == 0 else g.PriceToIndex(price) >= TWO_63
  {
    var d := g.priceMin - price;
    DivMul(d, g.tick);
    DivInRange(d, d, g.tick);
    var q := d / g.tick;
    if d < g.tick {
      if q > 0 {
        MulLess(0, q, g.tick);
        assert false;
      }
    } else {
      assert q != 0;
      assert g.PriceToIndex(price) == ToUint64(-q) == TWO_64 - q;
    }
  }

  /** Exactly the prices from a tick below the lowest level up to a tick above the highest have a level,
      and it is the one that takes them. */
  lemma PriceTakenExactly(g: Grid, price: int64)
    requires g.Valid() && FitsInt64(price - g.priceMin)
    ensures g.PriceToIndex(price) < g.NumLevels()
        <==> g.priceMin - g.tick < price < g.PriceAt(g.NumLevels())
    ensures g.PriceToIndex(price) < g.NumLevels() ==> Takes(g, g.PriceToIndex(price), price)
  {
    var n := g.NumLevels();
    HighestLevel(g);
    if price < g.priceMin {
      TakenFromBelow(g, price);
    } else {
      TakenFromAbove(g, price);
      AboveAll(g, g.PriceToIndex(price), n, price);
    }
  }

  lemma AboveAll(g: Grid, index: nat, n: nat, price: int)
    requires g.tick > 0 && g.PriceAt(index) <= price < g.PriceAt(index) + g.tick
    ensures index < n <==> price < g.PriceAt(n)
  {
    if index < n {
      MulLess(index, n, g.tick);
    } else {
      LevelsHaveOwnPrices(g, n, index);
    }
  }

  /** What puts an order into a queue: an Add, a Modify of an id that does not rest, and a Modify of one that
      does to another price and a size above zero. */
  predicate Queues(b: Book, m: Msg) {
    || m.action == 'A'
    || (&& m.action == 'M'
        && match OrderOf(b.entries, m.orderId)
           case None => true
           case Some(o) => m.size > 0 && m.price != o.price)
  }

  /** The order of the message is behind all others, on the bid side for 'B' and on the ask side for 'A', in the
      level that takes its price. */
  ghost predicate QueuedLast(g: Grid, es: seq<Entry>, m: Msg, stamp: nat)
    requires g.Valid()
  {
    && es != []
    && var e := es[|es| - 1];
       && e.id == m.orderId && e.tracked && e.stamp == stamp
       && e.key.isBid == (m.side == 'B') && (m.side == 'A' || m.side == 'B')
       && e.key.index < g.NumLevels() && Takes(g, e.key.index, m.price)
       && e.price == m.price && e.size == m.size
  }

  lemma QueuedWhere(g: Grid, b: Book, m: Msg)
    requires g.Valid() && Accepts(g, b, m) && (m.side == 'A' || m.side == 'B') && Queues(b, m)
    ensures QueuedLast(g, Step(g, b, m).entries, m, b.clock)
  {
    PriceTakenExactly(g, m.price);
  }

  /** And its id finds it there. */
  lemma QueuedIsLive(g: Grid, b: Book, m: Msg)
    requires g.Valid() && UniqueTracked(b.entries) && Accepts(g, b, m)
    requires (m.side == 'A' || m.side == 'B') && Queues(b, m)
    ensures var es := Step(g, b, m).entries; es != [] && OrderOf(es, m.orderId) == Some(es[|es| - 1])
  {
    QueuedWhere(g, b, m);
    StepOutcome(g, b, m);
    OrderOfIs(Step(g, b, m).entries, |Step(g, b, m).entries| - 1);
  }

  /** Every other letter leaves the book alone, whatever the message asks for, unless it is a reset. */
  lemma OtherSidesIgnored(g: Grid, b: Book, m: Msg)
    requires g.Valid() && m.side != 'A' && m.side != 'B'
    ensures Step(g, b, m) == if m.action == 'R' then EMPTY_BOOK else b
  {
  }

  lemma AlikeIsLevel(cells: seq<Cell>, c: Cell)
    requires forall i | 0 <= i < |cells| :: cells[i] == c
    ensures |cells| > 1 ==> !Climbs(cells) && !Falls(cells)
  {
    assert |cells| > 1 ==> cells[0].price == cells[1].price;
  }

  lemma OneCell(cells: seq<Cell>, c: Cell)
    requires Climbs(cells) || Falls(cells)
    requires forall d :: d in cells <==> d == c
    ensures cells == [c]
  {
    assert c in cells;
    forall i | 0 <= i < |cells|
      ensures cells[i] == c
    {
      assert cells[i] in cells;
    }
    AlikeIsLevel(cells, c);
  }

  lemma FirstIsThere(cells: seq<Cell>)
    ensures cells == [] || cells[0] in cells
  {
  }

  lemma OneOrder(e: Entry, isBid: bool, price: int)
    ensures OrdersAtPrice([e], isBid, price) == if e.key.isBid == isBid && e.price == price then 1 else 0
    ensures SizeAtPrice([e], isBid, price) == if e.key.isBid == isBid && e.price == price then e.size else 0
  {
    assert [e][1..] == [];
  }

  lemma OneOrderShows(g: Grid, e: Entry)
    requires g.Valid() && OnGrid(g, [e])
    ensures var row := [Cell(e.price, e.size, 1)];
            && BidCells(g, [e]) == (if e.key.isBid then row else [])
            && AskCells(g, [e]) == (if e.key.isBid then [] else row)
  {
    var c := Cell(e.price, e.size, 1);
    forall d
      ensures d in BidCells(g, [e]) <==> e.key.isBid && d == c
      ensures d in AskCells(g, [e]) <==> !e.key.isBid && d == c
    {
      RowsByPrice(g, [e], d);
      OneOrder(e, true, d.price);
      OneOrder(e, false, d.price);
    }
    SidesSorted(g, [e]);
    if e.key.isBid {
      OneCell(BidCells(g, [e]), c);
      FirstIsThere(AskCells(g, [e]));
    } else {
      OneCell(AskCells(g, [e]), c);
      FirstIsThere(BidCells(g, [e]));
    }
  }

  /** The first order of an empty book is all that the book shows, on its own side. */
  lemma FirstAddShows(g: Grid, m: Msg)
    requires g.Valid() && m.action == 'A' && PriceOnGrid(g, m.price)
    ensures var es, row := Step(g, EMPTY_BOOK, m).entries, [Cell(m.price, m.size, 1)];
            && (m.side == 'B' ==> BidCells(g, es) == row && AskCells(g, es) == [])
            && (m.side == 'A' ==> BidCells(g, es) == [] && AskCells(g, es) == row)
  {
    if m.side == 'A' || m.side == 'B' {
      var es := Step(g, EMPTY_BOOK, m).entries;
      assert |es| == 1;
      var e := es[0];
      assert es == [e] && e.price == m.price && e.size == m.size && e.key.isBid == (m.side == 'B');
      StepKeepsGrid(g, EMPTY_BOOK, m);
      OneOrderShows(g, e);
    }
  }
}
