/** What the queries show, said without rows: which levels, in which order, and what stands in each place.
    With prices on the grid it is said of prices alone. */
module BookLevels {
  import opened Common
  import opened MachineInts
  import opened PriorityBook
  import opened BookRows

  /** A level is shown when orders rest there; one rendering also wants its 64-bit total not to be zero. */
  predicate IsShown(es: seq<Entry>, key: LevelKey, positive: bool) {
    Count(es, key) > 0 && (positive ==> Volume(es, key) % TWO_64 > 0)
  }

  /** The shown levels below n, lowest first. */
  function LevelsBelow(es: seq<Entry>, isBid: bool, positive: bool, n: nat): seq<nat> {
    if n == 0 then [] else LevelsBelow(es, isBid, positive, n - 1) + IfShown(es, isBid, positive, n - 1)
  }

  /** The shown levels from lo up to n, highest first. */
  function LevelsFrom(es: seq<Entry>, isBid: bool, positive: bool, lo: nat, n: nat): seq<nat>
    requires lo <= n
    decreases n - lo
  {
    if lo == n then [] else LevelsFrom(es, isBid, positive, lo + 1, n) + IfShown(es, isBid, positive, lo)
  }

  function IfShown(es: seq<Entry>, isBid: bool, positive: bool, i: nat): (r: seq<nat>) {
    if IsShown(es, LevelKey(isBid, i), positive) then [i] else []
  }

  /** The shown levels of one side, best first. */
  function Levels(g: Grid, es: seq<Entry>, isBid: bool, positive: bool): seq<nat>
    requires g.Valid()
  {
    if isBid then LevelsFrom(es, isBid, positive, 0, g.NumLevels())
    else LevelsBelow(es, isBid, positive, g.NumLevels())
  }

  predicate Better(isBid: bool, x: int, y: int) {
    if isBid then x > y else x < y
  }

  /** Each shown level in a range is listed, and nothing else. */
  ghost predicate AreShown(es: seq<Entry>, isBid: bool, positive: bool, lo: nat, n: nat, r: seq<nat>) {
    && (forall k | 0 <= k < |r| :: lo <= r[k] < n && IsShown(es, LevelKey(isBid, r[k]), positive))
    && (forall i | lo <= i < n && IsShown(es, LevelKey(isBid, i), positive) :: i in r)
  }

  ghost predicate BestFirst(isBid: bool, r: seq<nat>) {
    forall j, k | 0 <= j < k < |r| :: Better(isBid, r[j], r[k])
  }

  /** One more level of the range, below or above the others, listed last. */
  lemma ListedBelow(es: seq<Entry>, isBid: bool, positive: bool, i: nat, n: nat, r: seq<nat>)
    requires i < n && AreShown(es, isBid, positive, i + 1, n, r) && BestFirst(true, r)
    ensures var r' := r + IfShown(es, isBid, positive, i); AreShown(es, isBid, positive, i, n, r') && BestFirst(true, r')
  {
    var x := IfShown(es, isBid, positive, i);
    assert forall k | 0 <= k < |r + x| :: (r + x)[k] == if k < |r| then r[k] else i;
    assert forall l: nat :: l in r + x <==> l in r || l in x;
  }

  lemma ListedAbove(es: seq<Entry>, isBid: bool, positive: bool, i: nat, r: seq<nat>)
    requires AreShown(es, isBid, positive, 0, i, r) && BestFirst(false, r)
    ensures var r' := r + IfShown(es, isBid, positive, i);
            AreShown(es, isBid, positive, 0, i + 1, r') && BestFirst(false, r')
  {
    var x := IfShown(es, isBid, positive, i);
    assert forall k | 0 <= k < |r + x| :: (r + x)[k] == if k < |r| then r[k] else i;
    assert forall l: nat :: l in r + x <==> l in r || l in x;
  }

  lemma {:induction false} BelowAreShown(es: seq<Entry>, isBid: bool, positive: bool, n: nat)
    ensures AreShown(es, isBid, positive, 0, n, LevelsBelow(es, isBid, positive, n))
    ensures BestFirst(false, LevelsBelow(es, isBid, positive, n))
  {
    if n > 0 {
      BelowAreShown(es, isBid, positive, n - 1);
      ListedAbove(es, isBid, positive, n - 1, LevelsBelow(es, isBid, positive, n - 1));
    }
  }

  lemma {:induction false} FromAreShown(es: seq<Entry>, isBid: bool, positive: bool, lo: nat, n: nat)
    requires lo <= n
    ensures AreShown(es, isBid, positive, lo, n, LevelsFrom(es, isBid, positive, lo, n))
    ensures BestFirst(true, LevelsFrom(es, isBid, positive, lo, n))
    decreases n - lo
  {
    if lo < n {
      FromAreShown(es, isBid, positive, lo + 1, n);
      ListedBelow(es, isBid, positive, lo, n, LevelsFrom(es, isBid, positive, lo + 1, n));
    }
  }

  /** Every shown level is there once, the best first. */
  lemma LevelsAreShown(g: Grid, es: seq<Entry>, isBid: bool, positive: bool)
    requires g.Valid()
    ensures AreShown(es, isBid, positive, 0, g.NumLevels(), Levels(g, es, isBid, positive))
    ensures BestFirst(isBid, Levels(g, es, isBid, positive))
  {
    if isBid {
      FromAreShown(es, isBid, positive, 0, g.NumLevels());
    } else {
      BelowAreShown(es, isBid, positive, g.NumLevels());
    }
  }

  // ---------------------------------------------------------------- rows are levels

  function CellsAt(g: Grid, es: seq<Entry>, isBid: bool, levels: seq<nat>): (r: seq<Cell>)
    ensures |r| == |levels|
  {
    seq(|levels|, i requires 0 <= i < |levels| => CellAt(g, es, LevelKey(isBid, levels[i])))
  }

  lemma CellsNext(g: Grid, es: seq<Entry>, isBid: bool, levels: seq<nat>, i: nat)
    ensures CellsAt(g, es, isBid, levels + [i]) == CellsAt(g, es, isBid, levels) + [CellAt(g, es, LevelKey(isBid, i))]
  {
  }

  ghost predicate Lists(g: Grid, es: seq<Entry>, isBid: bool, positive: bool, side: seq<seq<Cell>>) {
    forall i | 0 <= i < |side| ::
      side[i] == if IsShown(es, LevelKey(isBid, i), positive) then [CellAt(g, es, LevelKey(isBid, i))] else []
  }

  lemma {:induction false} RisingIs(g: Grid, es: seq<Entry>, isBid: bool, positive: bool, side: seq<seq<Cell>>, n: nat)
    requires Lists(g, es, isBid, positive, side) && n <= |side|
    ensures Rising(side, n) == CellsAt(g, es, isBid, LevelsBelow(es, isBid, positive, n))
  {
    if n > 0 {
      RisingIs(g, es, isBid, positive, side, n - 1);
      CellsNext(g, es, isBid, LevelsBelow(es, isBid, positive, n - 1), n - 1);
    }
  }

  lemma {:induction false} FallingIs(g: Grid, es: seq<Entry>, isBid: bool, positive: bool, side: seq<seq<Cell>>, lo: nat)
    requires Lists(g, es, isBid, positive, side) && lo <= |side|
    ensures Falling(side, lo) == CellsAt(g, es, isBid, LevelsFrom(es, isBid, positive, lo, |side|))
    decreases |side| - lo
  {
    if lo < |side| {
      FallingIs(g, es, isBid, positive, side, lo + 1);
      CellsNext(g, es, isBid, LevelsFrom(es, isBid, positive, lo + 1, |side|), lo);
    }
  }

  lemma SideLists(g: Grid, es: seq<Entry>, isBid: bool)
    requires g.Valid()
    ensures Lists(g, es, isBid, false, SideCells(g, es, isBid))
    ensures Lists(g, es, isBid, true, PositiveSide(SideCells(g, es, isBid)))
  {
    forall i | 0 <= i < g.NumLevels() {
      PositiveOne(CellAt(g, es, LevelKey(isBid, i)));
    }
  }

  function ShownCells(g: Grid, es: seq<Entry>, isBid: bool): seq<Cell>
    requires g.Valid()
  {
    if isBid then BidCells(g, es) else AskCells(g, es)
  }

  /** The rows of a side are its shown levels, in their order. */
  lemma CellsAreLevels(g: Grid, es: seq<Entry>, isBid: bool)
    requires g.Valid()
    ensures ShownCells(g, es, isBid) == CellsAt(g, es, isBid, Levels(g, es, isBid, false))
    ensures Positive(ShownCells(g, es, isBid)) == CellsAt(g, es, isBid, Levels(g, es, isBid, true))
  {
    var side := SideCells(g, es, isBid);
    SideLists(g, es, isBid);
    if isBid {
      FallingIs(g, es, isBid, false, side, 0);
      FallingIs(g, es, isBid, true, PositiveSide(side), 0);
      PositiveFalling(side, 0);
    } else {
      RisingIs(g, es, isBid, false, side, |side|);
      RisingIs(g, es, isBid, true, PositiveSide(side), |side|);
      PositiveRising(side, |side|);
    }
  }

  // ---------------------------------------------------------------- what each query shows of them

  /** A signed 64-bit number that stands for a total: the same modulo 2^64, and below 2^63 the same. */
  predicate IsTotal(x: int64, total: nat) {
    (x - total) % TWO_64 == 0 && (total < TWO_63 ==> x == total)
  }

  lemma SignedTotal(total: nat)
    ensures IsTotal(ToInt64(ToUint64(total)), total)
  {
  }

  lemma OneTotal(x: int64, y: int64, total: nat)
    requires IsTotal(x, total) && IsTotal(y, total)
    ensures x == y
  {
  }

  ghost predicate ShowsBest(g: Grid, es: seq<Entry>, isBid: bool, r: Option<(int, uint64)>)
    requires g.Valid()
  {
    var ls := Levels(g, es, isBid, false);
    r == if ls == [] then None
         else Some((g.PriceAt(ls[0]), Volume(es, LevelKey(isBid, ls[0])) % TWO_64))
  }

  /** The best rows, as many as asked for or as there are. */
  ghost predicate ShowsDepth(g: Grid, es: seq<Entry>, isBid: bool, depth: nat, rows: seq<Row>)
    requires g.Valid()
  {
    var ls := Levels(g, es, isBid, false);
    && |rows| == (if depth < |ls| then depth else |ls|)
    && forall i | 0 <= i < |rows| ::
         && rows[i].price == g.PriceAt(ls[i])
         && rows[i].size == Volume(es, LevelKey(isBid, ls[i])) % TWO_64
  }

  ghost predicate ShowsSnapshot(g: Grid, es: seq<Entry>, isBid: bool, rows: seq<SignedRow>)
    requires g.Valid()
  {
    var ls := Levels(g, es, isBid, false);
    && |rows| == |ls|
    && forall i | 0 <= i < |rows| ::
         rows[i].price == g.PriceAt(ls[i]) && IsTotal(rows[i].size, Volume(es, LevelKey(isBid, ls[i])))
  }

  /** The place of a pair for the level at the same place among the shown ones: its price, its total and
      its number of orders, or three zeros when there is no such level. */
  ghost predicate ShowsQuote(g: Grid, es: seq<Entry>, isBid: bool, levels: seq<nat>, i: nat, q: Quote) {
    if i < |levels| then
      var key := LevelKey(isBid, levels[i]);
      && q.price == g.PriceAt(levels[i])
      && IsTotal(q.size, Volume(es, key))
      && IsTotal(q.count, Count(es, key))
    else q.price == 0 && q.size == 0 && q.count == 0
  }

  ghost predicate ShowsPairs(g: Grid, es: seq<Entry>, pairs: seq<Pair>)
    requires g.Valid()
  {
    var bids, asks := Levels(g, es, true, true), Levels(g, es, false, true);
    && |pairs| == (if |bids| < |asks| then |asks| else |bids|)
    && forall i | 0 <= i < |pairs| ::
         ShowsQuote(g, es, true, bids, i, pairs[i].bid) && ShowsQuote(g, es, false, asks, i, pairs[i].ask)
  }

  lemma BestIs(g: Grid, es: seq<Entry>, isBid: bool)
    requires g.Valid()
    ensures var cells := ShownCells(g, es, isBid);
            ShowsBest(g, es, isBid, if cells == [] then None else Some((cells[0].price, cells[0].size)))
  {
    CellsAreLevels(g, es, isBid);
  }

  lemma DepthIs(g: Grid, es: seq<Entry>, isBid: bool, depth: nat)
    requires g.Valid()
    ensures ShowsDepth(g, es, isBid, depth, Rows(Take(ShownCells(g, es, isBid), depth)))
  {
    CellsAreLevels(g, es, isBid);
  }

  lemma SnapshotIs(g: Grid, es: seq<Entry>, isBid: bool)
    requires g.Valid()
    ensures ShowsSnapshot(g, es, isBid, SignedRows(ShownCells(g, es, isBid)))
  {
    CellsAreLevels(g, es, isBid);
    var ls := Levels(g, es, isBid, false);
    forall i | 0 <= i < |ls| {
      SignedTotal(Volume(es, LevelKey(isBid, ls[i])));
    }
  }

  lemma QuoteIs(g: Grid, es: seq<Entry>, isBid: bool, i: nat)
    requires g.Valid()
    ensures var ls := Levels(g, es, isBid, true);
            ShowsQuote(g, es, isBid, ls, i, QuoteOf(CellOr(CellsAt(g, es, isBid, ls), i)))
  {
    var ls := Levels(g, es, isBid, true);
    if i < |ls| {
      SignedTotal(Volume(es, LevelKey(isBid, ls[i])));
      SignedTotal(Count(es, LevelKey(isBid, ls[i])));
    }
  }

  lemma PairsAre(g: Grid, es: seq<Entry>)
    requires g.Valid()
    ensures ShowsPairs(g, es, PaddedZip(Positive(BidCells(g, es)), Positive(AskCells(g, es))))
  {
    CellsAreLevels(g, es, true);
    CellsAreLevels(g, es, false);
    forall i: nat
      ensures ShowsQuote(g, es, true, Levels(g, es, true, true), i, QuoteOf(CellOr(Positive(BidCells(g, es)), i)))
      ensures ShowsQuote(g, es, false, Levels(g, es, false, true), i, QuoteOf(CellOr(Positive(AskCells(g, es)), i)))
    {
      QuoteIs(g, es, true, i);
      QuoteIs(g, es, false, i);
    }
  }

  // ---------------------------------------------------------------- the same, by price

  /** A row for exactly the prices at which orders rest, with their summed size, best price first. */
  ghost predicate SnapshotByPrice(es: seq<Entry>, isBid: bool, rows: seq<SignedRow>) {
    && (forall r ::
          r in rows <==> OrdersAtPrice(es, isBid, r.price) > 0 && IsTotal(r.size, SizeAtPrice(es, isBid, r.price)))
    && forall i, j | 0 <= i < j < |rows| :: Better(isBid, rows[i].price, rows[j].price)
  }

  /** The best of these rows: whatever price is missing, the rows are as many as asked for and all better. */
  ghost predicate DepthByPrice(es: seq<Entry>, isBid: bool, depth: nat, rows: seq<Row>) {
    && |rows| <= depth
    && (forall i, j | 0 <= i < j < |rows| :: Better(isBid, rows[i].price, rows[j].price))
    && (forall i | 0 <= i < |rows| ::
          && OrdersAtPrice(es, isBid, rows[i].price) > 0
          && rows[i].size == SizeAtPrice(es, isBid, rows[i].price) % TWO_64)
    && forall price: int | OrdersAtPrice(es, isBid, price) > 0 && (forall i | 0 <= i < |rows| :: rows[i].price != price) ::
         |rows| == depth && forall i | 0 <= i < |rows| :: Better(isBid, rows[i].price, price)
  }

  /** The levels shown are those whose prices orders rest at. */
  ghost predicate LevelsArePrices(g: Grid, es: seq<Entry>, isBid: bool, ls: seq<nat>) {
    && (forall i | 0 <= i < |ls| ::
          && OrdersAtPrice(es, isBid, g.PriceAt(ls[i])) > 0
          && SizeAtPrice(es, isBid, g.PriceAt(ls[i])) == Volume(es, LevelKey(isBid, ls[i])))
    && (forall price | OrdersAtPrice(es, isBid, price) > 0 :: exists i :: 0 <= i < |ls| && price == g.PriceAt(ls[i]))
    && (forall i, j | 0 <= i < j < |ls| :: Better(isBid, g.PriceAt(ls[i]), g.PriceAt(ls[j])))
  }

  lemma LevelsByPrice(g: Grid, es: seq<Entry>, isBid: bool)
    requires g.Valid() && OnGrid(g, es)
    ensures LevelsArePrices(g, es, isBid, Levels(g, es, isBid, false))
  {
    var ls := Levels(g, es, isBid, false);
    LevelsAreShown(g, es, isBid, false);
    forall i | 0 <= i < |ls|
      ensures OrdersAtPrice(es, isBid, g.PriceAt(ls[i])) == Count(es, LevelKey(isBid, ls[i])) > 0
      ensures SizeAtPrice(es, isBid, g.PriceAt(ls[i])) == Volume(es, LevelKey(isBid, ls[i]))
    {
      LevelIsPrice(g, es, LevelKey(isBid, ls[i]));
    }
    forall price | OrdersAtPrice(es, isBid, price) > 0
      ensures exists i :: 0 <= i < |ls| && price == g.PriceAt(ls[i])
    {
      PriceHasOrder(g, es, isBid, price);
      var l :| 0 <= l < g.NumLevels() && g.PriceAt(l) == price;
      LevelIsPrice(g, es, LevelKey(isBid, l));
      assert IsShown(es, LevelKey(isBid, l), false);
    }
    forall i, j | 0 <= i < j < |ls|
      ensures Better(isBid, g.PriceAt(ls[i]), g.PriceAt(ls[j]))
    {
      LevelsHaveOwnPrices(g, ls[i], ls[j]);
      LevelsHaveOwnPrices(g, ls[j], ls[i]);
    }
  }

  lemma SnapshotIsByPrice(g: Grid, es: seq<Entry>, isBid: bool, rows: seq<SignedRow>)
    requires g.Valid() && OnGrid(g, es) && ShowsSnapshot(g, es, isBid, rows)
    ensures SnapshotByPrice(es, isBid, rows)
  {
    var ls := Levels(g, es, isBid, false);
    LevelsByPrice(g, es, isBid);
    forall r
      ensures r in rows <==> OrdersAtPrice(es, isBid, r.price) > 0 && IsTotal(r.size, SizeAtPrice(es, isBid, r.price))
    {
      if OrdersAtPrice(es, isBid, r.price) > 0 && IsTotal(r.size, SizeAtPrice(es, isBid, r.price)) {
        var i :| 0 <= i < |ls| && r.price == g.PriceAt(ls[i]);
        OneTotal(r.size, rows[i].size, SizeAtPrice(es, isBid, r.price));
        assert rows[i] == r;
      }
    }
  }

  lemma DepthIsByPrice(g: Grid, es: seq<Entry>, isBid: bool, depth: nat, rows: seq<Row>)
    requires g.Valid() && OnGrid(g, es) && ShowsDepth(g, es, isBid, depth, rows)
    ensures DepthByPrice(es, isBid, depth, rows)
  {
    LevelsByPrice(g, es, isBid);
  }
}
