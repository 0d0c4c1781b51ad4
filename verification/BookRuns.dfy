/** What the steps keep, over whole runs from the empty book: rows by price, a one-to-one index, and two
    renderings that agree. */
module BookRuns {
  import opened Common
  import opened MachineInts
  import opened PriorityBook
  import opened BookRows
  import opened BookAlgebra

  /** Every message of the run meets the condition in the book that it finds. */
  ghost predicate Throughout(g: Grid, b: Book, ms: seq<Msg>, ok: (Book, Msg) -> bool)
    requires g.Valid()
    decreases |ms|
  {
    ms == [] || (ok(b, ms[0]) && Throughout(g, Step(g, b, ms[0]), ms[1..], ok))
  }

  predicate PlacesOnGrid(g: Grid, b: Book, m: Msg) {
    g.Valid() && (Places(b, m) ==> PriceOnGrid(g, m.price))
  }

  predicate AddsNew(b: Book, m: Msg) {
    m.action == 'A' && HasSide(m) ==> !Resting(b.entries, m.orderId)
  }

  predicate PlacesSize(b: Book, m: Msg) {
    Places(b, m) ==> m.size > 0
  }

  lemma {:induction false} RunKeepsGrid(g: Grid, b: Book, ms: seq<Msg>)
    requires g.Valid() && OnGrid(g, b.entries) && Throughout(g, b, ms, (b', m) => PlacesOnGrid(g, b', m))
    ensures OnGrid(g, Run(g, b, ms).entries)
    decreases |ms|
  {
    if ms != [] {
      StepKeepsGrid(g, b, ms[0]);
      RunKeepsGrid(g, Step(g, b, ms[0]), ms[1..]);
    }
  }

  lemma {:induction false} RunKeepsUnique(g: Grid, b: Book, ms: seq<Msg>)
    requires g.Valid() && UniqueTracked(b.entries)
    ensures UniqueTracked(Run(g, b, ms).entries)
    decreases |ms|
  {
    if ms != [] {
      StepOutcome(g, b, ms[0]);
      RunKeepsUnique(g, Step(g, b, ms[0]), ms[1..]);
    }
  }

  lemma {:induction false} RunKeepsTracked(g: Grid, b: Book, ms: seq<Msg>)
    requires g.Valid() && UniqueTracked(b.entries) && AllTracked(b.entries) && Throughout(g, b, ms, AddsNew)
    ensures AllTracked(Run(g, b, ms).entries)
    decreases |ms|
  {
    if ms != [] {
      StepOutcome(g, b, ms[0]);
      OrphanedExactly(g, b, ms[0]);
      RunKeepsTracked(g, Step(g, b, ms[0]), ms[1..]);
    }
  }

  lemma {:induction false} RunKeepsPositive(g: Grid, b: Book, ms: seq<Msg>)
    requires g.Valid() && AllPositive(b.entries) && Throughout(g, b, ms, PlacesSize)
    ensures AllPositive(Run(g, b, ms).entries)
    decreases |ms|
  {
    if ms != [] {
      PositiveExactly(g, b, ms[0]);
      RunKeepsPositive(g, Step(g, b, ms[0]), ms[1..]);
    }
  }

  // ---------------------------------------------------------------- from the empty book

  /** A run that places orders only at grid prices shows a row exactly for the prices at which orders rest,
      with their number and their summed size. */
  lemma RunShowsPrices(g: Grid, ms: seq<Msg>, c: Cell)
    requires g.Valid() && Throughout(g, EMPTY_BOOK, ms, (b, m) => PlacesOnGrid(g, b, m))
    ensures var es := Run(g, EMPTY_BOOK, ms).entries;
            && (c in BidCells(g, es) <==> RowAtPrice(es, true, c))
            && (c in AskCells(g, es) <==> RowAtPrice(es, false, c))
  {
    RunKeepsGrid(g, EMPTY_BOOK, ms);
    RowsByPrice(g, Run(g, EMPTY_BOOK, ms).entries, c);
  }

  predicate RowAtPrice(es: seq<Entry>, isBid: bool, c: Cell) {
    && OrdersAtPrice(es, isBid, c.price) > 0
    && c.count == OrdersAtPrice(es, isBid, c.price)
    && c.size == ToUint64(SizeAtPrice(es, isBid, c.price))
  }

  /** A run without an Add of a resting id leaves no orphan: every entry is the live order of its id. */
  lemma RunOrphansNobody(g: Grid, ms: seq<Msg>, i: nat)
    requires g.Valid() && Throughout(g, EMPTY_BOOK, ms, AddsNew) && i < |Run(g, EMPTY_BOOK, ms).entries|
    ensures var es := Run(g, EMPTY_BOOK, ms).entries; es[i].tracked && OrderOf(es, es[i].id) == Some(es[i])
  {
    RunKeepsUnique(g, EMPTY_BOOK, ms);
    RunKeepsTracked(g, EMPTY_BOOK, ms);
    OrderOfIs(Run(g, EMPTY_BOOK, ms).entries, i);
  }

  /** After a run that places no size zero, the pairs are the rows of the snapshot, side by side. */
  lemma RunRendersAlike(g: Grid, ms: seq<Msg>)
    requires g.Valid() && Throughout(g, EMPTY_BOOK, ms, PlacesSize)
    requires |Run(g, EMPTY_BOOK, ms).entries| < TWO_32
    ensures var es := Run(g, EMPTY_BOOK, ms).entries;
            PaddedZip(Positive(BidCells(g, es)), Positive(AskCells(g, es)))
            == PaddedZip(BidCells(g, es), AskCells(g, es))
  {
    RunKeepsPositive(g, EMPTY_BOOK, ms);
    RenderingsAgree(g, Run(g, EMPTY_BOOK, ms).entries);
  }
}
