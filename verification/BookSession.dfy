/** A feed from the first message to what the clients are shown. */
module BookSession {
  import opened Common
  import opened MachineInts
  import opened PriorityBook
  import opened BookRows
  import opened BookLevels
  import opened BookAlgebra
  import opened BookRuns
  import opened OrderBookEngine

  /** A new book, fed with messages that place orders at grid prices only, and then asked for a snapshot:
      a row for exactly the prices at which orders rest, with their summed size, best price first. */
  method FeedAndShow(g: Grid, ms: seq<Msg>) returns (bidRows: seq<SignedRow>, askRows: seq<SignedRow>)
    requires g.Valid() && AcceptsAll(g, EMPTY_BOOK, ms)
    requires Throughout(g, EMPTY_BOOK, ms, (b, m) => PlacesOnGrid(g, b, m))
    ensures var es := Run(g, EMPTY_BOOK, ms).entries;
            SnapshotByPrice(es, true, bidRows) && SnapshotByPrice(es, false, askRows)
  {
    RunKeepsGrid(g, EMPTY_BOOK, ms);
    var book := new OrderBook(g);
    book.Replay(ms);
    bidRows, askRows := book.BuildSnapshot();
  }

  /** The same feed, asked for the best rows of each side. */
  method FeedAndShowDepth(g: Grid, ms: seq<Msg>, depth: nat) returns (bidRows: seq<Row>, askRows: seq<Row>)
    requires g.Valid() && AcceptsAll(g, EMPTY_BOOK, ms)
    requires Throughout(g, EMPTY_BOOK, ms, (b, m) => PlacesOnGrid(g, b, m))
    ensures var es := Run(g, EMPTY_BOOK, ms).entries;
            DepthByPrice(es, true, depth, bidRows) && DepthByPrice(es, false, depth, askRows)
  {
    RunKeepsGrid(g, EMPTY_BOOK, ms);
    var book := new OrderBook(g);
    book.Replay(ms);
    var shown := book.GetDepth(depth);
    bidRows, askRows := shown.value.0, shown.value.1;
  }
}
