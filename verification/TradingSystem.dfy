/** The matching loop of the trading system, from one empty result to the next. */
module TradingSystems {
  import opened Orders
  import opened PriorityBook
  import opened Exchange
  import opened Clearing
  import opened Conservation
  import opened MatchingEngines

  lemma DrainUnfolds(b: Book)
    ensures if Crossed(b) then
              Drain(b) == (Drain(Match(b)).0, [BestTrade(b)] + Drain(Match(b)).1)
              && |Match(b).bids| + |Match(b).asks| < |b.bids| + |b.asks|
            else Drain(b) == (b, []) && Match(b) == b
  {
    if Crossed(b) {
      MatchRemovesAnOrder(b);
    }
  }

  /** Call the matching engine until it has no trade; what it traded is the drain of the book. */
  method MatchUntilQuiet(engine: MatchingEngine) returns (trades: seq<Trade>)
    requires engine.Valid()
    modifies engine.orderBook`bidLevels, engine.orderBook`askLevels, engine.orderBook.bidBitmap, engine.orderBook.askBitmap,
             engine.orderBook.locations, engine.orderBook.orderPool`freeStack, engine.orderBook.orderPool.pool
    ensures engine.Valid() && engine.lastOrderId == old(engine.lastOrderId)
    ensures (engine.Abs().book, trades) == Drain(old(engine.Abs()).book)
    ensures FaithfulDrain(old(engine.Abs()).book) ==> IsClearingVolume(old(engine.Abs()).book, TotalVolume(trades))
  {
    hide Drain, Match, Crossed, BestTrade;
    ghost var start := engine.Abs().book;
    assert BookInv(start);
    trades := [];
    var quiet := false;
    assert trades + Drain(start).1 == Drain(start).1;
    while !quiet
      invariant engine.Valid() && engine.lastOrderId == old(engine.lastOrderId)
      invariant Drain(start) == (Drain(engine.Abs().book).0, trades + Drain(engine.Abs().book).1)
      invariant quiet ==> !Crossed(engine.Abs().book)
      decreases |engine.Abs().book.bids| + |engine.Abs().book.asks|, if quiet then 0 else 1
    {
      ghost var b := engine.Abs().book;
      DrainUnfolds(b);
      var trade := engine.MatchLimitOrders();
      match trade
      case Success(Some(t)) =>
        assert trades + ([t] + Drain(Match(b)).1) == (trades + [t]) + Drain(Match(b)).1;
        trades := trades + [t];
      case _ =>
        quiet := true;
    }
    DrainUnfolds(engine.Abs().book);
    assert trades + [] == trades;
    if FaithfulDrain(start) {
      DrainTradesClearingVolume(start);
    }
  }
}
