/** The matching engine: its locked methods are the steps of the exchange, on the concrete book. */
module MatchingEngines {
  import opened FixedWidth
  import opened Orders
  import opened PriceLadder
  import opened VolumeArithmetic
  import opened PriorityBook
  import opened Exchange
  import opened Clearing
  import opened Bitmap
  import opened LevelQueues
  import opened BookSides
  import opened BookLayouts
  import opened OrderBooks

  /** What becomes of an exception inside the try block of matching: a runtime error ends it without a trade. */
  function Rescue(e: Error): Result<Option<Trade>> {
    if e.IsRuntimeError() then Success(None) else Failure(e)
  }

  /** How matching ends once both removals have been tried. */
  function Conclude(removed: Result<()>, trade: Trade): Result<Option<Trade>> {
    match removed
    case Success(_) => Success(Some(trade))
    case Failure(e) => Rescue(e)
  }

  /** The book with volume t taken off both best orders. */
  function Filled(b: Book, t: u64): Book
    requires Crossed(b)
  {
    b.(asks := b.asks[0 := b.asks[0].(volume := Reduced(b.asks[0].volume, t))],
       bids := b.bids[0 := b.bids[0].(volume := Reduced(b.bids[0].volume, t))])
  }

  /** The book without the first order of a side. */
  function FirstDropped(b: Book, side: Side): Book
    requires b.Orders(side) != []
  {
    b.WithOrders(side, b.Orders(side)[1..]).(free := b.free + 1, table := b.table - {Key(b.Orders(side)[0].id)})
  }

  /** The book without best orders whose volume has come down to zero. */
  function ExhaustedDropped(b: Book): Book
    requires b.bids != [] && b.asks != []
  {
    var b' := if Exhausted(b.asks[0].volume) then FirstDropped(b, Ask) else b;
    if Exhausted(b.bids[0].volume) then FirstDropped(b', Bid) else b'
  }

  lemma UncrossedStays(b: Book)
    ensures !Crossed(b) ==> Match(b) == b
  {
  }

  /** Filling the best orders and dropping what is exhausted is a match. */
  lemma FilledThenDropped(b: Book)
    requires Crossed(b)
    ensures ExhaustedDropped(Filled(b, BestTrade(b).volume)) == Match(b)
  {
    hide Reduced, Exhausted, TradeVolume, Ticks, Key;
    var t := BestTrade(b).volume;
    var f := Filled(b, t);
    assert f.asks[1..] == b.asks[1..] && f.bids[1..] == b.bids[1..];
    assert ExhaustedDropped(f).table == b.table - MatchedKeys(b);
  }

  class MatchingEngine {
    const orderBook: OrderBook
    /** The id the generator handed out last. */
    var lastOrderId: u64

    ghost predicate Valid()
      reads this, orderBook, orderBook.orderPool, orderBook.orderPool.pool,
            orderBook.bidBitmap, orderBook.askBitmap, orderBook.locations
    {
      orderBook.Valid() && Inv(Abs())
    }

    /** The state of the exchange that the engine stands for. */
    ghost function Abs(): State
      requires orderBook.Valid()
      reads this, orderBook, orderBook.orderPool, orderBook.orderPool.pool,
            orderBook.bidBitmap, orderBook.askBitmap, orderBook.locations
    {
      State(orderBook.View(), lastOrderId)
    }

    constructor (orderBook: OrderBook)
      requires orderBook.Valid() && orderBook.View() == EMPTY_BOOK
      ensures this.orderBook == orderBook && Valid() && Abs() == START
    {
      this.orderBook := orderBook;
      lastOrderId := 0;
    }

    /** Take a pool slot and an id for the order, and write it there. */
    method StoreOrder(orderData: Order) returns (r: Result<nat>)
      requires Valid() && IdsLeft(Abs())
      modifies this`lastOrderId, orderBook`held, orderBook.orderPool`freeStack, orderBook.orderPool.pool
      ensures orderBook.Valid()
      ensures old(Abs()).book.free == 0 ==> r == Failure(PoolExhausted) && Abs() == old(Abs())
      ensures old(Abs()).book.free > 0 ==>
                && r.Success? && r.value in orderBook.held && r.value < POOL_SIZE
                && orderBook.orderPool.pool[r.value] == Stamped(old(Abs()), orderData)
                && Abs() == State(old(Abs()).book.(free := old(Abs()).book.free - 1), NextId(old(Abs())))
    {
      ghost var l := orderBook.Now();
      var acquired := orderBook.orderPool.Acquire();
      if acquired.Failure? {
        return acquired;
      }
      var slot := acquired.value;
      orderBook.held := orderBook.held + {slot};
      assert orderBook.Now() == Taken(l);
      TakenView(l);
      lastOrderId := ToU64(lastOrderId + 1);
      orderBook.orderPool.pool[slot] := orderData.(id := lastOrderId);
      assert orderBook.Now() == Written(Taken(l), slot, orderData.(id := lastOrderId));
      WrittenHeldView(Taken(l), slot, orderData.(id := lastOrderId));
      return Success(slot);
    }

    /** Store the order under a new id and queue it. */
    method AddOrder(orderData: Order) returns (r: Result<u64>)
      requires Valid() && IdsLeft(Abs())
      modifies this`lastOrderId, orderBook`bidLevels, orderBook`askLevels, orderBook`held, orderBook.bidBitmap, orderBook.askBitmap,
               orderBook.locations, orderBook.orderPool`freeStack, orderBook.orderPool.pool
      ensures Valid()
      ensures Abs() == Step(old(Abs()), Event.AddOrder(orderData)) && r == AddResult(old(Abs()), orderData)
      ensures r.Success? <==> old(Abs()).book.free > 0 && 950 <= orderData.price % 0x1_0000_0000 <= 1050
      ensures r.Success? ==>
                && r.value == old(lastOrderId) + 1
                && multiset(Abs().book.Orders(orderData.side))
                   == multiset(old(Abs()).book.Orders(orderData.side)) + multiset{orderData.(id := r.value)}
    {
      hide Insert, LayoutInv, ViewOf, Sorted, OnSide, Add;
      ghost var s := Abs();
      AddStepKeepsInv(s, orderData);
      AddOutcome(s, orderData);
      var slot :- StoreOrder(orderData);
      var queued;
      if orderBook.orderPool.pool[slot].side == Bid {
        queued := orderBook.AddBid(slot);
      } else {
        queued := orderBook.AddAsk(slot);
      }
      r := queued.Then(orderBook.orderPool.pool[slot].id);
    }

    /** Take the traded volume off the two best orders. */
    method FillBest(ask: nat, bid: nat, volume: u64)
      requires orderBook.Valid() && Crossed(orderBook.View())
      requires var l := orderBook.Now();
               && Slots(l.asks.levels, Ask) != [] && ask == Slots(l.asks.levels, Ask)[0] < POOL_SIZE
               && Slots(l.bids.levels, Bid) != [] && bid == Slots(l.bids.levels, Bid)[0] < POOL_SIZE
      modifies orderBook.orderPool.pool
      ensures orderBook.Valid() && orderBook.View() == Filled(old(orderBook.View()), volume)
      ensures orderBook.orderPool.pool[ask] == orderBook.View().asks[0]
      ensures orderBook.orderPool.pool[bid] == orderBook.View().bids[0]
    {
      ghost var l := orderBook.Now();
      WrittenFirstView(l, Ask, ask, Reduced(l.pool[ask].volume, volume));
      var askReduction := orderBook.orderPool.ReduceVolume(ask, volume);
      ghost var l' := orderBook.Now();
      assert l' == Written(l, ask, l.pool[ask].(volume := Reduced(l.pool[ask].volume, volume)));
      WrittenFirstView(l', Bid, bid, Reduced(l'.pool[bid].volume, volume));
      var bidReduction := orderBook.orderPool.ReduceVolume(bid, volume);
      assert orderBook.Now() == Written(l', bid, l'.pool[bid].(volume := Reduced(l'.pool[bid].volume, volume)));
    }

    /** Remove the best orders that the trade used up; the ask goes first. */
    method RemoveExhausted(ask: nat, bid: nat) returns (r: Result<()>)
      requires orderBook.Valid() && orderBook.View().asks != [] && orderBook.View().bids != []
      requires ask < POOL_SIZE && orderBook.orderPool.pool[ask] == orderBook.View().asks[0]
      requires bid < POOL_SIZE && orderBook.orderPool.pool[bid] == orderBook.View().bids[0]
      modifies orderBook`bidLevels, orderBook`askLevels, orderBook.bidBitmap, orderBook.askBitmap,
               orderBook.locations, orderBook.orderPool`freeStack
      ensures r == Success(()) && orderBook.Valid() && orderBook.View() == ExhaustedDropped(old(orderBook.View()))
    {
      hide LayoutInv, ViewOf, Key;
      var pool := orderBook.orderPool.pool;
      ghost var level;
      r := Success(());
      if GetVolume(pool[ask].volume) == 0 {
        ghost var l := orderBook.Now();
        InvHasShape(l);
        r, level := orderBook.RemoveAsk(pool[ask].id);
        BestRemovedView(l, Ask, level);
      }
      if r.Success? && GetVolume(pool[bid].volume) == 0 {
        ghost var l := orderBook.Now();
        InvHasShape(l);
        r, level := orderBook.RemoveBid(pool[bid].id);
        BestRemovedView(l, Bid, level);
      }
    }

    /** Trade the best bid and the best ask, if their prices cross. */
    method MatchLimitOrders() returns (r: Result<Option<Trade>>)
      requires Valid()
      modifies orderBook`bidLevels, orderBook`askLevels, orderBook.bidBitmap, orderBook.askBitmap,
               orderBook.locations, orderBook.orderPool`freeStack, orderBook.orderPool.pool
      ensures Valid()
      ensures Abs() == Step(old(Abs()), MatchOrders) == State(Match(old(Abs()).book), old(lastOrderId))
      ensures r == Success(if Crossed(old(Abs()).book) then Some(BestTrade(old(Abs()).book)) else None)
    {
      hide LayoutInv, ViewOf, Match, BookInv, Reduced, Slots, Better, IdsBelow, Ticks, LayoutShape;
      ghost var l, s := orderBook.Now(), Abs();
      InvHasShape(l);
      MatchStepKeepsInv(s);
      UncrossedStays(s.book);
      var bestAsk := orderBook.GetBestAsk();
      if bestAsk.Failure? {
        return Rescue(bestAsk.error);
      }
      var bestBid := orderBook.GetBestBid();
      if bestBid.Failure? {
        return Rescue(bestBid.error);
      }
      var pool := orderBook.orderPool.pool;
      var ask, bid := bestAsk.value, bestBid.value;
      var bidPrice, askPrice := Ticks(pool[bid].price), Ticks(pool[ask].price);
      if bidPrice < askPrice {
        return Success(None);
      }
      var tradeVolume := ToU64(Min(GetVolume(pool[ask].volume), GetVolume(pool[bid].volume)));
      var trade := Trade(tradeVolume, askPrice);
      FilledThenDropped(s.book);
      FillBest(ask, bid, tradeVolume);
      var removed := RemoveExhausted(ask, bid);
      r := Conclude(removed, trade);
    }

    /** Remove an order by its id. */
    method CancelOrder(orderId: u64) returns (r: Result<()>)
      requires Valid()
      modifies orderBook`bidLevels, orderBook`askLevels, orderBook.bidBitmap, orderBook.askBitmap,
               orderBook.locations, orderBook.orderPool`freeStack
      ensures Valid()
      ensures Abs() == Step(old(Abs()), Event.CancelOrder(orderId)) == State(Cancel(old(Abs()).book, orderId), old(lastOrderId))
      ensures r == Success(())
    {
      CancelStepKeepsInv(Abs(), orderId);
      r := orderBook.RemoveOrderFromOrderId(orderId);
    }
  }
}
