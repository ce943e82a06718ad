/** The order book: level queues, bitmaps, order pool and location table, updated in place. */
module OrderBooks {
  import opened FixedWidth
  import opened Orders
  import opened PriceLadder
  import opened VolumeArithmetic
  import opened PriorityBook
  import opened Conservation
  import opened Clearing
  import opened Word64
  import opened Bitmap
  import opened LevelQueues
  import opened PoolSlots
  import opened BookSides
  import opened BookLayouts
  import opened ObjectPools

  class OrderBook {
    const orderPool: ObjectPool
    const size: nat
    const bidBitmap: array<u64>
    const askBitmap: array<u64>
    const locations: array<Location>
    var bidLevels: seq<seq<nat>>
    var askLevels: seq<seq<nat>>
    /** Slots that were acquired and are in no queue. */
    ghost var held: set<nat>

    /** All structures as values. */
    ghost function Now(): Layout
      reads this, orderPool, orderPool.pool, bidBitmap, askBitmap, locations
    {
      Layout(BookSide(bidLevels, bidBitmap[..]), BookSide(askLevels, askBitmap[..]), locations[..],
             orderPool.pool[..], orderPool.freeStack, held)
    }

    ghost predicate Sizes()
      reads this
    {
      && orderPool.pool.Length == locations.Length == POOL_SIZE
      && bidBitmap != askBitmap && NUM_OF_LEVELS <= size < TWO_TO_31 && |bidLevels| == |askLevels| == size
    }

    /** The structures can be indexed safely. */
    ghost predicate Shape()
      reads this, orderPool, orderPool.pool, bidBitmap, askBitmap, locations
    {
      Sizes() && LayoutShape(Now())
    }

    /** The structures agree with each other. */
    ghost predicate Valid()
      reads this, orderPool, orderPool.pool, bidBitmap, askBitmap, locations
    {
      Sizes() && LayoutInv(Now())
    }

    /** The book in priority order that the structures stand for. */
    ghost function View(): Book
      requires Valid()
      reads this, orderPool, orderPool.pool, bidBitmap, askBitmap, locations
    {
      ViewOf(Now())
    }

    constructor (size: nat)
      requires NUM_OF_LEVELS <= size < TWO_TO_31
      ensures Valid() && View() == Book([], [], map[], 10000) && held == {} && this.size == size
      ensures orderPool.pool.Length == locations.Length == 10000
      ensures fresh(orderPool) && fresh(orderPool.pool) && fresh(bidBitmap) && fresh(askBitmap) && fresh(locations)
    {
      this.size := size;
      orderPool := new ObjectPool();
      bidBitmap := new u64[WordCount(size)](_ => 0);
      askBitmap := new u64[WordCount(size)](_ => 0);
      locations := new Location[POOL_SIZE](_ => NO_LOCATION);
      bidLevels := seq(size, _ => []);
      askLevels := seq(size, _ => []);
      held := {};
      new;
      EmptySide(Now().bids, Bid, orderPool.pool[..]);
      EmptySide(Now().asks, Ask, orderPool.pool[..]);
      FullPoolPartitioned(orderPool.freeStack);
      assert TableOf(locations[..]) == map[];
    }

    // ----- Bitmaps

    method SetBidBitTo1(price: u64) returns (r: Result<()>)
      requires NUM_OF_LEVELS <= CHUNK * bidBitmap.Length
      modifies bidBitmap
      ensures !Tradable(price) ==> r == Failure(InvalidPrice) && bidBitmap[..] == old(bidBitmap[..])
      ensures Tradable(price) ==> r == Success(()) && bidBitmap[..] == SetLevel(old(bidBitmap[..]), LevelOf(price))
    {
      var level :- PriceToIndex(price);
      var (word, bit) := IndexToBitmapIndex(level);
      StaysInWord(bidBitmap[word], bit);
      bidBitmap[word] := Or(bidBitmap[word], Mask(bit));
      return Success(());
    }

    method SetBidBitTo0(price: u64) returns (r: Result<()>)
      requires NUM_OF_LEVELS <= CHUNK * bidBitmap.Length
      modifies bidBitmap
      ensures !Tradable(price) ==> r == Failure(InvalidPrice) && bidBitmap[..] == old(bidBitmap[..])
      ensures Tradable(price) ==> r == Success(()) && bidBitmap[..] == ClearLevel(old(bidBitmap[..]), LevelOf(price))
    {
      var level :- PriceToIndex(price);
      var (word, bit) := IndexToBitmapIndex(level);
      StaysInWord(bidBitmap[word], bit);
      bidBitmap[word] := AndNot(bidBitmap[word], Mask(bit));
      return Success(());
    }

    method SetAskBitTo1(price: u64) returns (r: Result<()>)
      requires NUM_OF_LEVELS <= CHUNK * askBitmap.Length
      modifies askBitmap
      ensures !Tradable(price) ==> r == Failure(InvalidPrice) && askBitmap[..] == old(askBitmap[..])
      ensures Tradable(price) ==> r == Success(()) && askBitmap[..] == SetLevel(old(askBitmap[..]), LevelOf(price))
    {
      var level :- PriceToIndex(price);
      var (word, bit) := IndexToBitmapIndex(level);
      StaysInWord(askBitmap[word], bit);
      askBitmap[word] := Or(askBitmap[word], Mask(bit));
      return Success(());
    }

    method SetAskBitTo0(price: u64) returns (r: Result<()>)
      requires NUM_OF_LEVELS <= CHUNK * askBitmap.Length
      modifies askBitmap
      ensures !Tradable(price) ==> r == Failure(InvalidPrice) && askBitmap[..] == old(askBitmap[..])
      ensures Tradable(price) ==> r == Success(()) && askBitmap[..] == ClearLevel(old(askBitmap[..]), LevelOf(price))
    {
      var level :- PriceToIndex(price);
      var (word, bit) := IndexToBitmapIndex(level);
      StaysInWord(askBitmap[word], bit);
      askBitmap[word] := AndNot(askBitmap[word], Mask(bit));
      return Success(());
    }

    // ----- Best levels

    /** Scan the words from the last one down; -1 when no bit is set. */
    method FindBestBidLevel() returns (level: int)
      ensures IsHighest(bidBitmap[..], level)
    {
      for i := bidBitmap.Length downto 0
        invariant NoBitsIn(bidBitmap[..], CHUNK * i, CHUNK * bidBitmap.Length)
      {
        var word := bidBitmap[i];
        if word != 0 {
          WordEnds(bidBitmap[..], i);
          return i * CHUNK + (63 - LeadingZeros(word));
        }
        WordHasNoBits(bidBitmap[..], i);
      }
      return -1;
    }

    /** Scan the words from the first one up; -1 when no bit is set. */
    method FindBestAskLevel() returns (level: int)
      ensures IsLowest(askBitmap[..], level)
    {
      for i := 0 to askBitmap.Length
        invariant NoBitsIn(askBitmap[..], 0, CHUNK * i)
      {
        var word := askBitmap[i];
        if word != 0 {
          WordEnds(askBitmap[..], i);
          return i * CHUNK + TrailingZeros(word);
        }
        WordHasNoBits(askBitmap[..], i);
      }
      return -1;
    }

    // ----- Best orders

    /** The slot of the first order on the best bid level. */
    method GetBestBid() returns (r: Result<nat>)
      requires Shape()
      ensures exists level :: IsHighest(bidBitmap[..], level) && level < size
                && r == if level == -1 then Failure(NoBids)
                        else if bidLevels[level] == [] then Failure(StaleBit)
                        else Success(bidLevels[level][0])
      ensures Valid() && r.Failure? ==> View().bids == [] && r == Failure(NoBids)
      ensures Valid() && r.Success? ==>
                && r.value < POOL_SIZE && View().bids != [] && View().bids[0] == orderPool.pool[r.value]
                && Slots(bidLevels, Bid) != [] && Slots(bidLevels, Bid)[0] == r.value
    {
      hide LayoutInv, ViewOf, Slots, Better;
      var level := FindBestBidLevel();
      if Valid() {
        BestOfView(Now(), Bid, level);
      }
      if level == -1 {
        return Failure(NoBids);
      }
      if |bidLevels[level]| == 0 {
        return Failure(StaleBit);
      }
      return Success(bidLevels[level][0]);
    }

    /** The slot of the first order on the best ask level. */
    method GetBestAsk() returns (r: Result<nat>)
      requires Shape()
      ensures exists level :: IsLowest(askBitmap[..], level) && level < size
                && r == if level == -1 then Failure(NoAsks)
                        else if askLevels[level] == [] then Failure(StaleBit)
                        else Success(askLevels[level][0])
      ensures Valid() && r.Failure? ==> View().asks == [] && r == Failure(NoAsks)
      ensures Valid() && r.Success? ==>
                && r.value < POOL_SIZE && View().asks != [] && View().asks[0] == orderPool.pool[r.value]
                && Slots(askLevels, Ask) != [] && Slots(askLevels, Ask)[0] == r.value
    {
      hide LayoutInv, ViewOf, Slots, Better;
      var level := FindBestAskLevel();
      if Valid() {
        BestOfView(Now(), Ask, level);
      }
      if level == -1 {
        return Failure(NoAsks);
      }
      if |askLevels[level]| == 0 {
        return Failure(StaleBit);
      }
      return Success(askLevels[level][0]);
    }

    // ----- Adding

    /** Queue the order of an acquired slot as a bid. A price outside the levels is refused. */
    method AddBid(slot: nat) returns (r: Result<()>)
      requires Valid() && slot in held && slot < POOL_SIZE
      requires orderPool.pool[slot].side.Bid? && IdsBelow(View().bids, orderPool.pool[slot].id)
      modifies this`bidLevels, this`held, bidBitmap, locations
      ensures Valid()
      ensures var order := orderPool.pool[slot];
              if Tradable(order.price) then r == Success(()) && View() == Add(old(View()), order) && held == old(held) - {slot}
              else r == Failure(InvalidPrice) && Now() == old(Now())
    {
      ghost var l := Now();
      InvHasShape(l);
      var order := orderPool.pool[slot];
      var level :- PriceToIndex(order.price);
      QueuedView(l, level, slot);
      bidLevels := bidLevels[level := bidLevels[level] + [slot]];
      r := SetBidBitTo1(order.price);
      if r.Success? {
        locations[Key(order.id)] := Location(order.price, Bid, true);
      }
      held := held - {slot};
      assert Now() == Queued(l, level, slot);
    }

    /** Queue the order of an acquired slot as an ask. A price outside the levels is refused. */
    method AddAsk(slot: nat) returns (r: Result<()>)
      requires Valid() && slot in held && slot < POOL_SIZE
      requires orderPool.pool[slot].side.Ask? && IdsBelow(View().asks, orderPool.pool[slot].id)
      modifies this`askLevels, this`held, askBitmap, locations
      ensures Valid()
      ensures var order := orderPool.pool[slot];
              if Tradable(order.price) then r == Success(()) && View() == Add(old(View()), order) && held == old(held) - {slot}
              else r == Failure(InvalidPrice) && Now() == old(Now())
    {
      ghost var l := Now();
      InvHasShape(l);
      var order := orderPool.pool[slot];
      var level :- PriceToIndex(order.price);
      QueuedView(l, level, slot);
      askLevels := askLevels[level := askLevels[level] + [slot]];
      r := SetAskBitTo1(order.price);
      if r.Success? {
        locations[Key(order.id)] := Location(order.price, Ask, true);
      }
      held := held - {slot};
      assert Now() == Queued(l, level, slot);
    }

    // ----- Removing the best order

    /** Take the first order of the best bid level out of the book, if it has the id asked for. */
    method RemoveBid(orderId: u64) returns (r: Result<()>, ghost level: int)
      requires Shape()
      modifies this`bidLevels, bidBitmap, locations, orderPool`freeStack
      ensures IsHighest(old(bidBitmap[..]), level) && level < size
      ensures Now() == BestRemoved(old(Now()), Bid, level, orderId)
      ensures r == if RefusesRemoval(old(Now()), Bid, level, orderId) then Failure(NotAtFront) else Success(())
    {
      ghost var l := Now();
      var best := FindBestBidLevel();
      level := best;
      if best == -1 {
        return Success(()), level;
      }
      assert BitAt(bidBitmap[..], best) && best < NUM_OF_LEVELS;
      IndexPriceRoundTrip(size, best);
      if |bidLevels[best]| == 0 {
        r := SetBidBitTo0(IndexToPrice(size, best).value);
        return r, level;
      }
      var slot := bidLevels[best][0];
      if orderPool.pool[slot].id != orderId {
        return Failure(NotAtFront), level;
      }
      r := orderPool.Release(slot);
      if r.Success? {
        bidLevels := bidLevels[best := bidLevels[best][1..]];
        locations[Key(orderId)] := NO_LOCATION;
        if |bidLevels[best]| == 0 {
          r := SetBidBitTo0(IndexToPrice(size, best).value);
        }
      }
      assert RemoveAt(l.bids.levels[best], 0) == l.bids.levels[best][1..];
    }

    /** Take the first order of the best ask level out of the book, if it has the id asked for. */
    method RemoveAsk(orderId: u64) returns (r: Result<()>, ghost level: int)
      requires Shape()
      modifies this`askLevels, askBitmap, locations, orderPool`freeStack
      ensures IsLowest(old(askBitmap[..]), level) && level < size
      ensures Now() == BestRemoved(old(Now()), Ask, level, orderId)
      ensures r == if RefusesRemoval(old(Now()), Ask, level, orderId) then Failure(NotAtFront) else Success(())
    {
      ghost var l := Now();
      var best := FindBestAskLevel();
      level := best;
      if best == -1 {
        return Success(()), level;
      }
      assert BitAt(askBitmap[..], best) && best < NUM_OF_LEVELS;
      IndexPriceRoundTrip(size, best);
      if |askLevels[best]| == 0 {
        r := SetAskBitTo0(IndexToPrice(size, best).value);
        return r, level;
      }
      var slot := askLevels[best][0];
      if orderPool.pool[slot].id != orderId {
        return Failure(NotAtFront), level;
      }
      r := orderPool.Release(slot);
      if r.Success? {
        askLevels := askLevels[best := askLevels[best][1..]];
        locations[Key(orderId)] := NO_LOCATION;
        if |askLevels[best]| == 0 {
          r := SetAskBitTo0(IndexToPrice(size, best).value);
        }
      }
      assert RemoveAt(l.asks.levels[best], 0) == l.asks.levels[best][1..];
    }

    // ----- Level volumes

    /** The bid and ask volume on the level of a price, summed in 64 bits. */
    method GetVolumeAtLevelFromPrice(price: u64) returns (r: Result<(u64, u64)>)
      requires Valid()
      ensures !Tradable(price) ==> r == Failure(InvalidPrice)
      ensures Tradable(price) ==>
                var level := LevelOf(price);
                r == Success((ToU64(VolumeWithin(View().bids, level, level)), ToU64(VolumeWithin(View().asks, level, level))))
    {
      ghost var l := Now();
      var level :- PriceToIndex(price);
      QueueVolume(l.bids, Bid, level, l.pool);
      QueueVolume(l.asks, Ask, level, l.pool);
      var totalBid := SumVolumes(bidLevels[level]);
      var totalAsk := SumVolumes(askLevels[level]);
      return Success((totalBid, totalAsk));
    }

    method SumVolumes(queue: seq<nat>) returns (total: u64)
      requires InPool(queue, orderPool.pool[..])
      ensures total == ToU64(VolumeOf(Deref(queue, orderPool.pool[..])))
    {
      total := 0;
      for i := 0 to |queue|
        invariant total == ToU64(VolumeOf(Deref(queue[..i], orderPool.pool[..])))
      {
        NextVolume(queue, orderPool.pool[..], i);
        total := ToU64(total + orderPool.pool[queue[i]].volume);
      }
      assert queue[..|queue|] == queue;
    }

    // ----- Removing by id

    /** The price and side the location table has for an id. */
    method OrderIdToPrice(orderId: u64) returns (r: Result<(u64, Side)>)
      requires locations.Length == POOL_SIZE
      ensures var entries := TableOf(locations[..]);
              r == if Key(orderId) in entries then Success((entries[Key(orderId)].price, entries[Key(orderId)].side))
                   else Failure(UnknownOrderId)
    {
      var loc := locations[Key(orderId)];
      if !loc.isValid {
        return Failure(UnknownOrderId);
      }
      return Success((loc.price, loc.side));
    }

    /** The position in a queue of the first order with an id; the queue's length when there is none. */
    method FindInQueue(queue: seq<nat>, orderId: u64) returns (j: nat)
      requires InPool(queue, orderPool.pool[..])
      ensures j <= |queue|
      ensures forall i :: 0 <= i < j ==> orderPool.pool[queue[i]].id != orderId
      ensures j < |queue| ==> orderPool.pool[queue[j]].id == orderId
    {
      j := 0;
      while j < |queue| && orderPool.pool[queue[j]].id != orderId
        invariant j <= |queue|
        invariant forall i :: 0 <= i < j ==> orderPool.pool[queue[i]].id != orderId
      {
        j := j + 1;
      }
    }

    /** Erase the order with this id from the queue of a bid level, if it is there. */
    method EraseBid(level: nat, price: u64, orderId: u64) returns (r: Result<()>, ghost j: nat)
      requires Valid() && Shape() && level < NUM_OF_LEVELS && PriceToIndex(price) == Success(level)
      modifies this`bidLevels, bidBitmap, orderPool`freeStack
      ensures r == Success(()) && IsSearched(old(Now()), Bid, level, orderId, j)
      ensures Now() == Erased(old(Now()), Bid, level, j)
    {
      ghost var l := Now();
      QueueIsSearched(l, Bid, level);
      var k := FindInQueue(bidLevels[level], orderId);
      j := k;
      r := Success(());
      if k < |bidLevels[level]| {
        r := orderPool.Release(bidLevels[level][k]);
        if r.Success? {
          bidLevels := bidLevels[level := RemoveAt(bidLevels[level], k)];
          if |bidLevels[level]| == 0 {
            r := SetBidBitTo0(price);
          }
        }
      }
    }

    /** Erase the order with this id from the queue of a ask level, if it is there. */
    method EraseAsk(level: nat, price: u64, orderId: u64) returns (r: Result<()>, ghost j: nat)
      requires Valid() && Shape() && level < NUM_OF_LEVELS && PriceToIndex(price) == Success(level)
      modifies this`askLevels, askBitmap, orderPool`freeStack
      ensures r == Success(()) && IsSearched(old(Now()), Ask, level, orderId, j)
      ensures Now() == Erased(old(Now()), Ask, level, j)
    {
      ghost var l := Now();
      QueueIsSearched(l, Ask, level);
      var k := FindInQueue(askLevels[level], orderId);
      j := k;
      r := Success(());
      if k < |askLevels[level]| {
        r := orderPool.Release(askLevels[level][k]);
        if r.Success? {
          askLevels := askLevels[level := RemoveAt(askLevels[level], k)];
          if |askLevels[level]| == 0 {
            r := SetAskBitTo0(price);
          }
        }
      }
    }

    /**
     Remove the order with this id, if the location table leads to it. Only a table entry with a
     price outside the levels makes the call fail.
     */
    method RemoveOrderFromOrderId(orderId: u64) returns (r: Result<()>)
      requires Valid()
      modifies this`bidLevels, this`askLevels, bidBitmap, askBitmap, locations, orderPool`freeStack
      ensures Valid()
      ensures if Key(orderId) in old(View()).table && !Tradable(old(View()).table[Key(orderId)].price)
              then r == Failure(InvalidPrice) && Now() == old(Now())
              else r == Success(()) && View() == Cancel(old(View()), orderId)
    {
      ghost var l := Now();
      InvHasShape(l);
      var found := OrderIdToPrice(orderId);
      if found.Failure? {
        return Success(());
      }
      var (price, side) := found.value;
      var level :- PriceToIndex(price);
      ghost var j;
      if side == Bid {
        r, j := EraseBid(level, price, orderId);
      } else {
        r, j := EraseAsk(level, price, orderId);
      }
      CancelledView(l, orderId, j);
      if r.Success? {
        locations[Key(orderId)] := NO_LOCATION;
      }
      assert Now() == Cancelled(l, orderId, j);
    }
  }
}
