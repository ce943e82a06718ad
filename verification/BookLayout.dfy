/** All structures of the concrete book at one moment, and what each change to them means for the abstract book. */
module BookLayouts {
  import opened FixedWidth
  import opened Orders
  import opened PriceLadder
  import opened VolumeArithmetic
  import opened PriorityBook
  import opened Conservation
  import opened Clearing
  import opened Bitmap
  import opened LevelQueues
  import opened PoolSlots
  import opened BookSides

  /** held: the slots that were acquired and are in no queue. */
  datatype Layout = Layout(
    bids: BookSide, asks: BookSide, locations: seq<Location>, pool: seq<Order>, free: seq<nat>, held: set<nat>)
  {
    function At(side: Side): BookSide {
      if side.Bid? then bids else asks
    }

    function With(side: Side, b: BookSide): Layout {
      if side.Bid? then this.(bids := b) else this.(asks := b)
    }
  }

  /** Queues, bitmaps and pool agree with each other. */
  ghost predicate LayoutInv(l: Layout) {
    && |l.pool| == |l.locations| == POOL_SIZE
    && SideInv(l.bids, Bid, l.pool)
    && SideInv(l.asks, Ask, l.pool)
    && Partitioned(l.free, Slots(l.bids.levels, Bid), Slots(l.asks.levels, Ask), l.held)
  }

  /** The book in priority order that the structures stand for. */
  ghost function ViewOf(l: Layout): Book
    requires LayoutInv(l)
  {
    Book(OrdersOf(l.bids.levels, Bid, l.pool), OrdersOf(l.asks.levels, Ask, l.pool), TableOf(l.locations), |l.free|)
  }

  // ----- What is needed to index safely

  /** The sizes fit together, and queues and bitmap stay within the pool and the levels. */
  ghost predicate SideShape(b: BookSide) {
    && |b.levels| >= NUM_OF_LEVELS && |b.words| == WordCount(|b.levels|)
    && (forall i, j :: 0 <= i < |b.levels| && 0 <= j < |b.levels[i]| ==> b.levels[i][j] < POOL_SIZE)
    && NoBitsIn(b.words, NUM_OF_LEVELS, CHUNK * |b.words|)
  }

  ghost predicate LayoutShape(l: Layout) {
    && |l.pool| == |l.locations| == POOL_SIZE
    && SideShape(l.bids)
    && SideShape(l.asks)
  }

  lemma InvHasShape(l: Layout)
    requires LayoutInv(l)
    ensures LayoutShape(l)
  {
    SideHasShape(l.bids, Bid, l.pool);
    SideHasShape(l.asks, Ask, l.pool);
  }

  lemma SideHasShape(b: BookSide, side: Side, pool: seq<Order>)
    requires SideInv(b, side, pool) && |pool| == POOL_SIZE
    ensures SideShape(b)
  {
    forall i | NUM_OF_LEVELS <= i < CHUNK * |b.words| ensures !BitAt(b.words, i) {
      assert i < |b.levels| && b.levels[i] != [] ==> Holds(pool, b.levels[i][0], side, i);
    }
    assert forall i, j :: 0 <= i < |b.levels| && 0 <= j < |b.levels[i]| ==> Holds(pool, b.levels[i][j], side, i);
  }

  // ----- Changes

  /** The top of the free stack is taken. */
  function Taken(l: Layout): Layout
    requires l.free != []
  {
    var n := |l.free| - 1;
    l.(free := l.free[..n], held := l.held + {l.free[n]})
  }

  function Written(l: Layout, slot: nat, o: Order): Layout
    requires slot < |l.pool|
  {
    l.(pool := l.pool[slot := o])
  }

  /** The order in a slot joins the queue of its level and gets its table entry. */
  function Queued(l: Layout, level: nat, slot: nat): Layout
    requires slot < |l.pool| && |l.locations| == POOL_SIZE
    requires level < |l.At(l.pool[slot].side).levels| <= CHUNK * |l.At(l.pool[slot].side).words|
  {
    var o := l.pool[slot];
    l.With(o.side, AppendTo(l.At(o.side), level, slot))
     .(locations := l.locations[Key(o.id) := Location(o.price, o.side, true)], held := l.held - {slot})
  }

  /** An order leaves the queue of a level; its slot is free again and its table slot is cleared. */
  function Dequeued(l: Layout, side: Side, level: nat, j: nat): Layout
    requires LayoutShape(l) && level < |l.At(side).levels| && j < |l.At(side).levels[level]|
  {
    var slot := l.At(side).levels[level][j];
    l.With(side, EraseFrom(l.At(side), level, j))
     .(free := l.free + [slot], locations := l.locations[Key(l.pool[slot].id) := NO_LOCATION])
  }

  // ----- What they mean

  lemma TakenView(l: Layout)
    requires LayoutInv(l) && l.free != []
    ensures var l' := Taken(l);
            && LayoutInv(l') && ViewOf(l') == ViewOf(l).(free := |l.free| - 1)
            && l.free[|l.free| - 1] in l'.held && l.free[|l.free| - 1] < POOL_SIZE
  {
    hide SideInv, OrdersOf, Slots, Partitioned, Uses;
    TakingASlot(l.free, Slots(l.bids.levels, Bid), Slots(l.asks.levels, Ask), l.held);
    PartitionedApart(l.free, Slots(l.bids.levels, Bid), Slots(l.asks.levels, Ask), l.held);
  }

  /** A slot that is in no queue can be written without changing the book. */
  lemma WrittenHeldView(l: Layout, slot: nat, o: Order)
    requires LayoutInv(l) && slot in l.held && slot < |l.pool|
    ensures LayoutInv(Written(l, slot, o)) && ViewOf(Written(l, slot, o)) == ViewOf(l)
  {
    hide SideInv, OrdersOf, Slots, Partitioned, Uses;
    PartitionedApart(l.free, Slots(l.bids.levels, Bid), Slots(l.asks.levels, Ask), l.held);
    WriteElsewhere(l.bids, Bid, l.pool, slot, o);
    WriteElsewhere(l.asks, Ask, l.pool, slot, o);
  }

  lemma QueuedSlots(l: Layout, level: nat, slot: nat, side: Side)
    requires LayoutInv(l) && slot in l.held && level < |l.At(side).levels|
    ensures var levels := AppendTo(l.At(side), level, slot).levels;
            && (side.Bid? ==> Partitioned(l.free, Slots(levels, Bid), Slots(l.asks.levels, Ask), l.held - {slot}))
            && (side.Ask? ==> Partitioned(l.free, Slots(l.bids.levels, Bid), Slots(levels, Ask), l.held - {slot}))
  {
    hide Agrees, OnLevels, Slots, Partitioned, Better, SetLevel;
    var b := l.At(side);
    AppendedSlots(b.levels, side, level, slot);
    QueueingASlot(l.free, Slots(l.bids.levels, Bid), Slots(l.asks.levels, Ask), l.held,
                  |Better(b.levels, side, level)| + |b.levels[level]|, slot);
  }

  /** Queueing an order that was written to a held slot adds it to the book. */
  lemma QueuedView(l: Layout, level: nat, slot: nat)
    requires LayoutInv(l) && slot in l.held && slot < |l.pool|
    requires level < NUM_OF_LEVELS && LevelOf(l.pool[slot].price) == level
    requires IdsBelow(ViewOf(l).Orders(l.pool[slot].side), l.pool[slot].id)
    ensures NUM_OF_LEVELS <= |l.At(l.pool[slot].side).levels| <= CHUNK * |l.At(l.pool[slot].side).words|
    ensures LayoutInv(Queued(l, level, slot)) && ViewOf(Queued(l, level, slot)) == Add(ViewOf(l), l.pool[slot])
  {
    hide SideInv, OrdersOf, Slots, Partitioned, Insert, TableOf, IdsBelow, AppendTo;
    var o := l.pool[slot];
    SideSizes(l.At(o.side), o.side, l.pool);
    AppendKeepsSide(l.At(o.side), o.side, level, slot, l.pool);
    QueuedSlots(l, level, slot, o.side);
    WrittenLocation(l.locations, Key(o.id), o.price, o.side);
  }

  lemma SideSizes(b: BookSide, side: Side, pool: seq<Order>)
    requires SideInv(b, side, pool)
    ensures NUM_OF_LEVELS <= |b.levels| <= CHUNK * |b.words|
  {
  }

  lemma DequeuedInv(l: Layout, side: Side, level: nat, j: nat)
    requires LayoutInv(l) && LayoutShape(l) && level < |l.At(side).levels| && j < |l.At(side).levels[level]|
    ensures LayoutInv(Dequeued(l, side, level, j))
  {
    hide SideInv, OrdersOf, Slots, Partitioned, RemoveAt, EraseFrom, Better, SideShape;
    SideSizes(l.At(side), side, l.pool);
    EraseKeepsSide(l.At(side), side, level, j, l.pool);
    DequeuedSlots(l, side, level, j);
  }

  /** A change to one side shows in the book as a change to that side's orders. */
  lemma OneSideView(l: Layout, l': Layout, side: Side)
    requires LayoutInv(l) && LayoutInv(l') && l'.pool == l.pool
    requires if side.Bid? then l'.asks == l.asks else l'.bids == l.bids
    ensures SideInv(l'.At(side), side, l.pool)
    ensures ViewOf(l') == ViewOf(l).WithOrders(side, OrdersOf(l'.At(side).levels, side, l.pool))
                          .(table := TableOf(l'.locations), free := |l'.free|)
    ensures ViewOf(l).Orders(side) == OrdersOf(l.At(side).levels, side, l.pool)
  {
    hide Agrees, Slots, Partitioned, OrdersOf, OnLevels, TableOf;
  }

  /** Taking an order out of its queue removes it from the book. */
  lemma DequeuedView(l: Layout, side: Side, level: nat, j: nat)
    requires LayoutInv(l) && level < |l.At(side).levels| && j < |l.At(side).levels[level]|
    ensures LayoutShape(l) && LayoutInv(Dequeued(l, side, level, j))
    ensures var k, q, b := |Better(l.At(side).levels, side, level)| + j, ViewOf(l).Orders(side), ViewOf(l);
            && k < |q| && q[k] == l.pool[l.At(side).levels[level][j]]
            && ViewOf(Dequeued(l, side, level, j))
               == b.WithOrders(side, RemoveAt(q, k)).(free := b.free + 1, table := b.table - {Key(q[k].id)})
  {
    hide LayoutInv, SideInv, OrdersOf, RemoveAt, TableOf, Better;
    InvHasShape(l);
    DequeuedInv(l, side, level, j);
    var l', slot := Dequeued(l, side, level, j), l.At(side).levels[level][j];
    OneSideView(l, l', side);
    SideErased(l, side, level, j);
    WrittenLocation(l.locations, Key(l.pool[slot].id), 0, Bid);
  }

  lemma SideErased(l: Layout, side: Side, level: nat, j: nat)
    requires LayoutInv(l) && LayoutShape(l) && level < |l.At(side).levels| && j < |l.At(side).levels[level]|
    ensures var b, b', k := l.At(side), EraseFrom(l.At(side), level, j), |Better(l.At(side).levels, side, level)| + j;
            && SideInv(b, side, l.pool) && SideInv(b', side, l.pool)
            && k < |OrdersOf(b.levels, side, l.pool)|
            && OrdersOf(b.levels, side, l.pool)[k] == l.pool[b.levels[level][j]]
            && OrdersOf(b'.levels, side, l.pool) == RemoveAt(OrdersOf(b.levels, side, l.pool), k)
  {
    hide Slots, OrdersOf, Partitioned, RemoveAt, EraseFrom, Better, Agrees, OnLevels;
    EraseKeepsSide(l.At(side), side, level, j, l.pool);
    DerefAt(l.At(side), side, l.pool, |Better(l.At(side).levels, side, level)| + j);
  }

  lemma DerefAt(b: BookSide, side: Side, pool: seq<Order>, k: nat)
    requires SideInv(b, side, pool) && k < |Slots(b.levels, side)|
    ensures |OrdersOf(b.levels, side, pool)| == |Slots(b.levels, side)|
    ensures Slots(b.levels, side)[k] < |pool| && OrdersOf(b.levels, side, pool)[k] == pool[Slots(b.levels, side)[k]]
  {
    OnLevelsInPool(b.levels, side, pool);
  }

  lemma DequeuedSlots(l: Layout, side: Side, level: nat, j: nat)
    requires LayoutInv(l) && level < |l.At(side).levels| <= CHUNK * |l.At(side).words| && j < |l.At(side).levels[level]|
    ensures var levels, slot := EraseFrom(l.At(side), level, j).levels, l.At(side).levels[level][j];
            && (side.Bid? ==> Partitioned(l.free + [slot], Slots(levels, Bid), Slots(l.asks.levels, Ask), l.held))
            && (side.Ask? ==> Partitioned(l.free + [slot], Slots(l.bids.levels, Bid), Slots(levels, Ask), l.held))
  {
    hide Agrees, OnLevels, Slots, Partitioned, Better, ClearLevel;
    var b := l.At(side);
    ErasedSlots(b.levels, side, level, j);
    ReleasingASlot(l.free, Slots(l.bids.levels, Bid), Slots(l.asks.levels, Ask), l.held, |Better(b.levels, side, level)| + j);
  }

  /** Changing the volume of the first order of a side changes it in the book. */
  lemma WrittenFirstView(l: Layout, side: Side, slot: nat, volume: u64)
    requires LayoutInv(l) && slot < |l.pool|
    requires Slots(l.At(side).levels, side) != [] && Slots(l.At(side).levels, side)[0] == slot
    ensures var l', q := Written(l, slot, l.pool[slot].(volume := volume)), ViewOf(l).Orders(side);
            && LayoutInv(l') && q != [] && q[0] == l.pool[slot]
            && ViewOf(l') == ViewOf(l).WithOrders(side, q[0 := q[0].(volume := volume)])
  {
    hide SideInv, OrdersOf, Slots, Partitioned, TableOf;
    var slots, other := Slots(l.At(side).levels, side), if side.Bid? then Ask else Bid;
    PartitionedApart(l.free, Slots(l.bids.levels, Bid), Slots(l.asks.levels, Ask), l.held);
    assert slot in slots;
    DerefAt(l.At(side), side, l.pool, 0);
    WriteFirst(l.At(side), side, l.pool, slot, volume);
    WriteElsewhere(l.At(other), other, l.pool, slot, l.pool[slot].(volume := volume));
  }

  /** Where the scan of a side leads: to the first order, or to nothing when there is none. */
  lemma BestOfView(l: Layout, side: Side, level: int)
    requires LayoutInv(l) && IsBest(l.At(side).words, side, level)
    ensures level == -1 <==> ViewOf(l).Orders(side) == []
    ensures level != -1 ==>
              var b := l.At(side);
              && 0 <= level < |b.levels| && b.levels[level] != [] && Better(b.levels, side, level) == []
              && Slots(b.levels, side) != [] && Slots(b.levels, side)[0] == b.levels[level][0] < |l.pool|
              && ViewOf(l).Orders(side)[0] == l.pool[b.levels[level][0]]
  {
    BestLevelHoldsFirst(l.At(side), side, level, l.pool);
    if level != -1 {
      SlotsAround(l.At(side).levels, side, level);
      DerefAt(l.At(side), side, l.pool, 0);
    }
  }

  // ----- Removing the best order

  /**
   What removing the best order of a side does when the scan found `level`: nothing without a
   marked level, clearing a stale bit, refusing an id that is not at the front, or taking the
   front order out.
   */
  function BestRemoved(l: Layout, side: Side, level: int, orderId: u64): Layout
    requires LayoutShape(l) && -1 <= level < |l.At(side).levels|
  {
    if level == -1 then l
    else
      var b := l.At(side);
      if b.levels[level] == [] then l.With(side, b.(words := ClearLevel(b.words, level)))
      else if l.pool[b.levels[level][0]].id != orderId then l
      else Dequeued(l, side, level, 0)
  }

  predicate RefusesRemoval(l: Layout, side: Side, level: int, orderId: u64)
    requires LayoutShape(l) && -1 <= level < |l.At(side).levels|
  {
    level != -1 && l.At(side).levels[level] != [] && l.pool[l.At(side).levels[level][0]].id != orderId
  }

  /** Everything but one side's bitmap, the location table and the free stack is as it was. */
  predicate RestIsSame(l: Layout, l': Layout, side: Side) {
    && l'.pool == l.pool && l'.held == l.held
    && |l'.locations| == |l.locations| && |l'.At(side).words| == |l.At(side).words|
    && (if side.Bid? then l'.asks == l.asks else l'.bids == l.bids)
  }

  /**
   Removing the best order in each of its four cases, structure by structure: from any well-shaped
   state, stale bits included.
   */
  lemma BestRemovedCases(l: Layout, side: Side, level: int, id: u64)
    requires LayoutShape(l) && -1 <= level < |l.At(side).levels|
    ensures var b, l' := l.At(side), BestRemoved(l, side, level, id);
            if level == -1 then
              !RefusesRemoval(l, side, level, id) && l' == l
            else if b.levels[level] == [] then
              && !RefusesRemoval(l, side, level, id) && RestIsSame(l, l', side)
              && l'.At(side).levels == b.levels && l'.locations == l.locations && l'.free == l.free
              && forall i :: 0 <= i < 64 * |b.words| ==> (BitAt(l'.At(side).words, i) <==> i != level && BitAt(b.words, i))
            else if l.pool[b.levels[level][0]].id != id then
              RefusesRemoval(l, side, level, id) && l' == l
            else
              && !RefusesRemoval(l, side, level, id) && RestIsSame(l, l', side)
              && l'.At(side).levels == b.levels[level := b.levels[level][1..]]
              && l'.free == l.free + [b.levels[level][0]]
              && (forall k :: 0 <= k < 10000 && k != id % 10000 ==> l'.locations[k] == l.locations[k])
              && !l'.locations[id % 10000].isValid
              && forall i :: 0 <= i < 64 * |b.words| ==>
                   (BitAt(l'.At(side).words, i) <==> BitAt(b.words, i) && !(i == level && |b.levels[level]| == 1))
  {
    hide BitAt, ClearLevel;
    if level >= 0 {
      var words := l.At(side).words;
      ClearedLevel(words, level, level);
      forall i | 0 <= i < CHUNK * |words|
        ensures BitAt(ClearLevel(words, level), i) <==> i != level && BitAt(words, i)
      {
        ClearedLevel(words, level, i);
      }
      if l.At(side).levels[level] != [] {
        assert RemoveAt(l.At(side).levels[level], 0) == l.At(side).levels[level][1..];
      }
    }
  }

  lemma ClearedLevel(words: seq<u64>, level: nat, i: nat)
    requires level < CHUNK * |words| && i < CHUNK * |words|
    ensures |ClearLevel(words, level)| == |words| && (BitAt(ClearLevel(words, level), i) <==> i != level && BitAt(words, i))
  {
    ClearLevelBits(words, level, i);
  }

  /** Asked for the first order of a side, it is that order that leaves. */
  lemma BestRemovedView(l: Layout, side: Side, level: int)
    requires LayoutInv(l) && IsBest(l.At(side).words, side, level) && ViewOf(l).Orders(side) != []
    ensures LayoutShape(l) && -1 <= level < |l.At(side).levels|
    ensures var b, id := ViewOf(l), ViewOf(l).Orders(side)[0].id;
            && !RefusesRemoval(l, side, level, id)
            && LayoutInv(BestRemoved(l, side, level, id))
            && ViewOf(BestRemoved(l, side, level, id))
               == b.WithOrders(side, b.Orders(side)[1..]).(free := b.free + 1, table := b.table - {Key(id)})
  {
    hide Dequeued, LayoutInv, ViewOf, IsBest;
    InvHasShape(l);
    BestOfView(l, side, level);
    DequeuedView(l, side, level, 0);
    assert RemoveAt(ViewOf(l).Orders(side), 0) == ViewOf(l).Orders(side)[1..];
  }

  // ----- Level volumes

  lemma {:induction false} VolumeWithinConcat(p: seq<Order>, q: seq<Order>, lo: int, hi: int)
    ensures VolumeWithin(p + q, lo, hi) == VolumeWithin(p, lo, hi) + VolumeWithin(q, lo, hi)
  {
    if p == [] {
      assert p + q == q;
    } else {
      assert (p + q)[1..] == p[1..] + q;
      VolumeWithinConcat(p[1..], q, lo, hi);
    }
  }

  lemma {:induction false} AllWithin(q: seq<Order>, lo: int, hi: int)
    requires forall i :: 0 <= i < |q| ==> lo <= LevelOf(q[i].price) <= hi
    ensures VolumeWithin(q, lo, hi) == VolumeOf(q)
  {
    if q != [] {
      AllWithin(q[1..], lo, hi);
    }
  }

  /** The queue of a level holds exactly the volume the book has on that level. */
  lemma QueueVolume(b: BookSide, side: Side, level: nat, pool: seq<Order>)
    requires SideInv(b, side, pool) && level < |b.levels|
    ensures InPool(b.levels[level], pool)
    ensures VolumeWithin(OrdersOf(b.levels, side, pool), level, level) == VolumeOf(Deref(b.levels[level], pool))
  {
    hide Agrees, Better, Worse, VolumeWithin, VolumeOf, HoldsBetter, HoldsWorse;
    var p, q, r := Better(b.levels, side, level), b.levels[level], Worse(b.levels, side, level);
    assert forall i :: 0 <= i < |q| ==> Holds(pool, q[i], side, level);
    SlotsAround(b.levels, side, level);
    BetterSlots(b.levels, side, level, pool);
    OnLevelsInPool(b.levels, side, pool);
    VolumeAround(p, q, r, side, level, pool);
  }

  lemma VolumeAround(p: seq<nat>, q: seq<nat>, r: seq<nat>, side: Side, level: nat, pool: seq<Order>)
    requires forall i :: 0 <= i < |p| ==> HoldsBetter(pool, p[i], side, level)
    requires forall i :: 0 <= i < |q| ==> Holds(pool, q[i], side, level)
    requires forall i :: 0 <= i < |r| ==> HoldsWorse(pool, r[i], side, level)
    requires InPool(p + q + r, pool) && InPool(q, pool)
    ensures VolumeWithin(Deref(p + q + r, pool), level, level) == VolumeOf(Deref(q, pool))
  {
    hide VolumeWithin, VolumeOf;
    assert Deref(p + q + r, pool) == Deref(p, pool) + Deref(q, pool) + Deref(r, pool);
    VolumeWithinConcat(Deref(p, pool) + Deref(q, pool), Deref(r, pool), level, level);
    VolumeWithinConcat(Deref(p, pool), Deref(q, pool), level, level);
    NothingWithin(Deref(p, pool), level, level);
    NothingWithin(Deref(r, pool), level, level);
    AllWithin(Deref(q, pool), level, level);
  }

  /** The sum of the first volumes of a queue, one more at a time. */
  lemma NextVolume(q: seq<nat>, pool: seq<Order>, i: nat)
    requires InPool(q, pool) && i < |q|
    ensures VolumeOf(Deref(q[..i + 1], pool)) == VolumeOf(Deref(q[..i], pool)) + pool[q[i]].volume
  {
    assert Deref(q[..i + 1], pool) == Deref(q[..i], pool) + [pool[q[i]]];
    VolumeOfConcat(Deref(q[..i], pool), [pool[q[i]]]);
  }

  // ----- Cancelling

  predicate CancelLeadsToLevel(l: Layout, id: u64)
    requires |l.locations| == POOL_SIZE
  {
    l.locations[Key(id)].isValid && Tradable(l.locations[Key(id)].price)
  }

  /** The order at position j of a queue is erased and its slot is free again; no order when j is the queue's length. */
  function Erased(l: Layout, side: Side, level: nat, j: nat): Layout
    requires LayoutShape(l) && level < NUM_OF_LEVELS
  {
    var q := l.At(side).levels[level];
    if j < |q| then l.With(side, EraseFrom(l.At(side), level, j)).(free := l.free + [q[j]]) else l
  }

  /** What a cancel does when the search of the queue the table leads to stops at j. */
  function Cancelled(l: Layout, id: u64, j: nat): Layout
    requires LayoutShape(l) && CancelLeadsToLevel(l, id)
  {
    var loc := l.locations[Key(id)];
    Erased(l, loc.side, LevelOf(loc.price), j).(locations := l.locations[Key(id) := NO_LOCATION])
  }

  /** A search of a queue for an id stops at j: at the first order with the id, or at the end. */
  ghost predicate IsSearched(l: Layout, side: Side, level: nat, id: u64, j: nat)
    requires LayoutShape(l) && level < NUM_OF_LEVELS
  {
    var q := l.At(side).levels[level];
    && InPool(q, l.pool) && j <= |q|
    && (forall i :: 0 <= i < j ==> l.pool[q[i]].id != id)
    && (j < |q| ==> l.pool[q[j]].id == id)
  }

  lemma QueueIsSearched(l: Layout, side: Side, level: nat)
    requires LayoutInv(l) && level < NUM_OF_LEVELS
    ensures level < |l.At(side).levels| && InPool(l.At(side).levels[level], l.pool)
  {
    var q := l.At(side).levels[level];
    assert forall j :: 0 <= j < |q| ==> Holds(l.pool, q[j], side, level);
  }

  /** A search that stops at the first order with the id, or finds none, cancels as the abstract book does. */
  lemma CancelledView(l: Layout, id: u64, j: nat)
    requires LayoutInv(l) && LayoutShape(l) && CancelLeadsToLevel(l, id)
    requires IsSearched(l, l.locations[Key(id)].side, LevelOf(l.locations[Key(id)].price), id, j)
    ensures LayoutInv(Cancelled(l, id, j)) && ViewOf(Cancelled(l, id, j)) == Cancel(ViewOf(l), id)
  {
    hide LayoutInv, ViewOf, Position;
    SearchFindsCancelled(l, id, j);
    if j < |l.At(l.locations[Key(id)].side).levels[LevelOf(l.locations[Key(id)].price)]| {
      CancelledFoundView(l, id, j);
    } else {
      ForgottenView(l, id);
    }
  }

  lemma CancelledFoundView(l: Layout, id: u64, j: nat)
    requires LayoutInv(l) && LayoutShape(l) && CancelLeadsToLevel(l, id)
    requires var loc := l.locations[Key(id)];
             var level := LevelOf(loc.price);
             && j < |l.At(loc.side).levels[level]| && l.At(loc.side).levels[level][j] < |l.pool|
             && l.pool[l.At(loc.side).levels[level][j]].id == id
             && Key(id) in ViewOf(l).table && ViewOf(l).table[Key(id)] == Entry(loc.price, loc.side)
             && CancelPosition(ViewOf(l), id) == |Better(l.At(loc.side).levels, loc.side, level)| + j
    ensures LayoutInv(Cancelled(l, id, j)) && ViewOf(Cancelled(l, id, j)) == Cancel(ViewOf(l), id)
  {
    hide LayoutInv, ViewOf, RemoveAt, Dequeued, Cancelled, Better, Position, CancelPosition, LevelOf;
    var loc := l.locations[Key(id)];
    var level := LevelOf(loc.price);
    CancelledIsDequeued(l, id, j);
    DequeuedView(l, loc.side, level, j);
  }

  lemma CancelledIsDequeued(l: Layout, id: u64, j: nat)
    requires LayoutShape(l) && CancelLeadsToLevel(l, id)
    requires var q := l.At(l.locations[Key(id)].side).levels[LevelOf(l.locations[Key(id)].price)];
             j < |q| && l.pool[q[j]].id == id
    ensures Cancelled(l, id, j) == Dequeued(l, l.locations[Key(id)].side, LevelOf(l.locations[Key(id)].price), j)
  {
    hide EraseFrom;
  }

  /** Clearing a table slot clears the book's entry and nothing else. */
  lemma ForgottenView(l: Layout, id: u64)
    requires LayoutInv(l)
    ensures var l' := l.(locations := l.locations[Key(id) := NO_LOCATION]);
            LayoutInv(l') && ViewOf(l') == ViewOf(l).(table := ViewOf(l).table - {Key(id)})
  {
    hide SideInv, Partitioned, OrdersOf, Slots, TableOf;
    WrittenLocation(l.locations, Key(id), 0, Bid);
  }

  /** The position the abstract book cancels at is the one the search stops at. */
  lemma SearchFindsCancelled(l: Layout, id: u64, j: nat)
    requires LayoutInv(l) && LayoutShape(l) && CancelLeadsToLevel(l, id)
    requires IsSearched(l, l.locations[Key(id)].side, LevelOf(l.locations[Key(id)].price), id, j)
    ensures var loc, b := l.locations[Key(id)], ViewOf(l);
            var level := LevelOf(loc.price);
            && Key(id) in b.table && b.table[Key(id)] == Entry(loc.price, loc.side)
            && CancelPosition(b, id)
               == if j < |l.At(loc.side).levels[level]| then |Better(l.At(loc.side).levels, loc.side, level)| + j
                  else |b.Orders(loc.side)|
  {
    hide Agrees, Partitioned, OrdersOf, Slots, OnLevels, Position, Better;
    var loc := l.locations[Key(id)];
    SearchIsPosition(l.At(loc.side).levels, loc.side, LevelOf(loc.price), id, j, l.pool);
  }
}
