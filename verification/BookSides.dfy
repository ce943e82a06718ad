/** One side of the concrete book: its level queues and the bitmap that marks the levels in use. */
module BookSides {
  import opened FixedWidth
  import opened Orders
  import opened PriceLadder
  import opened PriorityBook
  import opened LevelQueues
  import opened Bitmap
  import opened PoolSlots

  datatype BookSide = BookSide(levels: seq<seq<nat>>, words: seq<u64>)

  /** Queues and bitmap agree, and every queue holds orders of its side and level. */
  ghost predicate SideInv(b: BookSide, side: Side, pool: seq<Order>) {
    |b.levels| >= NUM_OF_LEVELS && Agrees(b.words, b.levels) && OnLevels(b.levels, side, pool)
  }

  /** A slot joins the queue of a level. */
  function AppendTo(b: BookSide, level: nat, slot: nat): BookSide
    requires level < |b.levels| <= CHUNK * |b.words|
  {
    BookSide(b.levels[level := b.levels[level] + [slot]], SetLevel(b.words, level))
  }

  /** A slot leaves the queue of a level; the level's bit is cleared when it was the last. */
  function EraseFrom(b: BookSide, level: nat, j: nat): BookSide
    requires level < |b.levels| <= CHUNK * |b.words| && j < |b.levels[level]|
  {
    var q := RemoveAt(b.levels[level], j);
    BookSide(b.levels[level := q], if q == [] then ClearLevel(b.words, level) else b.words)
  }

  lemma AppendKeepsSide(b: BookSide, side: Side, level: nat, slot: nat, pool: seq<Order>)
    requires SideInv(b, side, pool) && level < NUM_OF_LEVELS && Holds(pool, slot, side, level)
    requires IdsBelow(OrdersOf(b.levels, side, pool), pool[slot].id)
    ensures var b' := AppendTo(b, level, slot);
            SideInv(b', side, pool) && OrdersOf(b'.levels, side, pool) == Insert(OrdersOf(b.levels, side, pool), pool[slot])
  {
    SetKeepsAgreement(b.words, b.levels, level, b.levels[level] + [slot]);
    AppendIsInsert(b.levels, side, level, slot, pool);
  }

  lemma EraseKeepsSide(b: BookSide, side: Side, level: nat, j: nat, pool: seq<Order>)
    requires SideInv(b, side, pool) && level < |b.levels| && j < |b.levels[level]|
    ensures SideInv(EraseFrom(b, level, j), side, pool)
    ensures var b', k := EraseFrom(b, level, j), |Better(b.levels, side, level)| + j;
            && k < |Slots(b.levels, side)| && Slots(b.levels, side)[k] == b.levels[level][j]
            && Slots(b'.levels, side) == RemoveAt(Slots(b.levels, side), k)
            && OrdersOf(b'.levels, side, pool) == RemoveAt(OrdersOf(b.levels, side, pool), k)
  {
    var q := RemoveAt(b.levels[level], j);
    if q == [] {
      ClearKeepsAgreement(b.words, b.levels, level);
    } else {
      SameBitsAgree(b.words, b.levels, level, q);
    }
    EraseIsRemove(b.levels, side, level, j, pool);
  }

  /** The best bit of a side: the highest for bids, the lowest for asks. */
  ghost predicate IsBest(words: seq<u64>, side: Side, level: int) {
    if side.Bid? then IsHighest(words, level) else IsLowest(words, level)
  }

  /** What the scan finds is the level of the first order in priority order, if there is any order. */
  lemma BestLevelHoldsFirst(b: BookSide, side: Side, level: int, pool: seq<Order>)
    requires SideInv(b, side, pool) && IsBest(b.words, side, level)
    ensures level == -1 <==> OrdersOf(b.levels, side, pool) == []
    ensures level != -1 ==>
              && 0 <= level < |b.levels| && b.levels[level] != [] && Better(b.levels, side, level) == []
              && Slots(b.levels, side)[0] == b.levels[level][0]
              && OrdersOf(b.levels, side, pool)[0] == pool[b.levels[level][0]]
  {
    ScanFindsBestLevel(b.words, b.levels, level);
    OnLevelsInPool(b.levels, side, pool);
    if level == -1 {
      if Slots(b.levels, side) != [] {
        SlotsMembers(b.levels, side, Slots(b.levels, side)[0]);
      }
    } else {
      BestLevelIsFront(b.levels, side, level);
      SlotsAround(b.levels, side, level);
    }
  }

  /** Writing an order into a slot outside the side's queues does not concern the side. */
  lemma WriteElsewhere(b: BookSide, side: Side, pool: seq<Order>, slot: nat, o: Order)
    requires SideInv(b, side, pool) && slot < |pool| && slot !in Slots(b.levels, side)
    ensures SideInv(b, side, pool[slot := o])
    ensures OrdersOf(b.levels, side, pool[slot := o]) == OrdersOf(b.levels, side, pool)
  {
    forall i, j | 0 <= i < |b.levels| && 0 <= j < |b.levels[i]| ensures b.levels[i][j] != slot {
      SlotsMembers(b.levels, side, b.levels[i][j]);
    }
    assert OnLevels(b.levels, side, pool[slot := o]);
    OnLevelsInPool(b.levels, side, pool);
    assert forall k :: 0 <= k < |Slots(b.levels, side)| ==> Slots(b.levels, side)[k] != slot;
    assert OrdersOf(b.levels, side, pool[slot := o]) == OrdersOf(b.levels, side, pool);
  }

  /** Changing only the volume of the first order changes the first order of the list. */
  lemma WriteFirst(b: BookSide, side: Side, pool: seq<Order>, slot: nat, volume: u64)
    requires SideInv(b, side, pool) && slot < |pool|
    requires Slots(b.levels, side) != [] && Slots(b.levels, side)[0] == slot
    requires forall i, j :: 0 <= i < j < |Slots(b.levels, side)| ==> Slots(b.levels, side)[i] != Slots(b.levels, side)[j]
    ensures var pool' := pool[slot := pool[slot].(volume := volume)];
            && SideInv(b, side, pool')
            && OrdersOf(b.levels, side, pool') == OrdersOf(b.levels, side, pool)[0 := pool[slot].(volume := volume)]
  {
    var pool' := pool[slot := pool[slot].(volume := volume)];
    forall i, j | 0 <= i < |b.levels| && 0 <= j < |b.levels[i]| ensures Holds(pool', b.levels[i][j], side, i) {
      assert Holds(pool, b.levels[i][j], side, i);
    }
    OnLevelsInPool(b.levels, side, pool);
    assert forall k :: 0 < k < |Slots(b.levels, side)| ==> Slots(b.levels, side)[k] != slot;
  }

  // ----- The location table

  /** The valid slots of the location table, as the abstract book keeps them. */
  function TableOf(locations: seq<Location>): map<nat, Entry> {
    map k | 0 <= k < |locations| && locations[k].isValid :: Entry(locations[k].price, locations[k].side)
  }

  lemma WrittenLocation(locations: seq<Location>, k: nat, price: u64, side: Side)
    requires k < |locations|
    ensures TableOf(locations[k := Location(price, side, true)]) == TableOf(locations)[k := Entry(price, side)]
    ensures TableOf(locations[k := NO_LOCATION]) == TableOf(locations) - {k}
  {
  }

  // ----- Empty book

  lemma {:induction false} EmptySlots(levels: seq<seq<nat>>, side: Side)
    requires forall i :: 0 <= i < |levels| ==> levels[i] == []
    ensures Slots(levels, side) == []
  {
    if Slots(levels, side) != [] {
      SlotsMembers(levels, side, Slots(levels, side)[0]);
    }
  }

  lemma EmptySide(b: BookSide, side: Side, pool: seq<Order>)
    requires NUM_OF_LEVELS <= |b.levels| && |b.words| == WordCount(|b.levels|)
    requires forall i :: 0 <= i < |b.levels| ==> b.levels[i] == []
    requires forall i :: 0 <= i < |b.words| ==> b.words[i] == 0
    ensures SideInv(b, side, pool) && Slots(b.levels, side) == [] && OrdersOf(b.levels, side, pool) == []
  {
    forall i | 0 <= i < CHUNK * |b.words| ensures !BitAt(b.words, i) {
      WordHasNoBits(b.words, i / CHUNK);
    }
    EmptySlots(b.levels, side);
  }
}
