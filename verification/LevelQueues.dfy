/**
 The queues of a book side, level by level, against the one list in priority order that they
 stand for. A queue holds slots of the order pool.
 */
module LevelQueues {
  import opened FixedWidth
  import opened Orders
  import opened PriceLadder
  import opened PriorityBook

  // ----- From levels to one list

  function Concat(qs: seq<seq<nat>>): seq<nat> {
    if qs == [] then [] else qs[0] + Concat(qs[1..])
  }

  /** Levels are best first when bids are read downwards and asks upwards. */
  function RankOf(side: Side, n: nat, level: nat): nat
    requires level < n
  {
    if side.Bid? then n - 1 - level else level
  }

  function Ranked(levels: seq<seq<nat>>, side: Side): seq<seq<nat>> {
    seq(|levels|, r requires 0 <= r < |levels| => levels[RankOf(side, |levels|, r)])
  }

  /** All slots of a side, in priority order. */
  function Slots(levels: seq<seq<nat>>, side: Side): seq<nat> {
    Concat(Ranked(levels, side))
  }

  /** The slots of the levels better than this one. */
  function Better(levels: seq<seq<nat>>, side: Side, level: nat): seq<nat>
    requires level < |levels|
  {
    Concat(Ranked(levels, side)[..RankOf(side, |levels|, level)])
  }

  /** The slots of the levels worse than this one. */
  function Worse(levels: seq<seq<nat>>, side: Side, level: nat): seq<nat>
    requires level < |levels|
  {
    Concat(Ranked(levels, side)[RankOf(side, |levels|, level) + 1..])
  }

  lemma {:induction false} ConcatSplits(qs: seq<seq<nat>>, k: nat)
    requires k <= |qs|
    ensures Concat(qs) == Concat(qs[..k]) + Concat(qs[k..])
  {
    if k > 0 {
      ConcatSplits(qs[1..], k - 1);
      assert qs[..k][1..] == qs[1..][..k - 1] && qs[1..][k - 1..] == qs[k..];
    } else {
      assert qs[0..] == qs;
    }
  }

  lemma {:induction false} ConcatMembers(qs: seq<seq<nat>>, x: nat)
    ensures x in Concat(qs) <==> exists k :: 0 <= k < |qs| && x in qs[k]
  {
    if qs != [] {
      ConcatMembers(qs[1..], x);
      if x in Concat(qs[1..]) {
        var k :| 0 <= k < |qs| - 1 && x in qs[1..][k];
        assert x in qs[k + 1];
      }
      if exists k :: 1 <= k < |qs| && x in qs[k] {
        var k :| 1 <= k < |qs| && x in qs[k];
        assert x in qs[1..][k - 1];
      }
    }
  }

  /** One level sits between the better and the worse ones. */
  lemma SlotsAround(levels: seq<seq<nat>>, side: Side, level: nat)
    requires level < |levels|
    ensures Slots(levels, side) == Better(levels, side, level) + levels[level] + Worse(levels, side, level)
  {
    var qs, r := Ranked(levels, side), RankOf(side, |levels|, level);
    assert qs[r] == levels[level];
    ConcatSplits(qs, r);
    assert qs[r..][1..] == qs[r + 1..];
  }

  /** Changing one level leaves the better and the worse ones alone. */
  lemma UpdatedLevel(levels: seq<seq<nat>>, side: Side, level: nat, q: seq<nat>)
    requires level < |levels|
    ensures Slots(levels[level := q], side) == Better(levels, side, level) + q + Worse(levels, side, level)
  {
    var levels', r := levels[level := q], RankOf(side, |levels|, level);
    SlotsAround(levels', side, level);
    assert Ranked(levels', side)[..r] == Ranked(levels, side)[..r];
    assert Ranked(levels', side)[r + 1..] == Ranked(levels, side)[r + 1..];
  }

  lemma SlotsMembers(levels: seq<seq<nat>>, side: Side, x: nat)
    ensures x in Slots(levels, side) <==> exists i :: 0 <= i < |levels| && x in levels[i]
  {
    var qs := Ranked(levels, side);
    ConcatMembers(qs, x);
    if x in Slots(levels, side) {
      var k :| 0 <= k < |qs| && x in qs[k];
      assert x in levels[RankOf(side, |levels|, k)];
    }
    if exists i :: 0 <= i < |levels| && x in levels[i] {
      var i :| 0 <= i < |levels| && x in levels[i];
      assert qs[RankOf(side, |levels|, i)] == levels[i];
    }
  }

  lemma BetterMembers(levels: seq<seq<nat>>, side: Side, level: nat, x: nat) returns (i: nat)
    requires level < |levels| && x in Better(levels, side, level)
    ensures i < |levels| && x in levels[i] && (if side.Bid? then level < i else i < level)
  {
    var qs := Ranked(levels, side)[..RankOf(side, |levels|, level)];
    ConcatMembers(qs, x);
    var k :| 0 <= k < |qs| && x in qs[k];
    i := RankOf(side, |levels|, k);
  }

  lemma WorseMembers(levels: seq<seq<nat>>, side: Side, level: nat, x: nat) returns (i: nat)
    requires level < |levels| && x in Worse(levels, side, level)
    ensures i < |levels| && x in levels[i] && (if side.Bid? then i < level else level < i)
  {
    var r := RankOf(side, |levels|, level);
    var qs := Ranked(levels, side)[r + 1..];
    ConcatMembers(qs, x);
    var k :| 0 <= k < |qs| && x in qs[k];
    assert qs[k] == Ranked(levels, side)[k + r + 1];
    i := RankOf(side, |levels|, k + r + 1);
  }

  // ----- From slots to orders

  ghost predicate InPool(slots: seq<nat>, pool: seq<Order>) {
    forall i :: 0 <= i < |slots| ==> slots[i] < |pool|
  }

  /** The orders that slots point to. */
  function Deref(slots: seq<nat>, pool: seq<Order>): seq<Order>
    requires InPool(slots, pool)
  {
    seq(|slots|, i requires 0 <= i < |slots| => pool[slots[i]])
  }

  // ----- The invariant of one side

  /** Slot s holds an order of this side on this level. */
  predicate Holds(pool: seq<Order>, s: nat, side: Side, level: int) {
    s < |pool| && pool[s].side == side && LevelOf(pool[s].price) == level && 0 <= level < NUM_OF_LEVELS
  }

  /** Every queue of the side holds orders of the side, on the level their price says. */
  ghost predicate OnLevels(levels: seq<seq<nat>>, side: Side, pool: seq<Order>) {
    forall i, j :: 0 <= i < |levels| && 0 <= j < |levels[i]| ==> Holds(pool, levels[i][j], side, i)
  }

  lemma MembersHold(levels: seq<seq<nat>>, side: Side, pool: seq<Order>, i: nat, s: nat)
    requires OnLevels(levels, side, pool) && i < |levels| && s in levels[i]
    ensures Holds(pool, s, side, i)
  {
    var j :| 0 <= j < |levels[i]| && levels[i][j] == s;
  }

  lemma OnLevelsInPool(levels: seq<seq<nat>>, side: Side, pool: seq<Order>)
    requires OnLevels(levels, side, pool)
    ensures InPool(Slots(levels, side), pool)
    ensures forall s: nat :: s in Slots(levels, side) ==> s < |pool| && Holds(pool, s, side, LevelOf(pool[s].price))
  {
    forall s: nat | s in Slots(levels, side)
      ensures s < |pool| && Holds(pool, s, side, LevelOf(pool[s].price))
    {
      SlotsMembers(levels, side, s);
      var i :| 0 <= i < |levels| && s in levels[i];
      MembersHold(levels, side, pool, i, s);
    }
    forall i | 0 <= i < |Slots(levels, side)| ensures Slots(levels, side)[i] < |pool| {
      assert Slots(levels, side)[i] in Slots(levels, side);
    }
  }

  /** The orders of a side in priority order. */
  ghost function OrdersOf(levels: seq<seq<nat>>, side: Side, pool: seq<Order>): seq<Order>
    requires OnLevels(levels, side, pool)
  {
    OnLevelsInPool(levels, side, pool);
    Deref(Slots(levels, side), pool)
  }

  // ----- Operations on the queues are operations on the list

  lemma InsertionPointIs(q: seq<Order>, o: Order, k: nat)
    requires k <= |q|
    requires forall i :: 0 <= i < k ==> Before(q[i], o)
    requires k < |q| ==> !Before(q[k], o)
    ensures InsertionPoint(q, o) == k
  {
  }

  lemma PositionIs(q: seq<Order>, id: u64, level: int, k: nat)
    requires k <= |q|
    requires k < |q| ==> q[k].id == id && LevelOf(q[k].price) == level
    requires forall i :: 0 <= i < k ==> !(q[i].id == id && LevelOf(q[i].price) == level)
    ensures Position(q, id, level) == k
  {
  }

  /** Slot s holds an order of this side on a level better, or worse, than this one. */
  predicate HoldsBetter(pool: seq<Order>, s: nat, side: Side, level: int) {
    s < |pool| && pool[s].side == side && (if side.Bid? then level < LevelOf(pool[s].price) else LevelOf(pool[s].price) < level)
  }

  predicate HoldsWorse(pool: seq<Order>, s: nat, side: Side, level: int) {
    s < |pool| && pool[s].side == side && (if side.Bid? then LevelOf(pool[s].price) < level else level < LevelOf(pool[s].price))
  }

  lemma BetterSlots(levels: seq<seq<nat>>, side: Side, level: nat, pool: seq<Order>)
    requires OnLevels(levels, side, pool) && level < |levels|
    ensures forall i :: 0 <= i < |Better(levels, side, level)| ==> HoldsBetter(pool, Better(levels, side, level)[i], side, level)
    ensures forall i :: 0 <= i < |Worse(levels, side, level)| ==> HoldsWorse(pool, Worse(levels, side, level)[i], side, level)
  {
    var a, b := Better(levels, side, level), Worse(levels, side, level);
    forall i | 0 <= i < |a| ensures HoldsBetter(pool, a[i], side, level) {
      var l := BetterMembers(levels, side, level, a[i]);
      MembersHold(levels, side, pool, l, a[i]);
    }
    forall i | 0 <= i < |b| ensures HoldsWorse(pool, b[i], side, level) {
      var l := WorseMembers(levels, side, level, b[i]);
      MembersHold(levels, side, pool, l, b[i]);
    }
  }

  lemma AppendOnLevels(levels: seq<seq<nat>>, side: Side, level: nat, s: nat, pool: seq<Order>)
    requires OnLevels(levels, side, pool) && level < |levels| && Holds(pool, s, side, level)
    ensures OnLevels(levels[level := levels[level] + [s]], side, pool)
  {
  }

  lemma EraseOnLevels(levels: seq<seq<nat>>, side: Side, level: nat, j: nat, pool: seq<Order>)
    requires OnLevels(levels, side, pool) && level < |levels| && j < |levels[level]|
    ensures OnLevels(levels[level := RemoveAt(levels[level], j)], side, pool)
  {
  }

  /** Appending an order with a fresh id to the queue of its level puts it in its place in the list. */
  lemma AppendIsInsert(levels: seq<seq<nat>>, side: Side, level: nat, s: nat, pool: seq<Order>)
    requires OnLevels(levels, side, pool) && level < |levels| && Holds(pool, s, side, level)
    requires IdsBelow(OrdersOf(levels, side, pool), pool[s].id)
    ensures var levels' := levels[level := levels[level] + [s]];
            OnLevels(levels', side, pool) && OrdersOf(levels', side, pool) == Insert(OrdersOf(levels, side, pool), pool[s])
  {
    hide Slots, OnLevels, Deref, InsertionPoint, Better, IdsBelow;
    AppendOnLevels(levels, side, level, s, pool);
    AppendPoint(levels, side, level, s, pool);
    AppendedSlots(levels, side, level, s);
    var levels' := levels[level := levels[level] + [s]];
    OnLevelsInPool(levels, side, pool);
    OnLevelsInPool(levels', side, pool);
    InsertedSlot(Slots(levels, side), Slots(levels', side), |Better(levels, side, level)| + |levels[level]|, s, pool);
  }

  /** Appending to one level inserts the slot behind it. */
  lemma AppendedSlots(levels: seq<seq<nat>>, side: Side, level: nat, s: nat)
    requires level < |levels|
    ensures var slots, k := Slots(levels, side), |Better(levels, side, level)| + |levels[level]|;
            k <= |slots| && Slots(levels[level := levels[level] + [s]], side) == slots[..k] + [s] + slots[k..]
  {
    SlotsAround(levels, side, level);
    UpdatedLevel(levels, side, level, levels[level] + [s]);
  }

  lemma InsertedSlot(slots: seq<nat>, slots': seq<nat>, k: nat, s: nat, pool: seq<Order>)
    requires InPool(slots, pool) && InPool(slots', pool) && s < |pool|
    requires k <= |slots| && slots' == slots[..k] + [s] + slots[k..]
    ensures Deref(slots', pool) == Deref(slots, pool)[..k] + [pool[s]] + Deref(slots, pool)[k..]
  {
  }

  lemma AppendPoint(levels: seq<seq<nat>>, side: Side, level: nat, s: nat, pool: seq<Order>)
    requires OnLevels(levels, side, pool) && level < |levels| && Holds(pool, s, side, level)
    requires IdsBelow(OrdersOf(levels, side, pool), pool[s].id)
    ensures InsertionPoint(OrdersOf(levels, side, pool), pool[s]) == |Better(levels, side, level)| + |levels[level]|
  {
    var a, q, b := Better(levels, side, level), levels[level], Worse(levels, side, level);
    var orders, k := OrdersOf(levels, side, pool), |a| + |q|;
    SlotsAround(levels, side, level);
    BetterSlots(levels, side, level, pool);
    forall i | 0 <= i < k ensures Before(orders[i], pool[s]) {
      assert orders[i] in orders;
      if i < |a| {
        assert orders[i] == pool[a[i]] && HoldsBetter(pool, a[i], side, level);
      } else {
        assert orders[i] == pool[q[i - |a|]] && Holds(pool, q[i - |a|], side, level);
      }
    }
    if k < |orders| {
      assert orders[k] == pool[b[0]] && HoldsWorse(pool, b[0], side, level);
    }
    InsertionPointIs(orders, pool[s], k);
  }

  /** Erasing from the queue of a level removes one order from the list. */
  lemma EraseIsRemove(levels: seq<seq<nat>>, side: Side, level: nat, j: nat, pool: seq<Order>)
    requires OnLevels(levels, side, pool) && level < |levels| && j < |levels[level]|
    ensures var levels', k := levels[level := RemoveAt(levels[level], j)], |Better(levels, side, level)| + j;
            && OnLevels(levels', side, pool) && k < |Slots(levels, side)| && Slots(levels, side)[k] == levels[level][j]
            && Slots(levels', side) == RemoveAt(Slots(levels, side), k)
            && OrdersOf(levels', side, pool) == RemoveAt(OrdersOf(levels, side, pool), k)
  {
    hide Slots, OnLevels, Deref, Better, RemoveAt;
    var levels', k := levels[level := RemoveAt(levels[level], j)], |Better(levels, side, level)| + j;
    EraseOnLevels(levels, side, level, j, pool);
    ErasedSlots(levels, side, level, j);
    OnLevelsInPool(levels, side, pool);
    OnLevelsInPool(levels', side, pool);
    RemovedSlot(Slots(levels, side), Slots(levels', side), k, pool);
  }

  /** Erasing from one level removes one slot. */
  lemma ErasedSlots(levels: seq<seq<nat>>, side: Side, level: nat, j: nat)
    requires level < |levels| && j < |levels[level]|
    ensures var slots, k := Slots(levels, side), |Better(levels, side, level)| + j;
            && k < |slots| && slots[k] == levels[level][j]
            && Slots(levels[level := RemoveAt(levels[level], j)], side) == RemoveAt(slots, k)
  {
    SlotsAround(levels, side, level);
    UpdatedLevel(levels, side, level, RemoveAt(levels[level], j));
  }

  lemma RemovedSlot(slots: seq<nat>, slots': seq<nat>, k: nat, pool: seq<Order>)
    requires InPool(slots, pool) && InPool(slots', pool)
    requires k < |slots| && slots' == RemoveAt(slots, k)
    ensures Deref(slots', pool) == RemoveAt(Deref(slots, pool), k)
  {
  }

  /** Searching the queue of one level for an id is searching the list for that id at that level. */
  lemma SearchIsPosition(levels: seq<seq<nat>>, side: Side, level: nat, id: u64, j: nat, pool: seq<Order>)
    requires OnLevels(levels, side, pool) && level < |levels| && j <= |levels[level]| && InPool(levels[level], pool)
    requires forall i :: 0 <= i < j ==> pool[levels[level][i]].id != id
    requires j < |levels[level]| ==> pool[levels[level][j]].id == id
    ensures Position(OrdersOf(levels, side, pool), id, level)
            == if j < |levels[level]| then |Better(levels, side, level)| + j else |OrdersOf(levels, side, pool)|
  {
    var a, q, b := Better(levels, side, level), levels[level], Worse(levels, side, level);
    var orders := OrdersOf(levels, side, pool);
    var k := if j < |q| then |a| + j else |orders|;
    SlotsAround(levels, side, level);
    BetterSlots(levels, side, level, pool);
    forall i | 0 <= i < k ensures !(orders[i].id == id && LevelOf(orders[i].price) == level) {
      if i < |a| {
        assert orders[i] == pool[a[i]] && HoldsBetter(pool, a[i], side, level);
      } else if i < |a| + |q| {
        assert orders[i] == pool[q[i - |a|]];
      } else {
        assert orders[i] == pool[b[i - |a| - |q|]] && HoldsWorse(pool, b[i - |a| - |q|], side, level);
      }
    }
    if j < |q| {
      assert orders[k] == pool[q[j]] && Holds(pool, q[j], side, level);
    }
    PositionIs(orders, id, level, k);
  }

  /** When every better level is empty, the front of a level is the front of the list. */
  lemma BestLevelIsFront(levels: seq<seq<nat>>, side: Side, level: nat)
    requires level < |levels|
    requires forall i :: 0 <= i < |levels| && (if side.Bid? then level < i else i < level) ==> levels[i] == []
    ensures Better(levels, side, level) == []
  {
    if Better(levels, side, level) != [] {
      var l := BetterMembers(levels, side, level, Better(levels, side, level)[0]);
    }
  }
}
