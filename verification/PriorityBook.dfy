/**
 The order book as its users think of it: two lists of orders in priority order, the table of
 order locations that cancels consult, and the number of free slots in the order pool.
 */
module PriorityBook {
  import opened FixedWidth
  import opened Orders
  import opened PriceLadder
  import opened VolumeArithmetic

  /** A valid slot of the location table. */
  datatype Entry = Entry(price: u64, side: Side)

  datatype Book = Book(bids: seq<Order>, asks: seq<Order>, table: map<nat, Entry>, free: nat) {
    function Orders(side: Side): seq<Order> {
      if side.Bid? then bids else asks
    }

    function WithOrders(side: Side, q: seq<Order>): Book {
      if side.Bid? then this.(bids := q) else this.(asks := q)
    }
  }

  /** The slot of the location table that belongs to an order id. */
  function Key(id: u64): nat {
    id % POOL_SIZE
  }

  // ----- Priority

  /** The distance of an order's price from the best price of its side. */
  function Rank(o: Order): int {
    if o.side.Bid? then NUM_OF_LEVELS - 1 - LevelOf(o.price) else LevelOf(o.price)
  }

  /** Price first, then time of arrival, which ids record. */
  predicate Before(a: Order, b: Order) {
    Rank(a) < Rank(b) || (Rank(a) == Rank(b) && a.id < b.id)
  }

  ghost predicate Sorted(q: seq<Order>) {
    forall i, j :: 0 <= i < j < |q| ==> Before(q[i], q[j])
  }

  /** The number of leading orders that have priority over o. */
  function InsertionPoint(q: seq<Order>, o: Order): (k: nat)
    ensures k <= |q|
    ensures forall i :: 0 <= i < k ==> Before(q[i], o)
    ensures k < |q| ==> !Before(q[k], o)
  {
    if q != [] && Before(q[0], o) then 1 + InsertionPoint(q[1..], o) else 0
  }

  function Insert(q: seq<Order>, o: Order): seq<Order> {
    var k := InsertionPoint(q, o);
    q[..k] + [o] + q[k..]
  }

  /** The first order with this id at this level; |q| when there is none. */
  function Position(q: seq<Order>, id: u64, level: int): (k: nat)
    ensures k <= |q|
    ensures k < |q| ==> q[k].id == id && LevelOf(q[k].price) == level
    ensures forall i :: 0 <= i < k ==> !(q[i].id == id && LevelOf(q[i].price) == level)
  {
    if q == [] || (q[0].id == id && LevelOf(q[0].price) == level) then 0
    else 1 + Position(q[1..], id, level)
  }

  function RemoveAt<T>(q: seq<T>, k: nat): seq<T>
    requires k < |q|
  {
    q[..k] + q[k + 1..]
  }

  // ----- Steps

  /** Put an order with a fresh id in its place. */
  function Add(b: Book, o: Order): Book {
    b.WithOrders(o.side, Insert(b.Orders(o.side), o)).(table := b.table[Key(o.id) := Entry(o.price, o.side)])
  }

  predicate Crossed(b: Book) {
    b.bids != [] && b.asks != [] && Ticks(b.bids[0].price) >= Ticks(b.asks[0].price)
  }

  /** The trade of the two best orders: the smaller volume, at the ask's price. */
  function BestTrade(b: Book): Trade
    requires Crossed(b)
  {
    Trade(TradeVolume(b.asks[0].volume, b.bids[0].volume), Ticks(b.asks[0].price))
  }

  /** Does trading t use the first order up? */
  predicate UsesUp(q: seq<Order>, t: u64)
    requires q != []
  {
    Exhausted(Reduced(q[0].volume, t))
  }

  function Settle(q: seq<Order>, t: u64): seq<Order>
    requires q != []
  {
    if UsesUp(q, t) then q[1..] else q[0 := q[0].(volume := Reduced(q[0].volume, t))]
  }

  /** The table keys of the orders a match removes. */
  function MatchedKeys(b: Book): set<nat>
    requires Crossed(b)
  {
    var t := BestTrade(b).volume;
    (if UsesUp(b.asks, t) then {Key(b.asks[0].id)} else {}) + (if UsesUp(b.bids, t) then {Key(b.bids[0].id)} else {})
  }

  /** Trade the two best orders against each other, if their prices cross. */
  function Match(b: Book): Book {
    if !Crossed(b) then b
    else
      var t := BestTrade(b).volume;
      var bids, asks := Settle(b.bids, t), Settle(b.asks, t);
      Book(bids, asks, b.table - MatchedKeys(b), b.free + (|b.bids| - |bids|) + (|b.asks| - |asks|))
  }

  /** The position of the order a cancel removes; none when that list's length. */
  function CancelPosition(b: Book, id: u64): nat
    requires Key(id) in b.table
  {
    var e := b.table[Key(id)];
    Position(b.Orders(e.side), id, LevelOf(e.price))
  }

  predicate CancelFinds(b: Book, id: u64) {
    Key(id) in b.table && CancelPosition(b, id) < |b.Orders(b.table[Key(id)].side)|
  }

  /** Remove the order with this id if the table leads to it, and forget the table slot. */
  function Cancel(b: Book, id: u64): Book {
    if Key(id) !in b.table then b
    else
      var e := b.table[Key(id)];
      var k := CancelPosition(b, id);
      var b' := b.(table := b.table - {Key(id)});
      if k == |b.Orders(e.side)| then b'
      else b'.WithOrders(e.side, RemoveAt(b.Orders(e.side), k)).(free := b.free + 1)
  }

  // ----- What every step keeps

  ghost predicate OnSide(q: seq<Order>, side: Side) {
    forall o :: o in q ==> o.side == side && Tradable(o.price)
  }

  ghost predicate BookInv(b: Book) {
    && Sorted(b.bids) && OnSide(b.bids, Bid)
    && Sorted(b.asks) && OnSide(b.asks, Ask)
    && (forall k :: k in b.table ==> k < POOL_SIZE && Tradable(b.table[k].price))
    && b.free + |b.bids| + |b.asks| <= POOL_SIZE
  }

  ghost predicate IdsBelow(q: seq<Order>, bound: int) {
    forall o :: o in q ==> o.id < bound
  }

  lemma BeforeIsTransitive(a: Order, b: Order, c: Order)
    requires Before(a, b) && Before(b, c)
    ensures Before(a, c)
  {
  }

  lemma BehindStaysBehind(a: Order, b: Order, c: Order)
    requires Before(a, b) && !Before(a, c)
    ensures !Before(b, c)
  {
  }

  /** A fresh order goes into a sorted list so that the list stays sorted. */
  lemma InsertKeepsSorted(q: seq<Order>, o: Order)
    requires Sorted(q) && forall i :: 0 <= i < |q| ==> q[i].id != o.id
    ensures Sorted(Insert(q, o))
  {
    var k, q' := InsertionPoint(q, o), Insert(q, o);
    forall i, j | 0 <= i < j < |q'| ensures Before(q'[i], q'[j]) {
      if j == k {
      } else if i == k {
        if j > k + 1 {
          BeforeIsTransitive(o, q[k], q[j - 1]);
        }
      } else {
        var a, c := if i < k then i else i - 1, if j < k then j else j - 1;
        assert q'[i] == q[a] && q'[j] == q[c] && a < c;
      }
    }
  }

  lemma SettleKeepsSorted(q: seq<Order>, t: u64)
    requires Sorted(q) && q != []
    ensures Sorted(Settle(q, t))
  {
    var q' := Settle(q, t);
    var d := |q| - |q'|;
    forall i, j | 0 <= i < j < |q'| ensures Before(q'[i], q'[j]) {
      assert Before(q[i + d], q[j + d]);
    }
  }

  lemma RemoveKeepsSorted(q: seq<Order>, k: nat)
    requires Sorted(q) && k < |q|
    ensures Sorted(RemoveAt(q, k))
  {
    var q' := RemoveAt(q, k);
    forall i, j | 0 <= i < j < |q'| ensures Before(q'[i], q'[j]) {
      assert Before(q[if i < k then i else i + 1], q[if j < k then j else j + 1]);
    }
  }

  lemma InsertMembers(q: seq<Order>, o: Order)
    ensures forall x :: x in Insert(q, o) <==> x == o || x in q
  {
    var k := InsertionPoint(q, o);
    assert q == q[..k] + q[k..];
  }

  lemma RemoveMembers(q: seq<Order>, k: nat)
    requires k < |q|
    ensures forall x :: x in RemoveAt(q, k) ==> x in q
  {
  }

  /** Settling changes nothing about an order but its volume. */
  lemma SettleMembers(q: seq<Order>, t: u64)
    requires q != []
    ensures forall x :: x in Settle(q, t) ==> exists o :: o in q && x == o.(volume := x.volume)
  {
    forall x | x in Settle(q, t) ensures exists o :: o in q && x == o.(volume := x.volume) {
      if x !in q {
        assert q[0] in q && x == q[0].(volume := x.volume);
      }
    }
  }

  lemma TakingASlotKeepsInv(b: Book)
    requires BookInv(b) && b.free > 0
    ensures var taken := b.(free := b.free - 1);
            BookInv(taken) && taken.free + |taken.bids| + |taken.asks| < POOL_SIZE
  {
  }

  lemma AddKeepsInv(b: Book, o: Order)
    requires BookInv(b) && Tradable(o.price)
    requires IdsBelow(b.Orders(o.side), o.id)
    requires b.free + |b.bids| + |b.asks| < POOL_SIZE
    ensures BookInv(Add(b, o))
  {
    InsertKeepsSorted(b.Orders(o.side), o);
    InsertMembers(b.Orders(o.side), o);
  }

  lemma MatchKeepsInv(b: Book)
    requires BookInv(b)
    ensures BookInv(Match(b))
  {
    if Crossed(b) {
      var t := BestTrade(b).volume;
      SettleKeepsSorted(b.bids, t);
      SettleKeepsSorted(b.asks, t);
      SettleMembers(b.bids, t);
      SettleMembers(b.asks, t);
    }
  }

  lemma CancelKeepsInv(b: Book, id: u64)
    requires BookInv(b)
    ensures BookInv(Cancel(b, id))
  {
    if CancelFinds(b, id) {
      RemoveKeepsSorted(b.Orders(b.table[Key(id)].side), CancelPosition(b, id));
      RemoveMembers(b.Orders(b.table[Key(id)].side), CancelPosition(b, id));
    }
  }

  // ----- Ids stay below a bound

  lemma AddKeepsIdsBelow(b: Book, o: Order, bound: int)
    requires IdsBelow(b.bids, bound) && IdsBelow(b.asks, bound) && o.id < bound
    ensures IdsBelow(Add(b, o).bids, bound) && IdsBelow(Add(b, o).asks, bound)
  {
    InsertMembers(b.Orders(o.side), o);
  }

  lemma MatchKeepsIdsBelow(b: Book, bound: int)
    requires IdsBelow(b.bids, bound) && IdsBelow(b.asks, bound)
    ensures IdsBelow(Match(b).bids, bound) && IdsBelow(Match(b).asks, bound)
  {
    if Crossed(b) {
      SettleMembers(b.bids, BestTrade(b).volume);
      SettleMembers(b.asks, BestTrade(b).volume);
    }
  }

  lemma CancelKeepsIdsBelow(b: Book, id: u64, bound: int)
    requires IdsBelow(b.bids, bound) && IdsBelow(b.asks, bound)
    ensures IdsBelow(Cancel(b, id).bids, bound) && IdsBelow(Cancel(b, id).asks, bound)
  {
    if CancelFinds(b, id) {
      RemoveMembers(b.Orders(b.table[Key(id)].side), CancelPosition(b, id));
    }
  }

  // ----- Consequences

  /** A match trades, on each side, an order that no other order of the side has priority over. */
  lemma MatchedOrderHasPriority(b: Book, side: Side, o: Order)
    requires BookInv(b) && Crossed(b)
    requires o in b.Orders(side) && o != b.Orders(side)[0]
    ensures var best := b.Orders(side)[0];
            && (if side.Bid? then LevelOf(o.price) <= LevelOf(best.price) else LevelOf(o.price) >= LevelOf(best.price))
            && (LevelOf(o.price) == LevelOf(best.price) ==> best.id < o.id)
  {
    var q := b.Orders(side);
    var i :| 0 <= i < |q| && q[i] == o;
    assert Before(q[0], q[i]);
  }

  /** The trade price suits both orders: it is the ask's price, and at most the bid's. */
  lemma TradePriceSuitsBoth(b: Book)
    requires BookInv(b) && Crossed(b)
    ensures b.asks[0].price % 0x1_0000_0000 == BestTrade(b).price <= b.bids[0].price % 0x1_0000_0000
  {
    hide LevelOf, Ticks, Tradable, TradeVolume, Sorted;
    assert b.bids[0] in b.bids && b.asks[0] in b.asks;
    TicksOrderLevels(b.asks[0].price, b.bids[0].price);
    TicksOrderLevels(b.bids[0].price, b.asks[0].price);
  }

  /** What is left of a list when t is traded against its first order. */
  predicate IsAfterTrade(q: seq<Order>, q': seq<Order>, t: int)
    requires q != []
  {
    if q[0].volume == t then q' == q[1..]
    else 0 < q[0].volume - t < 0x1_0000_0000_0000_0000 && q' == [q[0].(volume := q[0].volume - t)] + q[1..]
  }

  /**
   A match, spelled out for volumes that are not distorted: it trades exactly when both sides have
   orders and the best prices meet; then the smaller volume goes off both best orders, at the ask's
   price, and what is filled leaves with its pool slot. Otherwise nothing changes.
   */
  lemma MatchOutcome(b: Book)
    requires BookInv(b)
    requires b.bids != [] && b.asks != [] ==> Faithful(b.asks[0].volume, b.bids[0].volume)
    ensures if b.bids != [] && b.asks != [] && b.bids[0].price % 0x1_0000_0000 >= b.asks[0].price % 0x1_0000_0000 then
              var t, c := if b.asks[0].volume < b.bids[0].volume then b.asks[0].volume else b.bids[0].volume, Match(b);
              && Crossed(b) && BestTrade(b) == Trade(t, b.asks[0].price % 0x1_0000_0000)
              && IsAfterTrade(b.bids, c.bids, t) && IsAfterTrade(b.asks, c.asks, t)
              && c.free + |c.bids| + |c.asks| == b.free + |b.bids| + |b.asks|
            else !Crossed(b) && Match(b) == b
  {
    hide LevelOf, Ticks, Tradable, Sorted, TradeVolume, Reduced, Exhausted, Faithful;
    if b.bids != [] && b.asks != [] {
      assert b.bids[0] in b.bids && b.asks[0] in b.asks;
      TicksOrderLevels(b.asks[0].price, b.bids[0].price);
      TicksOrderLevels(b.bids[0].price, b.asks[0].price);
      AccountsIffFaithful(b.asks[0].volume, b.bids[0].volume);
      if Crossed(b) {
        AccountedSettle(b.bids, BestTrade(b).volume);
        AccountedSettle(b.asks, BestTrade(b).volume);
      }
    }
  }

  lemma AccountedSettle(q: seq<Order>, t: u64)
    requires q != [] && Accounts(q[0].volume, t)
    ensures IsAfterTrade(q, Settle(q, t), t)
  {
    hide Reduced, Exhausted;
    var rest := Reduced(q[0].volume, t);
    ExhaustedIs(rest);
    if !UsesUp(q, t) {
      assert Settle(q, t) == [q[0].(volume := rest)] + q[1..];
    }
  }

  /**
   For all volumes: whatever 32-bit ints the best volumes read as, the match trades the smaller of
   them; each best order is left with the reduced volume, or leaves when its low 32 bits are zero.
   */
  lemma MatchOfAnyVolumes(b: Book, ask: int, bid: int, side: Side)
    requires Crossed(b)
    requires -0x8000_0000 <= ask < 0x8000_0000 && (b.asks[0].volume - ask) % 0x1_0000_0000 == 0
    requires -0x8000_0000 <= bid < 0x8000_0000 && (b.bids[0].volume - bid) % 0x1_0000_0000 == 0
    ensures var low, t := if ask < bid then ask else bid, BestTrade(b).volume;
            var q := b.Orders(side);
            var rest := Reduced(q[0].volume, t);
            && t == (if low < 0 then low + 0x1_0000_0000_0000_0000 else low)
            && Match(b).Orders(side) == if rest % 0x1_0000_0000 == 0 then q[1..] else q[0 := q[0].(volume := rest)]
  {
    hide Reduced, TradeVolume, Exhausted, Ticks;
    TradeVolumeIs(b.asks[0].volume, b.bids[0].volume, ask, bid);
    ExhaustedIs(Reduced(b.Orders(side)[0].volume, BestTrade(b).volume));
  }

  /**
   For all volumes: the table slots a match clears are those of the orders that leave, whichever
   order the slots named; all others stay as they were.
   */
  lemma MatchClearsSlots(b: Book, k: nat)
    ensures var c := Match(b);
            var askLeaves, bidLeaves := |c.asks| < |b.asks|, |c.bids| < |b.bids|;
            && (k in c.table <==>
                  k in b.table && !(askLeaves && b.asks[0].id % 10000 == k) && !(bidLeaves && b.bids[0].id % 10000 == k))
            && (k in c.table ==> c.table[k] == b.table[k])
  {
    hide Reduced, TradeVolume, Exhausted, Ticks;
  }

  /** Each trade takes at least one order out of the book. */
  lemma MatchRemovesAnOrder(b: Book)
    requires Crossed(b)
    ensures |Match(b).bids| + |Match(b).asks| < |b.bids| + |b.asks|
  {
    MatchExhaustsASide(b.asks[0].volume, b.bids[0].volume);
  }
}
