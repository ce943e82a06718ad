/** What the history of a run says about the orders in the book, at every point of every run. */
module Ledger {
  import opened FixedWidth
  import opened Orders
  import opened PriceLadder
  import opened VolumeArithmetic
  import opened PriorityBook
  import opened Exchange

  function Ids(q: seq<Order>): set<u64> {
    set o | o in q :: o.id
  }

  /** Every order of the list was submitted, and nothing but its volume has changed since. */
  ghost predicate Known(q: seq<Order>, submitted: map<u64, Order>) {
    forall o :: o in q ==> o.id in submitted && o == submitted[o.id].(volume := o.volume)
  }

  /** Every submitted order is recorded under its own id, in time for the counter. */
  ghost predicate WellRecorded(h: History, lastId: u64) {
    && h.filled.Keys == h.submitted.Keys
    && forall id :: id in h.submitted ==> 0 < id <= lastId && h.submitted[id].id == id
  }

  /** An id that has entered the book is in exactly one of three sets: gone, bidding, asking. */
  ghost predicate Partition(entered: set<u64>, gone: set<u64>, bids: set<u64>, asks: set<u64>) {
    entered == gone + bids + asks && gone !! bids && gone !! asks && bids !! asks
  }

  ghost predicate RestingOrGone(b: Book, h: History) {
    Partition(h.submitted.Keys, h.cancelled.Keys, Ids(b.bids), Ids(b.asks))
  }

  ghost predicate HistoryInv(s: State, h: History) {
    && Known(s.book.bids, h.submitted)
    && Known(s.book.asks, h.submitted)
    && WellRecorded(h, s.lastId)
    && RestingOrGone(s.book, h)
  }

  // ----- Identity of resting orders

  /** Ids tell the orders of a list apart. */
  lemma IdsAreDistinct(q: seq<Order>, submitted: map<u64, Order>, i: nat, j: nat)
    requires Sorted(q) && Known(q, submitted)
    requires i < j < |q|
    ensures q[i].id != q[j].id
  {
    assert Before(q[i], q[j]);
    assert q[i] in q && q[j] in q;
  }

  lemma Entering(entered: set<u64>, gone: set<u64>, bids: set<u64>, asks: set<u64>, id: u64)
    requires Partition(entered, gone, bids, asks) && id !in entered
    ensures Partition(entered + {id}, gone, bids + {id}, asks)
    ensures Partition(entered + {id}, gone, bids, asks + {id})
  {
  }

  lemma Leaving(entered: set<u64>, gone: set<u64>, bids: set<u64>, asks: set<u64>, bidsGone: set<u64>, asksGone: set<u64>)
    requires Partition(entered, gone, bids, asks) && bidsGone <= bids && asksGone <= asks
    ensures Partition(entered, gone + (asksGone + bidsGone), bids - bidsGone, asks - asksGone)
  {
  }

  lemma IdsOfInsert(q: seq<Order>, o: Order)
    ensures Ids(Insert(q, o)) == Ids(q) + {o.id}
  {
    InsertMembers(q, o);
  }

  lemma IdsOfRemoveAt(q: seq<Order>, k: nat, submitted: map<u64, Order>)
    requires k < |q| && Sorted(q) && Known(q, submitted)
    ensures Ids(RemoveAt(q, k)) == Ids(q) - {q[k].id}
  {
    var rest := q[..k] + q[k + 1..];
    assert q == q[..k] + [q[k]] + q[k + 1..];
    forall o | o in rest ensures o.id != q[k].id {
      OthersDiffer(q, k, submitted, o);
    }
  }

  lemma OthersDiffer(q: seq<Order>, k: nat, submitted: map<u64, Order>, o: Order)
    requires k < |q| && Sorted(q) && Known(q, submitted)
    requires o in q[..k] || o in q[k + 1..]
    ensures o.id != q[k].id
  {
    if o in q[..k] {
      var i :| 0 <= i < k && q[i] == o;
      IdsAreDistinct(q, submitted, i, k);
    } else {
      var i :| k < i < |q| && q[i] == o;
      IdsAreDistinct(q, submitted, k, i);
    }
  }

  lemma IdsOfSettle(q: seq<Order>, t: u64, submitted: map<u64, Order>)
    requires q != [] && Sorted(q) && Known(q, submitted)
    ensures Ids(Settle(q, t)) == if UsesUp(q, t) then Ids(q) - {q[0].id} else Ids(q)
  {
    var q' := Settle(q, t);
    if UsesUp(q, t) {
      assert q' == RemoveAt(q, 0);
      IdsOfRemoveAt(q, 0, submitted);
    } else {
      forall id ensures id in Ids(q') <==> id in Ids(q) {
        if id in Ids(q) {
          var i :| 0 <= i < |q| && q[i].id == id;
          assert q'[i].id == id;
        }
        if id in Ids(q') {
          var i :| 0 <= i < |q'| && q'[i].id == id;
          assert q[i].id == id;
        }
      }
    }
  }

  // ----- Each step keeps the history invariant

  lemma NewOrderIsKnown(q: seq<Order>, submitted: map<u64, Order>, o: Order)
    requires Known(q, submitted) && IdsBelow(q, o.id)
    ensures Known(q, submitted[o.id := o])
    ensures Known(Insert(q, o), submitted[o.id := o])
  {
    hide Insert;
    InsertMembers(q, o);
  }

  lemma AddKeepsRestingOrGone(b: Book, h: History, o: Order, h': History)
    requires RestingOrGone(b, h) && o.id !in h.submitted
    requires h'.submitted == h.submitted[o.id := o] && h'.cancelled == h.cancelled
    ensures RestingOrGone(Add(b, o), h')
  {
    hide Insert, Partition, Ids;
    IdsOfInsert(b.Orders(o.side), o);
    Entering(h.submitted.Keys, h.cancelled.Keys, Ids(b.bids), Ids(b.asks), o.id);
    assert h'.submitted.Keys == h.submitted.Keys + {o.id};
  }

  /** The table and the pool do not matter to who is resting. */
  lemma RestingOrGoneByOrders(b: Book, b': Book, h: History)
    requires RestingOrGone(b, h) && b.bids == b'.bids && b.asks == b'.asks
    ensures RestingOrGone(b', h)
  {
  }

  lemma AddKeepsHistory(s: State, h: History, o: Order)
    requires Inv(s) && IdsLeft(s) && HistoryInv(s, h)
    ensures HistoryInv(AddStep(s, o), RecordAdd(s, h, o))
  {
    hide Inv, HistoryInv, Add, Tradable;
    if s.book.free > 0 {
      if Tradable(o.price) {
        EnteringKeepsHistory(s, h, o);
      } else {
        RefusingKeepsHistory(s, h, o);
      }
    }
  }

  lemma RefusingKeepsHistory(s: State, h: History, o: Order)
    requires IdsLeft(s) && HistoryInv(s, h) && s.book.free > 0 && !Tradable(o.price)
    ensures HistoryInv(AddStep(s, o), RecordAdd(s, h, o))
  {
    hide Known, RestingOrGone, Add, Tradable;
    var taken := s.book.(free := s.book.free - 1);
    RestingOrGoneByOrders(s.book, taken, h);
    RestingOrGoneByRecords(taken, h, RecordAdd(s, h, o));
  }

  lemma EnteringKeepsHistory(s: State, h: History, o: Order)
    requires Inv(s) && IdsLeft(s) && HistoryInv(s, h) && s.book.free > 0 && Tradable(o.price)
    ensures HistoryInv(AddStep(s, o), RecordAdd(s, h, o))
  {
    hide Insert, BookInv, Known, RestingOrGone, Ids, LevelOf;
    var o', taken := Stamped(s, o), s.book.(free := s.book.free - 1);
    RestingOrGoneByOrders(s.book, taken, h);
    NewOrderIsKnown(s.book.bids, h.submitted, o');
    NewOrderIsKnown(s.book.asks, h.submitted, o');
    AddKeepsRestingOrGone(taken, h, o', RecordAdd(s, h, o));
  }

  lemma RestingOrGoneByRecords(b: Book, h: History, h': History)
    requires RestingOrGone(b, h) && h'.submitted == h.submitted && h'.cancelled == h.cancelled
    ensures RestingOrGone(b, h')
  {
  }

  lemma MatchKeepsHistory(s: State, h: History)
    requires Inv(s) && HistoryInv(s, h)
    ensures HistoryInv(Step(s, MatchOrders), RecordMatch(s, h))
  {
    hide Known, WellRecorded, RestingOrGone;
    if Crossed(s.book) {
      MatchKeepsKnown(s.book, h.submitted);
      MatchKeepsWellRecorded(s, h);
      MatchKeepsRestingOrGone(s, h);
      assert RecordMatch(s, h).submitted == h.submitted;
    }
  }

  lemma MatchKeepsKnown(b: Book, submitted: map<u64, Order>)
    requires Crossed(b) && Known(b.bids, submitted) && Known(b.asks, submitted)
    ensures Known(Match(b).bids, submitted) && Known(Match(b).asks, submitted)
  {
    SettleKeepsKnown(b.bids, BestTrade(b).volume, submitted);
    SettleKeepsKnown(b.asks, BestTrade(b).volume, submitted);
  }

  lemma MatchKeepsWellRecorded(s: State, h: History)
    requires Crossed(s.book) && HistoryInv(s, h)
    ensures WellRecorded(RecordMatch(s, h), s.lastId)
  {
    assert s.book.bids[0] in s.book.bids && s.book.asks[0] in s.book.asks;
  }

  lemma MatchKeepsRestingOrGone(s: State, h: History)
    requires Crossed(s.book) && BookInv(s.book) && HistoryInv(s, h)
    ensures RestingOrGone(Match(s.book), RecordMatch(s, h))
  {
    hide Match, RecordMatch, BookInv, Known, UsesUp, BestTrade;
    var b, t := s.book, BestTrade(s.book).volume;
    var bidsGone := if UsesUp(b.bids, t) then {b.bids[0].id} else {};
    var asksGone := if UsesUp(b.asks, t) then {b.asks[0].id} else {};
    IdsAfterMatch(b, h.submitted, bidsGone, asksGone);
    RecordsAfterMatch(s, h, asksGone + bidsGone);
    assert b.bids[0] in b.bids && b.asks[0] in b.asks;
    Leaving(h.submitted.Keys, h.cancelled.Keys, Ids(b.bids), Ids(b.asks), bidsGone, asksGone);
  }

  lemma IdsAfterMatch(b: Book, submitted: map<u64, Order>, bidsGone: set<u64>, asksGone: set<u64>)
    requires Crossed(b) && BookInv(b) && Known(b.bids, submitted) && Known(b.asks, submitted)
    requires bidsGone == if UsesUp(b.bids, BestTrade(b).volume) then {b.bids[0].id} else {}
    requires asksGone == if UsesUp(b.asks, BestTrade(b).volume) then {b.asks[0].id} else {}
    ensures Ids(Match(b).bids) == Ids(b.bids) - bidsGone
    ensures Ids(Match(b).asks) == Ids(b.asks) - asksGone
  {
    hide Ids, Settle, UsesUp, Sorted, Known, OnSide, BestTrade;
    IdsOfSettle(b.bids, BestTrade(b).volume, submitted);
    IdsOfSettle(b.asks, BestTrade(b).volume, submitted);
  }

  lemma RecordsAfterMatch(s: State, h: History, gone: set<u64>)
    requires Crossed(s.book) && gone == MatchedIds(s.book)
    ensures RecordMatch(s, h).cancelled.Keys == h.cancelled.Keys + gone
    ensures RecordMatch(s, h).submitted == h.submitted
  {
  }

  lemma SettleKeepsKnown(q: seq<Order>, t: u64, submitted: map<u64, Order>)
    requires q != [] && Known(q, submitted)
    ensures Known(Settle(q, t), submitted)
  {
    SettleMembers(q, t);
  }

  lemma CancelKeepsHistory(s: State, h: History, id: u64)
    requires Inv(s) && HistoryInv(s, h)
    ensures HistoryInv(Step(s, CancelOrder(id)), RecordCancel(s, h, id))
  {
    hide Known, RestingOrGone;
    if CancelFinds(s.book, id) {
      CancelKeepsKnown(s.book, id, h.submitted);
      CancelKeepsRestingOrGone(s, h, id);
    } else {
      RestingOrGoneByOrders(s.book, Cancel(s.book, id), h);
    }
  }

  lemma CancelKeepsKnown(b: Book, id: u64, submitted: map<u64, Order>)
    requires CancelFinds(b, id) && Known(b.bids, submitted) && Known(b.asks, submitted)
    ensures Known(Cancel(b, id).bids, submitted) && Known(Cancel(b, id).asks, submitted)
  {
    RemoveMembers(b.Orders(b.table[Key(id)].side), CancelPosition(b, id));
  }

  lemma CancelKeepsRestingOrGone(s: State, h: History, id: u64)
    requires CancelFinds(s.book, id) && BookInv(s.book) && HistoryInv(s, h)
    ensures RestingOrGone(Cancel(s.book, id), RecordCancel(s, h, id))
  {
    hide Partition, Cancel, RecordCancel, Known, BookInv, WellRecorded;
    var b, o := s.book, CancelTarget(s.book, id);
    var side := b.table[Key(id)].side;
    assert o in b.Orders(side);
    var bidsGone, asksGone := if side.Bid? then {o.id} else {}, if side.Bid? then {} else {o.id};
    Leaving(h.submitted.Keys, h.cancelled.Keys, Ids(b.bids), Ids(b.asks), bidsGone, asksGone);
    IdsAfterCancel(b, id, h.submitted, bidsGone, asksGone);
    RecordsAfterCancel(s, h, id);
    assert asksGone + bidsGone == {o.id};
  }

  lemma IdsAfterCancel(b: Book, id: u64, submitted: map<u64, Order>, bidsGone: set<u64>, asksGone: set<u64>)
    requires CancelFinds(b, id) && BookInv(b) && Known(b.bids, submitted) && Known(b.asks, submitted)
    requires bidsGone == if b.table[Key(id)].side.Bid? then {CancelTarget(b, id).id} else {}
    requires asksGone == if b.table[Key(id)].side.Bid? then {} else {CancelTarget(b, id).id}
    ensures Ids(Cancel(b, id).bids) == Ids(b.bids) - bidsGone
    ensures Ids(Cancel(b, id).asks) == Ids(b.asks) - asksGone
  {
    hide Ids, RemoveAt, Sorted, Known, OnSide;
    IdsOfRemoveAt(b.Orders(b.table[Key(id)].side), CancelPosition(b, id), submitted);
  }

  lemma RecordsAfterCancel(s: State, h: History, id: u64)
    requires CancelFinds(s.book, id)
    ensures RecordCancel(s, h, id).cancelled.Keys == h.cancelled.Keys + {CancelTarget(s.book, id).id}
    ensures RecordCancel(s, h, id).submitted == h.submitted
  {
  }

  lemma {:induction false} RunKeepsHistory(es: seq<Event>)
    requires CounterHolds(es)
    ensures Inv(Run(es).0) && Run(es).0.lastId <= |es|
    ensures HistoryInv(Run(es).0, Run(es).1)
  {
    RunKeepsInv(es);
    if es != [] {
      var es', e := es[..|es| - 1], es[|es| - 1];
      RunKeepsHistory(es');
      var (s, h) := Run(es');
      match e
      case AddOrder(o) => AddKeepsHistory(s, h, o);
      case MatchOrders => MatchKeepsHistory(s, h);
      case CancelOrder(id) => CancelKeepsHistory(s, h, id);
    }
  }

  /** A new id is larger than every id before it. */
  lemma NewIdIsNew(s: State, h: History)
    requires IdsLeft(s) && HistoryInv(s, h)
    ensures forall id :: id in h.submitted ==> id < NextId(s)
    ensures NextId(s) !in h.submitted && NextId(s) !in h.cancelled
  {
    assert h.cancelled.Keys <= h.submitted.Keys;
  }
}
