/** When a cancel reaches the order it names: the location table over whole runs. */
module LocationTable {
  import opened FixedWidth
  import opened Orders
  import opened PriceLadder
  import opened PriorityBook
  import opened Exchange
  import opened Ledger
  import opened Conservation

  // ----- What a table entry says

  /** The newest order of every table slot is recorded. */
  ghost predicate NewestRecorded(h: History) {
    && (forall k :: k in h.newest ==> h.newest[k] in h.submitted && Key(h.newest[k]) == k)
    && (forall id :: id in h.submitted ==> Key(id) in h.newest && id <= h.newest[Key(id)])
  }

  /** A valid table entry names the side and price of the slot's newest order, which has not left the book. */
  ghost predicate EntriesNameNewest(b: Book, h: History) {
    forall k :: k in b.table ==>
      && k in h.newest && h.newest[k] in h.submitted && h.newest[k] !in h.cancelled
      && b.table[k] == Entry(h.submitted[h.newest[k]].price, h.submitted[h.newest[k]].side)
  }

  ghost predicate TableInv(b: Book, h: History) {
    NewestRecorded(h) && EntriesNameNewest(b, h)
  }

  lemma AddKeepsTable(s: State, h: History, o: Order)
    requires IdsLeft(s) && HistoryInv(s, h) && TableInv(s.book, h)
    ensures TableInv(AddStep(s, o).book, RecordAdd(s, h, o))
  {
    hide Key, HistoryInv, Insert;
    if s.book.free > 0 && Tradable(o.price) {
      NewIdIsNew(s, h);
      NewEntry(s.book, h, Stamped(s, o), AddStep(s, o).book, RecordAdd(s, h, o));
    }
  }

  lemma NewEntry(b: Book, h: History, o: Order, b': Book, h': History)
    requires TableInv(b, h) && o.id !in h.cancelled && forall id :: id in h.submitted ==> id < o.id
    requires b'.table == b.table[Key(o.id) := Entry(o.price, o.side)] && h'.cancelled == h.cancelled
    requires h'.submitted == h.submitted[o.id := o] && h'.newest == h.newest[Key(o.id) := o.id]
    ensures TableInv(b', h')
  {
    hide Key;
  }

  lemma MatchKeepsTable(s: State, h: History)
    requires TableInv(s.book, h)
    ensures TableInv(Match(s.book), RecordMatch(s, h))
  {
    hide Key, Settle, BestTrade, UsesUp;
    if Crossed(s.book) {
      var b, h' := s.book, RecordMatch(s, h);
      assert MatchedKeys(b) == set id | id in MatchedIds(b) :: Key(id);
      assert Match(b).table == b.table - MatchedKeys(b);
      assert h'.cancelled.Keys == h.cancelled.Keys + MatchedIds(b);
      assert h'.submitted == h.submitted && h'.newest == h.newest;
      RemovingEntries(b, h, Match(b), h', MatchedIds(b));
    }
  }

  lemma RemovingEntries(b: Book, h: History, b': Book, h': History, gone: set<u64>)
    requires TableInv(b, h)
    requires b'.table == b.table - set id | id in gone :: Key(id)
    requires h'.submitted == h.submitted && h'.newest == h.newest && h'.cancelled.Keys == h.cancelled.Keys + gone
    ensures TableInv(b', h')
  {
    hide Key;
    forall k | k in b'.table ensures h'.newest[k] !in h'.cancelled {
      assert h'.newest[k] !in h.cancelled.Keys;
    }
  }

  lemma CancelKeepsTable(s: State, h: History, id: u64)
    requires TableInv(s.book, h)
    ensures TableInv(Cancel(s.book, id), RecordCancel(s, h, id))
  {
    hide Key, TableInv, RemoveAt;
    var b, h' := s.book, RecordCancel(s, h, id);
    if Key(id) in b.table {
      var gone := if CancelFinds(b, id) then {id} else {};
      assert h'.cancelled.Keys == h.cancelled.Keys + gone;
      assert Cancel(b, id).table == b.table - {Key(id)};
      RemovingEntry(b, h, Cancel(b, id), h', id);
    }
  }

  lemma RemovingEntry(b: Book, h: History, b': Book, h': History, id: u64)
    requires TableInv(b, h) && b'.table == b.table - {Key(id)}
    requires h'.submitted == h.submitted && h'.newest == h.newest && h'.cancelled.Keys <= h.cancelled.Keys + {id}
    ensures TableInv(b', h')
  {
    hide Key;
    forall k | k in b'.table ensures h'.newest[k] !in h'.cancelled {
      assert h'.newest[k] !in h.cancelled.Keys + {id};
    }
  }

  lemma {:induction false} RunKeepsTable(es: seq<Event>)
    requires CounterHolds(es)
    ensures TableInv(Run(es).0.book, Run(es).1)
  {
    if es != [] {
      var es', e := es[..|es| - 1], es[|es| - 1];
      RunKeepsTable(es');
      RunKeepsHistory(es');
      var (s, h) := Run(es');
      match e
      case AddOrder(o) => AddKeepsTable(s, h, o);
      case MatchOrders => MatchKeepsTable(s, h);
      case CancelOrder(id) => CancelKeepsTable(s, h, id);
    }
  }

  /**
   After any run, a valid entry names side and price of an order that rests there now, and no order
   of the same table slot entered after it.
   */
  lemma EntryNamesNewestResting(es: seq<Event>, k: nat) returns (o: Order)
    requires CounterHolds(es) && k in Run(es).0.book.table
    ensures var (s, h) := Run(es);
            && o in s.book.Orders(s.book.table[k].side)
            && Key(o.id) == k && s.book.table[k] == Entry(o.price, o.side)
            && forall id :: id in h.submitted && Key(id) == k ==> id <= o.id
  {
    RunKeepsTable(es);
    RunKeepsHistory(es);
    var (s, h) := Run(es);
    o := RestingOrder(s, h, h.newest[k]);
  }

  /** An order that entered and has not left is resting on its side, changed in volume at most. */
  lemma RestingOrder(s: State, h: History, id: u64) returns (o: Order)
    requires BookInv(s.book) && HistoryInv(s, h) && id in h.submitted && id !in h.cancelled
    ensures o in s.book.Orders(h.submitted[id].side) && o.id == id && o == h.submitted[id].(volume := o.volume)
  {
    assert id in h.submitted.Keys;
    if id in Ids(s.book.bids) {
      o :| o in s.book.bids && o.id == id;
    } else {
      o :| o in s.book.asks && o.id == id;
    }
  }

  // ----- What a cancel does

  /**
   A cancel removes at most the order it names, and leaves every other order as it is and where it is.
   The named id's table slot is clear afterwards, found or not; the other slots are as before.
   */
  lemma CancelIsExact(b: Book, id: u64)
    ensures var c := Cancel(b, id);
            && c.table == b.table - {id % 10000}
            && (|| (c.bids == b.bids && c.asks == b.asks && c.free == b.free)
                || exists side: Side, k ::
                     && 0 <= k < |b.Orders(side)| && b.Orders(side)[k].id == id
                     && c == b.WithOrders(side, b.Orders(side)[..k] + b.Orders(side)[k + 1..]).(free := b.free + 1, table := c.table))
  {
    if CancelFinds(b, id) {
      var side, k := b.table[Key(id)].side, CancelPosition(b, id);
      assert 0 <= k < |b.Orders(side)| && b.Orders(side)[k].id == id;
    } else if Key(id) !in b.table {
      assert b.table - {Key(id)} == b.table;
    }
  }

  /** The table leads from the id of a resting order to its level. */
  predicate Leads(b: Book, o: Order) {
    Key(o.id) in b.table && b.table[Key(o.id)].side == o.side && LevelOf(b.table[Key(o.id)].price) == LevelOf(o.price)
  }

  /**
   In a reachable state a cancel finds a resting order exactly when the table still leads to its
   level, and then removes that order.
   */
  lemma CancelFindsIffLeads(s: State, h: History, o: Order)
    requires Inv(s) && HistoryInv(s, h) && o in s.book.Orders(o.side)
    ensures CancelFinds(s.book, o.id) <==> Leads(s.book, o)
    ensures CancelFinds(s.book, o.id) ==> CancelTarget(s.book, o.id) == o
  {
    var b := s.book;
    if CancelFinds(b, o.id) {
      var t := CancelTarget(b, o.id);
      assert t in b.Orders(b.table[Key(o.id)].side) && t.id == o.id;
      SameIdSameOrder(s, h, t, o);
    }
  }

  /**
   The cancel step on a resting order takes exactly that order away when the table leads to it, and
   leaves both sides as they are when it does not.
   */
  lemma CancelOfRestingOrder(s: State, h: History, o: Order)
    requires Inv(s) && HistoryInv(s, h) && o in s.book.Orders(o.side)
    ensures var t, other := Step(s, CancelOrder(o.id)), if o.side.Bid? then Ask else Bid;
            && t.book.Orders(other) == s.book.Orders(other) && t.lastId == s.lastId
            && if Leads(s.book, o)
               then multiset(t.book.Orders(o.side)) + multiset{o} == multiset(s.book.Orders(o.side)) && t.book.free == s.book.free + 1
               else t.book.Orders(o.side) == s.book.Orders(o.side) && t.book.free == s.book.free
  {
    hide Inv, HistoryInv, LevelOf;
    CancelFindsIffLeads(s, h, o);
    if CancelFinds(s.book, o.id) {
      MultisetOfRemoveAt(s.book.Orders(o.side), CancelPosition(s.book, o.id));
    }
  }

  lemma MultisetOfRemoveAt(q: seq<Order>, k: nat)
    requires k < |q|
    ensures multiset(RemoveAt(q, k)) + multiset{q[k]} == multiset(q)
  {
    assert q == q[..k] + [q[k]] + q[k + 1..];
  }

  lemma SameIdSameOrder(s: State, h: History, t: Order, o: Order)
    requires Inv(s) && HistoryInv(s, h)
    requires t in s.book.Orders(t.side) && o in s.book.Orders(o.side) && t.id == o.id
    ensures t == o
  {
    assert t == h.submitted[t.id].(volume := t.volume) && o == h.submitted[o.id].(volume := o.volume);
    SameIdInList(s.book.Orders(o.side), h.submitted, t, o);
  }

  lemma SameIdInList(q: seq<Order>, submitted: map<u64, Order>, t: Order, o: Order)
    requires Sorted(q) && Known(q, submitted) && t in q && o in q && t.id == o.id
    ensures t == o
  {
    hide Before, Sorted, Known;
    var i :| 0 <= i < |q| && q[i] == t;
    var j :| 0 <= j < |q| && q[j] == o;
    if i < j {
      IdsAreDistinct(q, submitted, i, j);
    } else if j < i {
      IdsAreDistinct(q, submitted, j, i);
    }
  }

  /** Cancelling the order just added restores both sides and the pool; only the table slot stays cleared. */
  lemma CancelUndoesAdd(s: State, h: History, o: Order, id: u64)
    requires Inv(s) && IdsLeft(s) && HistoryInv(s, h) && AddResult(s, o) == Success(id)
    ensures Cancel(AddStep(s, o).book, id) == s.book.(table := s.book.table - {Key(id)})
  {
    hide Inv, BookInv, WellRecorded, Partition, Tradable, Key;
    NewIdIsNew(s, h);
    var q := s.book.Orders(o.side);
    forall i | 0 <= i < |q| ensures q[i].id != id {
      assert q[i] in q;
    }
    CancelUndoesInsert(s.book.(free := s.book.free - 1), Stamped(s, o));
  }

  lemma CancelUndoesInsert(b: Book, o: Order)
    requires forall i :: 0 <= i < |b.Orders(o.side)| ==> b.Orders(o.side)[i].id != o.id
    ensures Cancel(Add(b, o), o.id) == b.(table := b.table - {Key(o.id)}, free := b.free + 1)
  {
    hide LevelOf, Key, InsertionPoint, Position;
    var q, k := b.Orders(o.side), InsertionPoint(b.Orders(o.side), o);
    var q' := Add(b, o).Orders(o.side);
    assert q' == q[..k] + [o] + q[k..];
    PositionOfNew(q', k, o.id, LevelOf(o.price));
    assert RemoveAt(q', k) == q;
    assert b.table[Key(o.id) := Entry(o.price, o.side)] - {Key(o.id)} == b.table - {Key(o.id)};
  }

  lemma PositionOfNew(q: seq<Order>, k: nat, id: u64, level: int)
    requires k < |q| && q[k].id == id && LevelOf(q[k].price) == level
    requires forall i :: 0 <= i < |q| && i != k ==> q[i].id != id
    ensures Position(q, id, level) == k
  {
    hide LevelOf;
  }

  // ----- When the table still leads to an order

  /** The step does not touch the table slot of this id on behalf of another id. */
  ghost predicate Undisturbed(s: State, e: Event, id: u64) {
    match e
    case AddOrder(o) => AddResult(s, o).Success? ==> Key(NextId(s)) != Key(id)
    case MatchOrders => Crossed(s.book) ==> forall i :: i in MatchedIds(s.book) && Key(i) == Key(id) ==> i == id
    case CancelOrder(i) => Key(i) != Key(id)
  }

  /** The n-th event of the run brought this id into the book, and no later one disturbed its table slot. */
  ghost predicate UndisturbedSince(es: seq<Event>, n: nat, id: u64) {
    && 0 < n <= |es|
    && if |es| == n then
         es[n - 1].AddOrder? && AddResult(Run(es[..n - 1]).0, es[n - 1].order) == Success(id)
       else
         UndisturbedSince(es[..|es| - 1], n, id) && Undisturbed(Run(es[..|es| - 1]).0, es[|es| - 1], id)
  }

  ghost predicate EntryOf(b: Book, h: History, id: u64) {
    id in h.submitted && Key(id) in b.table && b.table[Key(id)] == Entry(h.submitted[id].price, h.submitted[id].side)
  }

  lemma UndisturbedStep(s: State, h: History, e: Event, id: u64)
    requires IdsLeft(s) && HistoryInv(s, h) && Undisturbed(s, e, id)
    requires id in h.cancelled || EntryOf(s.book, h, id)
    ensures id in Record(s, h, e).cancelled || EntryOf(Step(s, e).book, Record(s, h, e), id)
  {
    hide Insert, Known, Partition, Settle, UsesUp, BestTrade, RemoveAt, CancelPosition, Key;
    match e
    case AddOrder(o) =>
      if s.book.free > 0 && Tradable(o.price) {
        NewIdIsNew(s, h);
      }
    case MatchOrders =>
      if Crossed(s.book) {
        assert MatchedKeys(s.book) == set i | i in MatchedIds(s.book) :: Key(i);
      }
    case CancelOrder(i) =>
  }

  lemma AddMakesEntry(s: State, h: History, o: Order, id: u64)
    requires AddResult(s, o) == Success(id)
    ensures EntryOf(AddStep(s, o).book, RecordAdd(s, h, o), id)
  {
    hide Insert, Key, Tradable;
  }

  lemma {:induction false} EntrySurvives(es: seq<Event>, n: nat, id: u64)
    requires CounterHolds(es) && UndisturbedSince(es, n, id)
    ensures id in Run(es).1.cancelled || EntryOf(Run(es).0.book, Run(es).1, id)
    decreases |es|
  {
    hide Inv, HistoryInv, EntryOf, Undisturbed;
    var es', e := es[..|es| - 1], es[|es| - 1];
    RunKeepsHistory(es');
    if |es| > n {
      EntrySurvives(es', n, id);
      UndisturbedStep(Run(es').0, Run(es').1, e, id);
    } else {
      AddMakesEntry(Run(es').0, Run(es').1, e.order, id);
    }
  }

  /** If nothing disturbed its table slot since it entered, an order that still rests is found and removed by its cancel. */
  lemma UndisturbedCancelSucceeds(es: seq<Event>, n: nat, o: Order)
    requires CounterHolds(es) && UndisturbedSince(es, n, o.id)
    requires o in Run(es).0.book.Orders(o.side)
    ensures CancelFinds(Run(es).0.book, o.id) && CancelTarget(Run(es).0.book, o.id) == o
    ensures multiset(Run(es + [CancelOrder(o.id)]).0.book.Orders(o.side)) + multiset{o} == multiset(Run(es).0.book.Orders(o.side))
  {
    RunKeepsHistory(es);
    var (s, h) := Run(es);
    EntrySurvives(es, n, o.id);
    assert o.id in Ids(s.book.Orders(o.side));
    CancelFindsIffLeads(s, h, o);
    CancelOfRestingOrder(s, h, o);
    RunSteps(es, CancelOrder(o.id));
  }

  /** Cancelling an id nobody was given clears the slot of a congruent order, whose own cancel then does nothing. */
  lemma CongruentCancelIsLost()
    ensures var o := Order(Bid, 10, "A", 0, 1000);
            Run([AddOrder(o), CancelOrder(10001), CancelOrder(1)]).0.book.bids == [o.(id := 1)]
  {
    hide AddStep, Cancel;
    var o := Order(Bid, 10, "A", 0, 1000);
    RunSteps([], AddOrder(o));
    RunSteps([AddOrder(o)], CancelOrder(10001));
    RunSteps([AddOrder(o), CancelOrder(10001)], CancelOrder(1));
    assert [] + [AddOrder(o)] == [AddOrder(o)];
    assert [AddOrder(o)] + [CancelOrder(10001)] == [AddOrder(o), CancelOrder(10001)];
    assert [AddOrder(o), CancelOrder(10001)] + [CancelOrder(1)] == [AddOrder(o), CancelOrder(10001), CancelOrder(1)];
    FirstBid(o);
    CongruentCancel(AddStep(START, o).book, o.(id := 1));
  }

  lemma FirstBid(o: Order)
    requires o.side.Bid? && Tradable(o.price)
    ensures AddStep(START, o).book.bids == [o.(id := 1)] && AddStep(START, o).book.table == map[1 := Entry(o.price, Bid)]
  {
    hide Tradable, LevelOf, Before;
    assert Key(1) == 1;
  }

  lemma CongruentCancel(b: Book, o: Order)
    requires b.bids == [o] && o.id == 1 && b.table == map[1 := Entry(o.price, Bid)]
    ensures var c := Cancel(b, 10001);
            c.bids == [o] && Cancel(c, 1).bids == [o]
  {
  }
}
