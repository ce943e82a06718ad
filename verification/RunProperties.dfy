/** Priority, partial fills and pool slots over whole runs. */
module RunProperties {
  import opened FixedWidth
  import opened Orders
  import opened PriceLadder
  import opened PriorityBook
  import opened Exchange
  import opened Ledger

  // ----- Price-time priority

  /** After any run, what a match trades on a side is its best price, and at that price the earliest order resting. */
  lemma RunRespectsPriority(es: seq<Event>, side: Side, o: Order)
    requires CounterHolds(es) && Crossed(Run(es).0.book)
    requires o in Run(es).0.book.Orders(side) && o != Run(es).0.book.Orders(side)[0]
    ensures var best := Run(es).0.book.Orders(side)[0];
            var price, bestPrice := o.price % 0x1_0000_0000, best.price % 0x1_0000_0000;
            && (if side.Bid? then price <= bestPrice else price >= bestPrice)
            && (price == bestPrice ==> best.id < o.id)
  {
    hide Run, LevelOf;
    RunKeepsInv(es);
    var b := Run(es).0.book;
    PricesAreLevels(b, side, o);
    PricesAreLevels(b, side, b.Orders(side)[0]);
    MatchedOrderHasPriority(b, side, o);
  }

  lemma PricesAreLevels(b: Book, side: Side, o: Order)
    requires BookInv(b) && o in b.Orders(side)
    ensures o.price % 0x1_0000_0000 == 950 + LevelOf(o.price)
  {
    TicksOrderLevels(o.price, o.price);
  }

  /** An order that enters the book gets a larger id than every order before it. */
  lemma IdsRecordArrival(es: seq<Event>, id: u64)
    requires CounterHolds(es) && |es| + 1 < TWO_TO_64
    requires id in Run(es).1.submitted
    ensures id < NextId(Run(es).0)
  {
    hide Run, Inv, HistoryInv;
    RunKeepsHistory(es);
    NewIdIsNew(Run(es).0, Run(es).1);
  }

  // ----- Partial fills

  /** Behind the first order of a level, every order still has the volume it was submitted with. */
  ghost predicate OnlyFrontsPartial(q: seq<Order>, submitted: map<u64, Order>) {
    forall i, j :: 0 <= i < j < |q| && LevelOf(q[i].price) == LevelOf(q[j].price) ==>
      q[j].id in submitted && q[j].volume == submitted[q[j].id].volume
  }

  ghost predicate FrontsPartial(b: Book, h: History) {
    OnlyFrontsPartial(b.bids, h.submitted) && OnlyFrontsPartial(b.asks, h.submitted)
  }

  lemma NewOrderKeepsFronts(q: seq<Order>, submitted: map<u64, Order>, o: Order)
    requires OnlyFrontsPartial(q, submitted) && Known(q, submitted) && o.id !in submitted
    ensures OnlyFrontsPartial(q, submitted[o.id := o])
  {
  }

  /** A new order goes behind all orders of its level. */
  lemma InsertKeepsFronts(q: seq<Order>, submitted: map<u64, Order>, o: Order)
    requires Sorted(q) && IdsBelow(q, o.id) && OnSide(q, o.side)
    requires OnlyFrontsPartial(q, submitted) && o.id in submitted && submitted[o.id] == o
    ensures OnlyFrontsPartial(Insert(q, o), submitted)
  {
    var k := InsertionPoint(q, o);
    forall j | k <= j < |q| ensures LevelOf(q[j].price) != LevelOf(o.price) {
      NoneOfItsLevelBehind(q, o, j);
    }
    InsertAtKeepsFronts(q, submitted, o, k);
  }

  lemma InsertAtKeepsFronts(q: seq<Order>, submitted: map<u64, Order>, o: Order, k: nat)
    requires k <= |q| && forall j :: k <= j < |q| ==> LevelOf(q[j].price) != LevelOf(o.price)
    requires OnlyFrontsPartial(q, submitted) && o.id in submitted && submitted[o.id] == o
    ensures OnlyFrontsPartial(q[..k] + [o] + q[k..], submitted)
  {
    hide LevelOf;
    var q' := q[..k] + [o] + q[k..];
    forall i, j | 0 <= i < j < |q'| && LevelOf(q'[i].price) == LevelOf(q'[j].price)
      ensures q'[j].id in submitted && q'[j].volume == submitted[q'[j].id].volume
    {
      if i != k && j != k {
        assert q'[i] == q[if i < k then i else i - 1] && q'[j] == q[if j < k then j else j - 1];
      }
    }
  }

  lemma NoneOfItsLevelBehind(q: seq<Order>, o: Order, j: nat)
    requires Sorted(q) && IdsBelow(q, o.id) && OnSide(q, o.side)
    requires InsertionPoint(q, o) <= j < |q|
    ensures LevelOf(q[j].price) != LevelOf(o.price)
  {
    hide LevelOf;
    var k := InsertionPoint(q, o);
    assert q[j] in q;
    if k < j {
      BehindStaysBehind(q[k], q[j], o);
    }
  }

  lemma SettleKeepsFronts(q: seq<Order>, submitted: map<u64, Order>, t: u64)
    requires q != [] && OnlyFrontsPartial(q, submitted)
    ensures OnlyFrontsPartial(Settle(q, t), submitted)
  {
    var q', d := Settle(q, t), |q| - |Settle(q, t)|;
    forall i, j | 0 <= i < j < |q'| && LevelOf(q'[i].price) == LevelOf(q'[j].price)
      ensures q'[j].id in submitted && q'[j].volume == submitted[q'[j].id].volume
    {
      assert LevelOf(q[i + d].price) == LevelOf(q[j + d].price) && q'[j] == q[j + d];
    }
  }

  lemma RemoveKeepsFronts(q: seq<Order>, submitted: map<u64, Order>, k: nat)
    requires k < |q| && OnlyFrontsPartial(q, submitted)
    ensures OnlyFrontsPartial(RemoveAt(q, k), submitted)
  {
    var q' := RemoveAt(q, k);
    forall i, j | 0 <= i < j < |q'| && LevelOf(q'[i].price) == LevelOf(q'[j].price)
      ensures q'[j].id in submitted && q'[j].volume == submitted[q'[j].id].volume
    {
      assert q'[i] == q[if i < k then i else i + 1] && q'[j] == q[if j < k then j else j + 1];
    }
  }

  lemma StepKeepsFronts(s: State, h: History, e: Event)
    requires Inv(s) && IdsLeft(s) && HistoryInv(s, h) && FrontsPartial(s.book, h)
    ensures FrontsPartial(Step(s, e).book, Record(s, h, e))
  {
    hide OnlyFrontsPartial, Settle, BookInv, HistoryInv, MatchedIds, MatchedKeys, RemoveAt;
    match e
    case AddOrder(o) => AddKeepsFronts(s, h, o);
    case MatchOrders =>
      if Crossed(s.book) {
        SettleKeepsFronts(s.book.bids, h.submitted, BestTrade(s.book).volume);
        SettleKeepsFronts(s.book.asks, h.submitted, BestTrade(s.book).volume);
      }
    case CancelOrder(id) =>
      if CancelFinds(s.book, id) {
        RemoveKeepsFronts(s.book.Orders(s.book.table[Key(id)].side), h.submitted, CancelPosition(s.book, id));
      }
  }

  lemma AddKeepsFronts(s: State, h: History, o: Order)
    requires Inv(s) && IdsLeft(s) && HistoryInv(s, h) && FrontsPartial(s.book, h)
    ensures FrontsPartial(AddStep(s, o).book, RecordAdd(s, h, o))
  {
    hide OnlyFrontsPartial, Insert, Sorted, IdsBelow, OnSide, Known, WellRecorded, RestingOrGone;
    if s.book.free > 0 && Tradable(o.price) {
      var o' := Stamped(s, o);
      NewIdIsNew(s, h);
      IdsBelowMore(s.book.Orders(o.side), s.lastId + 1, o'.id);
      NewOrderKeepsFronts(s.book.bids, h.submitted, o');
      NewOrderKeepsFronts(s.book.asks, h.submitted, o');
      InsertKeepsFronts(s.book.Orders(o.side), h.submitted[o'.id := o'], o');
    }
  }

  lemma IdsBelowMore(q: seq<Order>, bound: int, bound': int)
    requires IdsBelow(q, bound) && bound <= bound'
    ensures IdsBelow(q, bound')
  {
  }

  /** In every reachable state only the order at the front of a level can be partially filled. */
  lemma {:induction false} RunKeepsFronts(es: seq<Event>)
    requires CounterHolds(es)
    ensures FrontsPartial(Run(es).0.book, Run(es).1)
  {
    if es != [] {
      var es' := es[..|es| - 1];
      RunKeepsFronts(es');
      RunKeepsHistory(es');
      StepKeepsFronts(Run(es').0, Run(es').1, es[|es| - 1]);
    }
  }

  // ----- Pool slots

  /** Free slots, resting orders and adds refused for their price make up the pool. */
  ghost predicate SlotsAddUp(b: Book, h: History) {
    b.free + |b.bids| + |b.asks| + h.refused == POOL_SIZE
  }

  lemma StepKeepsSlots(s: State, h: History, e: Event)
    requires SlotsAddUp(s.book, h)
    ensures SlotsAddUp(Step(s, e).book, Record(s, h, e))
  {
    hide InsertionPoint, Position, UsesUp, BestTrade, Key, MatchedKeys, MatchedIds;
  }

  /** No slot is lost but to adds refused for their price, and those cost one each for good. */
  lemma {:induction false} RunKeepsSlots(es: seq<Event>)
    ensures SlotsAddUp(Run(es).0.book, Run(es).1)
  {
    if es != [] {
      var es' := es[..|es| - 1];
      RunKeepsSlots(es');
      StepKeepsSlots(Run(es').0, Run(es').1, es[|es| - 1]);
    }
  }

  // ----- Ids

  /** Every id that was given out belongs to an order that entered, or to an add refused for its price. */
  ghost predicate IdsAddUp(s: State, h: History) {
    s.lastId == |h.submitted| + h.refused
  }

  lemma StepKeepsIds(s: State, h: History, e: Event)
    requires IdsLeft(s) && HistoryInv(s, h) && IdsAddUp(s, h)
    ensures IdsAddUp(Step(s, e), Record(s, h, e))
  {
    hide HistoryInv, AddStep, RecordAdd, RecordMatch, RecordCancel, Match, Cancel;
    match e
    case AddOrder(o) =>
      NewIdIsNew(s, h);
      AddKeepsIds(s, h, o);
    case MatchOrders => OnlyAddsSubmit(s, h, 0);
    case CancelOrder(id) => OnlyAddsSubmit(s, h, id);
  }

  lemma OnlyAddsSubmit(s: State, h: History, id: u64)
    ensures RecordMatch(s, h).submitted == h.submitted && RecordMatch(s, h).refused == h.refused
    ensures RecordCancel(s, h, id).submitted == h.submitted && RecordCancel(s, h, id).refused == h.refused
  {
  }

  lemma AddKeepsIds(s: State, h: History, o: Order)
    requires IdsLeft(s) && IdsAddUp(s, h) && NextId(s) !in h.submitted
    ensures IdsAddUp(AddStep(s, o), RecordAdd(s, h, o))
  {
    hide Add, Tradable, Key;
  }

  /** An add refused for its price costs an id, an add without a free slot does not. */
  lemma {:induction false} RunKeepsIds(es: seq<Event>)
    requires CounterHolds(es)
    ensures IdsAddUp(Run(es).0, Run(es).1)
  {
    if es != [] {
      var es' := es[..|es| - 1];
      RunKeepsIds(es');
      RunKeepsHistory(es');
      StepKeepsIds(Run(es').0, Run(es').1, es[|es| - 1]);
    }
  }

  // ----- Orders rest as they were given

  /** The k-th event of the run is an add that entered the book under this id. */
  ghost predicate EnteredAt(es: seq<Event>, k: nat, id: u64) {
    k < |es| && es[k].AddOrder? && AddResult(Run(es[..k]).0, es[k].order) == Success(id)
  }

  lemma PrefixRuns(es: seq<Event>, k: nat)
    requires k < |es|
    ensures k < |es| - 1 ==> es[..|es| - 1][..k] == es[..k] && es[..|es| - 1][k] == es[k]
    ensures k == |es| - 1 ==> es[..k] == es[..|es| - 1]
  {
  }

  lemma StepSubmits(s: State, h: History, e: Event)
    requires IdsLeft(s)
    ensures var h' := Record(s, h, e);
            if e.AddOrder? && AddResult(s, e.order).Success?
            then
              && h'.submitted == h.submitted[s.lastId + 1 := e.order.(id := s.lastId + 1)]
              && AddResult(s, e.order).value == s.lastId + 1
            else h'.submitted == h.submitted
  {
    hide Tradable, Key, RecordMatch, RecordCancel;
    match e
    case AddOrder(o) =>
    case MatchOrders => OnlyAddsSubmit(s, h, 0);
    case CancelOrder(id) => OnlyAddsSubmit(s, h, id);
  }

  /** Every order on record is the argument of the add that was given its id, changed in its id only. */
  lemma {:induction false} SubmittedAsGiven(es: seq<Event>, id: u64) returns (k: nat)
    requires CounterHolds(es) && id in Run(es).1.submitted
    ensures EnteredAt(es, k, id) && Run(es).1.submitted[id] == es[k].order.(id := id)
  {
    hide AddResult;
    var n := |es| - 1;
    assert es != [];
    var (s, h) := Run(es[..n]);
    RunKeepsInv(es[..n]);
    StepSubmits(s, h, es[n]);
    if es[n].AddOrder? && AddResult(s, es[n].order) == Success(id) {
      k := n;
    } else {
      k := SubmittedAsGiven(es[..n], id);
      PrefixRuns(es, k);
    }
  }

  /** Every add that entered the book is on record as it was given, for the rest of the run. */
  lemma {:induction false} EnteredIsSubmitted(es: seq<Event>, k: nat, id: u64)
    requires CounterHolds(es) && EnteredAt(es, k, id)
    ensures id in Run(es).1.submitted && Run(es).1.submitted[id] == es[k].order.(id := id)
    decreases |es|
  {
    hide AddResult, HistoryInv, Inv;
    var n := |es| - 1;
    var (s, h) := Run(es[..n]);
    RunKeepsHistory(es[..n]);
    NewIdIsNew(s, h);
    StepSubmits(s, h, es[n]);
    PrefixRuns(es, k);
    if k < n {
      EnteredIsSubmitted(es[..n], k, id);
    }
  }

  /** Every order that rests is, but for its id and its volume, what some add of the run was called with. */
  lemma RestingAsGiven(es: seq<Event>, side: Side, o: Order) returns (k: nat)
    requires CounterHolds(es) && o in Run(es).0.book.Orders(side)
    ensures EnteredAt(es, k, o.id) && o == es[k].order.(id := o.id, volume := o.volume) && o.side == side
  {
    RunKeepsHistory(es);
    var b := Run(es).0.book;
    assert Known(b.bids, Run(es).1.submitted) && Known(b.asks, Run(es).1.submitted);
    k := SubmittedAsGiven(es, o.id);
  }
}
