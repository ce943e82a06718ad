/** Volume is neither made nor lost: per order, per side, and for exactly which runs. */
module Conservation {
  import opened FixedWidth
  import opened Orders
  import opened PriceLadder
  import opened VolumeArithmetic
  import opened PriorityBook
  import opened Exchange
  import opened Ledger

  // ----- Per order

  /** Filled plus remaining equals submitted, for every order of a list. */
  ghost predicate Balanced(q: seq<Order>, filled: map<u64, int>, submitted: map<u64, Order>) {
    forall o :: o in q ==> o.id in filled && o.id in submitted && filled[o.id] + o.volume == submitted[o.id].volume
  }

  /** Filled plus cancelled equals submitted, for every order that has left the book. */
  ghost predicate GoneBalanced(h: History) {
    forall id :: id in h.cancelled ==>
      id in h.filled && id in h.submitted && h.filled[id] + h.cancelled[id] == h.submitted[id].volume
  }

  ghost predicate PerOrder(s: State, h: History) {
    && Balanced(s.book.bids, h.filled, h.submitted)
    && Balanced(s.book.asks, h.filled, h.submitted)
    && GoneBalanced(h)
  }

  /** If this step trades, the 32-bit narrowing does not distort the two volumes. */
  ghost predicate TradesFaithfully(s: State, e: Event) {
    e.MatchOrders? && Crossed(s.book) ==> Faithful(s.book.asks[0].volume, s.book.bids[0].volume)
  }

  lemma AddKeepsPerOrder(s: State, h: History, o: Order)
    requires Inv(s) && IdsLeft(s) && HistoryInv(s, h) && PerOrder(s, h)
    ensures PerOrder(AddStep(s, o), RecordAdd(s, h, o))
  {
    if s.book.free > 0 && Tradable(o.price) {
      NewIdIsNew(s, h);
      EnteredOrderIsBalanced(s, h, o);
    }
  }

  lemma EnteredOrderIsBalanced(s: State, h: History, o: Order)
    requires PerOrder(s, h) && s.book.free > 0 && Tradable(o.price)
    requires NextId(s) !in h.submitted && NextId(s) !in h.cancelled
    ensures PerOrder(AddStep(s, o), RecordAdd(s, h, o))
  {
    hide Insert, Balanced, GoneBalanced;
    var o' := Stamped(s, o);
    NewOrderIsBalanced(s.book.bids, h, o');
    NewOrderIsBalanced(s.book.asks, h, o');
    GoneStaysBalanced(h, RecordAdd(s, h, o), o');
  }

  lemma GoneStaysBalanced(h: History, h': History, o: Order)
    requires GoneBalanced(h) && o.id !in h.cancelled && h'.cancelled == h.cancelled
    requires h'.filled == h.filled[o.id := 0] && h'.submitted == h.submitted[o.id := o]
    ensures GoneBalanced(h')
  {
  }

  lemma NewOrderIsBalanced(q: seq<Order>, h: History, o: Order)
    requires Balanced(q, h.filled, h.submitted) && o.id !in h.submitted
    ensures Balanced(q, h.filled[o.id := 0], h.submitted[o.id := o])
    ensures Balanced(Insert(q, o), h.filled[o.id := 0], h.submitted[o.id := o])
  {
    hide Insert;
    InsertMembers(q, o);
  }

  lemma CancelKeepsPerOrder(s: State, h: History, id: u64)
    requires PerOrder(s, h)
    ensures PerOrder(Step(s, CancelOrder(id)), RecordCancel(s, h, id))
  {
    hide Balanced, GoneBalanced, RemoveAt;
    if CancelFinds(s.book, id) {
      var q, k := s.book.Orders(s.book.table[Key(id)].side), CancelPosition(s.book, id);
      RemovedOrderIsBalanced(q, k, h, RecordCancel(s, h, id));
    }
  }

  lemma RemovedOrderIsBalanced(q: seq<Order>, k: nat, h: History, h': History)
    requires k < |q| && Balanced(q, h.filled, h.submitted) && GoneBalanced(h)
    requires h'.filled == h.filled && h'.submitted == h.submitted && h'.cancelled == h.cancelled[q[k].id := q[k].volume]
    ensures Balanced(RemoveAt(q, k), h.filled, h.submitted) && GoneBalanced(h')
  {
    assert q[k] in q;
    RemoveMembers(q, k);
  }

  /** What trading t means for the records of one side's orders. */
  ghost predicate FilledBy(q: seq<Order>, t: u64, filled: map<u64, int>, filled': map<u64, int>)
    requires q != []
  {
    && (forall o :: o in q ==> o.id in filled && o.id in filled')
    && (forall o :: o in q && o.id != q[0].id ==> filled'[o.id] == filled[o.id])
    && filled'[q[0].id] == filled[q[0].id] + t
  }

  lemma MatchFills(s: State, h: History)
    requires Crossed(s.book) && HistoryInv(s, h)
    ensures var t := BestTrade(s.book).volume;
            && FilledBy(s.book.bids, t, h.filled, RecordMatch(s, h).filled)
            && FilledBy(s.book.asks, t, h.filled, RecordMatch(s, h).filled)
  {
    hide BookInv, Known, MatchedIds, BestTrade;
    var b := s.book;
    assert b.bids[0] in b.bids && b.asks[0] in b.asks;
    forall o | o in b.bids ensures o.id in h.filled && o.id != b.asks[0].id {
      assert o.id in Ids(b.bids) && b.asks[0].id in Ids(b.asks);
    }
    forall o | o in b.asks ensures o.id in h.filled && o.id != b.bids[0].id {
      assert o.id in Ids(b.asks) && b.bids[0].id in Ids(b.bids);
    }
  }

  /** After a trade the side's orders are balanced exactly if the trade accounts for the first one. */
  lemma SettleBalanced(q: seq<Order>, t: u64, filled: map<u64, int>, filled': map<u64, int>, submitted: map<u64, Order>)
    requires q != [] && Sorted(q) && Known(q, submitted)
    requires Balanced(q, filled, submitted) && FilledBy(q, t, filled, filled')
    ensures !UsesUp(q, t) ==> (Balanced(Settle(q, t), filled', submitted) <==> Accounts(q[0].volume, t))
    ensures UsesUp(q, t) ==> Balanced(Settle(q, t), filled', submitted)
    ensures UsesUp(q, t) ==> (filled'[q[0].id] == submitted[q[0].id].volume <==> Accounts(q[0].volume, t))
  {
    var q' := Settle(q, t);
    assert q[0] in q;
    forall i | 1 <= i < |q| ensures q[i].id != q[0].id && filled'[q[i].id] + q[i].volume == submitted[q[i].id].volume {
      IdsAreDistinct(q, submitted, 0, i);
      assert q[i] in q;
    }
    if !UsesUp(q, t) {
      assert q'[0] in q';
    }
  }

  /** After a trade, one side's records are in order exactly if the trade accounts for its first order. */
  ghost predicate SideInOrder(q: seq<Order>, t: u64, h': History)
    requires q != []
  {
    && Balanced(Settle(q, t), h'.filled, h'.submitted)
    && (UsesUp(q, t) ==> IsFilled(q[0].id, h'))
  }

  ghost predicate IsFilled(id: u64, h: History) {
    id in h.filled && id in h.submitted && h.filled[id] == h.submitted[id].volume
  }

  lemma SideInOrderIffAccounts(s: State, h: History, side: Side)
    requires Crossed(s.book) && BookInv(s.book) && HistoryInv(s, h) && PerOrder(s, h)
    ensures var q, t := s.book.Orders(side), BestTrade(s.book).volume;
            SideInOrder(q, t, RecordMatch(s, h)) <==> Accounts(q[0].volume, t)
  {
    hide Settle, Accounts, Balanced, RestingOrGone, BestTrade, UsesUp, Sorted, OnSide;
    var q, t := s.book.Orders(side), BestTrade(s.book).volume;
    assert q[0] in q;
    MatchFills(s, h);
    SettleBalanced(q, t, h.filled, RecordMatch(s, h).filled, h.submitted);
  }

  lemma MatchPerOrder(s: State, h: History)
    requires Inv(s) && HistoryInv(s, h) && PerOrder(s, h)
    ensures PerOrder(Step(s, MatchOrders), RecordMatch(s, h)) <==> TradesFaithfully(s, MatchOrders)
  {
    hide Settle, Accounts, Balanced, GoneBalanced, BookInv, HistoryInv, UsesUp, IsFilled, Faithful, TradeVolume, MatchedKeys;
    if Crossed(s.book) {
      SideInOrderIffAccounts(s, h, Bid);
      SideInOrderIffAccounts(s, h, Ask);
      AccountsIffFaithful(s.book.asks[0].volume, s.book.bids[0].volume);
      GoneAfterMatch(s, h);
    }
  }

  /** Orders removed by the match are recorded with nothing cancelled, the others as before. */
  lemma GoneAfterMatch(s: State, h: History)
    requires Crossed(s.book) && HistoryInv(s, h) && GoneBalanced(h)
    ensures var h', t := RecordMatch(s, h), BestTrade(s.book).volume;
            GoneBalanced(h')
            <==> (UsesUp(s.book.bids, t) ==> IsFilled(s.book.bids[0].id, h'))
                 && (UsesUp(s.book.asks, t) ==> IsFilled(s.book.asks[0].id, h'))
  {
    hide HistoryInv, Crossed, BestTrade, GoneBalanced, UsesUp, IsFilled;
    var h', ids := RecordMatch(s, h), MatchedIds(s.book);
    BestOrdersAreOpen(s, h);
    CancelledOrdersStayFilled(s, h);
    GoneBalancedExtends(h, h', ids);
  }

  lemma CancelledOrdersStayFilled(s: State, h: History)
    requires Crossed(s.book) && HistoryInv(s, h)
    ensures forall id :: id in h.cancelled ==>
              id in h.filled && id in RecordMatch(s, h).filled && RecordMatch(s, h).filled[id] == h.filled[id]
  {
    hide BestTrade, BookInv, MatchedIds, Known;
    BestOrdersAreOpen(s, h);
    assert h.cancelled.Keys <= h.submitted.Keys;
  }

  lemma GoneBalancedExtends(h: History, h': History, ids: set<u64>)
    requires GoneBalanced(h) && h.cancelled.Keys !! ids
    requires h'.submitted == h.submitted && h'.cancelled == h.cancelled + (map id | id in ids :: 0)
    requires forall id :: id in h.cancelled ==> id in h.filled && id in h'.filled && h'.filled[id] == h.filled[id]
    ensures GoneBalanced(h') <==> forall id :: id in ids ==> IsFilled(id, h')
  {
    forall id ensures id in h'.cancelled <==> id in h.cancelled || id in ids {
    }
  }

  lemma BestOrdersAreOpen(s: State, h: History)
    requires Crossed(s.book) && HistoryInv(s, h)
    ensures MatchedIds(s.book) <= {s.book.bids[0].id, s.book.asks[0].id} <= h.filled.Keys - h.cancelled.Keys
  {
    var b := s.book;
    assert b.bids[0] in b.bids && b.asks[0] in b.asks;
    assert b.bids[0].id in Ids(b.bids) && b.asks[0].id in Ids(b.asks);
  }

  // ----- Per side

  function VolumeOf(q: seq<Order>): nat {
    if q == [] then 0 else q[0].volume + VolumeOf(q[1..])
  }

  lemma {:induction false} VolumeOfConcat(p: seq<Order>, q: seq<Order>)
    ensures VolumeOf(p + q) == VolumeOf(p) + VolumeOf(q)
  {
    if p == [] {
      assert p + q == q;
    } else {
      assert (p + q)[1..] == p[1..] + q;
      VolumeOfConcat(p[1..], q);
    }
  }

  lemma VolumeOfInsert(q: seq<Order>, o: Order)
    ensures VolumeOf(Insert(q, o)) == VolumeOf(q) + o.volume
  {
    var k := InsertionPoint(q, o);
    assert q == q[..k] + q[k..];
    VolumeOfConcat(q[..k], q[k..]);
    VolumeOfConcat(q[..k] + [o], q[k..]);
    VolumeOfConcat(q[..k], [o]);
  }

  lemma VolumeOfRemoveAt(q: seq<Order>, k: nat)
    requires k < |q|
    ensures VolumeOf(RemoveAt(q, k)) == VolumeOf(q) - q[k].volume
  {
    assert q == q[..k] + q[k..] && q[k..][1..] == q[k + 1..];
    VolumeOfConcat(q[..k], q[k..]);
    VolumeOfConcat(q[..k], q[k + 1..]);
  }

  lemma VolumeOfSettle(q: seq<Order>, t: u64)
    requires q != [] && Accounts(q[0].volume, t)
    ensures VolumeOf(Settle(q, t)) == VolumeOf(q) - t
  {
    assert Settle(q, t) == q[1..] || Settle(q, t)[1..] == q[1..];
  }

  /** The volume that entered a side is resting there, was traded, or was cancelled. */
  ghost predicate SideBalanced(s: State, h: History, side: Side) {
    h.FlowOf(side).entered == VolumeOf(s.book.Orders(side)) + h.traded + h.FlowOf(side).cancelled
  }

  lemma StepKeepsSideBalanced(s: State, h: History, e: Event, side: Side)
    requires Inv(s) && IdsLeft(s) && TradesFaithfully(s, e) && SideBalanced(s, h, side)
    ensures SideBalanced(Step(s, e), Record(s, h, e), side)
  {
    match e
    case AddOrder(o) => AddKeepsSideBalanced(s, h, o, side);
    case MatchOrders => MatchKeepsSideBalanced(s, h, side);
    case CancelOrder(id) => CancelKeepsSideBalanced(s, h, id, side);
  }

  lemma AddKeepsSideBalanced(s: State, h: History, o: Order, side: Side)
    requires SideBalanced(s, h, side)
    ensures SideBalanced(AddStep(s, o), RecordAdd(s, h, o), side)
  {
    hide Insert, VolumeOf;
    VolumeOfInsert(s.book.Orders(o.side), Stamped(s, o));
  }

  lemma MatchKeepsSideBalanced(s: State, h: History, side: Side)
    requires TradesFaithfully(s, MatchOrders) && SideBalanced(s, h, side)
    ensures SideBalanced(Step(s, MatchOrders), RecordMatch(s, h), side)
  {
    hide Settle, Accounts, VolumeOf, TradeVolume;
    if Crossed(s.book) {
      AccountsIffFaithful(s.book.asks[0].volume, s.book.bids[0].volume);
      VolumeOfSettle(s.book.Orders(side), BestTrade(s.book).volume);
    }
  }

  lemma CancelKeepsSideBalanced(s: State, h: History, id: u64, side: Side)
    requires BookInv(s.book) && SideBalanced(s, h, side)
    ensures SideBalanced(Step(s, CancelOrder(id)), RecordCancel(s, h, id), side)
  {
    hide RemoveAt, BookInv, VolumeOf;
    if CancelFinds(s.book, id) {
      CancelTargetSide(s.book, id);
      VolumeOfRemoveAt(s.book.Orders(s.book.table[Key(id)].side), CancelPosition(s.book, id));
    }
  }

  lemma CancelTargetSide(b: Book, id: u64)
    requires BookInv(b) && CancelFinds(b, id)
    ensures CancelTarget(b, id).side == b.table[Key(id)].side
  {
    assert CancelTarget(b, id) in b.Orders(b.table[Key(id)].side);
  }

  // ----- Runs

  /** Every trade of the run is faithful to the volumes it trades. */
  ghost predicate FaithfulRun(es: seq<Event>) {
    es == [] || (FaithfulRun(es[..|es| - 1]) && TradesFaithfully(Run(es[..|es| - 1]).0, es[|es| - 1]))
  }

  /** Filled plus remaining equals submitted, for every order, after the run and after each of its prefixes. */
  ghost predicate ConservedThroughout(es: seq<Event>) {
    PerOrder(Run(es).0, Run(es).1) && (es == [] || ConservedThroughout(es[..|es| - 1]))
  }

  /** A run conserves every order's volume at every point exactly when every trade of it was faithful. */
  lemma {:induction false} ConservedIffFaithful(es: seq<Event>)
    requires CounterHolds(es)
    ensures ConservedThroughout(es) <==> FaithfulRun(es)
  {
    if es != [] {
      ConservedIffFaithful(es[..|es| - 1]);
      if ConservedThroughout(es[..|es| - 1]) {
        LastStepConserves(es);
      }
    }
  }

  lemma LastStepConserves(es: seq<Event>)
    requires CounterHolds(es) && es != []
    requires PerOrder(Run(es[..|es| - 1]).0, Run(es[..|es| - 1]).1)
    ensures PerOrder(Run(es).0, Run(es).1) <==> TradesFaithfully(Run(es[..|es| - 1]).0, es[|es| - 1])
  {
    var es', e := es[..|es| - 1], es[|es| - 1];
    var (s, h) := Run(es');
    RunKeepsHistory(es');
    match e
    case AddOrder(o) => AddKeepsPerOrder(s, h, o);
    case MatchOrders => MatchPerOrder(s, h);
    case CancelOrder(id) => CancelKeepsPerOrder(s, h, id);
  }

  /** In such runs each side's volume is accounted for too: both sides have traded the same volume. */
  lemma {:induction false} SidesConserved(es: seq<Event>, side: Side)
    requires CounterHolds(es) && FaithfulRun(es)
    ensures SideBalanced(Run(es).0, Run(es).1, side)
  {
    if es != [] {
      var n := |es| - 1;
      SidesConserved(es[..n], side);
      RunKeepsInv(es[..n]);
      StepKeepsSideBalanced(Run(es[..n]).0, Run(es[..n]).1, es[n], side);
    }
  }

  // ----- Small volumes

  ghost predicate SmallVolumes(es: seq<Event>) {
    forall e :: e in es && e.AddOrder? ==> e.order.volume < 0x8000_0000
  }

  ghost predicate AllSmall(q: seq<Order>) {
    forall o :: o in q ==> o.volume < TWO_TO_31
  }

  lemma SettleKeepsSmall(q: seq<Order>, t: u64)
    requires q != [] && AllSmall(q) && t < TWO_TO_31
    ensures AllSmall(Settle(q, t))
  {
    assert q[0] in q;
  }

  lemma StepKeepsSmall(s: State, e: Event)
    requires e.AddOrder? ==> e.order.volume < TWO_TO_31
    requires AllSmall(s.book.bids) && AllSmall(s.book.asks)
    ensures AllSmall(Step(s, e).book.bids) && AllSmall(Step(s, e).book.asks)
    ensures TradesFaithfully(s, e)
  {
    hide Insert, Settle, TradeVolume, RemoveAt;
    match e
    case AddOrder(o) =>
      InsertMembers(s.book.Orders(o.side), Stamped(s, o));
    case MatchOrders =>
      if Crossed(s.book) {
        assert s.book.bids[0] in s.book.bids && s.book.asks[0] in s.book.asks;
        SmallVolumesFaithful(s.book.asks[0].volume, s.book.bids[0].volume);
        SettleKeepsSmall(s.book.bids, BestTrade(s.book).volume);
        SettleKeepsSmall(s.book.asks, BestTrade(s.book).volume);
      }
    case CancelOrder(id) =>
      if CancelFinds(s.book, id) {
        RemoveMembers(s.book.Orders(s.book.table[Key(id)].side), CancelPosition(s.book, id));
      }
  }

  /** Runs that submit volumes below 2^31 only trade faithfully. */
  lemma {:induction false} SmallRunsAreFaithful(es: seq<Event>)
    requires SmallVolumes(es)
    ensures FaithfulRun(es)
    ensures AllSmall(Run(es).0.book.bids) && AllSmall(Run(es).0.book.asks)
  {
    hide Step, Record, TradesFaithfully;
    if es != [] {
      var n := |es| - 1;
      assert es == es[..n] + [es[n]];
      SmallRunsAreFaithful(es[..n]);
      StepKeepsSmall(Run(es[..n]).0, es[n]);
    }
  }

  lemma RunSteps(es: seq<Event>, e: Event)
    ensures var (s, h) := Run(es);
            Run(es + [e]) == (Step(s, e), Record(s, h, e))
  {
    assert (es + [e])[..|es|] == es;
  }

  /** A volume of 2^32 narrows to zero: matching it trades nothing and throws its order away. */
  lemma LargeVolumeIsLost()
    ensures var es := [AddOrder(Order(Bid, 10, "A", 0, 1000)), AddOrder(Order(Ask, 0x1_0000_0000, "A", 0, 1000)), MatchOrders];
            Run(es).0.book.asks == [] && Run(es).1.traded == 0 && !PerOrder(Run(es).0, Run(es).1)
  {
    var bid, ask := AddOrder(Order(Bid, 10, "A", 0, 1000)), AddOrder(Order(Ask, TWO_TO_32, "A", 0, 1000));
    RunSteps([], bid);
    RunSteps([bid], ask);
    RunSteps([bid, ask], MatchOrders);
    assert [] + [bid] == [bid] && [bid] + [ask] == [bid, ask] && [bid, ask] + [MatchOrders] == [bid, ask, MatchOrders];
    LargeVolumeSteps(bid.order, ask.order, Run([bid]).0, Run([bid]).1, Run([bid, ask]).0, Run([bid, ask]).1);
    hide Run, AddStep, RecordAdd, Match, RecordMatch, GoneBalanced;
  }

  lemma LargeVolumeSteps(bid: Order, ask: Order, s1: State, h1: History, s2: State, h2: History)
    requires bid == Order(Bid, 10, "A", 0, 1000) && ask == Order(Ask, TWO_TO_32, "A", 0, 1000)
    requires s1 == AddStep(START, bid) && h1 == RecordAdd(START, NO_HISTORY, bid)
    requires s2 == AddStep(s1, ask) && h2 == RecordAdd(s1, h1, ask)
    ensures Match(s2.book).asks == [] && RecordMatch(s2, h2).traded == 0 && !GoneBalanced(RecordMatch(s2, h2))
  {
    hide AddStep, RecordAdd, Match, RecordMatch, GoneBalanced;
    AddToEmptySide(START, NO_HISTORY, bid);
    AddToEmptySide(s1, h1, ask);
    LargeAskIsThrownAway(s2, h2);
  }

  lemma AddToEmptySide(s: State, h: History, o: Order)
    requires s.book.free > 1 && Tradable(o.price) && s.book.Orders(o.side) == []
    ensures var s', h' := AddStep(s, o), RecordAdd(s, h, o);
            && s'.book.Orders(o.side) == [Stamped(s, o)]
            && s'.book.Orders(if o.side.Bid? then Ask else Bid) == s.book.Orders(if o.side.Bid? then Ask else Bid)
            && s'.lastId == NextId(s) && s'.book.free >= s.book.free - 1 && h'.traded == h.traded
            && NextId(s) in h'.submitted && h'.submitted[NextId(s)] == Stamped(s, o) && FilledVolume(h', NextId(s)) == 0
  {
  }

  lemma LargeAskIsThrownAway(s: State, h: History)
    requires s.book.bids == [Order(Bid, 10, "A", 1, 1000)] && s.book.asks == [Order(Ask, TWO_TO_32, "A", 2, 1000)]
    requires 2 in h.submitted && h.submitted[2].volume == TWO_TO_32 && FilledVolume(h, 2) == 0
    ensures Match(s.book).asks == [] && RecordMatch(s, h).traded == h.traded
    ensures !GoneBalanced(RecordMatch(s, h))
  {
    var b := s.book;
    assert TradeVolume(b.asks[0].volume, b.bids[0].volume) == 0 && Exhausted(Reduced(b.asks[0].volume, 0));
    hide TradeVolume, Reduced, Exhausted, MatchedKeys;
    var h' := RecordMatch(s, h);
    assert 2 in h'.cancelled && h'.cancelled[2] == 0 && h'.filled[2] == 0;
  }
}
