/**
 The matching engine as a state machine. Each locked method of the engine is one step; a run is
 any sequence of steps. A history beside the state records what became of every order.
 */
module Exchange {
  import opened FixedWidth
  import opened Orders
  import opened PriceLadder
  import opened VolumeArithmetic
  import opened PriorityBook

  datatype State = State(book: Book, lastId: u64)

  datatype Event = AddOrder(order: Order) | MatchOrders | CancelOrder(id: u64)

  const EMPTY_BOOK := Book([], [], map[], POOL_SIZE)
  const START := State(EMPTY_BOOK, 0)

  function NextId(s: State): u64 {
    ToU64(s.lastId + 1)
  }

  /** The order as it is stored: its own id is replaced by the engine's. */
  function Stamped(s: State, o: Order): Order {
    o.(id := NextId(s))
  }

  /** An id and a pool slot are taken before the price is looked at. */
  function AddStep(s: State, o: Order): State {
    if s.book.free == 0 then s
    else
      var taken := s.book.(free := s.book.free - 1);
      State(if Tradable(o.price) then Add(taken, Stamped(s, o)) else taken, NextId(s))
  }

  /** What the caller of an add is told. */
  function AddResult(s: State, o: Order): Result<u64> {
    if s.book.free == 0 then Failure(PoolExhausted)
    else if !Tradable(o.price) then Failure(InvalidPrice)
    else Success(NextId(s))
  }

  function Step(s: State, e: Event): State {
    match e
    case AddOrder(o) => AddStep(s, o)
    case MatchOrders => s.(book := Match(s.book))
    case CancelOrder(id) => s.(book := Cancel(s.book, id))
  }

  ghost predicate Inv(s: State) {
    && BookInv(s.book)
    && IdsBelow(s.book.bids, s.lastId + 1)
    && IdsBelow(s.book.asks, s.lastId + 1)
  }

  /** The id counter does not wrap in this step. */
  predicate IdsLeft(s: State) {
    s.lastId + 1 < TWO_TO_64
  }

  lemma StepKeepsInv(s: State, e: Event)
    requires Inv(s) && IdsLeft(s)
    ensures Inv(Step(s, e))
  {
    match e
    case AddOrder(o) => AddStepKeepsInv(s, o);
    case MatchOrders => MatchStepKeepsInv(s);
    case CancelOrder(id) => CancelStepKeepsInv(s, id);
  }

  lemma AddStepKeepsInv(s: State, o: Order)
    requires Inv(s) && IdsLeft(s)
    ensures Inv(AddStep(s, o))
  {
    hide BookInv, Add;
    if s.book.free > 0 {
      var taken := s.book.(free := s.book.free - 1);
      TakingASlotKeepsInv(s.book);
      if Tradable(o.price) {
        AddKeepsInv(taken, Stamped(s, o));
        AddKeepsIdsBelow(taken, Stamped(s, o), s.lastId + 2);
      }
    }
  }

  lemma MatchStepKeepsInv(s: State)
    requires Inv(s)
    ensures Inv(s.(book := Match(s.book)))
  {
    MatchKeepsInv(s.book);
    MatchKeepsIdsBelow(s.book, s.lastId + 1);
  }

  lemma CancelStepKeepsInv(s: State, id: u64)
    requires Inv(s)
    ensures Inv(s.(book := Cancel(s.book, id)))
  {
    CancelKeepsInv(s.book, id);
    CancelKeepsIdsBelow(s.book, id, s.lastId + 1);
  }

  // ----- What an add does, spelled out

  lemma MultisetOfInsert(q: seq<Order>, o: Order)
    ensures multiset(Insert(q, o)) == multiset(q) + multiset{o}
  {
    assert q == q[..InsertionPoint(q, o)] + q[InsertionPoint(q, o)..];
  }

  /**
   For any order: with a free slot and an accepted price it rests on its side exactly as given but for
   its id, which is the next one, and the caller is told that id. With another price only the slot and
   the id are gone. Without a free slot nothing changes.
   */
  lemma AddOutcome(s: State, o: Order)
    requires IdsLeft(s)
    ensures var t, r := Step(s, Event.AddOrder(o)), AddResult(s, o);
            var stored, other := o.(id := s.lastId + 1), if o.side.Bid? then Ask else Bid;
            if s.book.free == 0 then
              t == s && r == Failure(PoolExhausted)
            else if 950 <= o.price % 0x1_0000_0000 <= 1050 then
              && r == Success(s.lastId + 1) && t.lastId == s.lastId + 1
              && multiset(t.book.Orders(o.side)) == multiset(s.book.Orders(o.side)) + multiset{stored}
              && t.book.Orders(other) == s.book.Orders(other)
              && t.book.table == s.book.table[(s.lastId + 1) % 10000 := Entry(o.price, o.side)]
              && t.book.free == s.book.free - 1
            else
              r == Failure(InvalidPrice) && t == State(s.book.(free := s.book.free - 1), s.lastId + 1)
  {
    hide Insert, Tradable;
    AcceptedPrices(o.price, 0);
    MultisetOfInsert(s.book.Orders(o.side), Stamped(s, o));
  }

  /** A run starts with both sides and the table empty, 10000 free slots, and id 1 to give out first. */
  lemma StartIsEmpty()
    ensures START.book.bids == [] && START.book.asks == [] && START.book.table == map[] && START.book.free == 10000
    ensures START.lastId == 0
  {
  }

  // ----- Runs

  /** Volume of one side that has entered the book, and volume that was cancelled. */
  datatype Flow = Flow(entered: int, cancelled: int)

  /**
   submitted: the orders that entered the book, as they were then;
   filled: the volume each has traded; cancelled: the volume each lost to a cancel, once it has left;
   newest: for each table slot, the id that entered the book last;
   refused: how many pool slots went to adds refused for their price.
   */
  datatype History = History(
    submitted: map<u64, Order>, filled: map<u64, int>, cancelled: map<u64, int>, newest: map<nat, u64>,
    bidFlow: Flow, askFlow: Flow, traded: int, refused: nat)
  {
    function FlowOf(side: Side): Flow {
      if side.Bid? then bidFlow else askFlow
    }

    function WithFlow(side: Side, f: Flow): History {
      if side.Bid? then this.(bidFlow := f) else this.(askFlow := f)
    }
  }

  const NO_HISTORY := History(map[], map[], map[], map[], Flow(0, 0), Flow(0, 0), 0, 0)

  function RecordAdd(s: State, h: History, o: Order): History {
    if s.book.free == 0 then h
    else if !Tradable(o.price) then h.(refused := h.refused + 1)
    else
      var o' := Stamped(s, o);
      var f := h.FlowOf(o.side);
      h.(submitted := h.submitted[o'.id := o'], filled := h.filled[o'.id := 0], newest := h.newest[Key(o'.id) := o'.id])
       .WithFlow(o.side, f.(entered := f.entered + o.volume))
  }

  function RecordMatch(s: State, h: History): History {
    if !Crossed(s.book) then h
    else
      var bid, ask, t := s.book.bids[0], s.book.asks[0], BestTrade(s.book).volume;
      var filled := h.filled[bid.id := FilledVolume(h, bid.id) + t];
      h.(filled := filled[ask.id := FilledVolume(h, ask.id) + t],
         cancelled := h.cancelled + (map id | id in MatchedIds(s.book) :: 0),
         traded := h.traded + t)
  }

  function FilledVolume(h: History, id: u64): int {
    if id in h.filled then h.filled[id] else 0
  }

  /** The orders a match removes from the book. */
  function MatchedIds(b: Book): set<u64>
    requires Crossed(b)
  {
    var t := BestTrade(b).volume;
    (if UsesUp(b.asks, t) then {b.asks[0].id} else {}) + (if UsesUp(b.bids, t) then {b.bids[0].id} else {})
  }

  function RecordCancel(s: State, h: History, id: u64): History {
    if !CancelFinds(s.book, id) then h
    else
      var o := CancelTarget(s.book, id);
      var f := h.FlowOf(o.side);
      h.(cancelled := h.cancelled[o.id := o.volume]).WithFlow(o.side, f.(cancelled := f.cancelled + o.volume))
  }

  function CancelTarget(b: Book, id: u64): Order
    requires CancelFinds(b, id)
  {
    b.Orders(b.table[Key(id)].side)[CancelPosition(b, id)]
  }

  function Record(s: State, h: History, e: Event): History {
    match e
    case AddOrder(o) => RecordAdd(s, h, o)
    case MatchOrders => RecordMatch(s, h)
    case CancelOrder(id) => RecordCancel(s, h, id)
  }

  /** The state after a run from an empty book, and its history. */
  function Run(es: seq<Event>): (State, History) {
    if es == [] then (START, NO_HISTORY)
    else
      var (s, h) := Run(es[..|es| - 1]);
      (Step(s, es[|es| - 1]), Record(s, h, es[|es| - 1]))
  }

  /** A run is short enough for the id counter not to wrap. */
  predicate CounterHolds(es: seq<Event>) {
    |es| < 0x1_0000_0000_0000_0000
  }

  lemma StartKeepsInv()
    ensures Inv(START)
  {
  }

  lemma StepCounts(s: State, e: Event)
    requires IdsLeft(s)
    ensures Step(s, e).lastId <= s.lastId + 1
  {
    hide Add, Match, Cancel;
  }

  /** Every state a run reaches satisfies the invariant; the counter grows by at most one a step. */
  lemma {:induction false} RunKeepsInv(es: seq<Event>)
    requires CounterHolds(es)
    ensures Inv(Run(es).0) && Run(es).0.lastId <= |es|
  {
    hide Inv, Record;
    StartKeepsInv();
    if es != [] {
      RunKeepsInv(es[..|es| - 1]);
      StepKeepsInv(Run(es[..|es| - 1]).0, es[|es| - 1]);
      StepCounts(Run(es[..|es| - 1]).0, es[|es| - 1]);
    }
  }
}
