/** What calling match until it returns nothing does to a book. */
module Clearing {
  import opened FixedWidth
  import opened Orders
  import opened PriceLadder
  import opened VolumeArithmetic
  import opened PriorityBook
  import opened Exchange
  import opened Conservation

  /** Match until no trade results: the book that is left, and the trades. */
  function Drain(b: Book): (Book, seq<Trade>)
    decreases |b.bids| + |b.asks|
  {
    if !Crossed(b) then (b, [])
    else
      MatchRemovesAnOrder(b);
      var (last, trades) := Drain(Match(b));
      (last, [BestTrade(b)] + trades)
  }

  function TotalVolume(trades: seq<Trade>): nat {
    if trades == [] then 0 else trades[0].volume + TotalVolume(trades[1..])
  }

  // ----- Draining ends

  /** n resting orders give at most n - 1 trades, whatever their volumes; then a side is empty or the best prices do not meet. */
  lemma {:induction false} DrainEnds(b: Book)
    requires BookInv(b)
    ensures var (last, trades) := Drain(b);
            && BookInv(last)
            && (|b.bids| + |b.asks| > 0 ==> |trades| <= |b.bids| + |b.asks| - 1)
            && (|b.bids| + |b.asks| == 0 ==> trades == [])
            && (last.bids == [] || last.asks == [] || LevelOf(last.bids[0].price) < LevelOf(last.asks[0].price))
    decreases |b.bids| + |b.asks|
  {
    if Crossed(b) {
      MatchRemovesAnOrder(b);
      MatchKeepsInv(b);
      DrainEnds(Match(b));
    } else if b.bids != [] && b.asks != [] {
      CrossedByLevels(b);
    }
  }

  lemma CrossedByLevels(b: Book)
    requires BookInv(b) && b.bids != [] && b.asks != []
    ensures Crossed(b) <==> LevelOf(b.bids[0].price) >= LevelOf(b.asks[0].price)
  {
    assert b.bids[0] in b.bids && b.asks[0] in b.asks;
    TicksOrderLevels(b.bids[0].price, b.asks[0].price);
  }

  // ----- Draining fills a prefix

  /** q' is what is left of q when a prefix of it is filled, and the next order possibly in part. */
  ghost predicate RestOf(q: seq<Order>, q': seq<Order>) {
    && |q'| <= |q|
    && (forall i :: 1 <= i < |q'| ==> q'[i] == q[|q| - |q'| + i])
    && (q' != [] ==> q'[0] == q[|q| - |q'|].(volume := q'[0].volume))
  }

  /** On each side a drain fills a prefix of the priority order, and touches one order behind it at most. */
  lemma {:induction false} DrainFillsAPrefix(b: Book)
    ensures RestOf(b.bids, Drain(b).0.bids) && RestOf(b.asks, Drain(b).0.asks)
    decreases |b.bids| + |b.asks|
  {
    if Crossed(b) {
      MatchRemovesAnOrder(b);
      DrainFillsAPrefix(Match(b));
      var t := BestTrade(b).volume;
      SettleThenRest(b.bids, t, Drain(b).0.bids);
      SettleThenRest(b.asks, t, Drain(b).0.asks);
    }
  }

  lemma SettleThenRest(q: seq<Order>, t: u64, q': seq<Order>)
    requires q != [] && RestOf(Settle(q, t), q')
    ensures RestOf(q, q')
  {
    var m, d := Settle(q, t), |q| - |Settle(q, t)|;
    assert forall i :: 1 <= i < |m| ==> m[i] == q[i + d];
    assert m != [] ==> m[0] == q[d].(volume := m[0].volume);
  }

  // ----- The volume that clears

  /** The volume resting on the levels from lo to hi. */
  function VolumeWithin(q: seq<Order>, lo: int, hi: int): nat {
    if q == [] then 0
    else (if lo <= LevelOf(q[0].price) <= hi then q[0].volume else 0) + VolumeWithin(q[1..], lo, hi)
  }

  /** What bids at level p or higher and asks at level p or lower could trade with each other. */
  function CrossingVolume(b: Book, p: int): nat {
    Min(VolumeWithin(b.bids, p, 100), VolumeWithin(b.asks, 0, p))
  }

  /** v is the maximum of the crossing volume over all prices. */
  ghost predicate IsClearingVolume(b: Book, v: int) {
    && (forall p :: CrossingVolume(b, p) <= v)
    && exists p :: CrossingVolume(b, p) == v
  }

  /** Every trade of the drain is faithful to the volumes it trades. */
  ghost predicate FaithfulDrain(b: Book)
    decreases |b.bids| + |b.asks|
  {
    Crossed(b) ==>
      && Faithful(b.asks[0].volume, b.bids[0].volume)
      && (MatchRemovesAnOrder(b); FaithfulDrain(Match(b)))
  }

  /** Volumes below 2^31 drain faithfully. */
  lemma {:induction false} SmallBooksDrainFaithfully(b: Book)
    requires AllSmall(b.bids) && AllSmall(b.asks)
    ensures FaithfulDrain(b)
    decreases |b.bids| + |b.asks|
  {
    if Crossed(b) {
      MatchRemovesAnOrder(b);
      assert b.bids[0] in b.bids && b.asks[0] in b.asks;
      SmallVolumesFaithful(b.asks[0].volume, b.bids[0].volume);
      SettleKeepsSmall(b.bids, BestTrade(b).volume);
      SettleKeepsSmall(b.asks, BestTrade(b).volume);
      SmallBooksDrainFaithfully(Match(b));
    }
  }

  /** A drain trades exactly the clearing volume of the book it starts from. */
  lemma {:induction false} DrainTradesClearingVolume(b: Book)
    requires BookInv(b) && FaithfulDrain(b)
    ensures IsClearingVolume(b, TotalVolume(Drain(b).1))
    decreases |b.bids| + |b.asks|
  {
    if Crossed(b) {
      MatchRemovesAnOrder(b);
      MatchKeepsInv(b);
      DrainTradesClearingVolume(Match(b));
      AccountsIffFaithful(b.asks[0].volume, b.bids[0].volume);
      MatchLowersClearingVolume(b, TotalVolume(Drain(Match(b)).1));
    } else {
      NothingClears(b);
    }
  }

  /** Each side loses in a drain what the trades add up to. */
  lemma {:induction false} DrainConservesVolume(b: Book)
    requires FaithfulDrain(b)
    ensures var (last, trades) := Drain(b);
            && VolumeOf(last.bids) + TotalVolume(trades) == VolumeOf(b.bids)
            && VolumeOf(last.asks) + TotalVolume(trades) == VolumeOf(b.asks)
    decreases |b.bids| + |b.asks|
  {
    if Crossed(b) {
      MatchRemovesAnOrder(b);
      DrainConservesVolume(Match(b));
      AccountsIffFaithful(b.asks[0].volume, b.bids[0].volume);
      VolumeOfSettle(b.bids, BestTrade(b).volume);
      VolumeOfSettle(b.asks, BestTrade(b).volume);
    }
  }

  lemma {:induction false} NothingWithin(q: seq<Order>, lo: int, hi: int)
    requires forall o :: o in q ==> !(lo <= LevelOf(o.price) <= hi)
    ensures VolumeWithin(q, lo, hi) == 0
  {
    if q != [] {
      assert q[0] in q;
      NothingWithin(q[1..], lo, hi);
    }
  }

  /** No bid is above the best bid, no ask below the best ask. */
  lemma NothingBeyondBest(b: Book, p: int)
    requires BookInv(b)
    ensures b.bids == [] || p > LevelOf(b.bids[0].price) ==> VolumeWithin(b.bids, p, 100) == 0
    ensures b.asks == [] || p < LevelOf(b.asks[0].price) ==> VolumeWithin(b.asks, 0, p) == 0
  {
    if b.bids == [] || p > LevelOf(b.bids[0].price) {
      forall o | o in b.bids ensures LevelOf(o.price) < p {
        BestComesFirst(b.bids, o);
      }
      NothingWithin(b.bids, p, 100);
    }
    if b.asks == [] || p < LevelOf(b.asks[0].price) {
      forall o | o in b.asks ensures LevelOf(o.price) > p {
        BestComesFirst(b.asks, o);
      }
      NothingWithin(b.asks, 0, p);
    }
  }

  lemma BestComesFirst(q: seq<Order>, o: Order)
    requires Sorted(q) && o in q
    ensures Rank(q[0]) <= Rank(o)
  {
    var i :| 0 <= i < |q| && q[i] == o;
    assert i > 0 ==> Before(q[0], q[i]);
  }

  lemma NothingClears(b: Book)
    requires BookInv(b) && !Crossed(b)
    ensures IsClearingVolume(b, 0)
  {
    forall p ensures CrossingVolume(b, p) == 0 {
      NothingBeyondBest(b, p);
      if b.bids != [] && b.asks != [] {
        CrossedByLevels(b);
      }
    }
    assert CrossingVolume(b, 0) == 0;
  }

  lemma SettleLowersVolume(q: seq<Order>, t: u64, lo: int, hi: int)
    requires q != [] && Accounts(q[0].volume, t)
    ensures VolumeWithin(Settle(q, t), lo, hi)
            == VolumeWithin(q, lo, hi) - if lo <= LevelOf(q[0].price) <= hi then t else 0
  {
    assert UsesUp(q, t) || Settle(q, t)[1..] == q[1..];
  }

  /**
   A trade lowers the crossing volume by what it trades, at the prices between best ask and best
   bid; at other prices there is none before and after.
   */
  lemma MatchLowersCrossing(b: Book, p: int)
    requires BookInv(b) && Crossed(b)
    requires Accounts(b.bids[0].volume, BestTrade(b).volume) && Accounts(b.asks[0].volume, BestTrade(b).volume)
    ensures if LevelOf(b.asks[0].price) <= p <= LevelOf(b.bids[0].price)
            then CrossingVolume(b, p) == CrossingVolume(Match(b), p) + BestTrade(b).volume
            else CrossingVolume(b, p) == 0 == CrossingVolume(Match(b), p)
  {
    hide VolumeWithin, Accounts, TradeVolume, Settle, LevelOf;
    var t := BestTrade(b).volume;
    assert b.bids[0] in b.bids && b.asks[0] in b.asks;
    SettleLowersVolume(b.bids, t, p, 100);
    SettleLowersVolume(b.asks, t, 0, p);
    NothingBeyondBest(b, p);
  }

  lemma MatchLowersClearingVolume(b: Book, v: int)
    requires BookInv(b) && Crossed(b) && IsClearingVolume(Match(b), v)
    requires Accounts(b.bids[0].volume, BestTrade(b).volume) && Accounts(b.asks[0].volume, BestTrade(b).volume)
    ensures IsClearingVolume(b, v + BestTrade(b).volume)
  {
    hide CrossingVolume, Match, Accounts, BookInv, IsClearingVolume, BestTrade;
    CrossedByLevels(b);
    forall p {
      MatchLowersCrossing(b, p);
    }
    MaximumShifts(b, Match(b), v, BestTrade(b).volume, LevelOf(b.asks[0].price), LevelOf(b.bids[0].price));
  }

  lemma MaximumShifts(b: Book, c: Book, v: int, t: nat, lo: int, hi: int)
    requires lo <= hi && IsClearingVolume(c, v)
    requires forall p :: lo <= p <= hi ==> CrossingVolume(b, p) == CrossingVolume(c, p) + t
    requires forall p :: !(lo <= p <= hi) ==> CrossingVolume(b, p) == 0 == CrossingVolume(c, p)
    ensures IsClearingVolume(b, v + t)
  {
    hide CrossingVolume;
    var p :| CrossingVolume(c, p) == v;
    assert CrossingVolume(c, lo) <= v;
    assert CrossingVolume(b, if lo <= p <= hi then p else lo) == v + t;
  }

  // ----- Drains of reachable books

  function Matches(n: nat): seq<Event> {
    seq(n, _ => MatchOrders)
  }

  /** A drain is a run of match steps, as many as it has trades, and the history counts what they trade. */
  lemma {:induction false} DrainIsARun(es: seq<Event>)
    ensures var (s, h), (last, trades) := Run(es), Drain(Run(es).0.book);
            && Run(es + Matches(|trades|)).0 == s.(book := last)
            && Run(es + Matches(|trades|)).1.traded == h.traded + TotalVolume(trades)
    decreases |Run(es).0.book.bids| + |Run(es).0.book.asks|
  {
    var b, trades := Run(es).0.book, Drain(Run(es).0.book).1;
    if Crossed(b) {
      RunSteps(es, MatchOrders);
      MatchRemovesAnOrder(b);
      DrainIsARun(es + [MatchOrders]);
      assert (es + [MatchOrders]) + Matches(|trades| - 1) == es + Matches(|trades|);
    } else {
      assert es + Matches(0) == es;
    }
  }

  /** After any run of volumes below 2^31, matching until nothing trades trades the clearing volume. */
  lemma RunThenDrain(es: seq<Event>)
    requires CounterHolds(es) && SmallVolumes(es)
    ensures var b := Run(es).0.book;
            && IsClearingVolume(b, TotalVolume(Drain(b).1))
            && Run(es + Matches(|Drain(b).1|)).0.book == Drain(b).0
            && Run(es + Matches(|Drain(b).1|)).1.traded - Run(es).1.traded == TotalVolume(Drain(b).1)
  {
    hide Run, Drain, BookInv, IsClearingVolume;
    RunKeepsInv(es);
    SmallRunsAreFaithful(es);
    SmallBooksDrainFaithfully(Run(es).0.book);
    DrainTradesClearingVolume(Run(es).0.book);
    DrainIsARun(es);
  }

  // ----- Level volumes fit in 64 bits

  lemma {:induction false} VolumeBound(q: seq<Order>, lo: int, hi: int)
    requires AllSmall(q)
    ensures VolumeWithin(q, lo, hi) <= |q| * TWO_TO_31
  {
    if q != [] {
      assert q[0] in q;
      VolumeBound(q[1..], lo, hi);
    }
  }

  /** The pool caps the resting orders, so 64-bit sums of volumes below 2^31 never wrap. */
  lemma LevelVolumesFit(b: Book, side: Side, lo: int, hi: int)
    requires BookInv(b) && AllSmall(b.Orders(side))
    ensures ToU64(VolumeWithin(b.Orders(side), lo, hi)) == VolumeWithin(b.Orders(side), lo, hi) < 0x1_0000_0000_0000_0000
  {
    VolumeBound(b.Orders(side), lo, hi);
    assert |b.Orders(side)| * TWO_TO_31 <= POOL_SIZE * TWO_TO_31;
  }

  // ----- Only level volumes matter

  ghost predicate SameLevelVolumes(q: seq<Order>, q': seq<Order>) {
    forall level :: VolumeWithin(q, level, level) == VolumeWithin(q', level, level)
  }

  lemma {:induction false} SplitVolume(q: seq<Order>, lo: int, mid: int, hi: int)
    requires lo <= mid <= hi
    ensures VolumeWithin(q, lo, hi) == VolumeWithin(q, lo, mid) + VolumeWithin(q, mid + 1, hi)
  {
    if q != [] {
      SplitVolume(q[1..], lo, mid, hi);
    }
  }

  lemma {:induction false} SameVolumeWithin(q: seq<Order>, q': seq<Order>, lo: int, hi: int)
    requires SameLevelVolumes(q, q')
    ensures VolumeWithin(q, lo, hi) == VolumeWithin(q', lo, hi)
    decreases hi - lo
  {
    if lo > hi {
      NothingWithin(q, lo, hi);
      NothingWithin(q', lo, hi);
    } else if lo < hi {
      SplitVolume(q, lo, lo, hi);
      SplitVolume(q', lo, lo, hi);
      SameVolumeWithin(q, q', lo + 1, hi);
    }
  }

  /** Two books with the same volume on every level drain the same total, whoever came first. */
  lemma DrainIgnoresArrival(b: Book, c: Book)
    requires BookInv(b) && FaithfulDrain(b)
    requires BookInv(c) && FaithfulDrain(c)
    requires SameLevelVolumes(b.bids, c.bids) && SameLevelVolumes(b.asks, c.asks)
    ensures TotalVolume(Drain(b).1) == TotalVolume(Drain(c).1)
  {
    DrainTradesClearingVolume(b);
    DrainTradesClearingVolume(c);
    var v, w := TotalVolume(Drain(b).1), TotalVolume(Drain(c).1);
    forall p ensures CrossingVolume(b, p) == CrossingVolume(c, p) {
      SameVolumeWithin(b.bids, c.bids, p, 100);
      SameVolumeWithin(b.asks, c.asks, 0, p);
    }
    var p :| CrossingVolume(b, p) == v;
    var r :| CrossingVolume(c, r) == w;
    assert CrossingVolume(c, p) <= w && CrossingVolume(b, r) <= v;
  }
}
