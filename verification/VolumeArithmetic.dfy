/**
 Volumes are 64-bit, but getting and reducing a volume goes through a 32-bit int. The functions
 follow the source on all 64-bit volumes; the lemmas say what survives of that.
 */
module VolumeArithmetic {
  import opened FixedWidth

  /** Order::GetVolume. */
  function GetVolume(volume: u64): i32 {
    ToInt32(volume)
  }

  /** The reduction Order::reduceVolume settles on. */
  function FeasibleReduction(volume: u64, reduction: u64): i32 {
    if volume == 0 then 0 else ToInt32(Min(volume, reduction))
  }

  /** The volume Order::reduceVolume leaves. */
  function Reduced(volume: u64, reduction: u64): u64 {
    ToU64(volume - FeasibleReduction(volume, reduction))
  }

  /** The volume a match of two orders trades. */
  function TradeVolume(ask: u64, bid: u64): u64 {
    ToU64(Min(GetVolume(ask), GetVolume(bid)))
  }

  /** A match removes an order whose volume, read as an int, has come down to zero. */
  predicate Exhausted(volume: u64) {
    GetVolume(volume) == 0
  }

  /** Trading t against a volume accounts for it: what is traded and what stays resting add up. */
  predicate Accounts(volume: u64, t: u64) {
    if Exhausted(Reduced(volume, t)) then t == volume else t + Reduced(volume, t) == volume
  }

  /** A condition on two volumes that tells whether matching them accounts for both. */
  predicate Faithful(ask: u64, bid: u64) {
    var low, high := Min(ask, bid), if ask < bid then bid else ask;
    ToU64(ToInt32(low)) == low && (low == high || ToInt32(low) < ToInt32(high))
  }

  lemma Narrowing(x: u64)
    ensures exists k :: 0 <= k && x == ToInt32(x) + k * TWO_TO_32
    ensures x <= ToU64(ToInt32(x)) || 0 <= ToInt32(x) <= x
  {
    var k := x / TWO_TO_32;
    assert x == x % TWO_TO_32 + k * TWO_TO_32;
    if ToInt32(x) < 0 {
      assert x == ToInt32(x) + (k + 1) * TWO_TO_32;
    }
  }

  /** Taking the narrowed volume away leaves nothing in the low 32 bits. */
  lemma NarrowedAway(x: u64)
    ensures Exhausted(ToU64(x - ToInt32(x)))
  {
    var k := x / TWO_TO_32;
    assert x == x % TWO_TO_32 + k * TWO_TO_32;
    assert x - ToInt32(x) == k * TWO_TO_32 || x - ToInt32(x) == (k + 1) * TWO_TO_32;
    assert (k * TWO_TO_32) % TWO_TO_64 % TWO_TO_32 == 0;
    assert ((k + 1) * TWO_TO_32) % TWO_TO_64 % TWO_TO_32 == 0;
  }

  /** Every match removes an order, whatever the two 64-bit volumes are. */
  lemma MatchExhaustsASide(ask: u64, bid: u64)
    ensures var t := TradeVolume(ask, bid); Exhausted(Reduced(ask, t)) || Exhausted(Reduced(bid, t))
  {
    var t := TradeVolume(ask, bid);
    var x := if GetVolume(ask) <= GetVolume(bid) then ask else bid;
    assert t == ToU64(ToInt32(x));
    SmallerSide(x);
  }

  lemma SmallerSide(x: u64)
    ensures Exhausted(Reduced(x, ToU64(ToInt32(x))))
  {
    Narrowing(x);
    NarrowedAway(x);
  }

  /** Taking away at least the whole volume exhausts it. */
  lemma ReducedByMore(x: u64, t: u64)
    requires x <= t
    ensures Exhausted(Reduced(x, t))
  {
    NarrowedAway(x);
  }

  /** Taking away a smaller volume that narrows faithfully leaves the difference. */
  lemma ReducedByLess(x: u64, t: u64)
    requires t <= x && ToU64(ToInt32(t)) == t
    ensures Reduced(x, t) == x - t
    ensures Exhausted(Reduced(x, t)) <==> ToInt32(x) == ToInt32(t)
  {
    assert t == ToInt32(t) || t == ToInt32(t) + TWO_TO_64;
    assert Reduced(x, t) == x - t;
    DifferenceNarrows(x, t);
  }

  lemma DifferenceNarrows(x: u64, t: u64)
    requires t <= x
    ensures ToInt32(x - t) == 0 <==> ToInt32(x) == ToInt32(t)
  {
    var a, b := x / TWO_TO_32, t / TWO_TO_32;
    assert x - t == (x % TWO_TO_32 - t % TWO_TO_32) + (a - b) * TWO_TO_32;
  }

  /** The case of `AccountsIffFaithful` where the volumes are in order. */
  lemma AccountsInOrder(low: u64, high: u64)
    requires low <= high
    ensures var t := TradeVolume(low, high);
            Accounts(low, t) && Accounts(high, t)
            <==> ToU64(ToInt32(low)) == low && (low == high || ToInt32(low) < ToInt32(high))
    ensures ToU64(ToInt32(low)) == low && (low == high || ToInt32(low) < ToInt32(high)) ==> TradeVolume(low, high) == low
  {
    var t := TradeVolume(low, high);
    if ToInt32(low) <= ToInt32(high) {
      SmallerSide(low);
      if t == low {
        ReducedByLess(high, t);
      }
    } else {
      SmallerSide(high);
      if t == high {
        ReducedByMore(low, t);
      }
    }
  }

  /** Matching two volumes accounts for both exactly when `Faithful` holds of them. */
  lemma AccountsIffFaithful(ask: u64, bid: u64)
    ensures var t := TradeVolume(ask, bid);
            Accounts(ask, t) && Accounts(bid, t) <==> Faithful(ask, bid)
    ensures Faithful(ask, bid) ==> TradeVolume(ask, bid) == Min(ask, bid)
  {
    if ask <= bid {
      AccountsInOrder(ask, bid);
    } else {
      AccountsInOrder(bid, ask);
    }
  }

  /** For volumes below 2^31 a match trades the smaller volume and removes what it fills. */
  lemma SmallVolumesFaithful(ask: u64, bid: u64)
    requires ask < 0x8000_0000 && bid < 0x8000_0000
    ensures Faithful(ask, bid)
    ensures TradeVolume(ask, bid) == Min(ask, bid)
  {
  }

  /**
   For all 64-bit volumes: whatever 32-bit ints a and b the two volumes read as, the match trades
   the smaller of them, widened to 64 bits again.
   */
  lemma TradeVolumeIs(ask: u64, bid: u64, a: int, b: int)
    requires -0x8000_0000 <= a < 0x8000_0000 && (ask - a) % 0x1_0000_0000 == 0
    requires -0x8000_0000 <= b < 0x8000_0000 && (bid - b) % 0x1_0000_0000 == 0
    ensures var t := if a < b then a else b;
            TradeVolume(ask, bid) == if t < 0 then t + 0x1_0000_0000_0000_0000 else t
  {
    NarrowedIs(ask, a);
    NarrowedIs(bid, b);
  }

  /**
   For all 64-bit volumes: whatever 32-bit int r the smaller of volume and reduction reads as, it is
   what is taken off the volume, modulo 2^64; nothing is taken off zero.
   */
  lemma ReducedIs(volume: u64, reduction: u64, r: int)
    requires -0x8000_0000 <= r < 0x8000_0000
    requires ((if volume < reduction then volume else reduction) - r) % 0x1_0000_0000 == 0
    ensures volume == 0 ==> Reduced(volume, reduction) == 0
    ensures volume != 0 ==> (volume - r - Reduced(volume, reduction)) % 0x1_0000_0000_0000_0000 == 0
  {
    NarrowedIs(Min(volume, reduction), r);
    ConversionToU64(volume - FeasibleReduction(volume, reduction));
  }

  /** An order counts as filled exactly when the low 32 bits of its volume are zero. */
  lemma ExhaustedIs(volume: u64)
    ensures Exhausted(volume) <==> volume % 0x1_0000_0000 == 0
  {
  }
}
