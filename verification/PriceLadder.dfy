/** Prices and the 101 price levels they are traded at. */
module PriceLadder {
  import opened FixedWidth
  import opened Orders

  const CHUNK := 64
  const START_OF_PRICE := 950
  const NUM_OF_LEVELS := 101

  /** The level a price falls on before its range is checked: a 64-bit difference narrowed to int. */
  function LevelOf(price: u64): i32 {
    ToInt32(ToU64(price - START_OF_PRICE))
  }

  predicate Tradable(price: u64) {
    0 <= LevelOf(price) < NUM_OF_LEVELS
  }

  function PriceToIndex(price: u64): Result<nat> {
    if Tradable(price) then Success(LevelOf(price)) else Failure(InvalidPrice)
  }

  /** `size` is the number of levels the book was built with. */
  function IndexToPrice(size: nat, level: int): Result<u64> {
    if level < 0 || level >= size || START_OF_PRICE + level >= TWO_TO_64 then Failure(InvalidLevel)
    else Success(START_OF_PRICE + level)
  }

  function IndexToBitmapIndex(level: nat): (nat, nat) {
    (level / CHUNK, level % CHUNK)
  }

  /** The number of 64-bit words for a book of `size` levels. */
  function WordCount(size: nat): nat {
    (size + CHUNK - 1) / CHUNK
  }

  /** Price::getPriceInTicks, widened again as matching does. */
  function Ticks(price: u64): u64 {
    ToU64(ToInt32(price))
  }

  /** A price is accepted at level i exactly when it is 950 + i modulo 2^32, with i from 0 to 100; any other is refused. */
  lemma AcceptedPrices(price: u64, i: int)
    ensures PriceToIndex(price) == Success(i) <==> 0 <= i <= 100 && price % 0x1_0000_0000 == 950 + i
    ensures 950 <= price % 0x1_0000_0000 <= 1050 <==> Tradable(price)
    ensures !(950 <= price % 0x1_0000_0000 <= 1050) <==> PriceToIndex(price) == Failure(InvalidPrice)
  {
    LowWord(price - START_OF_PRICE);
    assert (price - START_OF_PRICE) % TWO_TO_32 == (price % TWO_TO_32 - START_OF_PRICE) % TWO_TO_32;
  }

  /** Narrowing to 32 bits is not disturbed by a reduction to 64 bits before it. */
  lemma LowWord(x: int)
    ensures ToU64(x) % TWO_TO_32 == x % TWO_TO_32
  {
    assert x % TWO_TO_64 == x - x / TWO_TO_64 * TWO_TO_64;
  }

  /** For accepted prices, the comparison of ticks in matching is the comparison of levels. */
  lemma TicksOrderLevels(p: u64, q: u64)
    requires Tradable(p) && Tradable(q)
    ensures Ticks(p) == 950 + LevelOf(p) == p % 0x1_0000_0000
    ensures Ticks(p) >= Ticks(q) <==> LevelOf(p) >= LevelOf(q)
  {
    AcceptedPrices(p, LevelOf(p));
    AcceptedPrices(q, LevelOf(q));
  }

  /** On the book's own prices the two conversions are inverse, and levels from 101 on have no price that is accepted. */
  lemma IndexPriceRoundTrip(size: nat, level: int)
    requires 101 <= size <= 0x8000_0000
    ensures if 0 <= level < size then IndexToPrice(size, level) == Success(950 + level)
            else IndexToPrice(size, level) == Failure(InvalidLevel)
    ensures 0 <= level <= 100 ==> PriceToIndex(950 + level) == Success(level)
    ensures 101 <= level < size ==> PriceToIndex(950 + level) == Failure(InvalidPrice)
  {
  }

  /** Conversely, 950 to 1050 are exactly the prices that come back unchanged. */
  lemma PriceIndexRoundTrip(size: nat, price: u64)
    requires 101 <= size <= 0x8000_0000
    ensures 950 <= price <= 1050
            <==> PriceToIndex(price).Success? && IndexToPrice(size, PriceToIndex(price).value) == Success(price)
  {
    if Tradable(price) {
      AcceptedPrices(price, LevelOf(price));
    }
  }

  /** Word and bit identify a level, every (word, bit < 64) pair is the place of one level, and a bitmap has no word too many. */
  lemma BitmapIndexBijection(level: nat, word: nat, bit: nat, size: nat)
    requires bit < 64
    ensures IndexToBitmapIndex(level) == (word, bit) <==> level == word * 64 + bit
    ensures level < size ==> IndexToBitmapIndex(level).0 < WordCount(size)
    ensures 64 * (WordCount(size) - 1) < size <= 64 * WordCount(size) || size == WordCount(size) == 0
  {
  }
}
