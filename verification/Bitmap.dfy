/** A bitmap with one bit for each price level, kept in 64-bit words. */
module Bitmap {
  import opened FixedWidth
  import opened PriceLadder
  import opened Word64

  predicate BitAt(words: seq<u64>, i: nat)
    requires i < CHUNK * |words|
  {
    Bit(words[i / CHUNK], i % CHUNK)
  }

  function SetLevel(words: seq<u64>, level: nat): seq<u64>
    requires level < CHUNK * |words|
  {
    var (word, bit) := IndexToBitmapIndex(level);
    StaysInWord(words[word], bit);
    words[word := Or(words[word], Mask(bit))]
  }

  function ClearLevel(words: seq<u64>, level: nat): seq<u64>
    requires level < CHUNK * |words|
  {
    var (word, bit) := IndexToBitmapIndex(level);
    StaysInWord(words[word], bit);
    words[word := AndNot(words[word], Mask(bit))]
  }

  /** Setting the bit of a level changes no other bit of the bitmap. */
  lemma SetLevelBits(words: seq<u64>, level: nat, i: nat)
    requires level < CHUNK * |words| && i < CHUNK * |words|
    ensures BitAt(SetLevel(words, level), i) <==> i == level || BitAt(words, i)
  {
    SetBit(words[level / CHUNK], level % CHUNK, i % CHUNK);
  }

  /** Clearing the bit of a level changes no other bit of the bitmap. */
  lemma ClearLevelBits(words: seq<u64>, level: nat, i: nat)
    requires level < CHUNK * |words| && i < CHUNK * |words|
    ensures BitAt(ClearLevel(words, level), i) <==> i != level && BitAt(words, i)
  {
    ClearBit(words[level / CHUNK], level % CHUNK, i % CHUNK);
  }

  // ----- Highest and lowest set bit

  ghost predicate NoBitsIn(words: seq<u64>, lo: int, hi: int) {
    forall i :: 0 <= i < CHUNK * |words| && lo <= i < hi ==> !BitAt(words, i)
  }

  /** level is the highest set bit; -1 when there is none. */
  ghost predicate IsHighest(words: seq<u64>, level: int) {
    && -1 <= level < CHUNK * |words|
    && (level >= 0 ==> BitAt(words, level))
    && NoBitsIn(words, level + 1, CHUNK * |words|)
  }

  /** level is the lowest set bit; -1 when there is none. */
  ghost predicate IsLowest(words: seq<u64>, level: int) {
    && -1 <= level < CHUNK * |words|
    && (level >= 0 ==> BitAt(words, level) && NoBitsIn(words, 0, level))
    && (level == -1 ==> NoBitsIn(words, 0, CHUNK * |words|))
  }

  lemma WordHasNoBits(words: seq<u64>, w: nat)
    requires w < |words| && words[w] == 0
    ensures NoBitsIn(words, CHUNK * w, CHUNK * (w + 1))
  {
    forall i | 0 <= i < CHUNK * |words| && CHUNK * w <= i < CHUNK * (w + 1) ensures !BitAt(words, i) {
      assert i / CHUNK == w;
      ZeroHasNoBits(i % CHUNK);
    }
  }

  /** The zero counts of a non-zero word give the highest and the lowest level it marks. */
  lemma WordEnds(words: seq<u64>, w: nat)
    requires w < |words| && words[w] != 0
    ensures 0 <= LeadingZeros(words[w]) < 64 && TrailingZeros(words[w]) < 64
    ensures var high := w * CHUNK + (63 - LeadingZeros(words[w]));
            BitAt(words, high) && NoBitsIn(words, high + 1, CHUNK * (w + 1))
    ensures var low := w * CHUNK + TrailingZeros(words[w]);
            BitAt(words, low) && NoBitsIn(words, CHUNK * w, low)
  {
    ZeroCounts(words[w]);
    var high, low := w * CHUNK + (63 - LeadingZeros(words[w])), w * CHUNK + TrailingZeros(words[w]);
    forall i | 0 <= i < CHUNK * |words| && high + 1 <= i < CHUNK * (w + 1) ensures !BitAt(words, i) {
      assert i / CHUNK == w && i % CHUNK == i - w * CHUNK;
    }
    forall i | 0 <= i < CHUNK * |words| && CHUNK * w <= i < low ensures !BitAt(words, i) {
      assert i / CHUNK == w && i % CHUNK == i - w * CHUNK;
    }
  }

  // ----- Agreement with the queues

  /** Bit i is set exactly when level i has a queue that is not empty. */
  ghost predicate Agrees(words: seq<u64>, levels: seq<seq<nat>>) {
    && |words| == WordCount(|levels|)
    && forall i :: 0 <= i < CHUNK * |words| ==> (BitAt(words, i) <==> i < |levels| && levels[i] != [])
  }

  lemma SetKeepsAgreement(words: seq<u64>, levels: seq<seq<nat>>, level: nat, q: seq<nat>)
    requires Agrees(words, levels) && level < |levels| && q != []
    ensures Agrees(SetLevel(words, level), levels[level := q])
  {
    forall i | 0 <= i < CHUNK * |words|
      ensures BitAt(SetLevel(words, level), i) <==> i < |levels| && levels[level := q][i] != []
    {
      SetLevelBits(words, level, i);
    }
  }

  lemma ClearKeepsAgreement(words: seq<u64>, levels: seq<seq<nat>>, level: nat)
    requires Agrees(words, levels) && level < |levels|
    ensures Agrees(ClearLevel(words, level), levels[level := []])
  {
    forall i | 0 <= i < CHUNK * |words|
      ensures BitAt(ClearLevel(words, level), i) <==> i < |levels| && levels[level := []][i] != []
    {
      ClearLevelBits(words, level, i);
    }
  }

  lemma SameBitsAgree(words: seq<u64>, levels: seq<seq<nat>>, level: nat, q: seq<nat>)
    requires Agrees(words, levels) && level < |levels| && levels[level] != [] && q != []
    ensures Agrees(words, levels[level := q])
  {
  }

  /** The scans find the highest and the lowest level that is not empty, for any number of levels; -1 when all are. */
  lemma ScanFindsBestLevel(words: seq<u64>, levels: seq<seq<nat>>, level: int)
    requires Agrees(words, levels)
    ensures IsHighest(words, level) ==>
              if level == -1 then forall i :: 0 <= i < |levels| ==> levels[i] == []
              else 0 <= level < |levels| && levels[level] != [] && forall i :: level < i < |levels| ==> levels[i] == []
    ensures IsLowest(words, level) ==>
              if level == -1 then forall i :: 0 <= i < |levels| ==> levels[i] == []
              else 0 <= level < |levels| && levels[level] != [] && forall i :: 0 <= i < level ==> levels[i] == []
  {
    assert |levels| <= CHUNK * |words|;
    if IsHighest(words, level) || IsLowest(words, level) {
      assert forall i :: 0 <= i < |levels| && !BitAt(words, i) ==> levels[i] == [];
    }
  }
}
