/**
 One word of a price-level bitmap. Bit i of a word is its i-th binary digit, and the bitwise
 operators of the source act digit by digit.
 */
module Word64 {
  import opened FixedWidth

  predicate Bit(w: nat, i: nat) {
    if i == 0 then w % 2 == 1 else Bit(w / 2, i - 1)
  }

  /** `1ULL << i`. */
  function Mask(i: nat): (m: nat)
    ensures m >= 1
  {
    if i == 0 then 1 else 2 * Mask(i - 1)
  }

  /** `a | b`. */
  function Or(a: nat, b: nat): nat
    decreases a + b
  {
    if a == 0 then b else if b == 0 then a
    else 2 * Or(a / 2, b / 2) + (if a % 2 == 1 || b % 2 == 1 then 1 else 0)
  }

  /** `a & ~b`. */
  function AndNot(a: nat, b: nat): nat
    decreases a
  {
    if a == 0 then 0
    else 2 * AndNot(a / 2, b / 2) + (if a % 2 == 1 && b % 2 == 0 then 1 else 0)
  }

  /** The number of binary digits of w. */
  function Width(w: nat): nat {
    if w == 0 then 0 else 1 + Width(w / 2)
  }

  /** std::countl_zero on 64 bits. */
  function LeadingZeros(w: u64): int {
    64 - Width(w)
  }

  /** std::countr_zero on 64 bits. */
  function TrailingZeros(w: u64): nat {
    if w == 0 then 64 else LowestBit(w)
  }

  function LowestBit(w: nat): nat
    requires w != 0
  {
    if w % 2 == 1 then 0 else 1 + LowestBit(w / 2)
  }

  lemma {:induction false} ZeroHasNoBits(i: nat)
    ensures !Bit(0, i)
  {
    if i > 0 {
      ZeroHasNoBits(i - 1);
    }
  }

  lemma {:induction false} MaskHasOneBit(i: nat, j: nat)
    ensures Bit(Mask(i), j) <==> i == j
  {
    if i == 0 && j > 0 {
      ZeroHasNoBits(j - 1);
    } else if i > 0 && j > 0 {
      MaskHasOneBit(i - 1, j - 1);
    }
  }

  lemma {:induction false} OrBits(a: nat, b: nat, i: nat)
    ensures Bit(Or(a, b), i) <==> Bit(a, i) || Bit(b, i)
  {
    if a == 0 || b == 0 {
      ZeroHasNoBits(i);
    } else if i > 0 {
      OrBits(a / 2, b / 2, i - 1);
    }
  }

  lemma {:induction false} AndNotBits(a: nat, b: nat, i: nat)
    ensures Bit(AndNot(a, b), i) <==> Bit(a, i) && !Bit(b, i)
  {
    if a == 0 {
      ZeroHasNoBits(i);
    } else if i > 0 {
      AndNotBits(a / 2, b / 2, i - 1);
    }
  }

  /** Setting bit i of a word changes that bit only. */
  lemma SetBit(w: nat, i: nat, j: nat)
    ensures Bit(Or(w, Mask(i)), j) <==> i == j || Bit(w, j)
  {
    OrBits(w, Mask(i), j);
    MaskHasOneBit(i, j);
  }

  /** Clearing bit i of a word changes that bit only. */
  lemma ClearBit(w: nat, i: nat, j: nat)
    ensures Bit(AndNot(w, Mask(i)), j) <==> i != j && Bit(w, j)
  {
    AndNotBits(w, Mask(i), j);
    MaskHasOneBit(i, j);
  }

  lemma {:induction false} WidthBound(w: nat, n: nat)
    ensures Width(w) <= n <==> w < Mask(n)
  {
    if w > 0 && n > 0 {
      WidthBound(w / 2, n - 1);
    }
  }

  lemma {:induction false} Mask16(i: nat)
    ensures Mask(i + 16) == 0x1_0000 * Mask(i)
  {
    assert Mask(i + 4) == 16 * Mask(i) by { assert Mask(i + 2) == 4 * Mask(i); }
    assert Mask(i + 8) == 16 * Mask(i + 4) by { assert Mask(i + 6) == 4 * Mask(i + 4); }
    assert Mask(i + 12) == 16 * Mask(i + 8) by { assert Mask(i + 10) == 4 * Mask(i + 8); }
    assert Mask(i + 16) == 16 * Mask(i + 12) by { assert Mask(i + 14) == 4 * Mask(i + 12); }
  }

  lemma MaskOf64()
    ensures Mask(64) == TWO_TO_64
  {
    Mask16(0);
    assert Mask(16) == 0x1_0000;
    Mask16(16);
    assert Mask(32) == 0x1_0000_0000;
    Mask16(32);
    assert Mask(48) == 0x1_0000_0000_0000;
    Mask16(48);
  }

  lemma {:induction false} MaskGrows(i: nat, j: nat)
    requires i < j
    ensures Mask(i) < Mask(j)
  {
    if i > 0 {
      MaskGrows(i - 1, j - 1);
    } else if j > 1 {
      MaskGrows(i, j - 1);
    }
  }

  /** Setting one of the 64 bits, or clearing any, stays within 64 bits. */
  lemma StaysInWord(w: u64, i: nat)
    requires i < 64
    ensures Or(w, Mask(i)) < TWO_TO_64
    ensures AndNot(w, Mask(i)) < TWO_TO_64
  {
    MaskOf64();
    MaskGrows(i, 64);
    OrBelow(w, Mask(i), 64);
    AndNotBelow(w, Mask(i));
  }

  lemma {:induction false} OrBelow(a: nat, b: nat, n: nat)
    requires a < Mask(n) && b < Mask(n)
    ensures Or(a, b) < Mask(n)
  {
    if n > 0 && a > 0 && b > 0 {
      OrBelow(a / 2, b / 2, n - 1);
    }
  }

  lemma {:induction false} AndNotBelow(a: nat, b: nat)
    ensures AndNot(a, b) <= a
  {
    if a > 0 {
      AndNotBelow(a / 2, b / 2);
    }
  }

  lemma {:induction false} HighestBit(w: nat)
    requires w != 0
    ensures Bit(w, Width(w) - 1)
    ensures forall j :: Width(w) <= j ==> !Bit(w, j)
  {
    if w / 2 == 0 {
      forall j | Width(w) <= j ensures !Bit(w, j) { ZeroHasNoBits(j - 1); }
    } else {
      HighestBit(w / 2);
    }
  }

  lemma {:induction false} LowestBitIsLowest(w: nat)
    requires w != 0
    ensures Bit(w, LowestBit(w)) && LowestBit(w) < Width(w)
    ensures forall j :: 0 <= j < LowestBit(w) ==> !Bit(w, j)
  {
    if w % 2 == 0 {
      LowestBitIsLowest(w / 2);
    }
  }

  /**
   The zero counts of a non-zero word locate its highest and its lowest set bit among the 64.
   */
  lemma ZeroCounts(w: u64)
    ensures LeadingZeros(w) == 64 <==> w == 0
    ensures TrailingZeros(w) == 64 <==> w == 0
    ensures 0 <= LeadingZeros(w) <= 64 && TrailingZeros(w) <= 64
    ensures w != 0 ==> Bit(w, 63 - LeadingZeros(w))
    ensures w != 0 ==> forall j :: 63 - LeadingZeros(w) < j < 64 ==> !Bit(w, j)
    ensures w != 0 ==> Bit(w, TrailingZeros(w))
    ensures w != 0 ==> forall j :: 0 <= j < TrailingZeros(w) ==> !Bit(w, j)
  {
    MaskOf64();
    WidthBound(w, 64);
    if w != 0 {
      HighestBit(w);
      LowestBitIsLowest(w);
    }
  }
}
