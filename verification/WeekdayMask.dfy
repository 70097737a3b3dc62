/**
 The weekday bitmask of a tariff slot (Monday is bit 0 ... Sunday is bit 6), read as the set of
 weekdays it names. The slot schema admits masks 1..127.
 */
module WeekdayMask {
  import opened Money
  import opened Tariffs

  predicate BitSet(mask: bv7, weekday: int)
    requires 0 <= weekday < 7
  {
    (mask >> weekday) & 1 == 1
  }

  function DaysOf(mask: bv7): set<int> {
    set w | 0 <= w < 7 && BitSet(mask, w)
  }

  /** Masks have a bit in common exactly when the sets have a weekday in common. */
  lemma CommonBitIffCommonDay(a: bv7, b: bv7)
    ensures a & b != 0 <==> DaysOf(a) * DaysOf(b) != {}
  {
    if a & b != 0 {
      var w := if BitSet(a, 0) && BitSet(b, 0) then 0 else if BitSet(a, 1) && BitSet(b, 1) then 1
               else if BitSet(a, 2) && BitSet(b, 2) then 2 else if BitSet(a, 3) && BitSet(b, 3) then 3
               else if BitSet(a, 4) && BitSet(b, 4) then 4 else if BitSet(a, 5) && BitSet(b, 5) then 5 else 6;
      assert BitSet(a, w) && BitSet(b, w);
      assert w in DaysOf(a) * DaysOf(b);
    } else {
      forall w | 0 <= w < 7
        ensures !(BitSet(a, w) && BitSet(b, w))
      {
        assert w == 0 || w == 1 || w == 2 || w == 3 || w == 4 || w == 5 || w == 6;
      }
    }
  }

  /** An admitted mask names at least one weekday. */
  lemma NonZeroMaskHasADay(mask: bv7)
    ensures mask != 0 <==> DaysOf(mask) != {}
  {
    CommonBitIffCommonDay(mask, mask);
    assert mask & mask == mask;
    assert DaysOf(mask) * DaysOf(mask) == DaysOf(mask);
  }

  /** A slot row as its columns hold it. */
  function SlotOf(startMin: int, endMin: int, mask: bv7, price: Price): Slot {
    Slot(startMin, endMin, DaysOf(mask), price)
  }

  /** The conflict check as it is written, on the columns of two rows. */
  predicate ColumnsOverlap(startA: int, endA: int, maskA: bv7, startB: int, endB: int, maskB: bv7) {
    if maskA & maskB == 0 then false else startA < endB && startB < endA
  }

  /** Rows the router admits are well-formed slots, and its check on two of them finds exactly the shared minutes. */
  lemma ColumnsOverlapIff(startA: int, endA: int, maskA: bv7, startB: int, endB: int, maskB: bv7, price: Price)
    requires 0 <= startA < endA <= 1440 && 0 <= startB < endB <= 1440 && maskA != 0 && maskB != 0
    ensures WellFormed(SlotOf(startA, endA, maskA, price)) && WellFormed(SlotOf(startB, endB, maskB, price))
    ensures ColumnsOverlap(startA, endA, maskA, startB, endB, maskB) <==>
              exists weekday, minute ::
                Shared(SlotOf(startA, endA, maskA, price), SlotOf(startB, endB, maskB, price), weekday, minute)
  {
    NonZeroMaskHasADay(maskA);
    NonZeroMaskHasADay(maskB);
    CommonBitIffCommonDay(maskA, maskB);
    OverlapIff(SlotOf(startA, endA, maskA, price), SlotOf(startB, endB, maskB, price));
  }
}
