/** Sizes to orders: roundup_powerof2 and buddy_get_order of kern/mm/buddy.c. */
module BuddyOrder {
  import opened BuddySpec

  /** The bit smearing of roundup_powerof2, in 32-bit arithmetic. */
  function RoundupPowerOf2(v: bv32): bv32
  {
    var a := v - 1;
    var b := a | (a >> 1);
    var c := b | (b >> 2);
    var d := c | (c >> 4);
    var e := d | (d >> 8);
    var f := e | (e >> 16);
    f + 1
  }

  /** A power of two: exactly one bit is set. */
  predicate PowerOf2(v: bv32) { v != 0 && v & (v - 1) == 0 }

  /** The least power of two that is not smaller; sizes without one, and zero, give zero. */
  lemma RoundupIsLeast(v: bv32)
    ensures v == 0 || v > 0x8000_0000 ==> RoundupPowerOf2(v) == 0
    ensures 0 < v <= 0x8000_0000 ==>
              var r := RoundupPowerOf2(v); PowerOf2(r) && v <= r && r >> 1 < v
  {
  }

  /** The bits of `r` below bit `ord` are clear. */
  predicate ClearBelow(r: bv32, ord: bv32)
    requires ord <= 32
  {
    if ord == 32 then r == 0 else r & (((1 as bv32) << ord) - 1) == 0
  }

  lemma ClearNext(r: bv32, ord: bv32)
    requires ord < 32 && ClearBelow(r, ord) && r & ((1 as bv32) << ord) == 0
    ensures ClearBelow(r, ord + 1)
  {
  }

  /** The lowest bit of a power of two is its only one. */
  lemma OnlyBit(r: bv32, ord: bv32)
    requires ord < 32 && ClearBelow(r, ord) && r & ((1 as bv32) << ord) != 0 && PowerOf2(r)
    ensures r == (1 as bv32) << ord
  {
  }

  /** The number of the lowest set bit; 32 if there is none. */
  method LowestBit(r: bv32) returns (ord: bv32)
    ensures ord <= 32 && ClearBelow(r, ord)
    ensures ord < 32 ==> r & ((1 as bv32) << ord) != 0
  {
    ord := 0;
    while ord < 32 && r & ((1 as bv32) << ord) == 0
      invariant ord <= 32 && ClearBelow(r, ord)
      decreases 32 - ord
    {
      hide ClearBelow;
      ClearNext(r, ord);
      ord := ord + 1;
    }
  }

  /** The order of a size: its power of two, if there is one. */
  lemma OrderOfSize(v: bv32, ord: bv32)
    requires ord <= 32 && (if ord == 32 then RoundupPowerOf2(v) == 0 else RoundupPowerOf2(v) == (1 as bv32) << ord)
    ensures ord == 32 <==> v == 0 || v > 0x8000_0000
    ensures ord < 32 ==> v <= (1 as bv32) << ord && (ord > 0 ==> v > (1 as bv32) << (ord - 1))
  {
    RoundupIsLeast(v);
    hide RoundupPowerOf2;
  }

  /**
   buddy_get_order: the least order from MIN_ORD on whose blocks hold `v` bytes. It panics
   for sizes above a page, and for size zero, which rounds up to no power of two.
   */
  method GetOrder(v: bv32) returns (panic: bool, ord: bv32)
    ensures panic <==> v == 0 || v > 4096
    ensures !panic ==> (MIN_ORD as bv32) <= ord <= (MAX_ORD as bv32) && v <= (1 as bv32) << ord
    ensures !panic && ord > (MIN_ORD as bv32) ==> v > (1 as bv32) << (ord - 1)
  {
    var r := RoundupPowerOf2(v);
    RoundupIsLeast(v);
    hide RoundupPowerOf2;
    ord := LowestBit(r);
    if ord < 32 {
      OnlyBit(r, ord);
    }
    OrderOfSize(v, ord);
    if ord < (MIN_ORD as bv32) {
      ord := (MIN_ORD as bv32);
      panic := false;
    } else {
      panic := ord > (MAX_ORD as bv32);
    }
  }
}
