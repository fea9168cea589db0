/** The program spells the operators on the signal bits with masks on an unsigned 32-bit word.
    For every such word they are the arithmetic operators of module Words. */
module Bits {

  import W = Words

  // ------------------------------------------------------------------ the two parts of a word

  lemma SplitAsInt(x: bv32)
    ensures x as int == (x / 0x2000_0000) as int * 0x2000_0000 + (x & 0x1FFF_FFFF) as int
  {
  }

  /** What is left of a word without its signal bits fits into 29 bits. */
  lemma CountFits(x: bv32) returns (count: bv29)
    ensures count as int == (x & 0x1FFF_FFFF) as int
  {
    count := (x & 0x1FFF_FFFF) as bv29;
  }

  lemma PartsOf(w: W.uint32, flags: nat, count: nat)
    requires w == flags * 0x2000_0000 + count && count < 0x2000_0000
    ensures flags == W.Flags(w) && count == W.Count(w)
  {
  }

  /** doTask &~ kMODANY */
  lemma CountIsMask(x: bv32)
    ensures W.Count(x as int) == (x & 0x1FFF_FFFF) as int
    ensures W.Flags(x as int) == (x / 0x2000_0000) as int
  {
    SplitAsInt(x);
    var count := CountFits(x);
    PartsOf(x as int, (x / 0x2000_0000) as int, count as int);
  }

  // ------------------------------------------------------------------ the signals

  lemma MaskBits(x: bv32)
    ensures x & 0x2000_0000 != 0 <==> x / 0x2000_0000 % 2 == 1
    ensures x & 0x4000_0000 != 0 <==> x / 0x2000_0000 / 2 % 2 == 1
    ensures x & 0x8000_0000 != 0 <==> x / 0x2000_0000 / 4 % 2 == 1
    ensures x / 0x2000_0000 < 8
  {
  }

  lemma ThreeBits(y: bv32)
    requires y < 8
    ensures y % 2 == 1 <==> y as int % 2 == 1
    ensures y / 2 % 2 == 1 <==> y as int / 2 % 2 == 1
    ensures y / 4 % 2 == 1 <==> y as int / 4 % 2 == 1
  {
    assert y in {0, 1, 2, 3, 4, 5, 6, 7};
  }

  /** doTask & kMODDELAY, and so on. */
  lemma SignalsAreMasks(x: bv32)
    ensures W.HasDelay(x as int) <==> x & 0x2000_0000 != 0
    ensures W.HasDur(x as int) <==> x & 0x4000_0000 != 0
    ensures W.HasCustom(x as int) <==> x & 0x8000_0000 != 0
  {
    CountIsMask(x);
    MaskBits(x);
    ThreeBits(x / 0x2000_0000);
  }

  // ------------------------------------------------------------------ raising a signal

  /** What `or` with a mask of signal bits does to each bit. */
  lemma OrDelay(x: bv32)
    ensures var y := x | 0x2000_0000;
            && y & 0x1FFF_FFFF == x & 0x1FFF_FFFF && y & 0x2000_0000 != 0
            && y & 0x4000_0000 == x & 0x4000_0000 && y & 0x8000_0000 == x & 0x8000_0000
  {
  }

  lemma OrDur(x: bv32)
    ensures var y := x | 0x4000_0000;
            && y & 0x1FFF_FFFF == x & 0x1FFF_FFFF && y & 0x4000_0000 != 0
            && y & 0x2000_0000 == x & 0x2000_0000 && y & 0x8000_0000 == x & 0x8000_0000
  {
  }

  lemma OrCustom(x: bv32)
    ensures var y := x | 0x8000_0000;
            && y & 0x1FFF_FFFF == x & 0x1FFF_FFFF && y & 0x8000_0000 != 0
            && y & 0x2000_0000 == x & 0x2000_0000 && y & 0x4000_0000 == x & 0x4000_0000
  {
  }

  /** doTask |= kMODDELAY */
  lemma RaiseDelayIsOr(x: bv32)
    ensures W.RaiseDelay(x as int) == (x | 0x2000_0000) as int
  {
    var y := x | 0x2000_0000;
    OrDelay(x);
    SameCount(x, y);
    SignalsAreMasks(x);
    SignalsAreMasks(y);
    W.RaisedDelay(x as int, y as int);
  }

  /** doTask |= kMODDUR */
  lemma RaiseDurIsOr(x: bv32)
    ensures W.RaiseDur(x as int) == (x | 0x4000_0000) as int
  {
    var y := x | 0x4000_0000;
    OrDur(x);
    SameCount(x, y);
    SignalsAreMasks(x);
    SignalsAreMasks(y);
    W.RaisedDur(x as int, y as int);
  }

  /** doTask |= kMODCUSTOM */
  lemma RaiseCustomIsOr(x: bv32)
    ensures W.RaiseCustom(x as int) == (x | 0x8000_0000) as int
  {
    var y := x | 0x8000_0000;
    OrCustom(x);
    SameCount(x, y);
    SignalsAreMasks(x);
    SignalsAreMasks(y);
    W.RaisedCustom(x as int, y as int);
  }

  lemma SameCount(x: bv32, y: bv32)
    requires y & 0x1FFF_FFFF == x & 0x1FFF_FFFF
    ensures W.Count(y as int) == W.Count(x as int)
  {
    CountIsMask(x);
    CountIsMask(y);
  }
}
