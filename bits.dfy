/** Facts about 32-bit words that the evaluator's bit tests rest on, stated on
    words alone. */
module Bits {

  /** When five words meet, the first meets each of the others. */
  lemma AndImpliesMeets(x0: bv32, x1: bv32, x2: bv32, x3: bv32, x4: bv32)
    ensures x0 & x1 & x2 & x3 & x4 != 0 ==> x0 & x1 != 0 && x0 & x2 != 0 && x0 & x3 != 0 && x0 & x4 != 0
  {
  }

  lemma AndOfSame(x: bv32)
    ensures x & x & x & x & x == x
  {
  }

  lemma AndOfMasked(w0: bv32, w1: bv32, w2: bv32, w3: bv32, w4: bv32)
    ensures 0xf000 & w0 & w1 & w2 & w3 & w4
         == (w0 & 0xf000) & (w1 & 0xf000) & (w2 & 0xf000) & (w3 & 0xf000) & (w4 & 0xf000)
  {
  }

  lemma ShiftOfOr(w0: bv32, w1: bv32, w2: bv32, w3: bv32, w4: bv32)
    ensures (w0 | w1 | w2 | w3 | w4) >> 16 == (w0 >> 16) | (w1 >> 16) | (w2 >> 16) | (w3 >> 16) | (w4 >> 16)
  {
  }

  lemma OrBelow(y0: bv32, y1: bv32, y2: bv32, y3: bv32, y4: bv32)
    requires y0 < 0x2000 && y1 < 0x2000 && y2 < 0x2000 && y3 < 0x2000 && y4 < 0x2000
    ensures y0 | y1 | y2 | y3 | y4 < 0x2000
  {
  }

  lemma OrMeets(y0: bv32, y1: bv32, y2: bv32, y3: bv32, y4: bv32, m: bv32)
    ensures (y0 | y1 | y2 | y3 | y4) & m != 0 <==> y0 & m != 0 || y1 & m != 0 || y2 & m != 0 || y3 & m != 0 || y4 & m != 0
  {
  }

  /** Five single bits below bit 13 or together to at most bits 8-12 all set. */
  lemma SingleBitsAtMost(r0: nat, r1: nat, r2: nat, r3: nat, r4: nat)
    requires r0 < 13 && r1 < 13 && r2 < 13 && r3 < 13 && r4 < 13
    ensures ((1 as bv32) << r0) | ((1 as bv32) << r1) | ((1 as bv32) << r2) | ((1 as bv32) << r3) | ((1 as bv32) << r4) <= 0x1F00
  {
  }
}
