/** The digit-count bracket of decimal.go: a rational approximation of
    log10(2), proved without real logarithms by repeated squaring. */
module DigitBounds {
  import opened Arith

  // log10(2) lies strictly between LOG10_OF_2_LO / TWO_POW_32 and LOG10_OF_2_HI / TWO_POW_32.
  const LOG10_OF_2_LO: nat := 1292913986
  const LOG10_OF_2_HI: nat := 1292913987
  const TWO_POW_32: nat := 0x1_0000_0000
  const MAX_INT32: nat := 0x7FFF_FFFF
  const MAX_INT64: nat := 0x7FFF_FFFF_FFFF_FFFF

  /** The lower half of digitCountBounds, for a magnitude of bitLen bits. */
  function DigitsLo(bitLen: nat): int {
    if bitLen == 0 then 1 else (bitLen - 1) * LOG10_OF_2_LO / TWO_POW_32 + 1
  }

  /** The upper half of digitCountBounds. */
  function DigitsHi(bitLen: nat): int {
    if bitLen == 0 then 1 else bitLen * LOG10_OF_2_HI / TWO_POW_32 + 1
  }

  // ----- 10^LO < 2^(2^32) < 10^HI -----

  /** 2^k lies in [lo * 10^e, hi * 10^e]. */
  ghost predicate Encloses(k: nat, lo: nat, hi: nat, e: nat) {
    lo * Pow(10, e) <= Pow(2, k) <= hi * Pow(10, e)
  }

  /** Squaring an enclosure doubles both exponents. */
  lemma Squared(k: nat, lo: nat, hi: nat, e: nat)
    requires Encloses(k, lo, hi, e)
    ensures Encloses(2 * k, lo * lo, hi * hi, 2 * e)
  {
    var p, t := Pow(10, e), Pow(2, k);
    PowAdd(2, k, k);
    PowAdd(10, e, e);
    MulLeBoth(lo * p, t, lo * p, t);
    MulLeBoth(t, hi * p, t, hi * p);
    MulRegroup(lo, p, lo, p);
    MulRegroup(hi, p, hi, p);
  }

  /** Squares an enclosure and rounds the mantissas outward by d digits. */
  lemma Step(k: nat, e: nat, lo: nat, hi: nat, lo': nat, hi': nat, d: nat, tenD: nat)
    requires Encloses(k, lo, hi, e) && tenD == Pow(10, d)
    requires lo' * tenD <= lo * lo && hi * hi <= hi' * tenD
    ensures Encloses(2 * k, lo', hi', 2 * e + d)
  {
    Squared(k, lo, hi, e);
    var p := Pow(10, 2 * e);
    PowAdd(10, d, 2 * e);
    MulLe(lo' * tenD, lo * lo, p);
    MulLe(hi * hi, hi' * tenD, p);
    MulAssoc(lo', tenD, p);
    MulAssoc(hi', tenD, p);
  }

  lemma Step11(k: nat, e: nat, lo: nat, hi: nat, lo': nat, hi': nat)
    requires Encloses(k, lo, hi, e)
    requires lo' * 100_000_000_000 <= lo * lo && hi * hi <= hi' * 100_000_000_000
    ensures Encloses(2 * k, lo', hi', 2 * e + 11)
  {
    assert Pow(10, 11) == 100_000_000_000;
    Step(k, e, lo, hi, lo', hi', 11, 100_000_000_000);
  }

  lemma Step12(k: nat, e: nat, lo: nat, hi: nat, lo': nat, hi': nat)
    requires Encloses(k, lo, hi, e)
    requires lo' * 1_000_000_000_000 <= lo * lo && hi * hi <= hi' * 1_000_000_000_000
    ensures Encloses(2 * k, lo', hi', 2 * e + 12)
  {
    assert Pow(10, 12) == 1_000_000_000_000;
    Step(k, e, lo, hi, lo', hi', 12, 1_000_000_000_000);
  }

  lemma TwoPow64(k: nat, e: nat)
    requires k == 64 && e == 8
    ensures Encloses(k, 184467440737, 184467440738, e)
  {
    assert Pow(10, 8) == 100_000_000;
    assert Pow(2, 8) == 256;
    PowAdd(2, 8, 8);
    PowAdd(2, 16, 16);
    PowAdd(2, 32, 32);
  }

  /** 2^(2^32) to twelve digits, by squaring 2^64 twenty-six times. */
  lemma TwoPowTwoPow32(k: nat, e: nat) returns (k': nat, e': nat)
    requires k == 64 && e == 8 && Encloses(k, 184467440737, 184467440738, e)
    ensures k' == TWO_POW_32 && e' == LOG10_OF_2_LO - 11
    ensures Encloses(k', 310257696880, 310503596353, e')
  {
    k', e' := k, e;
    Step11(k', e', 184467440737, 184467440738, 340282366920, 340282366925);  k', e' := 2 * k', 2 * e' + 11;
    Step12(k', e', 340282366920, 340282366925, 115792089236, 115792089241);  k', e' := 2 * k', 2 * e' + 12;
    Step11(k', e', 115792089236, 115792089241, 134078079296, 134078079308);  k', e' := 2 * k', 2 * e' + 11;
    Step11(k', e', 134078079296, 134078079308, 179769313477, 179769313510);  k', e' := 2 * k', 2 * e' + 11;
    Step11(k', e', 179769313477, 179769313510, 323170060679, 323170060799);  k', e' := 2 * k', 2 * e' + 11;
    Step12(k', e', 323170060679, 323170060799, 104438888119, 104438888197);  k', e' := 2 * k', 2 * e' + 12;
    Step11(k', e', 104438888119, 104438888197, 109074813515, 109074813679);  k', e' := 2 * k', 2 * e' + 11;
    Step11(k', e', 109074813515, 109074813679, 118973149433, 118973149792);  k', e' := 2 * k', 2 * e' + 11;
    Step11(k', e', 118973149433, 118973149792, 141546102860, 141546103715);  k', e' := 2 * k', 2 * e' + 11;
    Step11(k', e', 141546102860, 141546103715, 200352992348, 200352994769);  k', e' := 2 * k', 2 * e' + 11;
    Step11(k', e', 200352992348, 200352994769, 401413215427, 401413225130);  k', e' := 2 * k', 2 * e' + 11;
    Step12(k', e', 401413215427, 401413225130, 161132569519, 161132577310);  k', e' := 2 * k', 2 * e' + 12;
    Step11(k', e', 161132569519, 161132577310, 259637049597, 259637074706);  k', e' := 2 * k', 2 * e' + 11;
    Step11(k', e', 259637049597, 259637074706, 674113975234, 674114105619);  k', e' := 2 * k', 2 * e' + 11;
    Step12(k', e', 674113975234, 674114105619, 454429651605, 454429827395);  k', e' := 2 * k', 2 * e' + 12;
    Step12(k', e', 454429651605, 454429827395, 206506308257, 206506468027);  k', e' := 2 * k', 2 * e' + 12;
    Step11(k', e', 206506308257, 206506468027, 426448553499, 426449213370);  k', e' := 2 * k', 2 * e' + 11;
    Step12(k', e', 426448553499, 426449213370, 181858368781, 181858931584);  k', e' := 2 * k', 2 * e' + 12;
    Step11(k', e', 181858368781, 181858931584, 330724662956, 330726709969);  k', e' := 2 * k', 2 * e' + 11;
    Step12(k', e', 330724662956, 330726709969, 109378802687, 109380156687);  k', e' := 2 * k', 2 * e' + 12;
    Step11(k', e', 109378802687, 109380156687, 119637224772, 119640186769);  k', e' := 2 * k', 2 * e' + 11;
    Step11(k', e', 119637224772, 119640186769, 143130655511, 143137742902);  k', e' := 2 * k', 2 * e' + 11;
    Step11(k', e', 143130655511, 143137742902, 204863845470, 204884134431);  k', e' := 2 * k', 2 * e' + 11;
    Step11(k', e', 204863845470, 204884134431, 419691951807, 419775085416);  k', e' := 2 * k', 2 * e' + 11;
    Step12(k', e', 419691951807, 419775085416, 176141334411, 176211122337);  k', e' := 2 * k', 2 * e' + 12;
    Step11(k', e', 176141334411, 176211122337, 310257696880, 310503596353);  k', e' := 2 * k', 2 * e' + 11;
  }

  /** LOG10_OF_2_LO / 2^32 < log10(2) < LOG10_OF_2_HI / 2^32, without logarithms:
      with n = 2^32 and l = LOG10_OF_2_LO, 10^l < 2^n < 10^(l+1). */
  lemma Log10Of2Enclosed(n: nat, l: nat)
    requires n == TWO_POW_32 && l == LOG10_OF_2_LO
    ensures Pow(10, l) < Pow(2, n) < Pow(10, l + 1)
  {
    TwoPow64(64, 8);
    var k, e := TwoPowTwoPow32(64, 8);
    var p := Pow(10, e);
    PowPos(10, e);
    PowAdd(10, 11, e);
    PowAdd(10, 12, e);
    assert Pow(10, 11) == 100_000_000_000;
    assert Pow(10, 12) == 1_000_000_000_000;
    assert l == 11 + e && l + 1 == 12 + e && k == n;
  }

  /** (2^c)^n against (10^k)^n, by way of (2^n)^c and (10^l)^c; e is k * n, f is c * l. */
  lemma PowersMeet(k: nat, c: nat, n: nat, l: nat, e: nat, f: nat)
    requires e == k * n && f == c * l
    ensures Pow(Pow(10, k), n) == Pow(10, e)
    ensures Pow(Pow(10, l), c) == Pow(10, f)
    ensures Pow(Pow(2, c), n) == Pow(Pow(2, n), c)
  {
    var g := c * n;
    PowMul(10, k, n, e);
    MulComm(c, l);
    PowMul(10, l, c, f);
    PowMul(2, c, n, g);
    MulComm(c, n);
    PowMul(2, n, c, g);
  }

  /** k * n <= c * l implies 10^k <= 2^c, when 10^l <= 2^n. */
  lemma PowTenBelow(k: nat, c: nat, n: nat, l: nat)
    requires n > 0 && Pow(10, l) <= Pow(2, n) && k * n <= c * l
    ensures Pow(10, k) <= Pow(2, c)
  {
    var e, f := k * n, c * l;
    PowersMeet(k, c, n, l, e, f);
    PowMono(10, e, f);
    PowBaseMono(Pow(10, l), Pow(2, n), c);
    PowRoot(Pow(10, k), Pow(2, c), n);
  }

  /** c * l <= k * n implies 2^c <= 10^k, when 2^n <= 10^l. */
  lemma PowTenAbove(k: nat, c: nat, n: nat, l: nat)
    requires n > 0 && Pow(2, n) <= Pow(10, l) && c * l <= k * n
    ensures Pow(2, c) <= Pow(10, k)
  {
    var e, f := k * n, c * l;
    PowersMeet(k, c, n, l, e, f);
    PowMono(10, f, e);
    PowBaseMono(Pow(2, n), Pow(10, l), c);
    PowRoot(Pow(2, c), Pow(10, k), n);
  }

  /** The bracket holds for every magnitude, zero included. */
  lemma DigitCountWithin(v: nat)
    ensures DigitsLo(BitLen(v)) <= DigitCount(v) <= DigitsHi(BitLen(v))
  {
    if v > 0 {
      var b, n, l := BitLen(v), TWO_POW_32, LOG10_OF_2_LO;
      BitLenBounds(v);
      Log10Of2Enclosed(n, l);
      var k := (b - 1) * l / n;
      PowTenBelow(k, b - 1, n, l);
      DigitCountAtLeast(v, k);
      var k' := b * (l + 1) / n + 1;
      PowTenAbove(k', b, n, l + 1);
      DigitCountAtLeast(v, k');
    }
  }

  /** For every bit length a big.Int can have, the bracket is at most one digit
      wide and neither product leaves int64. */
  lemma BracketWidth(b: nat)
    requires 0 < b <= MAX_INT32
    ensures 0 <= DigitsHi(b) - DigitsLo(b) <= 1
    ensures (b - 1) * LOG10_OF_2_LO <= b * LOG10_OF_2_HI <= MAX_INT64
  {
  }
}
