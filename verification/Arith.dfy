/** Powers, decimal digit counts and bit lengths over the unbounded integers,
    with the few non-linear facts the rest of the project builds on. */
module Arith {

  function Abs(x: int): nat {
    if x < 0 then -x else x
  }

  function Sgn(x: int): int {
    if x < 0 then -1 else if x > 0 then 1 else 0
  }

  function Max(a: int, b: int): int {
    if a < b then b else a
  }

  function Pow(b: nat, e: nat): nat {
    if e == 0 then 1 else b * Pow(b, e - 1)
  }

  /** big.Int.Quo: division truncated toward zero. */
  function Quo(a: int, b: int): int
    requires b > 0
  {
    if a >= 0 then a / b else -((-a) / b)
  }

  /** The remainder that goes with Quo; it carries the sign of the dividend. */
  function Rem(a: int, b: int): int
    requires b > 0
  {
    a - Quo(a, b) * b
  }

  lemma DivMod(a: int, b: int)
    requires b > 0
    ensures a == (a / b) * b + a % b
    ensures a >= 0 ==> a / b >= 0
  {
  }

  lemma QuoRem(a: int, b: int)
    requires b > 0
    ensures a == Quo(a, b) * b + Rem(a, b)
    ensures a >= 0 ==> Quo(a, b) >= 0 && 0 <= Rem(a, b) < b
    ensures a <= 0 ==> Quo(a, b) <= 0 && -b < Rem(a, b) <= 0
  {
    var m := Abs(a);
    var q := m / b;
    DivMod(m, b);
    assert (-q) * b == -(q * b);
  }

  // ----- multiplication -----

  lemma MulLe(a: int, b: int, c: int)
    requires a <= b && c >= 0
    ensures a * c <= b * c
  {
  }

  lemma MulLt(a: int, b: int, c: int)
    requires c > 0
    ensures a < b <==> a * c < b * c
    ensures a <= b <==> a * c <= b * c
    ensures a == b <==> a * c == b * c
  {
    if a < b { assert (b - a) * c > 0; }
    if b < a { assert (a - b) * c > 0; }
  }

  lemma MulLeBoth(a: nat, b: nat, c: nat, d: nat)
    requires a <= b && c <= d
    ensures a * c <= b * d
  {
    MulLe(a, b, c);
    MulLe(c, d, b);
  }

  lemma MulComm(a: int, b: int)
    ensures a * b == b * a
  {
  }

  lemma MulAssoc(a: int, b: int, c: int)
    ensures (a * b) * c == a * (b * c)
  {
  }

  lemma MulRegroup(a: int, b: int, c: int, d: int)
    ensures (a * b) * (c * d) == (a * c) * (b * d)
  {
    assert (a * b) * (c * d) == a * (b * (c * d));
    assert b * (c * d) == c * (b * d);
  }

  // ----- powers -----

  lemma {:induction false} PowPos(b: nat, e: nat)
    requires b > 0
    ensures Pow(b, e) > 0
  {
    if e > 0 {
      PowPos(b, e - 1);
      MulLe(1, b, Pow(b, e - 1));
    }
  }

  lemma {:induction false} PowAdd(b: nat, m: nat, n: nat)
    ensures Pow(b, m + n) == Pow(b, m) * Pow(b, n)
  {
    if m > 0 {
      PowAdd(b, m - 1, n);
      assert b * (Pow(b, m - 1) * Pow(b, n)) == (b * Pow(b, m - 1)) * Pow(b, n);
    }
  }

  lemma PowMono(b: nat, m: nat, n: nat)
    requires b > 0 && m <= n
    ensures Pow(b, m) <= Pow(b, n)
  {
    var d := n - m;
    PowPos(b, d);
    MulLe(1, Pow(b, d), Pow(b, m));
    PowAdd(b, d, m);
  }

  lemma {:induction false} PowMul(b: nat, m: nat, n: nat, q: nat)
    requires q == m * n
    ensures Pow(Pow(b, m), n) == Pow(b, q)
    decreases n
  {
    if n > 0 {
      var r := m * (n - 1);
      assert q == m + r;
      PowMul(b, m, n - 1, r);
      PowAdd(b, m, r);
    }
  }

  lemma {:induction false} PowBaseMono(x: nat, y: nat, n: nat)
    requires x <= y
    ensures Pow(x, n) <= Pow(y, n)
  {
    if n > 0 {
      PowBaseMono(x, y, n - 1);
      MulLeBoth(x, y, Pow(x, n - 1), Pow(y, n - 1));
    }
  }

  lemma {:induction false} PowBaseStrict(x: nat, y: nat, n: nat)
    requires x < y && n > 0
    ensures Pow(x, n) < Pow(y, n)
  {
    PowBaseMono(x, y, n - 1);
    PowPos(y, n - 1);
    MulLe(Pow(x, n - 1), Pow(y, n - 1), x);
    MulLt(x, y, Pow(y, n - 1));
  }

  /** Taking n-th roots preserves the order. */
  lemma PowRoot(x: nat, y: nat, n: nat)
    requires n > 0 && Pow(x, n) <= Pow(y, n)
    ensures x <= y
  {
    if y < x {
      PowBaseStrict(y, x, n);
    }
  }

  // ----- digit counts -----

  /** The number of decimal digits of n; zero has one. */
  function DigitCount(n: nat): nat {
    if n < 10 then 1 else 1 + DigitCount(n / 10)
  }

  /** big.Int.BitLen of a magnitude; zero has none. */
  function BitLen(n: nat): nat {
    if n == 0 then 0 else 1 + BitLen(n / 2)
  }

  lemma {:induction false} DigitCountBounds(n: nat)
    requires n > 0
    ensures DigitCount(n) >= 1
    ensures Pow(10, DigitCount(n) - 1) <= n < Pow(10, DigitCount(n))
  {
    if n >= 10 {
      DigitCountBounds(n / 10);
      var d := DigitCount(n / 10);
      assert Pow(10, d) == 10 * Pow(10, d - 1);
      assert Pow(10, d + 1) == 10 * Pow(10, d);
    } else {
      assert Pow(10, 0) == 1;
      assert Pow(10, 1) == 10;
    }
  }

  lemma {:induction false} BitLenBounds(n: nat)
    requires n > 0
    ensures BitLen(n) >= 1
    ensures Pow(2, BitLen(n) - 1) <= n < Pow(2, BitLen(n))
  {
    var h := n / 2;
    BitLenStep(n);
    if h == 0 {
      assert n == 1 && Pow(2, 0) == 1 && Pow(2, 1) == 2;
    } else {
      hide BitLen, Pow;
      BitLenBounds(h);
      PowStep(2, BitLen(h) - 1);
      PowStep(2, BitLen(h));
      Doubled(n, h, Pow(2, BitLen(h) - 1), Pow(2, BitLen(h)));
    }
  }

  lemma BitLenStep(n: nat)
    requires n > 0
    ensures BitLen(n) == 1 + BitLen(n / 2) && (n / 2 == 0 ==> BitLen(n) == 1)
  {
  }

  lemma Doubled(n: nat, h: nat, lo: nat, hi: nat)
    requires h == n / 2 && lo <= h < hi
    ensures 2 * lo <= n < 2 * hi
  {
  }

  lemma PowStep(b: nat, e: nat)
    ensures Pow(b, e + 1) == b * Pow(b, e)
  {
  }

  /** n >= 10^k says exactly that n has more than k digits. */
  lemma DigitCountAtLeast(n: nat, k: nat)
    requires n > 0
    ensures Pow(10, k) <= n <==> k < DigitCount(n)
  {
    DigitCountBounds(n);
    var d := DigitCount(n);
    if k < d {
      PowMono(10, k, d - 1);
    } else {
      PowMono(10, d, k);
    }
  }
}
