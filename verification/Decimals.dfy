/** decimal.go: fixed-scale decimals over an unbounded coefficient. A nil
    coefficient reads as zero in every operation of the source, so it is zero here. */
module Decimals {
  import opened Arith
  import opened DigitBounds
  import opened Wrappers

  const MIN_INT32: int := -0x8000_0000

  type Int32 = x: int | -0x8000_0000 <= x <= 0x7FFF_FFFF

  /** The value is unscaled * 10^(-scale). */
  datatype Decimal = Decimal(unscaled: int, scale: Int32)

  datatype RoundingMode = Ceiling | Floor

  /** Go's conversion to int32. */
  function Wrap32(x: int): (r: Int32)
    ensures MIN_INT32 <= x <= MAX_INT32 ==> r == x
  {
    (x + 0x8000_0000) % 0x1_0000_0000 - 0x8000_0000
  }

  // ----- the operations -----

  function Sign(d: Decimal): int {
    Sgn(d.unscaled)
  }

  function Neg(d: Decimal): Decimal {
    Decimal(-d.unscaled, d.scale)
  }

  function Precision(d: Decimal): nat {
    DigitCount(Abs(d.unscaled))
  }

  /** The length of the run of zeros that ends n's decimal rendering. */
  function TrailingZeros(n: nat): nat
    requires n > 0
  {
    if n % 10 != 0 then 0 else 1 + TrailingZeros(n / 10)
  }

  function StripTrailingZeros(d: Decimal): Decimal {
    if d.unscaled == 0 then Decimal(0, 0)
    else if d.unscaled % 2 == 1 then d
    else
      var zeros, headroom := TrailingZeros(Abs(d.unscaled)), d.scale - MIN_INT32;
      var k := if zeros > headroom then headroom else zeros;
      if k == 0 then d
      else
        PowPos(10, k);
        Decimal(Quo(d.unscaled, Pow(10, k)), d.scale - k)
  }

  function SetScale(d: Decimal, newScale: Int32): (r: Result<Decimal, ()>)
    ensures newScale >= d.scale ==> r.Success?
  {
    if d.scale == newScale then Success(d)
    else if d.unscaled == 0 then Success(Decimal(0, newScale))
    else
      var diff := newScale - d.scale;
      if diff > 0 then Success(Decimal(d.unscaled * Pow(10, diff), newScale))
      else if -diff > Precision(d) then Failure(())
      else
        PowPos(10, -diff);
        var factor := Pow(10, -diff);
        if Rem(d.unscaled, factor) != 0 then Failure(())
        else Success(Decimal(Quo(d.unscaled, factor), newScale))
  }

  function RoundToScale(d: Decimal, newScale: Int32, mode: RoundingMode): Decimal {
    if newScale >= d.scale then SetScale(d, newScale).value
    else
      var diff := d.scale - newScale;
      if d.unscaled == 0 then Decimal(0, newScale)
      else if diff > Precision(d) then
        var u :=
          if mode.Ceiling? && d.unscaled > 0 then 1
          else if mode.Floor? && d.unscaled < 0 then -1
          else 0;
        Decimal(u, newScale)
      else
        PowPos(10, diff);
        var factor := Pow(10, diff);
        var q, rem := Quo(d.unscaled, factor), Rem(d.unscaled, factor);
        var u :=
          if mode.Ceiling? && rem > 0 then q + 1
          else if mode.Floor? && rem < 0 then q - 1
          else q;
        Decimal(u, newScale)
  }

  /** None is the source's panic. Both scale subtractions are on int32 and wrap. */
  function RoundToPrecision(d: Decimal, maxPrec: nat, mode: RoundingMode): Option<Decimal> {
    var p := Precision(d);
    if p <= maxPrec then Some(d)
    else
      var drop := Wrap32(p - maxPrec);
      var result := RoundToScale(d, Wrap32(d.scale - drop), mode);
      if Precision(result) > maxPrec then
        var renorm := SetScale(result, Wrap32(result.scale - 1));
        if renorm.Success? then Some(renorm.value) else None
      else
        Some(result)
  }

  function Cmp(d: Decimal, other: Decimal): int {
    var ds, os := Sign(d), Sign(other);
    if ds != os then (if ds < os then -1 else 1)
    else if ds == 0 then 0
    else if d.scale == other.scale then Sgn(d.unscaled - other.unscaled)
    else
      var db, ob := BitLen(Abs(d.unscaled)), BitLen(Abs(other.unscaled));
      if DigitsLo(db) - d.scale > DigitsHi(ob) - other.scale then ds
      else if DigitsHi(db) - d.scale < DigitsLo(ob) - other.scale then -ds
      else
        var dAdj, oAdj := Precision(d) - d.scale, Precision(other) - other.scale;
        if dAdj > oAdj then ds
        else if dAdj < oAdj then -ds
        else
          var target: Int32 := if other.scale > d.scale then other.scale else d.scale;
          Sgn(SetScale(d, target).value.unscaled - SetScale(other, target).value.unscaled)
  }

  // ----- values -----

  /** x * 10^k. */
  ghost function Shift(x: real, k: int): real
    decreases Abs(k)
  {
    if k == 0 then x
    else if k > 0 then 10.0 * Shift(x, k - 1)
    else Shift(x, k + 1) / 10.0
  }

  /** The exact rational a decimal denotes. */
  ghost function Value(d: Decimal): real {
    Shift(d.unscaled as real, -(d.scale as int))
  }

  /** d counted in units of 10^(-m). */
  function At(d: Decimal, m: int): int
    requires m >= d.scale
    decreases m - d.scale
  {
    if m == d.scale then d.unscaled else 10 * At(d, m - 1)
  }

  lemma ShiftStep(x: real, k: int)
    ensures Shift(x, k + 1) == 10.0 * Shift(x, k)
  {
  }

  lemma {:induction false} ShiftTen(x: real, k: int)
    ensures Shift(10.0 * x, k) == 10.0 * Shift(x, k)
    decreases Abs(k)
  {
    if k > 0 {
      ShiftTen(x, k - 1);
    } else if k < 0 {
      ShiftTen(x, k + 1);
    }
  }

  lemma {:induction false} ShiftOrder(x: real, y: real, k: int)
    ensures x <= y <==> Shift(x, k) <= Shift(y, k)
    decreases Abs(k)
  {
    if k > 0 {
      ShiftOrder(x, y, k - 1);
    } else if k < 0 {
      ShiftOrder(x, y, k + 1);
    }
  }

  lemma {:induction false} ValueAt(d: Decimal, m: int)
    requires m >= d.scale
    ensures Value(d) == Shift(At(d, m) as real, -m)
    decreases m - d.scale
  {
    if m > d.scale {
      ValueAt(d, m - 1);
      ShiftStep(At(d, m - 1) as real, -m);
      ShiftTen(At(d, m - 1) as real, -m);
    }
  }

  /** Comparing values is comparing counts of a common unit. */
  lemma CompareAt(a: Decimal, b: Decimal, m: int)
    requires m >= a.scale && m >= b.scale
    ensures Value(a) <= Value(b) <==> At(a, m) <= At(b, m)
    ensures Value(b) <= Value(a) <==> At(b, m) <= At(a, m)
  {
    ValueAt(a, m);
    ValueAt(b, m);
    ShiftOrder(At(a, m) as real, At(b, m) as real, -m);
    ShiftOrder(At(b, m) as real, At(a, m) as real, -m);
  }

  lemma {:induction false} AtShift(d: Decimal, m: int, j: nat)
    requires m >= d.scale
    ensures At(d, m + j) == At(d, m) * Pow(10, j)
    decreases j
  {
    if j > 0 {
      AtShift(d, m, j - 1);
      var x, p := At(d, m), Pow(10, j - 1);
      assert x * (10 * p) == 10 * (x * p);
    }
  }
}
