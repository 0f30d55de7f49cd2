/** JSON number literals: their text and the decimal they denote. */
module JsonNumbers {
  import opened Numerals
  import opened Wrappers

  /** A JSON number (RFC 8259, section 6), part by part. */
  datatype Numeral = Numeral(neg: bool, ints: string, frac: string, exp: Option<Exponent>)
  datatype Exponent = Exponent(mark: char, sign: string, digits: string)

  predicate IsExponent(e: Exponent) {
    (e.mark == 'e' || e.mark == 'E') && (e.sign == "" || e.sign == "+" || e.sign == "-") &&
    e.digits != "" && AllDigits(e.digits)
  }

  predicate IsNumeral(n: Numeral) {
    AllDigits(n.ints) && n.ints != "" && (n.ints[0] != '0' || n.ints == "0") && AllDigits(n.frac) &&
    (n.exp.Some? ==> IsExponent(n.exp.value))
  }

  type Literal = n: Numeral | IsNumeral(n) witness Numeral(false, "0", "", None)

  function SpellExp(e: Option<Exponent>): string {
    if e.None? then "" else [e.value.mark] + e.value.sign + e.value.digits
  }

  function SpellFrac(frac: string): string {
    if frac == "" then "" else "." + frac
  }

  /** The literal as it is written. */
  function Spell(n: Numeral): string {
    (if n.neg then "-" else "") + (n.ints + (SpellFrac(n.frac) + SpellExp(n.exp)))
  }

  function Coefficient(n: Literal): int {
    var c: int := Number(n.ints + n.frac);
    if n.neg then -c else c
  }

  function Signed(e: Option<Exponent>, magnitude: int): int {
    if e.Some? && e.value.sign == "-" then -magnitude else magnitude
  }

  /** The power of ten the coefficient is taken by. */
  function ExponentOf(n: Literal): int {
    Signed(n.exp, if n.exp.None? then 0 else Number(n.exp.value.digits)) - |n.frac|
  }
}
