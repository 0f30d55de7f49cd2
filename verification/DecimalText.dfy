/** ParseDecimal, Canonical and StripTrailingZeros' scan (decimal.go), and the bounded whole-number
    parse of parse_typed.go. */
module DecimalText {
  import opened Arith
  import opened DataTypes
  import opened DecimalLaws
  import opened Decimals
  import opened DigitBounds
  import opened JsonNumbers
  import opened NumericAdmit
  import opened Numerals
  import opened Strings
  import opened Wrappers

  // ----- ParseDecimal -----

  const MIN_INT64: int := -0x8000_0000_0000_0000
  const MAX_INT64: int := 0x7FFF_FFFF_FFFF_FFFF

  /** strconv.ParseInt(s, 10, 64). */
  function ParseInt64(s: string): Option<int> {
    var negative := s != "" && s[0] == '-';
    var digits := if s != "" && (s[0] == '-' || s[0] == '+') then s[1..] else s;
    if digits == "" || !AllDigits(digits) then None
    else
      var n: int := Number(digits);
      var v := if negative then -n else n;
      if MIN_INT64 <= v <= MAX_INT64 then Some(v) else None
  }

  /** strings.IndexAny(s, "eE"), |s| when there is none. */
  function FindExp(s: string): (n: nat)
    ensures n <= |s|
  {
    var i, j := Find(s, 'e'), Find(s, 'E');
    if i < j then i else j
  }

  const SPECIAL := {"nan", "inf", "infinity", "+inf", "+infinity", "-inf", "-infinity"}

  function Lower(s: string): string {
    seq(|s|, i requires 0 <= i < |s| => if 'A' <= s[i] <= 'Z' then s[i] - 'A' + 'a' else s[i])
  }

  predicate IsSpecial(s: string) {
    Lower(s) in SPECIAL
  }

  /** The mantissa's integer and fraction digits, its sign stripped. */
  function ParseMantissa(mantissa: string): Option<(string, string)> {
    var dot := Find(mantissa, '.');
    var intPart := if mantissa[..dot] == "" then "0" else mantissa[..dot];
    var fracPart := if dot < |mantissa| then mantissa[dot + 1..] else "";
    if '.' in fracPart then None
    else if intPart == "0" && fracPart == "" && dot < |mantissa| then None
    else if !AllDigits(intPart) || !AllDigits(fracPart) then None
    else Some((intPart, fracPart))
  }

  function ParseDecimal(s: string): Option<Decimal> {
    if s == "" || IsSpecial(s) then None
    else
      var e := FindExp(s);
      var mantissa, expPart := s[..e], if e < |s| then s[e + 1..] else "";
      if e < |s| && expPart == "" then None
      else if mantissa == "" || mantissa == "+" || mantissa == "-" then None
      else
        var negative := mantissa[0] == '-';
        var parts := ParseMantissa(if negative || mantissa[0] == '+' then mantissa[1..] else mantissa);
        var exp := if expPart == "" then Some(0) else ParseInt64(expPart);
        if parts.None? || exp.None? then None
        else
          var (intPart, fracPart) := parts.value;
          MantissaDigits(if negative || mantissa[0] == '+' then mantissa[1..] else mantissa);
          var u: int := Number(intPart + fracPart);
          var scale := |fracPart| - exp.value;
          if MIN_INT32 <= scale <= MAX_INT32 then Some(Decimal(if negative then -u else u, scale)) else None
  }

  lemma MantissaDigits(mantissa: string)
    ensures ParseMantissa(mantissa).Some? ==>
      AllDigits(ParseMantissa(mantissa).value.0 + ParseMantissa(mantissa).value.1)
  {
  }

  // ----- what ParseDecimal reads -----

  lemma FindFirst(s: string, c: char, n: nat)
    requires n < |s| && s[n] == c && forall i :: 0 <= i < n ==> s[i] != c
    ensures Find(s, c) == n
  {
  }

  lemma FindNone(s: string, c: char)
    requires forall i :: 0 <= i < |s| ==> s[i] != c
    ensures Find(s, c) == |s|
  {
  }

  /** A decimal literal, part by part: a JSON number may also have a plus sign, leading zeros, and no digits
      on one side of its point. */
  datatype Loose = Loose(sign: string, ints: string, point: bool, frac: string, exp: Option<Exponent>)

  predicate IsSign(s: string) {
    s == "" || s == "+" || s == "-"
  }

  predicate IsLoose(n: Loose) {
    && IsSign(n.sign) && AllDigits(n.ints) && AllDigits(n.frac) && (n.frac != "" ==> n.point)
    && (n.ints != "" || n.frac != "") && !(n.ints == "0" && n.point && n.frac == "")
    && (n.exp.Some? ==> IsExponent(n.exp.value))
  }

  /** The digits and the point. */
  function Mantissa(n: Loose): string {
    n.ints + (if n.point then "." + n.frac else "")
  }

  function SpellLoose(n: Loose): string {
    (n.sign + Mantissa(n)) + SpellExp(n.exp)
  }

  function LooseCoefficient(n: Loose): int
    requires IsLoose(n)
  {
    var c: int := Number(n.ints + n.frac);
    if n.sign == "-" then -c else c
  }

  /** What a written exponent contributes. */
  function Written(exp: Option<Exponent>): int
    requires exp.Some? ==> IsExponent(exp.value)
  {
    if exp.None? then 0 else Signed(exp, Number(exp.value.digits))
  }

  lemma MantissaChars(n: Loose)
    requires IsLoose(n)
    ensures Mantissa(n) != ""
    ensures forall i :: 0 <= i < |Mantissa(n)| ==> Mantissa(n)[i] == '.' || IsDigit(Mantissa(n)[i])
  {
  }

  lemma MantissaParses(n: Loose)
    requires IsLoose(n)
    ensures ParseMantissa(Mantissa(n)) == Some((if n.ints == "" then "0" else n.ints, n.frac))
  {
    hide Number;
    var m := Mantissa(n);
    if !n.point {
      assert m == n.ints;
      FindNone(m, '.');
      assert m[..|m|] == m;
    } else {
      assert m == n.ints + ("." + n.frac);
      assert m[|n.ints|] == '.';
      FindFirst(m, '.', |n.ints|);
      assert m[..|n.ints|] == n.ints && m[|n.ints| + 1..] == n.frac;
      assert '.' !in n.frac;
    }
  }

  lemma SplitAtExponent(n: Loose)
    requires IsLoose(n)
    ensures var s, m := SpellLoose(n), n.sign + Mantissa(n);
      && FindExp(s) == |m| && s[..|m|] == m
      && (n.exp.None? ==> |s| == |m|)
      && (n.exp.Some? ==> |s| > |m| && s[|m| + 1..] == n.exp.value.sign + n.exp.value.digits)
  {
    MantissaChars(n);
    if n.exp.Some? {
      assert SpellExp(n.exp) == [n.exp.value.mark] + (n.exp.value.sign + n.exp.value.digits);
      assert SpellExp(n.exp)[1..] == n.exp.value.sign + n.exp.value.digits;
    }
    hide Mantissa, SpellExp, Number;
    AtMark(SpellLoose(n), n.sign + Mantissa(n), SpellExp(n.exp));
  }

  predicate MantissaChar(c: char) {
    c == '+' || c == '-' || c == '.' || IsDigit(c)
  }

  /** Where the mantissa holds no e, the first one is the exponent's. */
  lemma AtMark(s: string, m: string, last: string)
    requires s == m + last && forall i :: 0 <= i < |m| ==> MantissaChar(m[i])
    requires last == "" || last[0] == 'e' || last[0] == 'E'
    ensures FindExp(s) == |m| && s[..|m|] == m && (last != "" ==> s[|m| + 1..] == last[1..])
  {
    assert forall i :: 0 <= i < |m| ==> s[i] == m[i];
    if last == "" {
      FindNone(s, 'e');
      FindNone(s, 'E');
    } else {
      var mark := last[0];
      assert s[|m|] == mark;
      FindFirst(s, mark, |m|);
      NotBefore(s, if mark == 'e' then 'E' else 'e', |m|);
    }
  }

  lemma NotBefore(s: string, c: char, n: nat)
    requires n < |s| && s[n] != c && forall i :: 0 <= i < n ==> s[i] != c
    ensures Find(s, c) > n
  {
    if Find(s, c) < |s| {
      assert s[Find(s, c)] == c;
    }
  }

  lemma ExponentParses(e: Exponent)
    requires IsExponent(e)
    ensures e.sign + e.digits != ""
    ensures var v := Signed(Some(e), Number(e.digits));
      ParseInt64(e.sign + e.digits) == if MIN_INT64 <= v <= MAX_INT64 then Some(v) else None
  {
    var s := e.sign + e.digits;
    assert IsDigit(e.digits[0]);
    hide Number, AllDigits;
    if e.sign == "" {
      assert s == e.digits;
    } else {
      assert s[0] == e.sign[0] && s[1..] == e.digits;
    }
  }

  lemma NotSpecial(n: Loose)
    requires IsLoose(n)
    ensures SpellLoose(n) != "" && !IsSpecial(SpellLoose(n))
  {
    hide Number, SpellExp;
    var s, i := SpellLoose(n), |n.sign|;
    MantissaChars(n);
    assert s[i] == Mantissa(n)[0];
    assert Lower(s)[i] == s[i];
    assert n.sign != "" ==> Lower(s)[0] == n.sign[0];
  }

  lemma SameNumber(ints: string, frac: string)
    requires AllDigits(ints) && AllDigits(frac)
    ensures AllDigits((if ints == "" then "0" else ints) + frac)
    ensures Number((if ints == "" then "0" else ints) + frac) == Number(ints + frac)
  {
    if ints == "" {
      assert "0"[..0] == "" && Number("0") == 0;
      NumberConcat("0", frac);
      assert "" + frac == frac;
    }
  }

  /** ParseDecimal from its parts on. */
  lemma ParsesParts(s: string, sign: string, rest: string, ints: string, frac: string, exp: Option<int>)
    requires s != "" && !IsSpecial(s) && rest != "" && rest[0] != '+' && rest[0] != '-'
    requires IsSign(sign) && FindExp(s) == |sign + rest| && s[..FindExp(s)] == sign + rest
    requires ParseMantissa(rest) == Some((ints, frac)) && AllDigits(ints + frac)
    requires if |s| > FindExp(s) then s[FindExp(s) + 1..] != "" && exp == ParseInt64(s[FindExp(s) + 1..]) else exp == Some(0)
    ensures var u: int := Number(ints + frac);
      ParseDecimal(s) ==
        if exp.Some? && MIN_INT32 <= |frac| - exp.value <= MAX_INT32
        then Some(Decimal(if sign == "-" then -u else u, |frac| - exp.value)) else None
  {
    hide Number, Find, FindExp, ParseInt64, Lower, ParseMantissa, AllDigits, IsSpecial;
    var m := sign + rest;
    assert m[0] == (if sign != "" then sign[0] else rest[0]);
    assert sign != "" ==> m[1..] == rest;
    assert sign == "" ==> m == rest;
    assert sign != "" ==> |m| > 1;
  }

  /** The literal's exponent fits int64 and its scale int32. */
  predicate Fits(n: Loose)
    requires IsLoose(n)
  {
    && -9_223_372_036_854_775_808 <= Written(n.exp) <= 9_223_372_036_854_775_807
    && -2_147_483_648 <= |n.frac| - Written(n.exp) <= 2_147_483_647
  }

  /** The exponent ParseInt64 reads. */
  function ReadExponent(exp: Option<Exponent>): Option<int>
    requires exp.Some? ==> IsExponent(exp.value)
  {
    if MIN_INT64 <= Written(exp) <= MAX_INT64 then Some(Written(exp)) else None
  }

  lemma ExponentRead(n: Loose)
    requires IsLoose(n)
    ensures var s := SpellLoose(n);
      if |s| > FindExp(s) then s[FindExp(s) + 1..] != "" && ReadExponent(n.exp) == ParseInt64(s[FindExp(s) + 1..])
      else ReadExponent(n.exp) == Some(0)
  {
    hide FindExp, ParseInt64, SpellLoose, Mantissa, Number, AllDigits;
    SplitAtExponent(n);
    hide IsLoose, IsSign, SpellExp;
    if n.exp.Some? {
      ExponentParses(n.exp.value);
    }
  }

  lemma MantissaHead(n: Loose)
    requires IsLoose(n)
    ensures Mantissa(n) != "" && Mantissa(n)[0] != '+' && Mantissa(n)[0] != '-'
  {
    MantissaChars(n);
  }

  /** ParseDecimal reads every decimal literal to exactly the decimal it denotes, refusing only an exponent
      past int64 or a scale past int32. */
  lemma ParsesLoose(n: Loose)
    requires IsLoose(n)
    ensures ParseDecimal(SpellLoose(n)) ==
      if Fits(n) then Some(Decimal(LooseCoefficient(n), |n.frac| - Written(n.exp))) else None
  {
    hide Number, Find, FindExp, ParseInt64, Lower, ParseMantissa, Mantissa, SpellLoose, AllDigits, IsExponent, SpellExp,
      ParseDecimal, IsSpecial, IsSign;
    NotSpecial(n);
    SplitAtExponent(n);
    MantissaHead(n);
    MantissaParses(n);
    SameNumber(n.ints, n.frac);
    ExponentRead(n);
    ParsesParts(SpellLoose(n), n.sign, Mantissa(n), if n.ints == "" then "0" else n.ints, n.frac, ReadExponent(n.exp));
  }

  lemma ParsedExponent(mark: char, text: string) returns (e: Exponent)
    requires (mark == 'e' || mark == 'E') && ParseInt64(text).Some?
    ensures IsExponent(e) && SpellExp(Some(e)) == [mark] + text
  {
    hide Number, AllDigits;
    if text != "" && (text[0] == '-' || text[0] == '+') {
      e := Exponent(mark, [text[0]], text[1..]);
      assert e.sign + e.digits == text;
    } else {
      e := Exponent(mark, "", text);
      assert e.sign + e.digits == text;
    }
    Joined([mark], e.sign, e.digits);
  }

  lemma Joined(a: string, b: string, c: string)
    ensures a + b + c == a + (b + c)
  {
  }

  lemma ParsedMantissa(m: string) returns (ints: string, point: bool, frac: string)
    requires ParseMantissa(m).Some? && m != ""
    ensures IsLoose(Loose("", ints, point, frac, None)) && Mantissa(Loose("", ints, point, frac, None)) == m
  {
    var dot := Find(m, '.');
    ints, point, frac := m[..dot], dot < |m|, if dot < |m| then m[dot + 1..] else "";
    assert point ==> m == m[..dot] + ([m[dot]] + m[dot + 1..]);
    assert !point ==> m[..dot] == m;
  }

  /** And it reads nothing else. */
  lemma OnlyLooseParses(s: string) returns (n: Loose)
    requires ParseDecimal(s).Some?
    ensures IsLoose(n) && SpellLoose(n) == s
  {
    hide Number, Lower, ParseMantissa, ParseInt64, SpellExp, AllDigits;
    var e := FindExp(s);
    var exp: Option<Exponent> := None;
    if e < |s| {
      assert s[e] == 'e' || s[e] == 'E';
      var x := ParsedExponent(s[e], s[e + 1..]);
      exp := Some(x);
      assert s == s[..e] + SpellExp(exp);
    } else {
      assert SpellExp(exp) == "" by { NoExponent(); }
      assert s == s[..e] + "";
    }
    var m := s[..e];
    var sign := if m[0] == '-' || m[0] == '+' then [m[0]] else "";
    var rest := if m[0] == '-' || m[0] == '+' then m[1..] else m;
    assert m == sign + rest && rest != "";
    var ints, point, frac := ParsedMantissa(rest);
    n := Loose(sign, ints, point, frac, exp);
  }

  lemma NoExponent()
    ensures SpellExp(None) == ""
  {
  }

  /** So ParseDecimal accepts exactly the decimal literals that fit. */
  lemma ParsesIff(s: string)
    ensures ParseDecimal(s).Some? <==> exists n :: IsLoose(n) && Fits(n) && SpellLoose(n) == s
  {
    hide ParseDecimal, IsLoose, SpellLoose;
    if ParseDecimal(s).Some? {
      var n := OnlyLooseParses(s);
      ParsesLoose(n);
    }
    if n :| IsLoose(n) && Fits(n) && SpellLoose(n) == s {
      ParsesLoose(n);
    }
  }

  /** Every JSON number is read to exactly the decimal it denotes. */
  lemma ParseIsExact(n: Literal)
    ensures ParseDecimal(Spell(n)) ==
      if MIN_INT64 <= Written(n.exp) <= MAX_INT64 && MIN_INT32 <= -ExponentOf(n) <= MAX_INT32
      then Some(Decimal(Coefficient(n), -ExponentOf(n))) else None
  {
    hide Number, ParseDecimal;
    var l := Loose(if n.neg then "-" else "", n.ints, n.frac != "", n.frac, n.exp);
    assert Mantissa(l) == n.ints + SpellFrac(n.frac);
    Regroup(l.sign, n.ints, SpellFrac(n.frac), SpellExp(n.exp));
    ParsesLoose(l);
  }

  lemma Regroup(a: string, b: string, c: string, d: string)
    ensures a + (b + (c + d)) == (a + (b + c)) + d
  {
  }

  // ----- Canonical -----

  function Zeros(k: nat): (s: string)
    ensures |s| == k
  {
    seq(k, i => '0')
  }

  /** None is strings.Repeat's panic on a negative count. */
  function Canonical(d: Decimal): Option<string> {
    if d.unscaled == 0 then Some("0")
    else
      var digits := Digits(Abs(d.unscaled));
      var sign := if d.unscaled < 0 then "-" else "";
      if d.scale == 0 then Some(sign + digits)
      else if d.scale > 0 then
        var pad: int := d.scale as int - |digits|;
        if pad >= 0 then Some(sign + ("0." + Zeros(pad) + digits))
        else
          var split: nat := |digits| - d.scale as int;
          Some(sign + (digits[..split] + "." + digits[split..]))
      else if Wrap32(-(d.scale as int)) < 0 then None
      else Some(sign + (digits + Zeros(Wrap32(-(d.scale as int)))))
  }

  /** Canonical fails exactly for a non-zero value at the lowest int32 scale. */
  lemma CanonicalFailsIff(d: Decimal)
    ensures Canonical(d).None? <==> d.unscaled != 0 && d.scale == MIN_INT32
  {
  }

  /** 10^(2^31) is one it cannot write. */
  lemma CanonicalFailsAtFloor()
    ensures Canonical(Decimal(1, MIN_INT32)) == None
  {
    CanonicalFailsIff(Decimal(1, MIN_INT32));
  }

  lemma NumberSnoc(s: string, c: char)
    requires AllDigits(s) && IsDigit(c)
    ensures AllDigits(s + [c]) && Number(s + [c]) == 10 * Number(s) + Digit(c)
  {
    assert (s + [c])[..|s|] == s;
  }

  lemma {:induction false} NumberConcat(a: string, b: string)
    requires AllDigits(a) && AllDigits(b)
    ensures AllDigits(a + b) && Number(a + b) == Number(a) * Pow(10, |b|) + Number(b)
    decreases |b|
  {
    if b == "" {
      assert a + b == a;
    } else {
      var n := |b| - 1;
      var init, c := b[..n], b[n];
      assert b == init + [c] && AllDigits(init) && IsDigit(c);
      assert a + b == (a + init) + [c];
      NumberConcat(a, init);
      hide AllDigits, Number, Digit;
      NumberSnoc(a + init, c);
      NumberSnoc(init, c);
      TenTimes(Number(a), Pow(10, n));
    }
  }

  lemma TenTimes(x: int, p: int)
    ensures 10 * (x * p) == x * (10 * p)
  {
  }

  lemma {:induction false} NumberZeros(k: nat)
    ensures AllDigits(Zeros(k)) && Number(Zeros(k)) == 0
  {
    if k > 0 {
      NumberZeros(k - 1);
      assert Zeros(k)[..k - 1] == Zeros(k - 1);
    }
  }

  lemma {:induction false} DigitsLead(n: nat)
    requires n > 0
    ensures Digits(n)[0] != '0' && IsDigit(Digits(n)[0])
  {
    if n >= 10 {
      DigitsLead(n / 10);
    }
  }

  /** The JSON number Canonical writes. */
  function Plain(d: Decimal): Numeral {
    var digits := Digits(Abs(d.unscaled));
    if d.unscaled == 0 then Numeral(false, "0", "", None)
    else if d.scale <= 0 then Numeral(d.unscaled < 0, digits + Zeros(-(d.scale as int)), "", None)
    else if |digits| <= d.scale then Numeral(d.unscaled < 0, "0", Zeros(d.scale as int - |digits|) + digits, None)
    else Numeral(d.unscaled < 0, digits[..|digits| - d.scale as int], digits[|digits| - d.scale as int..], None)
  }

  lemma PlainIsNumeral(d: Decimal)
    ensures IsNumeral(Plain(d))
  {
    hide Number;
    var digits := Digits(Abs(d.unscaled));
    DigitsNumber(Abs(d.unscaled));
    if d.unscaled != 0 {
      DigitsLead(Abs(d.unscaled));
    }
  }

  /** All the digits Canonical writes. */
  function PlainDigits(d: Decimal): string {
    Plain(d).ints + Plain(d).frac
  }

  lemma WholeDigits(d: Decimal)
    requires d.unscaled != 0 && d.scale <= 0
    ensures AllDigits(PlainDigits(d)) && Number(PlainDigits(d)) == Abs(At(d, 0))
  {
    var k: nat := -(d.scale as int);
    var digits := Digits(Abs(d.unscaled));
    DigitsNumber(Abs(d.unscaled));
    hide Number, Digits, AllDigits, At;
    NumberZeros(k);
    NumberConcat(digits, Zeros(k));
    assert PlainDigits(d) == digits + Zeros(k);
    AtShift(d, d.scale, k);
    AtSelf(d);
    AbsMul(d.unscaled, Pow(10, k));
  }

  lemma AtSelf(d: Decimal)
    ensures At(d, d.scale) == d.unscaled
  {
  }

  lemma FractionDigits(d: Decimal)
    requires d.unscaled != 0 && d.scale > 0
    ensures AllDigits(PlainDigits(d)) && Number(PlainDigits(d)) == Abs(d.unscaled) && |Plain(d).frac| == d.scale as int
  {
    var digits := Digits(Abs(d.unscaled));
    DigitsNumber(Abs(d.unscaled));
    hide Number, Digits, AllDigits;
    if |digits| <= d.scale as int {
      var k: nat := d.scale as int - |digits|;
      assert "0" + Zeros(k) == Zeros(k + 1);
      NumberZeros(k + 1);
      NumberConcat(Zeros(k + 1), digits);
      assert PlainDigits(d) == Zeros(k + 1) + digits;
    } else {
      assert PlainDigits(d) == digits;
    }
  }

  lemma PlainValue(d: Decimal)
    requires IsNumeral(Plain(d)) && d.unscaled != 0
    ensures Coefficient(Plain(d)) == At(d, Max(d.scale, 0)) && ExponentOf(Plain(d)) == -Max(d.scale, 0)
  {
    hide Number, Digits;
    AtSelf(d);
    if d.scale <= 0 {
      WholeDigits(d);
      MagnitudeAt(d, 0);
    } else {
      FractionDigits(d);
    }
  }

  lemma PlainText(d: Decimal)
    requires IsNumeral(Plain(d)) && Canonical(d).Some?
    ensures Canonical(d) == Some(Spell(Plain(d)))
  {
    hide Digits, Number;
    var digits := Digits(Abs(d.unscaled));
    DigitsNumber(Abs(d.unscaled));
    if d.unscaled == 0 {
      assert Spell(Plain(d)) == "0";
    } else if d.scale > 0 && |digits| <= d.scale {
      var frac := Zeros(d.scale as int - |digits|) + digits;
      assert "0." + Zeros(d.scale as int - |digits|) + digits == "0" + ("." + frac);
    } else if d.scale > 0 {
      var k: nat := |digits| - d.scale as int;
      assert digits[..k] + "." + digits[k..] == digits[..k] + ("." + digits[k..]);
    } else if d.scale == 0 {
      assert digits + Zeros(0) == digits;
    } else {
      assert Wrap32(-(d.scale as int)) == -(d.scale as int);
    }
    assert SpellExp(Plain(d).exp) == "";
    assert SpellFrac(Plain(d).frac) + "" == SpellFrac(Plain(d).frac);
    assert Plain(d).ints + "" == Plain(d).ints;
  }

  /** What Canonical writes ParseDecimal reads back, at the scale it is written with: the same value. */
  lemma CanonicalRoundTrip(d: Decimal)
    requires Canonical(d).Some?
    ensures var r := ParseDecimal(Canonical(d).value);
      r == Some(if d.unscaled == 0 then Decimal(0, 0) else Decimal(At(d, Max(d.scale, 0)), Max(d.scale, 0)))
    ensures Value(ParseDecimal(Canonical(d).value).value) == Value(d)
  {
    hide Canonical, ParseDecimal, Digits, Number, Plain, Spell;
    PlainIsNumeral(d);
    PlainText(d);
    ParseIsExact(Plain(d));
    if d.unscaled == 0 {
      ZeroPlain(d);
      StripKeepsValue(d);
    } else {
      PlainValue(d);
      PlainHasNoExponent(d);
      var r := Decimal(At(d, Max(d.scale, 0)), Max(d.scale, 0));
      CompareAt(r, d, Max(d.scale, 0));
    }
  }

  lemma PlainHasNoExponent(d: Decimal)
    ensures Plain(d).exp == None
  {
  }

  lemma ZeroPlain(d: Decimal)
    requires d.unscaled == 0
    ensures Plain(d) == Numeral(false, "0", "", None) && IsNumeral(Plain(d))
    ensures Coefficient(Plain(d)) == 0 && ExponentOf(Plain(d)) == 0
  {
    assert "0" + "" == "0" && "0"[..0] == "";
    assert Number("0") == 0;
  }

  // ----- StripTrailingZeros as it is written -----

  /** The zero count is read off the decimal rendering, from its end. */
  method StripByRendering(d: Decimal) returns (r: Decimal)
    ensures r == StripTrailingZeros(d)
  {
    if d.unscaled == 0 {
      return Decimal(0, 0);
    }
    if d.unscaled % 2 == 1 {
      return d;
    }
    var s := Digits(Abs(d.unscaled));
    var k := 0;
    ghost var m := Abs(d.unscaled);
    var i := |s| - 1;
    while i >= 0 && s[i] == '0'
      invariant -1 <= i < |s| && m > 0 && i >= 0 && s[..i + 1] == Digits(m)
      invariant TrailingZeros(Abs(d.unscaled)) == k + TrailingZeros(m) && k >= 0
      decreases i
    {
      LastDigit(m);
      assert s[..i] == s[..i + 1][..i];
      m := m / 10;
      k := k + 1;
      i := i - 1;
    }
    LastDigit(m);
    var headroom := d.scale - MIN_INT32;
    if k > headroom {
      k := headroom;
    }
    if k == 0 {
      return d;
    }
    PowPos(10, k);
    return Decimal(Quo(d.unscaled, Pow(10, k)), d.scale - k);
  }

  lemma LastDigit(m: nat)
    requires m > 0
    ensures var s := Digits(m);
      s != "" && (s[|s| - 1] == '0' <==> m % 10 == 0) && (m % 10 == 0 ==> |s| >= 2 && s[..|s| - 1] == Digits(m / 10))
  {
    DigitsNumber(m);
    DigitsNumber(m / 10);
  }

  // ----- parseWholeType -----

  const INT128_MAX_DIGITS: nat := 39

  /** parseWholeType once ParseDecimal has read the operand. */
  function WholeOf(parsed: Decimal, t: DataType): Option<Decimal> {
    var d := StripTrailingZeros(parsed);
    if d.scale > 0 then None
    else if t.UnboundInteger? then Some(d)
    else if d.scale < 0 && Precision(d) - d.scale > INT128_MAX_DIGITS then None
    else
      var whole := if d.scale < 0 then SetScale(d, 0) else Success(d);
      if whole.Failure? then None
      else if BucketFloor(t).unscaled <= whole.value.unscaled <= BucketCeiling(t).unscaled then Some(whole.value)
      else None
  }

  ghost predicate IsWhole(d: Decimal, k: int) {
    Value(d) == Value(Decimal(k, 0))
  }

  lemma WholeAtZero(d: Decimal, k: int)
    requires d.scale <= 0
    ensures IsWhole(d, k) <==> At(d, 0) == k
  {
    CompareAt(d, Decimal(k, 0), 0);
  }

  /** A whole number past 39 digits is outside every bounded integer type. */
  lemma TooLong(d: Decimal)
    requires d.scale < 0 && d.unscaled != 0 && Precision(d) - d.scale > INT128_MAX_DIGITS
    ensures Abs(At(d, 0)) >= Pow(10, INT128_MAX_DIGITS)
  {
    MagnitudeAt(d, 0);
    PowMono(10, INT128_MAX_DIGITS, Precision(d) - 1 - d.scale);
  }

  lemma Beyond39Digits()
    ensures Pow(10, INT128_MAX_DIGITS) > 0x8000_0000_0000_0000_0000_0000_0000_0000
  {
    PowAdd(10, 9, 4);
    PowAdd(10, 13, 13);
    PowAdd(10, 26, 13);
    assert Pow(10, 9) == 1_000_000_000 && Pow(10, 4) == 10_000;
  }

  /** The whole numbers of 32, 64 and 128 bits. */
  predicate InBits(t: DataType, k: int)
    requires t.Integer? || t.Long? || t.BigInteger?
  {
    match t
    case Integer => -2_147_483_648 <= k <= 2_147_483_647
    case Long => -9_223_372_036_854_775_808 <= k <= 9_223_372_036_854_775_807
    case BigInteger =>
      -170_141_183_460_469_231_731_687_303_715_884_105_728 <= k <= 170_141_183_460_469_231_731_687_303_715_884_105_727
  }

  /** parseWholeType accepts an operand for a bounded integer type exactly when it is a whole number of
      the type's bits, and returns that number; the digit count decides no case differently. */
  lemma WholeOfExact(parsed: Decimal, t: DataType, k: int)
    requires t.Integer? || t.Long? || t.BigInteger?
    ensures WholeOf(parsed, t) == Some(Decimal(k, 0)) <==> IsWhole(parsed, k) && InBits(t, k)
    ensures WholeOf(parsed, t).Some? ==> WholeOf(parsed, t).value.scale == 0
  {
    var d := StripTrailingZeros(parsed);
    StripKeepsValue(parsed);
    if d.scale > 0 {
      StrippedWhole(d, k);
    } else {
      WholeAtZero(d, k);
      if d.scale < 0 && Precision(d) - d.scale > INT128_MAX_DIGITS {
        assert d.unscaled != 0;
        TooLong(d);
        Beyond39Digits();
      } else if d.scale < 0 {
        SetScaleUp(d, 0);
      }
    }
  }
}
