/** Unique-key signatures (unique_signature.go): a claim's signature names the field values of its key
    and nothing else. */
module UniqueSignature {
  import opened Arith
  import opened JsonNumbers
  import opened JsonValues
  import opened Numerals
  import opened Strings
  import opened Wrappers
  import Utf8

  // ----- numbers -----

  /** The literal's value as a fraction. */
  function Ratio(n: Literal): (r: (int, nat))
    ensures r.1 > 0
  {
    var c, e := Coefficient(n), ExponentOf(n);
    if e >= 0 then (c * Pow(10, e), 1)
    else
      PowPos(10, -e);
      (c, Pow(10, -e))
  }

  predicate SameNumber(a: Literal, b: Literal) {
    Ratio(a).0 * Ratio(b).1 == Ratio(b).0 * Ratio(a).1
  }

  // ----- the bound checked before a number is built -----

  const MAX_COEFF_DIGITS := 64
  const MAX_NUM_EXP := 6144

  /** countDigitsExp's exponent: a value already past the bound takes no further digit. */
  function Capped(digits: string): nat
    requires AllDigits(digits)
  {
    if digits == "" then 0
    else
      var n := |digits| - 1;
      var v := Capped(digits[..n]);
      if v <= MAX_NUM_EXP + 1 then 10 * v + Digit(digits[n]) else v
  }

  function CountedExp(n: Literal): int {
    Signed(n.exp, if n.exp.None? then 0 else Capped(n.exp.value.digits)) - |n.frac|
  }

  predicate WithinBounds(n: Literal) {
    |n.ints| + |n.frac| <= MAX_COEFF_DIGITS && -MAX_NUM_EXP <= CountedExp(n) <= MAX_NUM_EXP
  }

  /** The largest exponent countDigitsExp reads in full. */
  const LAST_EXACT_EXP := 10 * (MAX_NUM_EXP + 1) + 9

  lemma {:induction false} CappedExact(digits: string)
    requires AllDigits(digits)
    ensures Capped(digits) == Number(digits) <==> Number(digits) <= LAST_EXACT_EXP
    ensures Number(digits) > LAST_EXACT_EXP ==> Capped(digits) > MAX_NUM_EXP + 1
    ensures Capped(digits) <= Number(digits) && Capped(digits) <= LAST_EXACT_EXP
  {
    if digits != "" {
      CappedExact(digits[..|digits| - 1]);
    }
  }

  /** The true exponent of a number that passes the bound is within it unless its written exponent is
      positive and past the last one read in full, and then it never is. */
  lemma BoundHoldsIff(n: Literal)
    requires WithinBounds(n)
    ensures -MAX_NUM_EXP <= ExponentOf(n) <= MAX_NUM_EXP <==>
      !(n.exp.Some? && n.exp.value.sign != "-" && Number(n.exp.value.digits) > LAST_EXACT_EXP)
  {
    if n.exp.Some? {
      CappedExact(n.exp.value.digits);
    }
  }

  // ----- lowest terms -----

  /** The least multiple of the numerator's denominator from k on that clears d. */
  function LeastDen(n: int, d: nat, k: nat): (r: nat)
    requires 1 <= k <= d
    ensures k <= r <= d && (n * r) % d == 0
    ensures forall j :: k <= j < r ==> (n * j) % d != 0
    decreases d - k
  {
    Multiple(n, d);
    if (n * k) % d == 0 then k else LeastDen(n, d, k + 1)
  }

  lemma Multiple(n: int, d: nat)
    requires d > 0
    ensures (n * d) % d == 0
  {
    DivMod(n * d, d);
    var q, r := (n * d) / d, (n * d) % d;
    assert (n - q) * d == r by { MulSub(n, q, d); }
    SmallMultiple(n - q, d, r);
  }

  lemma MulSub(a: int, b: int, c: int)
    ensures (a - b) * c == a * c - b * c
  {
  }

  lemma SmallMultiple(a: int, d: nat, r: int)
    requires d > 0 && a * d == r && 0 <= r < d
    ensures r == 0
  {
    if a >= 1 { MulLe(1, a, d); }
    if a <= -1 { MulLe(a, -1, d); }
  }

  function Lowest(n: int, d: nat): (int, nat)
    requires d > 0
  {
    var k := LeastDen(n, d, 1);
    ((n * k) / d, k)
  }

  lemma LowestValue(n: int, d: nat)
    requires d > 0
    ensures var (q, k) := Lowest(n, d); k > 0 && q * d == n * k
  {
    DivMod(n * LeastDen(n, d, 1), d);
  }

  lemma ClearsBoth(n: int, d: nat, n': int, d': nat, k: nat)
    requires d > 0 && d' > 0 && n * d' == n' * d && (n * k) % d == 0
    ensures (n' * k) % d' == 0 && (n' * k) / d' == (n * k) / d
  {
    var q := (n * k) / d;
    DivMod(n * k, d);
    // n' * k * d == n * k * d' == q * d' * d
    assert (n' * k) * d == (q * d') * d by {
      MulAssoc(n', k, d);
      MulComm(k, d);
      MulAssoc(n', d, k);
      MulAssoc(n, d', k);
      MulComm(d', k);
      MulAssoc(n, k, d');
      MulAssoc(q, d, d');
      MulComm(d, d');
      MulAssoc(q, d', d);
    }
    MulLt(n' * k, q * d', d);
    Multiple(q, d');
    DivMod(n' * k, d');
    MulLt((n' * k) / d', q, d');
  }

  /** Equal fractions have one form in lowest terms. */
  lemma LowestUnique(n: int, d: nat, n': int, d': nat)
    requires d > 0 && d' > 0 && n * d' == n' * d
    ensures Lowest(n, d) == Lowest(n', d')
  {
    var k, k' := LeastDen(n, d, 1), LeastDen(n', d', 1);
    ClearsBoth(n, d, n', d', k);
    ClearsBoth(n', d', n, d, k');
  }

  /** And only equal fractions share it. */
  lemma LowestOnlyEqual(n: int, d: nat, n': int, d': nat)
    requires d > 0 && d' > 0 && Lowest(n, d) == Lowest(n', d')
    ensures n * d' == n' * d
  {
    var (q, k) := Lowest(n, d);
    LowestValue(n, d);
    LowestValue(n', d');
    // n * d' * k == q * d * d' == n' * d * k
    assert (n * d') * k == (n' * d) * k by {
      MulAssoc(n, d', k);
      MulComm(d', k);
      MulAssoc(n, k, d');
      MulAssoc(q, d, d');
      MulComm(d, d');
      MulAssoc(q, d', d);
      MulAssoc(n', k, d);
      MulComm(k, d);
      MulAssoc(n', d, k);
    }
    MulLt(n * d', n' * d, k);
  }

  // ----- tokens -----

  function IntText(q: int): string {
    if q < 0 then "-" + Digits(-q) else Digits(q)
  }

  /** big.Rat's RatString of a fraction in lowest terms. */
  function RatString(r: (int, nat)): string {
    IntText(r.0) + (if r.1 == 1 then "" else "/" + Digits(r.1))
  }

  lemma IntTextChars(q: int)
    ensures IntText(q) != "" && (IntText(q)[0] == '-' <==> q < 0)
    ensures forall i :: 0 <= i < |IntText(q)| ==> IntText(q)[i] == '-' || IsDigit(IntText(q)[i])
  {
    hide Digits, Number;
    DigitsNumber(if q < 0 then -q else q);
    assert q >= 0 ==> IsDigit(IntText(q)[0]);
  }

  lemma IntTextInjective(p: int, q: int)
    requires IntText(p) == IntText(q)
    ensures p == q
  {
    hide Digits, Number;
    IntTextChars(p);
    IntTextChars(q);
    DigitsNumber(if p < 0 then -p else p);
    DigitsNumber(if q < 0 then -q else q);
    if p < 0 {
      assert IntText(p)[1..] == Digits(-p) && IntText(q)[1..] == Digits(-q);
    }
  }

  lemma SlashSplit(a: string, x: string, b: string, y: string)
    requires '/' !in a && '/' !in b && (x == "" || x[0] == '/') && (y == "" || y[0] == '/') && a + x == b + y
    ensures a == b && x == y
  {
    SlashShorter(a, x, b, y);
    SlashShorter(b, y, a, x);
    var s := a + x;
    assert a == s[..|a|] && b == s[..|b|] && x == s[|a|..] && y == s[|b|..];
  }

  lemma SlashShorter(a: string, x: string, b: string, y: string)
    requires (x == "" || x[0] == '/') && a + x == b + y
    ensures |a| < |b| ==> '/' in b
  {
    if |a| < |b| {
      assert (a + x)[|a|] == b[|a|];
    }
  }

  lemma RatStringInjective(r: (int, nat), t: (int, nat))
    requires RatString(r) == RatString(t) && r.1 > 0 && t.1 > 0
    ensures r == t
  {
    hide Digits, Number, IntText;
    IntTextChars(r.0);
    IntTextChars(t.0);
    var x, y := if r.1 == 1 then "" else "/" + Digits(r.1), if t.1 == 1 then "" else "/" + Digits(t.1);
    SlashSplit(IntText(r.0), x, IntText(t.0), y);
    IntTextInjective(r.0, t.0);
    DigitsNumber(r.1);
    DigitsNumber(t.1);
    if r.1 != 1 && t.1 != 1 {
      assert x[1..] == Digits(r.1) && y[1..] == Digits(t.1);
    }
  }

  lemma RatStringChars(r: (int, nat))
    ensures forall i :: 0 <= i < |RatString(r)| ==>
      RatString(r)[i] == '-' || RatString(r)[i] == '/' || IsDigit(RatString(r)[i])
  {
    hide Digits, Number, IntText;
    IntTextChars(r.0);
    DigitsNumber(r.1);
  }

  const MIN_INT64: int := -0x8000_0000_0000_0000
  const MAX_INT64: int := 0x7FFF_FFFF_FFFF_FFFF

  /** The largest power of ten math/big's Rat.SetString scales a number by. */
  const MAX_RAT_EXP: int := 1_000_000

  /** big.Rat.SetString reads the literal: a written exponent of int64, and a scaling it will do. */
  predicate RatReads(n: Literal) {
    && MIN_INT64 <= Signed(n.exp, if n.exp.None? then 0 else Number(n.exp.value.digits)) <= MAX_INT64
    && (Coefficient(n) == 0 || -MAX_RAT_EXP <= ExponentOf(n) <= MAX_RAT_EXP)
  }

  /** len of a string. */
  function Length(s: string): nat {
    |Utf8.Encode(s)|
  }

  /** tokenize, with None for what a unique key does not take. */
  function Token(v: Json): Option<string> {
    match v
    case Str(s) => Some("s" + (Digits(Length(s)) + (":" + s)))
    case Bool(b) => Some(if b then "b:true" else "b:false")
    case Num(n) =>
      if WithinBounds(n) && RatReads(n) then Some("n:" + RatString(Lowest(Ratio(n).0, Ratio(n).1))) else None
    case _ => None
  }

  /** 1.00e61461 passes: its last digit is not read. */
  lemma BoundCanFail()
    ensures var n := Numeral(false, "1", "00", Some(Exponent('e', "", "61461")));
      IsNumeral(n) && Token(Num(n)).Some? && ExponentOf(n) == 61459
  {
    var d := "61461";
    assert d[..4] == "6146" && d[..4][..3] == "614" && d[..4][..3][..2] == "61" && d[..4][..3][..2][..1] == "6";
    assert d[..4][..3][..2][..1][..0] == "";
    assert Capped(d[..4][..3][..2][..1]) == 6 && Number(d[..4][..3][..2][..1]) == 6;
    assert Capped(d[..4][..3][..2]) == 61 && Number(d[..4][..3][..2]) == 61;
    assert Capped(d[..4][..3]) == 614 && Number(d[..4][..3]) == 614;
    assert Capped(d[..4]) == 6146 && Number(d[..4]) == 6146;
    assert Capped(d) == 6146 && Number(d) == 61461;
  }

  /** Two field values a unique key takes for the same. */
  predicate Same(a: Json, b: Json) {
    match (a, b)
    case (Str(s), Str(t)) => s == t
    case (Bool(x), Bool(y)) => x == y
    case (Num(m), Num(n)) => SameNumber(m, n)
    case _ => false
  }

  const SEPARATOR: char := 0x1f as char

  predicate Ends(rest: string) {
    rest == "" || rest[0] == SEPARATOR
  }

  predicate Plain(s: string) {
    SEPARATOR !in s
  }

  lemma PlainSplit(a: string, x: string, b: string, y: string)
    requires Plain(a) && Plain(b) && Ends(x) && Ends(y) && a + x == b + y
    ensures a == b && x == y
  {
    PlainShorter(a, x, b, y);
    PlainShorter(b, y, a, x);
    var s := a + x;
    assert a == s[..|a|] && b == s[..|b|] && x == s[|a|..] && y == s[|b|..];
  }

  lemma PlainShorter(a: string, x: string, b: string, y: string)
    requires Ends(x) && a + x == b + y
    ensures |a| < |b| ==> !Plain(b)
  {
    if |a| < |b| {
      assert (a + x)[|a|] == b[|a|];
    }
  }

  lemma PlainToken(v: Json)
    requires Token(v).Some? && !v.Str?
    ensures Plain(Token(v).value)
  {
    if v.Num? {
      var r := Lowest(Ratio(v.literal).0, Ratio(v.literal).1);
      RatStringChars(r);
      assert Token(v).value == "n:" + RatString(r);
    }
  }

  /** The digits before the first colon, and so the length, of a string token. */
  lemma ColonSplit(a: string, x: string, b: string, y: string)
    requires AllDigits(a) && AllDigits(b) && a + (":" + x) == b + (":" + y)
    ensures a == b && x == y
  {
    ColonShorter(a, x, b, y);
    ColonShorter(b, y, a, x);
    var s := a + (":" + x);
    assert a == s[..|a|] && b == s[..|b|] && x == s[|a| + 1..] && y == s[|b| + 1..];
  }

  lemma ColonShorter(a: string, x: string, b: string, y: string)
    requires a + (":" + x) == b + (":" + y)
    ensures |a| < |b| ==> !AllDigits(b)
  {
    if |a| < |b| {
      assert (a + (":" + x))[|a|] == b[|a|];
    }
  }

  lemma StrToken(s: string, rest: string)
    ensures Token(Str(s)).value + rest == "s" + (Digits(Length(s)) + (":" + (s + rest)))
  {
    hide Digits;
    Regroup("s", Digits(Length(s)), ":", s, rest);
  }

  lemma Regroup(a: string, b: string, c: string, d: string, rest: string)
    ensures (a + (b + (c + d))) + rest == a + (b + (c + (d + rest)))
  {
  }

  /** Two beginnings of one text with as many bytes are one. */
  lemma SameLength(s: string, x: string, t: string, y: string)
    requires s + x == t + y && Length(s) == Length(t)
    ensures s == t
  {
    if |s| <= |t| {
      assert s == (s + x)[..|s|] == (t + y)[..|s|] <= t;
      Utf8.LongerHasMore(s, t);
    } else {
      assert t == (t + y)[..|t|] == (s + x)[..|t|] <= s;
      Utf8.LongerHasMore(t, s);
    }
  }

  lemma TwoStrings(s: string, x: string, t: string, y: string)
    requires Token(Str(s)).value + x == Token(Str(t)).value + y
    ensures s == t && x == y
  {
    StrToken(s, x);
    StrToken(t, y);
    DigitsNumber(Length(s));
    DigitsNumber(Length(t));
    var a, b := Digits(Length(s)) + (":" + (s + x)), Digits(Length(t)) + (":" + (t + y));
    assert a == ("s" + a)[1..] && b == ("s" + b)[1..];
    ColonSplit(Digits(Length(s)), s + x, Digits(Length(t)), t + y);
    SameLength(s, x, t, y);
    assert s == (s + x)[..|s|] && t == (t + y)[..|t|] && x == (s + x)[|s|..] && y == (t + y)[|t|..];
  }

  lemma FirstChar(v: Json)
    requires Token(v).Some?
    ensures Token(v).value != ""
    ensures Token(v).value[0] == match v case Str(_) => 's' case Bool(_) => 'b' case _ => 'n'
  {
    if v.Str? {
      StrToken(v.s, "");
      assert Token(v).value + "" == Token(v).value;
    }
  }

  /** A token ends where it says it does: what follows it cannot change how it is read. */
  lemma TokenSplit(a: Json, x: string, b: Json, y: string)
    requires Token(a).Some? && Token(b).Some? && Ends(x) && Ends(y) && Token(a).value + x == Token(b).value + y
    ensures Token(a) == Token(b) && x == y
  {
    hide Token;
    FirstChar(a);
    FirstChar(b);
    assert (Token(a).value + x)[0] == (Token(b).value + y)[0];
    if a.Str? && b.Str? {
      TwoStrings(a.s, x, b.s, y);
    } else if !a.Str? && !b.Str? {
      PlainToken(a);
      PlainToken(b);
      PlainSplit(Token(a).value, x, Token(b).value, y);
    }
  }

  /** Tokens are equal exactly for values taken for the same. */
  lemma TokenIff(a: Json, b: Json)
    requires Token(a).Some? && Token(b).Some?
    ensures Token(a) == Token(b) <==> Same(a, b)
  {
    FirstChar(a);
    FirstChar(b);
    if a.Str? && b.Str? {
      if Token(a) == Token(b) {
        TwoStrings(a.s, "", b.s, "");
      }
    } else if a.Num? && b.Num? {
      NumTokens(a.literal, b.literal);
    } else if a.Bool? && b.Bool? {
      assert "b:true"[2] != "b:false"[2];
    }
  }

  lemma NumTokens(m: Literal, n: Literal)
    ensures "n:" + RatString(Lowest(Ratio(m).0, Ratio(m).1)) == "n:" + RatString(Lowest(Ratio(n).0, Ratio(n).1)) <==>
      SameNumber(m, n)
  {
    hide Ratio, RatString, Lowest;
    var r, t := Lowest(Ratio(m).0, Ratio(m).1), Lowest(Ratio(n).0, Ratio(n).1);
    if SameNumber(m, n) {
      LowestUnique(Ratio(m).0, Ratio(m).1, Ratio(n).0, Ratio(n).1);
    } else if "n:" + RatString(r) == "n:" + RatString(t) {
      assert RatString(r) == ("n:" + RatString(r))[2..] && RatString(t) == ("n:" + RatString(t))[2..];
      LowestValue(Ratio(m).0, Ratio(m).1);
      LowestValue(Ratio(n).0, Ratio(n).1);
      RatStringInjective(r, t);
      LowestOnlyEqual(Ratio(m).0, Ratio(m).1, Ratio(n).0, Ratio(n).1);
    }
  }

  // ----- signatures -----

  /** strings.Join over the separator. */
  function Joined(ts: seq<string>): string
    decreases |ts|, 0
  {
    if ts == [] then "" else ts[0] + Rest(ts[1..])
  }

  function Rest(ts: seq<string>): string
    decreases |ts|, 1
  {
    if ts == [] then "" else [SEPARATOR] + Joined(ts)
  }

  predicate Tokenized(vs: seq<Json>) {
    forall i :: 0 <= i < |vs| ==> Token(vs[i]).Some?
  }

  function Tokens(vs: seq<Json>): seq<string>
    requires Tokenized(vs)
  {
    seq(|vs|, i requires 0 <= i < |vs| => Token(vs[i]).value)
  }

  predicate SameAll(us: seq<Json>, vs: seq<Json>) {
    |us| == |vs| && forall i :: 0 <= i < |us| ==> Same(us[i], vs[i])
  }

  lemma TokensTail(vs: seq<Json>)
    requires Tokenized(vs) && vs != []
    ensures Tokenized(vs[1..]) && Tokens(vs)[1..] == Tokens(vs[1..])
    ensures Joined(Tokens(vs)) == Token(vs[0]).value + Rest(Tokens(vs[1..])) && Joined(Tokens(vs)) != ""
  {
    hide Token;
    assert Tokens(vs)[1..] == Tokens(vs[1..]);
    FirstChar(vs[0]);
  }

  /** Two lists of values join to one text exactly when they agree value by value, and in number. */
  lemma {:induction false} JoinedIff(us: seq<Json>, vs: seq<Json>)
    requires Tokenized(us) && Tokenized(vs)
    ensures Joined(Tokens(us)) == Joined(Tokens(vs)) <==> SameAll(us, vs)
    decreases |us|
  {
    hide Token, Same, Joined;
    if us == [] {
      assert Joined(Tokens(us)) == "" by { NothingJoined(us); }
      if vs != [] {
        TokensTail(vs);
      } else {
        NothingJoined(vs);
      }
    } else if vs == [] {
      TokensTail(us);
      NothingJoined(vs);
    } else {
      TokensTail(us);
      TokensTail(vs);
      TokenIff(us[0], vs[0]);
      JoinedIff(us[1..], vs[1..]);
      RestIff(us[1..], vs[1..]);
      if Joined(Tokens(us)) == Joined(Tokens(vs)) {
        TokenSplit(us[0], Rest(Tokens(us[1..])), vs[0], Rest(Tokens(vs[1..])));
      }
      SameCons(us, vs);
    }
  }

  lemma NothingJoined(vs: seq<Json>)
    requires vs == []
    ensures Tokenized(vs) && Joined(Tokens(vs)) == ""
  {
  }

  lemma RestIff(us: seq<Json>, vs: seq<Json>)
    requires Tokenized(us) && Tokenized(vs) && (Joined(Tokens(us)) == Joined(Tokens(vs)) <==> SameAll(us, vs))
    ensures Rest(Tokens(us)) == Rest(Tokens(vs)) <==> SameAll(us, vs)
    ensures Ends(Rest(Tokens(us))) && Ends(Rest(Tokens(vs)))
  {
    hide Token, Same, Joined;
    var a, b := Joined(Tokens(us)), Joined(Tokens(vs));
    assert ([SEPARATOR] + a)[1..] == a && ([SEPARATOR] + b)[1..] == b;
  }

  lemma SameCons(us: seq<Json>, vs: seq<Json>)
    requires us != [] && vs != []
    ensures SameAll(us, vs) <==> Same(us[0], vs[0]) && SameAll(us[1..], vs[1..])
  {
    hide Same;
    if Same(us[0], vs[0]) && SameAll(us[1..], vs[1..]) {
      forall i | 0 <= i < |us| ensures Same(us[i], vs[i]) {
        assert i > 0 ==> us[i] == us[1..][i - 1] && vs[i] == vs[1..][i - 1];
      }
    }
  }

  // ----- documents -----

  /** strings.Split(path, "."). */
  function Split(path: string): seq<string>
    decreases |path|
  {
    var n := Find(path, '.');
    if n == |path| then [path] else [path[..n]] + Split(path[n + 1..])
  }

  /** What encoding/json leaves under a name: the last value given for it. */
  function Member(fields: seq<(string, Json)>, name: string): Option<Json> {
    if fields == [] then None
    else
      var n := |fields| - 1;
      if fields[n].0 == name then Some(fields[n].1) else Member(fields[..n], name)
  }

  function MemberOf(v: Json, name: string): Option<Json> {
    if v.Object? then Member(v.fields, name) else None
  }

  function Walk(segments: seq<string>, current: Json): Option<Json> {
    if segments == [] then Some(current)
    else if segments[0] == "" then Walk(segments[1..], current)
    else
      var next := MemberOf(current, segments[0]);
      if next.None? then None else Walk(segments[1..], next.value)
  }

  function TrimDollar(field: string): string {
    if field != "" && field[0] == '$' then field[1..] else field
  }

  function FieldAt(field: string, root: Json): Option<Json> {
    if TrimDollar(field) == "" then None else Walk(Split(TrimDollar(field)), root)
  }

  /** walkPath. */
  method WalkPath(field: string, root: Json) returns (r: Option<Json>)
    ensures r == FieldAt(field, root)
  {
    var path := TrimDollar(field);
    if path == "" {
      return None;
    }
    var parts, current := Split(path), root;
    assert parts[0..] == parts;
    for i := 0 to |parts|
      invariant Walk(parts, root) == Walk(parts[i..], current)
    {
      assert parts[i..][0] == parts[i] && parts[i..][1..] == parts[i + 1..];
      if parts[i] == "" {
        continue;
      }
      var next := MemberOf(current, parts[i]);
      if next.None? {
        return None;
      }
      current := next.value;
    }
    assert parts[|parts|..] == [];
    return Some(current);
  }

  datatype Outcome = NoClaim | PartialKey | Claim(signature: string)

  /** The field's value, None where it is absent or null. */
  function Present(field: string, root: Json): Option<Json> {
    var v := FieldAt(field, root);
    if v == Some(Null) then None else v
  }

  predicate AllAbsent(fields: seq<string>, root: Json) {
    forall i :: 0 <= i < |fields| ==> Present(fields[i], root).None?
  }

  /** Every field has a value a unique key takes. */
  predicate Complete(fields: seq<string>, root: Json) {
    forall i :: 0 <= i < |fields| ==> Present(fields[i], root).Some? && Token(Present(fields[i], root).value).Some?
  }

  function FieldValues(fields: seq<string>, root: Json): (vs: seq<Json>)
    requires Complete(fields, root)
    ensures Tokenized(vs)
  {
    seq(|fields|, i requires 0 <= i < |fields| => Present(fields[i], root).value)
  }

  /** The tokens of the fields present, None when a value present is not one a unique key takes. */
  function PresentTokens(fields: seq<string>, root: Json): Option<seq<string>> {
    if fields == [] then Some([])
    else
      var n := |fields| - 1;
      match PresentTokens(fields[..n], root)
      case None => None
      case Some(ts) =>
        var v := Present(fields[n], root);
        if v.None? then Some(ts)
        else
          match Token(v.value)
          case None => None
          case Some(t) => Some(ts + [t])
  }

  lemma {:induction false} NothingPresent(fields: seq<string>, root: Json)
    ensures AllAbsent(fields, root) <==> PresentTokens(fields, root) == Some([])
  {
    hide Present, Token;
    if fields != [] {
      var n := |fields| - 1;
      NothingPresent(fields[..n], root);
      assert fields == fields[..n] + [fields[n]];
      if Present(fields[n], root).Some? {
        assert !AllAbsent(fields, root);
        assert PresentTokens(fields, root).Some? ==> |PresentTokens(fields, root).value| > 0;
      } else {
        assert PresentTokens(fields, root) == PresentTokens(fields[..n], root);
        assert AllAbsent(fields, root) <==> AllAbsent(fields[..n], root);
      }
    }
  }

  lemma CompleteSnoc(fields: seq<string>, field: string, root: Json)
    ensures Complete(fields + [field], root) <==>
      Complete(fields, root) && Present(field, root).Some? && Token(Present(field, root).value).Some?
    ensures Complete(fields + [field], root) ==>
      Tokens(FieldValues(fields + [field], root)) ==
        Tokens(FieldValues(fields, root)) + [Token(Present(field, root).value).value]
  {
    hide Present, Token;
    var all := fields + [field];
    assert all[..|fields|] == fields && all[|fields|] == field;
    assert Complete(all, root) ==> forall i :: 0 <= i < |fields| ==> all[i] == fields[i];
    if Complete(all, root) {
      forall i | 0 <= i < |fields| ensures Present(fields[i], root).Some? && Token(Present(fields[i], root).value).Some? {
        assert all[i] == fields[i];
      }
    }
  }

  lemma {:induction false} EverythingPresent(fields: seq<string>, root: Json)
    ensures PresentTokens(fields, root).Some? ==> |PresentTokens(fields, root).value| <= |fields|
    ensures Complete(fields, root) <==>
      PresentTokens(fields, root).Some? && |PresentTokens(fields, root).value| == |fields|
    ensures Complete(fields, root) ==> PresentTokens(fields, root) == Some(Tokens(FieldValues(fields, root)))
  {
    hide Present, Token;
    if fields != [] {
      var n := |fields| - 1;
      EverythingPresent(fields[..n], root);
      assert fields == fields[..n] + [fields[n]];
      CompleteSnoc(fields[..n], fields[n], root);
      hide Complete, Tokens, FieldValues;
    } else {
      assert Complete(fields, root) && Tokens(FieldValues(fields, root)) == [];
    }
  }

  lemma {:induction false} StaysRefused(fields: seq<string>, root: Json, i: nat)
    requires i <= |fields| && PresentTokens(fields[..i], root).None?
    ensures PresentTokens(fields, root).None?
    decreases |fields|
  {
    hide Token, Present;
    if i < |fields| {
      var n := |fields| - 1;
      assert fields[..n][..i] == fields[..i];
      StaysRefused(fields[..n], root, i);
    } else {
      assert fields[..i] == fields;
    }
  }

  /** computeOneClaim: no claim without any field present, a claim with every one, and otherwise an error. */
  method ComputeOneClaim(fields: seq<string>, root: Json) returns (r: Outcome)
    ensures r.NoClaim? <==> AllAbsent(fields, root)
    ensures r.Claim? <==> fields != [] && Complete(fields, root)
    ensures r.Claim? ==> r.signature == Joined(Tokens(FieldValues(fields, root)))
  {
    hide Token, Present, Joined, AllAbsent, Complete, Tokens, FieldValues;
    NothingPresent(fields, root);
    EverythingPresent(fields, root);
    var tokens, presentCount := [], 0;
    for i := 0 to |fields|
      invariant PresentTokens(fields[..i], root) == Some(tokens) && presentCount == |tokens|
    {
      assert fields[..i + 1][..i] == fields[..i];
      var val := PresentAt(fields[i], root);
      if val.None? {
        continue;
      }
      var tok := Token(val.value);
      if tok.None? {
        StaysRefused(fields, root, i + 1);
        return PartialKey;
      }
      tokens := tokens + [tok.value];
      presentCount := presentCount + 1;
    }
    assert fields[..|fields|] == fields;
    if presentCount == 0 {
      assert tokens == [];
      return NoClaim;
    }
    if presentCount != |fields| {
      return PartialKey;
    }
    return Claim(Joined(tokens));
  }

  method PresentAt(field: string, root: Json) returns (v: Option<Json>)
    ensures v == Present(field, root)
  {
    v := WalkPath(field, root);
    if v == Some(Null) {
      v := None;
    }
  }

  /** Two documents' claims of one key have the same signature exactly when the key's fields agree,
      position by position: strings and truth values identical, numbers numerically equal. */
  lemma SignatureIff(fields: seq<string>, a: Json, b: Json)
    requires Complete(fields, a) && Complete(fields, b)
    ensures Joined(Tokens(FieldValues(fields, a))) == Joined(Tokens(FieldValues(fields, b))) <==>
      forall i :: 0 <= i < |fields| ==> Same(Present(fields[i], a).value, Present(fields[i], b).value)
  {
    hide Token, Present, Joined, Same;
    JoinedIff(FieldValues(fields, a), FieldValues(fields, b));
    assert forall i :: 0 <= i < |fields| ==> FieldValues(fields, a)[i] == Present(fields[i], a).value;
    assert forall i :: 0 <= i < |fields| ==> FieldValues(fields, b)[i] == Present(fields[i], b).value;
  }

  // ----- countDigitsExp as it is written -----

  /** After start, s has a run of digits and then something else. */
  ghost predicate RunAt(s: string, start: nat, digits: string, rest: string) {
    start <= |s| && s[start..] == digits + rest && AllDigits(digits) && (rest == "" || !IsDigit(rest[0]))
  }

  lemma RunChar(s: string, start: nat, digits: string, rest: string, j: nat)
    requires RunAt(s, start, digits, rest) && j <= |digits|
    ensures start + j <= |s| && (start + j < |s| && IsDigit(s[start + j]) <==> j < |digits|)
    ensures j < |digits| ==> s[start + j] == digits[j]
    ensures j == |digits| ==> s[start + j..] == rest
  {
    if start + j < |s| {
      assert s[start + j] == s[start..][j] == (digits + rest)[j];
    }
    assert s[start + j..] == s[start..][j..];
  }

  /** Counts the digits of s from start on. */
  method CountRun(s: string, start: nat, ghost digits: string, ghost rest: string) returns (count: nat, i: nat)
    requires RunAt(s, start, digits, rest)
    ensures count == |digits| && i <= |s| && s[i..] == rest
  {
    count, i := 0, start;
    RunChar(s, start, digits, rest, 0);
    while i < |s| && IsDigit(s[i])
      invariant start <= i <= |s| && count == i - start <= |digits|
      invariant i < |s| && IsDigit(s[i]) <==> count < |digits|
    {
      count := count + 1;
      i := i + 1;
      RunChar(s, start, digits, rest, count);
    }
    RunChar(s, start, digits, rest, count);
  }

  /** Reads the exponent's digits, taking no more once past the bound. */
  method CappedRun(s: string, start: nat, ghost digits: string) returns (v: nat)
    requires RunAt(s, start, digits, "")
    ensures v == Capped(digits)
  {
    v := 0;
    var i: nat := start;
    RunChar(s, start, digits, "", 0);
    while i < |s| && IsDigit(s[i])
      invariant start <= i <= |s| && i - start <= |digits| && v == Capped(digits[..i - start])
      invariant i < |s| && IsDigit(s[i]) <==> i - start < |digits|
    {
      var n := i - start;
      RunChar(s, start, digits, "", n);
      assert digits[..n + 1][..n] == digits[..n];
      if v <= MAX_NUM_EXP + 1 {
        v := 10 * v + Digit(s[i]);
      }
      i := i + 1;
      RunChar(s, start, digits, "", n + 1);
    }
    assert digits[..|digits|] == digits;
  }

  function TailOf(n: Numeral): string {
    SpellFrac(n.frac) + SpellExp(n.exp)
  }

  /** The text part by part: its sign, its integer digits, and what follows. */
  lemma SpellInts(n: Literal)
    ensures var s, i := Spell(n), if n.neg then 1 else 0;
      s != "" && (s[0] == '-' <==> n.neg) && s[0] != '+' && RunAt(s, i, n.ints, TailOf(n))
  {
    hide Number;
    var i := if n.neg then 1 else 0;
    assert Spell(n)[i..] == n.ints + TailOf(n);
    assert IsDigit(n.ints[0]);
    if !n.neg {
      assert Spell(n)[0] == n.ints[0];
    }
    TailHead(n);
  }

  lemma TailHead(n: Literal)
    ensures var tail := TailOf(n);
      && (tail != "" && tail[0] == '.' <==> n.frac != "")
      && (tail == "" || !IsDigit(tail[0]))
      && (n.frac != "" ==> RunAt(tail, 1, n.frac, SpellExp(n.exp)))
      && (n.frac == "" ==> tail == SpellExp(n.exp))
  {
    hide Number;
    var last := SpellExp(n.exp);
    if n.frac != "" {
      assert TailOf(n)[1..] == n.frac + last;
    } else {
      assert "" + last == last;
    }
  }

  lemma RunShifted(s: string, i: nat, tail: string, digits: string, rest: string)
    requires i <= |s| && s[i..] == tail && RunAt(tail, 1, digits, rest)
    ensures RunAt(s, i + 1, digits, rest)
  {
    assert s[i + 1..] == tail[1..];
  }

  /** The counts the bound is checked on, read off the literal's text in one pass. */
  method CountDigitsExp(s: string, ghost n: Literal) returns (coeffDigits: nat, exp: int)
    requires s == Spell(n)
    ensures coeffDigits == |n.ints| + |n.frac| && exp == CountedExp(n)
  {
    hide Spell, TailOf, RunAt, Capped;
    SpellInts(n);
    TailHead(n);
    var i := 0;
    if s[i] == '-' || s[i] == '+' {
      i := i + 1;
    }
    var intDigits, fracDigits, explicitExp := 0, 0, 0;
    intDigits, i := CountRun(s, i, n.ints, TailOf(n));
    assert i < |s| ==> s[i] == s[i..][0];
    if i < |s| && s[i] == '.' {
      RunShifted(s, i, TailOf(n), n.frac, SpellExp(n.exp));
      fracDigits, i := CountRun(s, i + 1, n.frac, SpellExp(n.exp));
    }
    assert s[i..] == SpellExp(n.exp);
    if i < |s| {
      explicitExp := ExplicitExp(s, i, n.exp.value);
    }
    return intDigits + fracDigits, explicitExp - fracDigits;
  }

  lemma ExponentText(s: string, start: nat, e: Exponent)
    requires start < |s| && IsExponent(e) && s[start..] == SpellExp(Some(e))
    ensures start + 1 < |s| && (s[start + 1] == '-' <==> e.sign == "-") && (s[start + 1] == '+' <==> e.sign == "+")
    ensures RunAt(s, start + 1 + |e.sign|, e.digits, "")
  {
    var written := e.sign + e.digits;
    assert SpellExp(Some(e)) == [e.mark] + written;
    assert s[start + 1..] == s[start..][1..] == written;
    assert s[start + 1] == written[0];
    assert IsDigit(e.digits[0]);
    assert s[start + 1 + |e.sign|..] == written[|e.sign|..] == e.digits;
    assert e.digits + "" == e.digits;
  }

  method ExplicitExp(s: string, start: nat, ghost e: Exponent) returns (exp: int)
    requires start < |s| && IsExponent(e) && s[start..] == SpellExp(Some(e))
    ensures exp == Signed(Some(e), Capped(e.digits))
  {
    hide RunAt, Capped;
    ExponentText(s, start, e);
    var i := start + 1;
    var negative := s[i] == '-';
    if s[i] == '+' || s[i] == '-' {
      i := i + 1;
    }
    var v: int := CappedRun(s, i, e.digits);
    return if negative then -v else v;
  }
}
