/** What a unique key's tokens say and which field values they are taken from, said of the document alone. */
module SignatureMeaning {
  import opened Arith
  import opened JsonNumbers
  import opened JsonValues
  import opened Numerals
  import opened UniqueSignature
  import opened Wrappers
  import Strings
  import Utf8

  // ----- tokens as they are written -----

  /** d writes n in decimal, without leading zeros. */
  predicate Writes(d: string, n: nat) {
    d != "" && AllDigits(d) && Number(d) == n && (d[0] == '0' ==> d == "0")
  }

  lemma {:induction false} DigitsWrite(n: nat)
    ensures Writes(Digits(n), n)
  {
    DigitsNumber(n);
    if n >= 10 {
      DigitsWrite(n / 10);
      assert Digits(n)[0] == Digits(n / 10)[0];
      assert Number("0") == 0 by { assert "0"[..0] == ""; }
    }
  }

  predicate WritesInt(t: string, p: int) {
    if p < 0 then t != "" && t[0] == '-' && Writes(t[1..], -p) else Writes(t, p)
  }

  lemma IntTextWrites(p: int)
    ensures WritesInt(IntText(p), p)
  {
    hide Digits, Writes;
    DigitsWrite(if p < 0 then -p else p);
  }

  /** A string's token carries its length in bytes. */
  lemma StringToken(s: string)
    ensures exists d :: Writes(d, |Utf8.Encode(s)|) && Token(Str(s)) == Some("s" + d + ":" + s)
  {
    hide Digits, Writes;
    var d := Digits(|Utf8.Encode(s)|);
    DigitsWrite(|Utf8.Encode(s)|);
    assert "s" + (d + (":" + s)) == "s" + d + ":" + s;
  }

  lemma OtherTokens(v: Json)
    ensures Token(Bool(true)) == Some("b:true") && Token(Bool(false)) == Some("b:false")
    ensures v.Null? || v.Array? || v.Object? ==> Token(v) == None
  {
  }

  /** The literal denotes p / q. */
  ghost predicate Denotes(n: Literal, p: int, q: nat) {
    var c, e := Coefficient(n), ExponentOf(n);
    if e >= 0 then p == (c * Pow(10, e)) * q else p * Pow(10, -e) == c * q
  }

  /** t writes p / q, and p alone where q is 1. */
  ghost predicate WritesRatio(t: string, p: int, q: nat) {
    exists a: string, d: string :: WritesInt(a, p) && Writes(d, q) && t == if q == 1 then a else a + "/" + d
  }

  ghost predicate LeastFraction(n: Literal, p: int, q: nat) {
    q >= 1 && Denotes(n, p, q) && forall p': int, j: nat :: 1 <= j < q ==> !Denotes(n, p', j)
  }

  /** A number's token writes its value with the least denominator there is. */
  lemma NumberToken(n: Literal)
    requires Token(Num(n)).Some?
    ensures exists p: int, q: nat, t: string ::
      WritesRatio(t, p, q) && Token(Num(n)) == Some("n:" + t) && LeastFraction(n, p, q)
  {
    var r := Ratio(n);
    var low := Lowest(r.0, r.1);
    var t := RatString(low);
    LowestDenotes(n);
    RatStringWrites(low);
    hide LeastFraction, Lowest, Ratio, RatString, WritesRatio;
    assert LeastFraction(n, low.0, low.1) && WritesRatio(t, low.0, low.1);
  }

  lemma RatStringWrites(r: (int, nat))
    ensures WritesRatio(RatString(r), r.0, r.1)
  {
    hide Digits, Writes, WritesInt, IntText;
    IntTextWrites(r.0);
    DigitsWrite(r.1);
    assert IntText(r.0) + "" == IntText(r.0);
    assert IntText(r.0) + ("/" + Digits(r.1)) == IntText(r.0) + "/" + Digits(r.1);
  }

  lemma LowestDenotes(n: Literal)
    ensures var low := Lowest(Ratio(n).0, Ratio(n).1);
      LeastFraction(n, low.0, low.1)
  {
    hide Denotes, Ratio;
    var (c, d) := Ratio(n);
    var k := LeastDen(c, d, 1);
    LowestValue(c, d);
    RatioDenotes(n, (c * k) / d, k);
    forall p': int, j: nat | 1 <= j < k ensures !Denotes(n, p', j) {
      RatioDenotes(n, p', j);
      if p' * d == c * j {
        Multiple(p', d);
      }
    }
  }

  lemma RatioDenotes(n: Literal, p: int, q: nat)
    ensures Denotes(n, p, q) <==> p * Ratio(n).1 == Ratio(n).0 * q
  {
  }

  /** Tokens are joined by the unit separator, U+001F. */
  lemma JoinedIs(t: string, ts: seq<string>)
    ensures Joined([]) == "" && Joined([t]) == t
    ensures ts != [] ==> Joined([t] + ts) == t + [0x1f as char] + Joined(ts)
  {
    assert [t][1..] == [] && t + "" == t && ([t] + ts)[1..] == ts;
  }

  // ----- which numbers a key takes -----

  /** The value the exponent's digits are read to where they go on past 6145: that of the shortest beginning past it. */
  predicate ReadsAs(digits: string, v: nat)
    requires AllDigits(digits)
  {
    exists i :: 1 <= i <= |digits| && Number(digits[..i]) == v && v > 6145 && Number(digits[..i - 1]) <= 6145
  }

  lemma {:induction false} CappedReads(digits: string)
    requires AllDigits(digits)
    ensures Number(digits) <= 6145 ==> Capped(digits) == Number(digits)
    ensures Number(digits) > 6145 ==> ReadsAs(digits, Capped(digits))
  {
    if digits != "" {
      var n := |digits| - 1;
      var shorter := digits[..n];
      CappedReads(shorter);
      assert digits[..n + 1] == digits;
      if Number(shorter) > 6145 {
        var i :| 1 <= i <= n && Number(shorter[..i]) == Capped(shorter) && Capped(shorter) > 6145 && Number(shorter[..i - 1]) <= 6145;
        assert digits[..i] == shorter[..i] && digits[..i - 1] == shorter[..i - 1];
      } else {
        assert digits[..n + 1 - 1] == shorter;
      }
    }
  }

  function WrittenExp(n: Literal): nat {
    if n.exp.None? then 0 else Number(n.exp.value.digits)
  }

  predicate Negative(n: Literal) {
    n.exp.Some? && n.exp.value.sign == "-"
  }

  /** A key takes the numbers of at most 64 digits whose exponent is within 6144 either way, and besides those of a
      positive exponent past 6145 whose first digits come, less the fraction's, within 6144; of these a non-zero one
      scales by at most 10^1000000, and a zero one has an exponent of 64 bits. */
  lemma NumberTokenIff(n: Literal)
    ensures Token(Num(n)).Some? <==>
      && |n.ints| + |n.frac| <= 64
      && if WrittenExp(n) <= 6145 then -6144 <= ExponentOf(n) <= 6144
         else
           && !Negative(n) && (exists v: nat :: ReadsAs(n.exp.value.digits, v) && v - |n.frac| <= 6144)
           && WrittenExp(n) <= 9_223_372_036_854_775_807 && (Coefficient(n) == 0 || ExponentOf(n) <= 1_000_000)
  {
    hide Lowest, Ratio, RatString, Coefficient, Capped, Number;
    if n.exp.Some? {
      var digits := n.exp.value.digits;
      CappedReads(digits);
      forall v: nat | ReadsAs(digits, v) ensures v == Capped(digits) {
        OneReading(digits, v);
      }
      if Number(digits) > 6145 {
        PastIsPast(digits);
      }
    }
  }

  lemma PastIsPast(digits: string)
    requires AllDigits(digits) && Number(digits) > 6145
    ensures Capped(digits) > 6145
  {
    CappedReads(digits);
  }

  lemma {:induction false} PrefixIsLess(digits: string, i: nat, j: nat)
    requires AllDigits(digits) && i <= j <= |digits|
    ensures Number(digits[..i]) <= Number(digits[..j])
    decreases j
  {
    if i < j {
      PrefixIsLess(digits, i, j - 1);
      assert digits[..j][..j - 1] == digits[..j - 1];
    }
  }

  lemma OneReading(digits: string, v: nat)
    requires AllDigits(digits) && ReadsAs(digits, v)
    ensures Number(digits) > 6145 && Capped(digits) == v
  {
    hide Number, Capped;
    var i :| 1 <= i <= |digits| && Number(digits[..i]) == v && v > 6145 && Number(digits[..i - 1]) <= 6145;
    assert digits[..|digits|] == digits;
    PrefixIsLess(digits, i, |digits|);
    CappedReads(digits);
    var k :| 1 <= k <= |digits| && Number(digits[..k]) == Capped(digits) && Capped(digits) > 6145 && Number(digits[..k - 1]) <= 6145;
    NoEarlier(digits, i, k);
    NoEarlier(digits, k, i);
  }

  lemma NoEarlier(digits: string, i: nat, k: nat)
    requires AllDigits(digits) && 1 <= i <= |digits| && 1 <= k <= |digits|
    requires Number(digits[..i]) > 6145 && Number(digits[..k - 1]) <= 6145
    ensures k <= i
  {
    hide Number;
    if i <= k - 1 {
      PrefixIsLess(digits, i, k - 1);
    }
  }

  // ----- where a field's value is -----

  /** Member k is the last one of the name. */
  predicate LastNamed(fields: seq<(string, Json)>, name: string, k: nat) {
    k < |fields| && fields[k].0 == name && forall j :: k < j < |fields| ==> fields[j].0 != name
  }

  lemma {:induction false} MemberAt(fields: seq<(string, Json)>, name: string, k: nat)
    requires LastNamed(fields, name, k)
    ensures k < |fields| && Member(fields, name) == Some(fields[k].1)
  {
    var n := |fields| - 1;
    if k < n {
      MemberAt(fields[..n], name, k);
    }
  }

  lemma {:induction false} MemberNamed(fields: seq<(string, Json)>, name: string) returns (k: nat)
    requires Member(fields, name).Some?
    ensures LastNamed(fields, name, k)
  {
    var n := |fields| - 1;
    if fields[n].0 == name {
      k := n;
    } else {
      k := MemberNamed(fields[..n], name);
    }
  }

  /** Going down from v by the names, the last member of each name, ends at w. */
  ghost predicate LeadTo(names: seq<string>, v: Json, w: Json) {
    if names == [] then v == w
    else v.Object? && exists k: nat :: LastNamed(v.fields, names[0], k) && LeadTo(names[1..], v.fields[k].1, w)
  }

  predicate Dotless(names: seq<string>) {
    forall i :: 0 <= i < |names| ==> names[i] != "" && '.' !in names[i]
  }

  function Dotted(names: seq<string>): string {
    if names == [] then "" else if |names| == 1 then names[0] else names[0] + ("." + Dotted(names[1..]))
  }

  lemma {:induction false} SplitDotted(names: seq<string>)
    requires names != [] && Dotless(names)
    ensures Split(Dotted(names)) == names
    decreases |names|
  {
    var first := names[0];
    if |names| == 1 {
      SplitFirst(first, "");
      assert first + "" == first && names == [first];
    } else {
      var rest := Dotted(names[1..]);
      SplitDotted(names[1..]);
      SplitFirst(first, "." + rest);
      assert ("." + rest)[1..] == rest && Dotted(names) == first + ("." + rest);
      assert names == [first] + names[1..];
    }
  }

  lemma SplitFirst(name: string, rest: string)
    requires '.' !in name && (rest == "" || rest[0] == '.')
    ensures Split(name + rest) == if rest == "" then [name] else [name] + Split(rest[1..])
  {
    FirstDot(name, rest);
    assert (name + rest)[..|name|] == name;
    assert rest != "" ==> (name + rest)[|name| + 1..] == rest[1..];
    assert rest == "" ==> name + rest == name;
  }

  lemma FirstDot(name: string, rest: string)
    requires '.' !in name && (rest == "" || rest[0] == '.')
    ensures Strings.Find(name + rest, '.') == |name|
  {
    assert forall i :: 0 <= i < |name| ==> (name + rest)[i] == name[i] && name[i] in name;
    assert rest != "" ==> (name + rest)[|name|] == '.';
  }

  lemma {:induction false} WalkLeads(names: seq<string>, v: Json, w: Json)
    requires Dotless(names)
    ensures Walk(names, v) == Some(w) <==> LeadTo(names, v, w)
    decreases |names|
  {
    hide Member, LastNamed;
    if names != [] && v.Object? {
      var next := Member(v.fields, names[0]);
      if next.Some? {
        var k := MemberNamed(v.fields, names[0]);
        MemberAt(v.fields, names[0], k);
        WalkLeads(names[1..], next.value, w);
      }
      forall k: nat | LastNamed(v.fields, names[0], k) ensures k < |v.fields| && next == Some(v.fields[k].1) {
        MemberAt(v.fields, names[0], k);
      }
    }
  }

  lemma SplitAfterDot(names: seq<string>)
    requires names != [] && Dotless(names)
    ensures Split("." + Dotted(names)) == [""] + names
  {
    hide Dotless;
    SplitDotted(names);
    hide Dotted;
    var path := "." + Dotted(names);
    FirstDot("", path);
    assert "" + path == path && path[..0] == "" && path[1..] == Dotted(names);
  }

  /** The value of a field "$.a.b", or "a.b", is what the names lead to from the root, and there is none elsewhere. */
  lemma FieldLeads(names: seq<string>, root: Json, w: Json)
    requires names != [] && Dotless(names)
    ensures FieldAt("$." + Dotted(names), root) == Some(w) <==> LeadTo(names, root, w)
    ensures names[0][0] != '$' ==> (FieldAt(Dotted(names), root) == Some(w) <==> LeadTo(names, root, w))
  {
    SplitDotted(names);
    assert Dotted(names) != "" && Dotted(names)[0] == names[0][0];
    hide Dotless, Dotted, Split, LeadTo;
    var field, path := "$." + Dotted(names), "." + Dotted(names);
    assert field[0] == '$' && field[1..] == path;
    SplitAfterDot(names);
    WalkLeads(names, root, w);
    WalkBlank(names, root);
    hide Walk;
  }

  lemma WalkBlank(names: seq<string>, v: Json)
    ensures Walk([""] + names, v) == Walk(names, v)
  {
    assert ([""] + names)[1..] == names;
  }
}
