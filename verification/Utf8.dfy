/** UTF-8 (RFC 3629): which byte strings are valid, and why a model may speak of code points where the
    source holds their bytes. */
module Utf8 {
  import opened Bytes
  import Strings

  predicate Continues(b: Byte) {
    0x80 <= b <= 0xBF
  }

  /** What a second byte may be after a first one (section 4 of RFC 3629). */
  predicate Second(first: Byte, b: Byte) {
    Continues(b) &&
    (first == 0xE0 ==> b >= 0xA0) && (first == 0xED ==> b <= 0x9F) && (first == 0xF0 ==> b >= 0x90) && (first == 0xF4 ==> b <= 0x8F)
  }

  /** How many bytes the first code point takes, 0 where there is none. */
  function Lead(t: Text): (n: nat)
    ensures n <= |t|
  {
    if t == [] then 0
    else if t[0] < 0x80 then 1
    else if 0xC2 <= t[0] <= 0xDF && |t| >= 2 && Second(t[0], t[1]) then 2
    else if 0xE0 <= t[0] <= 0xEF && |t| >= 3 && Second(t[0], t[1]) && Continues(t[2]) then 3
    else if 0xF0 <= t[0] <= 0xF4 && |t| >= 4 && Second(t[0], t[1]) && Continues(t[2]) && Continues(t[3]) then 4
    else 0
  }

  /** utf8.ValidString. */
  predicate Valid(t: Text)
    decreases |t|
  {
    t == [] || (Lead(t) > 0 && Valid(t[Lead(t)..]))
  }

  /** The bytes of one code point. */
  function CharBytes(c: char): (t: Text)
    ensures 1 <= |t| <= 4
  {
    var n := c as int;
    if n < 0x80 then [n as Byte]
    else if n < 0x800 then [(0xC0 + n / 64) as Byte, (0x80 + n % 64) as Byte]
    else if n < 0x1_0000 then [(0xE0 + n / 4096) as Byte, (0x80 + n / 64 % 64) as Byte, (0x80 + n % 64) as Byte]
    else
      [(0xF0 + n / 262_144) as Byte, (0x80 + n / 4096 % 64) as Byte, (0x80 + n / 64 % 64) as Byte, (0x80 + n % 64) as Byte]
  }

  function Encode(s: string): Text {
    if s == "" then [] else CharBytes(s[0]) + Encode(s[1..])
  }

  // ----- valid is encoded -----

  lemma LeadOfCode(c: char, rest: Text)
    ensures Lead(CharBytes(c) + rest) == |CharBytes(c)|
  {
    var n := c as int;
    var t := CharBytes(c) + rest;
    assert forall i :: 0 <= i < |CharBytes(c)| ==> t[i] == CharBytes(c)[i];
    if 0x800 <= n < 0x1_0000 {
      assert n / 4096 == 0 ==> n / 64 % 64 >= 0x20;
      assert n / 4096 == 0xD ==> n / 64 % 64 <= 0x1F;
    } else if n >= 0x1_0000 {
      assert n / 262_144 == 0 ==> n / 4096 % 64 >= 0x10;
      assert n / 262_144 == 4 ==> n / 4096 % 64 <= 0xF;
    }
  }

  /** The value the leading bytes spell. */
  function LeadValue(t: Text): (n: nat)
    requires Lead(t) > 0
    ensures n < 0xD800 || 0xE000 <= n < 0x11_0000
  {
    match Lead(t)
    case 1 => t[0] as int
    case 2 => (t[0] as int - 0xC0) * 64 + (t[1] as int - 0x80)
    case 3 => (t[0] as int - 0xE0) * 4096 + (t[1] as int - 0x80) * 64 + (t[2] as int - 0x80)
    case _ =>
      (t[0] as int - 0xF0) * 262_144 + (t[1] as int - 0x80) * 4096 + (t[2] as int - 0x80) * 64 + (t[3] as int - 0x80)
  }

  /** Base 64. */
  lemma Digits64(a: int, b: int, c: int, d: int)
    requires a >= 0 && 0 <= b < 64 && 0 <= c < 64 && 0 <= d < 64
    ensures var n := a * 262_144 + b * 4096 + c * 64 + d;
      n / 262_144 == a && n / 4096 % 64 == b && n / 64 % 64 == c && n % 64 == d && n / 64 == a * 4096 + b * 64 + c && n / 4096 == a * 64 + b
  {
    var n := a * 262_144 + b * 4096 + c * 64 + d;
    assert n == (a * 4096 + b * 64 + c) * 64 + d;
    assert n / 64 == a * 4096 + b * 64 + c;
    assert n / 4096 == a * 64 + b;
  }

  lemma CodeOfLead(t: Text)
    requires Lead(t) > 0
    ensures CharBytes(LeadValue(t) as char) == t[..Lead(t)]
  {
    match Lead(t)
    case 1 =>
    case 2 => Digits64(0, 0, t[0] as int - 0xC0, t[1] as int - 0x80);
    case 3 => Digits64(0, t[0] as int - 0xE0, t[1] as int - 0x80, t[2] as int - 0x80);
    case _ => Digits64(t[0] as int - 0xF0, t[1] as int - 0x80, t[2] as int - 0x80, t[3] as int - 0x80);
  }

  lemma {:induction false} EncodedIsValid(s: string)
    ensures Valid(Encode(s))
  {
    if s != "" {
      LeadOfCode(s[0], Encode(s[1..]));
      EncodedIsValid(s[1..]);
      assert (CharBytes(s[0]) + Encode(s[1..]))[|CharBytes(s[0])|..] == Encode(s[1..]);
    }
  }

  lemma {:induction false} ValidIsEncoded(t: Text) returns (s: string)
    requires Valid(t)
    ensures Encode(s) == t
    decreases |t|
  {
    if t == [] {
      s := "";
    } else {
      var rest := ValidIsEncoded(t[Lead(t)..]);
      var c := LeadValue(t) as char;
      CodeOfLead(t);
      s := [c] + rest;
      assert s[1..] == rest && t == t[..Lead(t)] + t[Lead(t)..];
    }
  }

  /** A byte string is valid exactly when it is some code points' encoding. */
  lemma ValidIff(t: Text)
    ensures Valid(t) <==> exists s :: Encode(s) == t
  {
    if Valid(t) {
      var s := ValidIsEncoded(t);
    }
    if s :| Encode(s) == t {
      EncodedIsValid(s);
    }
  }

  // ----- order -----

  /** The first byte that differs decides. */
  lemma {:induction false} FirstDifference(a: Text, b: Text, k: nat)
    requires k < |a| && k < |b| && a[..k] == b[..k] && a[k] < b[k]
    ensures Compare(a, b) == -1
  {
    if k > 0 {
      assert a[0] == a[..k][0] == b[..k][0] == b[0];
      assert a[1..][..k - 1] == a[..k][1..] && b[1..][..k - 1] == b[..k][1..];
      FirstDifference(a[1..], b[1..], k - 1);
    }
  }

  lemma Written64(n: nat)
    ensures n == n / 64 * 64 + n % 64
    ensures n == n / 4096 * 4096 + n / 64 % 64 * 64 + n % 64
    ensures n == n / 262_144 * 262_144 + n / 4096 % 64 * 4096 + n / 64 % 64 * 64 + n % 64
  {
    assert n / 64 / 64 == n / 4096 && n / 4096 / 64 == n / 262_144;
  }

  /** Fewer bytes come with a smaller first one. */
  lemma ShorterIsLess(c: char, d: char)
    requires c < d
    ensures |CharBytes(c)| <= |CharBytes(d)|
    ensures |CharBytes(c)| < |CharBytes(d)| ==> CharBytes(c)[0] < CharBytes(d)[0]
  {
  }

  /** Numbers of one length in base 64 compare by the first digit that differs. */
  lemma FirstDigit(a: int, b: int, c: int, d: int, a': int, b': int, c': int, d': int)
    requires 0 <= b < 64 && 0 <= c < 64 && 0 <= d < 64 && 0 <= b' < 64 && 0 <= c' < 64 && 0 <= d' < 64
    requires a * 262_144 + b * 4096 + c * 64 + d < a' * 262_144 + b' * 4096 + c' * 64 + d'
    ensures a < a' || (a == a' && (b < b' || (b == b' && (c < c' || (c == c' && d < d')))))
  {
  }

  function Base64(c: char): (int, int, int, int) {
    var n := c as int;
    (n / 262_144, n / 4096 % 64, n / 64 % 64, n % 64)
  }

  /** The bytes of a code point are its digits in base 64, under the marks of their places. */
  lemma InBase64(c: char)
    ensures var (a, b, d, e) := Base64(c);
      var t := CharBytes(c);
      && 0 <= b < 64 && 0 <= d < 64 && 0 <= e < 64
      && c as int == a * 262_144 + b * 4096 + d * 64 + e
      && (|t| < 4 ==> a == 0) && (|t| < 3 ==> b == 0)
      && (|t| == 1 ==> t[0] as int == d * 64 + e)
      && (|t| == 2 ==> t[0] as int == 0xC0 + d && t[1] as int == 0x80 + e)
      && (|t| == 3 ==> t[0] as int == 0xE0 + b && t[1] as int == 0x80 + d && t[2] as int == 0x80 + e)
      && (|t| == 4 ==> t[0] as int == 0xF0 + a && t[1] as int == 0x80 + b && t[2] as int == 0x80 + d && t[3] as int == 0x80 + e)
  {
    Written64(c as int);
  }

  lemma CodeOrder(c: char, d: char) returns (k: nat)
    requires c < d
    ensures var s, t := CharBytes(c), CharBytes(d);
      k < |s| && k < |t| && s[..k] == t[..k] && s[k] < t[k]
  {
    var s, t := CharBytes(c), CharBytes(d);
    ShorterIsLess(c, d);
    if |s| < |t| {
      k := 0;
    } else {
      var a, a' := Base64(c), Base64(d);
      InBase64(c);
      InBase64(d);
      hide CharBytes, Base64;
      FirstDigit(a.0, a.1, a.2, a.3, a'.0, a'.1, a'.2, a'.3);
      k := if s[0] < t[0] then 0 else if s[1] < t[1] then 1 else if s[2] < t[2] then 2 else 3;
    }
  }

  lemma {:induction false} SamePrefix(p: Text, a: Text, b: Text)
    ensures Compare(p + a, p + b) == Compare(a, b)
  {
    if p == [] {
      assert p + a == a && p + b == b;
    } else {
      assert (p + a)[1..] == p[1..] + a && (p + b)[1..] == p[1..] + b;
      SamePrefix(p[1..], a, b);
    }
  }

  /** Code points compare as their bytes do. */
  lemma {:induction false} OrderKept(s: string, t: string)
    ensures Compare(Encode(s), Encode(t)) == Strings.Compare(s, t)
  {
    if s != "" && t != "" {
      var a, b := Encode(s[1..]), Encode(t[1..]);
      if s[0] == t[0] {
        SamePrefix(CharBytes(s[0]), a, b);
        OrderKept(s[1..], t[1..]);
      } else {
        var less, more := if s[0] < t[0] then s else t, if s[0] < t[0] then t else s;
        var k := CodeOrder(less[0], more[0]);
        hide CharBytes;
        assert Encode(less)[..k] == CharBytes(less[0])[..k] && Encode(more)[..k] == CharBytes(more[0])[..k];
        FirstDifference(Encode(less), Encode(more), k);
        CompareIsOrder(Encode(s), Encode(t));
      }
    }
  }

  // ----- lengths -----

  /** Of two beginnings of one text, the one of fewer bytes is the shorter. */
  lemma {:induction false} LongerHasMore(s: string, t: string)
    requires s <= t
    ensures |Encode(s)| <= |Encode(t)|
    ensures |Encode(s)| == |Encode(t)| ==> s == t
  {
    if s != "" {
      assert s[0] == t[0] && s[1..] <= t[1..];
      LongerHasMore(s[1..], t[1..]);
      assert s == [s[0]] + s[1..] && t == [t[0]] + t[1..];
    }
  }
}
