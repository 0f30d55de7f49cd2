/** Text, code point by code point, and what Go's strings package asks of it. */
module Strings {
  /** strings.IndexByte, |s| when there is none. */
  function Find(s: string, c: char): (n: nat)
    ensures n <= |s|
    ensures n < |s| ==> s[n] == c
    ensures forall i :: 0 <= i < n ==> s[i] != c
  {
    if s == "" || s[0] == c then 0
    else
      var n := Find(s[1..], c);
      assert forall i :: 0 < i <= n ==> s[i] == s[1..][i - 1];
      1 + n
  }

  /** strings.Contains. */
  predicate Contains(s: string, t: string) {
    exists i | 0 <= i <= |s| :: t <= s[i..]
  }

  /** strings.HasPrefix. */
  predicate HasPrefix(s: string, t: string) {
    t <= s
  }

  /** strings.HasSuffix. */
  predicate HasSuffix(s: string, t: string) {
    |t| <= |s| && s[|s| - |t|..] == t
  }

  /** strings.Compare. */
  function Compare(s: string, t: string): int {
    if s == "" && t == "" then 0
    else if s == "" then -1
    else if t == "" then 1
    else if s[0] < t[0] then -1
    else if s[0] > t[0] then 1
    else Compare(s[1..], t[1..])
  }

  lemma {:induction false} CompareIsOrder(s: string, t: string)
    ensures Compare(s, t) == -Compare(t, s)
    ensures Compare(s, t) == 0 <==> s == t
  {
    if s != "" && t != "" {
      CompareIsOrder(s[1..], t[1..]);
      assert s == [s[0]] + s[1..] && t == [t[0]] + t[1..];
    }
  }

  lemma {:induction false} CompareChains(s: string, t: string, u: string)
    requires Compare(s, t) <= 0 && Compare(t, u) <= 0
    ensures Compare(s, u) <= 0
  {
    if s != "" && t != "" && u != "" && s[0] == t[0] == u[0] {
      CompareChains(s[1..], t[1..], u[1..]);
    }
  }

  // ----- what they mean -----

  lemma ContainsMeans(s: string, t: string)
    ensures Contains(s, t) <==> exists a: string, b: string :: s == a + t + b
  {
    if i :| 0 <= i <= |s| && t <= s[i..] {
      assert s == s[..i] + t + s[i + |t|..];
    }
    if a: string, b: string :| s == a + t + b {
      assert t <= s[|a|..];
    }
  }

  lemma PrefixMeans(s: string, t: string)
    ensures HasPrefix(s, t) <==> exists b: string :: s == t + b
  {
    if HasPrefix(s, t) {
      assert s == t + s[|t|..];
    }
  }

  lemma SuffixMeans(s: string, t: string)
    ensures HasSuffix(s, t) <==> exists a: string :: s == a + t
  {
    if HasSuffix(s, t) {
      assert s == s[..|s| - |t|] + t;
    }
  }

  /** s is a proper prefix of t, or the first character they differ in is smaller in s. */
  ghost predicate Precedes(s: string, t: string) {
    s < t || exists k :: 0 <= k < |s| && k < |t| && s[..k] == t[..k] && s[k] < t[k]
  }

  lemma CompareMeans(s: string, t: string)
    ensures Compare(s, t) < 0 <==> Precedes(s, t)
    ensures Compare(s, t) > 0 <==> Precedes(t, s)
    ensures Compare(s, t) == 0 <==> s == t
  {
    CompareIsOrder(s, t);
    PrecedesIff(s, t);
    PrecedesIff(t, s);
  }

  lemma PrecedesIff(s: string, t: string)
    ensures Compare(s, t) < 0 <==> Precedes(s, t)
  {
    if Compare(s, t) < 0 {
      LessPrecedes(s, t);
    }
    if Precedes(s, t) {
      PrecedesLess(s, t);
    }
  }

  lemma {:induction false} LessPrecedes(s: string, t: string)
    requires Compare(s, t) < 0
    ensures Precedes(s, t)
  {
    if s != "" && s[0] == t[0] {
      LessPrecedes(s[1..], t[1..]);
      assert s == [s[0]] + s[1..] && t == [t[0]] + t[1..];
      if k :| 0 <= k < |s| - 1 && k < |t| - 1 && s[1..][..k] == t[1..][..k] && s[1..][k] < t[1..][k] {
        assert s[..k + 1] == [s[0]] + s[1..][..k] && t[..k + 1] == [t[0]] + t[1..][..k];
      }
    } else if s != "" {
      assert s[..0] == t[..0];
    }
  }

  lemma {:induction false} PrecedesLess(s: string, t: string)
    requires Precedes(s, t)
    ensures Compare(s, t) < 0
  {
    if s != "" {
      if k :| 0 <= k < |s| && k < |t| && s[..k] == t[..k] && s[k] < t[k] {
        if k > 0 {
          assert s[0] == s[..k][0] == t[..k][0] == t[0];
          assert s[1..][..k - 1] == s[..k][1..] && t[1..][..k - 1] == t[..k][1..];
          PrecedesLess(s[1..], t[1..]);
        }
      } else {
        assert s[1..] < t[1..];
        PrecedesLess(s[1..], t[1..]);
      }
    }
  }
}
