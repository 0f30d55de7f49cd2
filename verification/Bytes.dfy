/** Byte strings and the byte-wise order Go gives them. */
module Bytes {
  newtype Byte = x: int | 0 <= x < 256

  type Text = seq<Byte>

  /** bytes.Compare. */
  function Compare(a: Text, b: Text): int {
    if a == [] && b == [] then 0
    else if a == [] then -1
    else if b == [] then 1
    else if a[0] < b[0] then -1
    else if a[0] > b[0] then 1
    else Compare(a[1..], b[1..])
  }

  predicate Less(a: Text, b: Text) {
    Compare(a, b) < 0
  }

  lemma {:induction false} CompareIsOrder(a: Text, b: Text)
    ensures Compare(a, b) == -Compare(b, a)
    ensures Compare(a, b) == 0 <==> a == b
    ensures -1 <= Compare(a, b) <= 1
  {
    if a != [] && b != [] {
      CompareIsOrder(a[1..], b[1..]);
      assert a == [a[0]] + a[1..] && b == [b[0]] + b[1..];
    }
  }

  lemma {:induction false} LessTransitive(a: Text, b: Text, c: Text)
    requires Less(a, b) && Less(b, c)
    ensures Less(a, c)
  {
    if a != [] && a[0] == b[0] == c[0] {
      LessTransitive(a[1..], b[1..], c[1..]);
    }
  }

  /** a is a proper prefix of b, or the first byte they differ in is smaller in a. */
  ghost predicate Precedes(a: Text, b: Text) {
    a < b || exists k :: 0 <= k < |a| && k < |b| && a[..k] == b[..k] && a[k] < b[k]
  }

  lemma LessMeans(a: Text, b: Text)
    ensures Less(a, b) <==> Precedes(a, b)
  {
    if Less(a, b) {
      LessPrecedes(a, b);
    }
    if Precedes(a, b) {
      PrecedesLess(a, b);
    }
  }

  lemma {:induction false} LessPrecedes(a: Text, b: Text)
    requires Less(a, b)
    ensures Precedes(a, b)
  {
    if a != [] && a[0] == b[0] {
      LessPrecedes(a[1..], b[1..]);
      assert a == [a[0]] + a[1..] && b == [b[0]] + b[1..];
      if k :| 0 <= k < |a| - 1 && k < |b| - 1 && a[1..][..k] == b[1..][..k] && a[1..][k] < b[1..][k] {
        assert a[..k + 1] == [a[0]] + a[1..][..k] && b[..k + 1] == [b[0]] + b[1..][..k];
      }
    } else if a != [] {
      assert a[..0] == b[..0];
    }
  }

  lemma {:induction false} PrecedesLess(a: Text, b: Text)
    requires Precedes(a, b)
    ensures Less(a, b)
  {
    if a != [] {
      if k :| 0 <= k < |a| && k < |b| && a[..k] == b[..k] && a[k] < b[k] {
        if k > 0 {
          assert a[0] == a[..k][0] == b[..k][0] == b[0];
          assert a[1..][..k - 1] == a[..k][1..] && b[1..][..k - 1] == b[..k][1..];
          PrecedesLess(a[1..], b[1..]);
        }
      } else {
        assert a[1..] < b[1..];
        PrecedesLess(a[1..], b[1..]);
      }
    }
  }
}
