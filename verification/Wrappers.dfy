/** Failure-compatible results shared by the modules of the model. */
module Wrappers {
  datatype Option<+T> = None | Some(value: T)

  datatype Result<+T, +E> = Success(value: T) | Failure(error: E) {
    predicate IsFailure() {
      Failure?
    }

    function PropagateFailure<U>(): Result<U, E>
      requires Failure?
    {
      Failure(error)
    }

    function Extract(): T
      requires Success?
    {
      value
    }
  }

  // ----- lists of results -----

  predicate AllSome<X>(s: seq<Option<X>>) {
    forall i :: 0 <= i < |s| ==> s[i].Some?
  }

  /** All values, or None at the first failure. */
  function Gather<X>(s: seq<Option<X>>): Option<seq<X>> {
    if AllSome(s) then Some(seq(|s|, i requires 0 <= i < |s| && s[i].Some? => s[i].value)) else None
  }

  lemma GatherIs<X>(s: seq<Option<X>>, values: seq<X>)
    requires |s| == |values| && forall i :: 0 <= i < |s| ==> s[i] == Some(values[i])
    ensures Gather(s) == Some(values)
  {
    assert AllSome(s);
    assert Gather(s).value == values;
  }

  lemma GatherFails<X>(s: seq<Option<X>>, i: nat)
    requires i < |s| && s[i].None?
    ensures Gather(s) == None
  {
  }

  /** What f gives of each element, in order, where it gives anything. */
  function Collect<X, Y>(s: seq<X>, f: X -> Option<Y>): seq<Y> {
    if s == [] then []
    else
      var n := |s| - 1;
      Collect(s[..n], f) + (if f(s[n]).Some? then [f(s[n]).value] else [])
  }

  lemma CollectSnoc<X, Y>(s: seq<X>, x: X, f: X -> Option<Y>)
    ensures Collect(s + [x], f) == Collect(s, f) + (if f(x).Some? then [f(x).value] else [])
  {
    assert (s + [x])[..|s|] == s;
  }

  lemma {:induction false} CollectMembers<X, Y>(s: seq<X>, f: X -> Option<Y>, y: Y)
    ensures y in Collect(s, f) <==> exists x <- s :: f(x) == Some(y)
  {
    if s != [] {
      var n := |s| - 1;
      assert s == s[..n] + [s[n]];
      CollectMembers(s[..n], f, y);
    }
  }
}
