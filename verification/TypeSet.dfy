/** TypeSet of datatype.go and CollapseNumeric of numeric.go. */
module TypeSets {
  import opened DataTypes
  import opened Wrappers

  function Members(s: seq<DataType>): set<DataType> {
    set t <- s
  }

  function Numerics(s: set<DataType>): set<DataType> {
    set t <- s | IsNumeric(t)
  }

  lemma IntegersOrdered(a: DataType, b: DataType)
    requires NumericFamily(a) == 1 && NumericFamily(b) == 1 && NumericRank(a) <= NumericRank(b)
    ensures IsAssignableTo(a, b)
  {
  }

  /** Above a bounded decimal type there is only UNBOUND_DECIMAL. */
  lemma AboveDecimal(c: DataType, t: DataType, w: DataType)
    requires NumericFamily(c) == 2 && IsNumeric(t) && !IsAssignableTo(t, c)
    requires IsAssignableTo(c, w) && IsAssignableTo(t, w)
    ensures w == UnboundDecimal
  {
  }

  lemma BoundAttained(s: set<DataType>, u: DataType)
    requires u in s && IsUpperBound(s, u)
    ensures IsLeastUpperBound(s, u)
  {
  }

  /** CollapseNumeric finds the least upper bound in the widening lattice. */
  method CollapseNumeric(types: seq<DataType>) returns (r: DataType)
    requires types != [] && forall t <- types :: IsNumeric(t)
    ensures IsLeastUpperBound(Members(types), r)
  {
    var widestInt: Option<DataType>, widestDec: Option<DataType> := None, None;
    for i := 0 to |types|
      invariant widestInt.Some? ==> widestInt.value in types[..i] && NumericFamily(widestInt.value) == 1
      invariant widestDec.Some? ==> widestDec.value in types[..i] && NumericFamily(widestDec.value) == 2
      invariant forall t <- types[..i] :: NumericFamily(t) == 1 ==>
        widestInt.Some? && NumericRank(t) <= NumericRank(widestInt.value)
      invariant forall t <- types[..i] :: NumericFamily(t) == 2 ==> widestDec.Some?
    {
      var dt := types[i];
      assert types[..i + 1] == types[..i] + [dt] && dt in types;
      if NumericFamily(dt) == 1 {
        if widestInt.None? || NumericRank(dt) > NumericRank(widestInt.value) {
          widestInt := Some(dt);
        }
      } else if widestDec.None? || NumericRank(dt) > NumericRank(widestDec.value) {
        widestDec := Some(dt);
      }
    }
    assert types[..|types|] == types;
    if widestDec.None? {
      assert types[0] in types;
      r := widestInt.value;
      forall t <- types ensures IsAssignableTo(t, r) {
        IntegersOrdered(t, r);
      }
      BoundAttained(Members(types), r);
      return;
    }
    r := widestDec.value;
    for i := 0 to |types|
      invariant forall t <- types[..i] :: IsAssignableTo(t, r)
    {
      assert types[..i + 1] == types[..i] + [types[i]];
      if types[i] != r && !IsAssignableTo(types[i], r) {
        forall w | IsUpperBound(Members(types), w) ensures IsAssignableTo(UnboundDecimal, w) {
          AboveDecimal(r, types[i], w);
        }
        return UnboundDecimal;
      }
    }
    BoundAttained(Members(types), r);
  }

  // ----- the set -----

  ghost predicate StrictlySorted(s: seq<DataType>) {
    forall i, j :: 0 <= i < j < |s| ==> Ordinal(s[i]) < Ordinal(s[j])
  }

  /** What a set must hold once exactly the types in a have been added. */
  ghost predicate Belongs(a: set<DataType>, t: DataType) {
    if t == Null then a == {Null}
    else if IsNumeric(t) then Numerics(a) != {} && IsLeastUpperBound(Numerics(a), t)
    else t in a
  }

  ghost predicate Canonical(a: set<DataType>, types: seq<DataType>) {
    && StrictlySorted(types)
    && (forall t :: t in types <==> Belongs(a, t))
    && (Numerics(a) != {} ==> exists t <- types :: IsNumeric(t))
  }

  /** The types a set holds are settled by the types added to it, in any order. */
  lemma CanonicalUnique(a: set<DataType>, s: seq<DataType>, t: seq<DataType>)
    requires Canonical(a, s) && Canonical(a, t)
    ensures s == t
  {
    forall x ensures x in s <==> x in t {
      assert x in s <==> Belongs(a, x);
    }
    SortedUnique(s, t);
  }

  lemma {:induction false} SortedUnique(s: seq<DataType>, t: seq<DataType>)
    requires StrictlySorted(s) && StrictlySorted(t) && forall x :: x in s <==> x in t
    ensures s == t
  {
    assert s != [] ==> s[0] in t;
    assert t != [] ==> t[0] in s;
    if s != [] {
      assert s[0] == t[0];
      forall x ensures x in s[1..] <==> x in t[1..] {
        if x in s[1..] { assert x in s; assert x != s[0]; }
        if x in t[1..] { assert x in t; assert x != t[0]; }
      }
      SortedUnique(s[1..], t[1..]);
    }
  }

  /** At most one numeric type survives, and NULL only where nothing concrete was added. */
  lemma CanonicalShape(a: set<DataType>, types: seq<DataType>, t: DataType, u: DataType)
    requires Canonical(a, types) && t in types && u in types
    ensures IsNumeric(t) && IsNumeric(u) ==> t == u
    ensures t == Null ==> types == [Null]
  {
    assert Belongs(a, t) && Belongs(a, u);
    if IsNumeric(t) && IsNumeric(u) {
      LeastUpperBoundUnique(Numerics(a), t, u);
    }
    if t == Null {
      assert a == {Null};
      forall x ensures x in types <==> x in [Null] {
        assert x in types <==> Belongs(a, x);
      }
      SortedUnique(types, [Null]);
    }
  }

  lemma NothingAdded(a: set<DataType>, types: seq<DataType>)
    requires Canonical(a, types) && Null !in types && forall t <- types :: t == Null
    ensures a == {}
  {
    forall t | t != Null ensures t !in a {
      assert !Belongs(a, t);
      assert t in a && IsNumeric(t) ==> t in Numerics(a);
    }
    assert !Belongs(a, Null);
    assert a <= {Null};
  }

  lemma NullAfterConcrete(a: set<DataType>, types: seq<DataType>, c: DataType)
    requires Canonical(a, types) && c in types && c != Null
    ensures Canonical(a + {Null}, types)
  {
    assert Belongs(a, c);
    assert Numerics(a + {Null}) == Numerics(a);
    assert IsNumeric(c) ==> exists n :: n in Numerics(a);
    assert a != {Null} && a + {Null} != {Null};
    forall t ensures t in types <==> Belongs(a + {Null}, t) {
      assert t in types <==> Belongs(a, t);
    }
  }

  lemma AddedAgain(a: set<DataType>, types: seq<DataType>, dt: DataType)
    requires Canonical(a, types) && dt in types
    ensures Canonical(a + {dt}, types)
  {
    assert Belongs(a, dt);
    if !IsNumeric(dt) {
      assert a + {dt} == a;
    } else {
      var n, n' := Numerics(a), Numerics(a + {dt});
      assert n' == n + {dt};
      forall t ensures IsLeastUpperBound(n, t) <==> IsLeastUpperBound(n', t) {
        BoundStays(n, dt, t);
      }
      forall t ensures t in types <==> Belongs(a + {dt}, t) {
        assert t in types <==> Belongs(a, t);
        assert t == Null && t in types ==> a == {Null} && n == {};
      }
    }
  }

  /** Adding a set's own least upper bound leaves the bound where it was. */
  lemma BoundStays(n: set<DataType>, u: DataType, t: DataType)
    requires AllNumeric(n) && IsLeastUpperBound(n, u)
    ensures IsLeastUpperBound(n, t) <==> IsLeastUpperBound(n + {u}, t)
  {
    assert IsLeastUpperBound(n + {u}, u);
    if IsLeastUpperBound(n, t) { LeastUpperBoundUnique(n, t, u); }
    if IsLeastUpperBound(n + {u}, t) { LeastUpperBoundUnique(n + {u}, t, u); }
  }

  lemma BelongsNumeric(a: set<DataType>, u: DataType, t: DataType)
    requires Numerics(a) != {} && IsLeastUpperBound(Numerics(a), u) && IsNumeric(t)
    ensures Belongs(a, t) <==> t == u
  {
    if Belongs(a, t) { LeastUpperBoundUnique(Numerics(a), t, u); }
  }

  lemma BelongsOther(a: set<DataType>, before: seq<DataType>, dt: DataType, t: DataType)
    requires Canonical(a, before) && dt != Null && !IsNumeric(t)
    ensures Belongs(a + {dt}, t) <==> t != Null && (t in before || t == dt)
  {
    assert t in before <==> Belongs(a, t);
  }

  /** The new members: the concrete non-numeric ones, and what the numeric ones collapsed to. */
  lemma ConcreteAdded(a: set<DataType>, before: seq<DataType>, dt: DataType, numeric: seq<DataType>, next: seq<DataType>)
    requires Canonical(a, before) && dt != Null && StrictlySorted(next)
    requires forall t :: t in next <==>
      if IsNumeric(t) then t in numeric else t != Null && (t in before || t == dt)
    requires Numerics(a + {dt}) == {} ==> numeric == []
    requires Numerics(a + {dt}) != {} ==> |numeric| == 1 && IsLeastUpperBound(Numerics(a + {dt}), numeric[0])
    ensures Canonical(a + {dt}, next)
  {
    var b := a + {dt};
    forall t ensures t in next <==> Belongs(b, t) {
      if !IsNumeric(t) {
        BelongsOther(a, before, dt, t);
      } else if Numerics(b) != {} {
        BelongsNumeric(b, numeric[0], t);
      }
    }
    if Numerics(b) != {} {
      assert numeric[0] in next;
    }
  }

  /** A set that has been collapsed so far holds no numeric type, or the bound of all it was given. */
  lemma NumericSoFar(a: set<DataType>, types: seq<DataType>)
    requires Canonical(a, types)
    ensures Numerics(a) == {} ==> forall t <- types :: !IsNumeric(t)
    ensures Numerics(a) != {} ==> exists u <- types ::
      IsLeastUpperBound(Numerics(a), u) && (forall t <- types :: IsNumeric(t) ==> t == u)
  {
    if Numerics(a) != {} {
      var u :| u in types && IsNumeric(u);
      assert Belongs(a, u);
      forall t <- types | IsNumeric(t) ensures t == u {
        assert Belongs(a, t);
        LeastUpperBoundUnique(Numerics(a), t, u);
      }
    } else {
      forall t <- types ensures !IsNumeric(t) {
        assert Belongs(a, t);
      }
    }
  }

  // ----- the steps of Add -----

  /** ts.types[:0] filtered in place: drops NULL, keeps the rest in order. */
  method WithoutNull(s: seq<DataType>) returns (r: seq<DataType>)
    ensures forall t :: t in r <==> t in s && t != Null
    ensures Distinct(s) ==> Distinct(r)
  {
    r := [];
    for i := 0 to |s|
      invariant forall t :: t in r <==> t in s[..i] && t != Null
      invariant Distinct(s) ==> Distinct(r)
    {
      assert s[..i + 1] == s[..i] + [s[i]];
      assert Distinct(s) ==> s[i] !in s[..i];
      if s[i] != Null {
        r := r + [s[i]];
      }
    }
    assert s[..|s|] == s;
  }

  predicate Distinct(s: seq<DataType>) {
    forall i, j :: 0 <= i < j < |s| ==> s[i] != s[j]
  }

  method Split(s: seq<DataType>) returns (numerics: seq<DataType>, others: seq<DataType>)
    ensures forall t :: t in numerics <==> t in s && IsNumeric(t)
    ensures forall t :: t in others <==> t in s && !IsNumeric(t)
    ensures Distinct(s) ==> Distinct(numerics) && Distinct(others)
  {
    numerics, others := [], [];
    for i := 0 to |s|
      invariant forall t :: t in numerics <==> t in s[..i] && IsNumeric(t)
      invariant forall t :: t in others <==> t in s[..i] && !IsNumeric(t)
      invariant Distinct(s) ==> Distinct(numerics) && Distinct(others)
    {
      assert s[..i + 1] == s[..i] + [s[i]];
      assert Distinct(s) ==> s[i] !in s[..i];
      if IsNumeric(s[i]) {
        numerics := numerics + [s[i]];
      } else {
        others := others + [s[i]];
      }
    }
    assert s[..|s|] == s;
  }

  method Sort(s: seq<DataType>) returns (r: seq<DataType>)
    requires Distinct(s)
    ensures StrictlySorted(r) && forall t :: t in r <==> t in s
  {
    r := [];
    for i := 0 to |s|
      invariant StrictlySorted(r) && forall t :: t in r <==> t in s[..i]
    {
      assert s[..i + 1] == s[..i] + [s[i]];
      assert s[i] !in r by { assert s[i] !in s[..i]; }
      r := Insert(r, s[i]);
    }
    assert s[..|s|] == s;
  }

  method Insert(s: seq<DataType>, dt: DataType) returns (r: seq<DataType>)
    requires StrictlySorted(s) && dt !in s
    ensures StrictlySorted(r) && forall t :: t in r <==> t in s || t == dt
  {
    var k := 0;
    while k < |s| && Ordinal(s[k]) < Ordinal(dt)
      invariant 0 <= k <= |s|
      invariant forall j :: 0 <= j < k ==> Ordinal(s[j]) < Ordinal(dt)
    {
      k := k + 1;
    }
    var left, right := s[..k], s[k..];
    r := left + [dt] + right;
    forall x <- right ensures Ordinal(x) > Ordinal(dt) {
      Above(s, k, dt, x);
    }
    Inserted(s, left, right, dt);
  }

  lemma Above(s: seq<DataType>, k: nat, dt: DataType, x: DataType)
    requires StrictlySorted(s) && k < |s| && Ordinal(s[k]) >= Ordinal(dt) && dt !in s && x in s[k..]
    ensures Ordinal(x) > Ordinal(dt)
  {
    var j :| k <= j < |s| && s[j] == x;
    if Ordinal(x) == Ordinal(dt) { OrdinalInjective(x, dt); }
  }

  lemma Inserted(s: seq<DataType>, left: seq<DataType>, right: seq<DataType>, dt: DataType)
    requires s == left + right && StrictlySorted(left) && StrictlySorted(right)
    requires forall x <- left :: Ordinal(x) < Ordinal(dt)
    requires forall x <- right :: Ordinal(x) > Ordinal(dt)
    ensures StrictlySorted(left + [dt] + right)
    ensures forall t :: t in left + [dt] + right <==> t in s || t == dt
  {
    var r, k := left + [dt] + right, |left|;
    forall i, j | 0 <= i < j < |r| ensures Ordinal(r[i]) < Ordinal(r[j]) {
      assert i < k ==> r[i] == left[i] && r[i] in left;
      assert j > k ==> r[j] == right[j - k - 1] && r[j] in right;
      assert j < k ==> r[j] == left[j];
      assert i > k ==> r[i] == right[i - k - 1];
    }
  }

  lemma OrdinalInjective(a: DataType, b: DataType)
    requires Ordinal(a) == Ordinal(b)
    ensures a == b
  {
  }

  lemma ExtendedBound(n: set<DataType>, u: DataType, extra: set<DataType>, numerics: set<DataType>, c: DataType)
    requires AllNumeric(n) && AllNumeric(extra) && IsLeastUpperBound(n, u)
    requires forall t :: t in numerics <==> t == u || t in extra
    requires IsLeastUpperBound(numerics, c)
    ensures IsLeastUpperBound(n + extra, c)
  {
    assert numerics == {u} + extra;
    LeastUpperBoundCollapses(n, extra, u, c);
  }

  /** What the numeric members collapse to is the bound of every numeric type added. */
  lemma CollapsedBound(a: set<DataType>, before: seq<DataType>, dt: DataType, numerics: seq<DataType>, c: DataType)
    requires Canonical(a, before) && numerics != []
    requires forall t :: t in numerics <==> (t in before || t == dt) && IsNumeric(t)
    requires IsLeastUpperBound(Members(numerics), c)
    ensures Numerics(a + {dt}) != {} && IsLeastUpperBound(Numerics(a + {dt}), c)
  {
    NumericSoFar(a, before);
    var n, extra := Numerics(a), if IsNumeric(dt) then {dt} else {};
    assert Numerics(a + {dt}) == n + extra;
    assert numerics[0] in numerics;
    if n == {} {
      assert Members(numerics) == extra;
    } else {
      var u :| u in before && IsLeastUpperBound(n, u) && forall t <- before :: IsNumeric(t) ==> t == u;
      ExtendedBound(n, u, extra, Members(numerics), c);
    }
  }

  /** Collapses two or more numeric members to one; the set holds each member once. */
  method Collapse(numerics: seq<DataType>) returns (r: seq<DataType>)
    requires Distinct(numerics) && forall t <- numerics :: IsNumeric(t)
    ensures numerics == [] ==> r == []
    ensures Distinct(r) && forall t <- r :: IsNumeric(t)
    ensures numerics != [] ==> |r| == 1 && IsLeastUpperBound(Members(numerics), r[0])
  {
    if |numerics| >= 2 {
      var collapsed := CollapseNumeric(numerics);
      r := [collapsed];
    } else {
      r := numerics;
    }
  }

  class TypeSet {
    var types: seq<DataType>
    ghost var added: set<DataType>

    ghost predicate Valid()
      reads this
    {
      Canonical(added, types)
    }

    constructor ()
      ensures Valid() && types == [] && added == {}
    {
      types := [];
      added := {};
    }

    method Add(dt: DataType)
      requires Valid()
      modifies this
      ensures Valid() && added == old(added) + {dt}
    {
      ghost var a := added;
      added := a + {dt};
      if dt == Null {
        if i :| 0 <= i < |types| && types[i] != Null {
          NullAfterConcrete(a, types, types[i]);
          return;
        }
      }
      if dt in types {
        AddedAgain(a, types, dt);
        return;
      }
      if dt == Null {
        NothingAdded(a, types);
        types := [Null];
      } else {
        types := WithConcrete(a, types, dt);
      }
    }
  }

  /** The tail of Add for a concrete type not yet held: append, drop NULL, collapse, sort. */
  method WithConcrete(ghost a: set<DataType>, types: seq<DataType>, dt: DataType) returns (r: seq<DataType>)
    requires Canonical(a, types) && dt !in types && dt != Null
    ensures Canonical(a + {dt}, r)
  {
    var numerics, others := ConcreteMembers(types, dt);
    var collapsed := Collapse(numerics);
    if numerics != [] {
      CollapsedBound(a, types, dt, numerics, collapsed[0]);
    } else {
      NoNumericAdded(a, types, dt);
    }
    DistinctUnion(others, collapsed);
    r := Sort(others + collapsed);
    ConcreteAdded(a, types, dt, collapsed, r);
  }

  lemma DistinctUnion(s: seq<DataType>, t: seq<DataType>)
    requires Distinct(s) && Distinct(t) && forall x :: x in s ==> x !in t
    ensures Distinct(s + t)
    ensures forall x :: x in s + t <==> x in s || x in t
  {
    var u := s + t;
    forall i, j | 0 <= i < j < |u| ensures u[i] != u[j] {
      assert i < |s| ==> u[i] in s;
      assert j >= |s| ==> u[j] in t;
    }
  }

  lemma NoNumericAdded(a: set<DataType>, types: seq<DataType>, dt: DataType)
    requires Canonical(a, types) && !IsNumeric(dt) && forall t <- types :: !IsNumeric(t)
    ensures Numerics(a + {dt}) == {}
  {
    NumericSoFar(a, types);
    assert Numerics(a + {dt}) == Numerics(a);
  }

  method ConcreteMembers(types: seq<DataType>, dt: DataType)
    returns (numerics: seq<DataType>, others: seq<DataType>)
    requires StrictlySorted(types) && dt !in types && dt != Null
    ensures Distinct(numerics) && Distinct(others)
    ensures forall t :: t in numerics <==> (t in types || t == dt) && IsNumeric(t)
    ensures forall t :: t in others <==> (t in types || t == dt) && !IsNumeric(t) && t != Null
  {
    var concrete := WithoutNull(types + [dt]);
    numerics, others := Split(concrete);
  }

  // ----- Union -----

  /** A set's numeric members may stand for all the numeric types added to it. */
  lemma BoundsAgree(n: set<DataType>, extra: set<DataType>, u: DataType, x: DataType)
    requires AllNumeric(n) && AllNumeric(extra) && IsLeastUpperBound(n, u)
    ensures IsLeastUpperBound({u} + extra, x) <==> IsLeastUpperBound(n + extra, x)
  {
    hide IsAssignableTo;
    forall w ensures IsUpperBound({u} + extra, w) <==> IsUpperBound(n + extra, w) {
      if IsUpperBound({u} + extra, w) {
        assert u in {u} + extra;
        forall t <- n + extra ensures IsAssignableTo(t, w) {
          if t in n { WideningComposes(t, u, w); } else { assert t in {u} + extra; }
        }
      }
      if IsUpperBound(n + extra, w) {
        assert forall t <- n :: t in n + extra;
        assert forall t <- extra :: t in n + extra;
        assert IsUpperBound(n, w);
      }
    }
  }

  lemma OnlyNull(a: set<DataType>, s: seq<DataType>, b: set<DataType>)
    requires Canonical(a, s)
    ensures Members(s) + b == {Null} <==> a + b == {Null}
  {
    assert a == {} ==> forall t :: !Belongs(a, t);
    assert a == {Null} ==> Belongs(a, Null) && forall t :: t != Null ==> !Belongs(a, t);
    if t :| t in a && t != Null {
      assert t in a + b;
      assert IsNumeric(t) ==> t in Numerics(a);
      assert !IsNumeric(t) ==> Belongs(a, t);
      var c :| c in s && c != Null;
      assert c in Members(s) + b;
    } else {
      assert a <= {Null};
      assert a == {} || a == {Null};
      assert Members(s) == a by {
        forall t ensures t in s <==> t in a {
          assert t in s <==> Belongs(a, t);
        }
      }
    }
  }

  /** Adding what a set holds is adding all that was added to it. */
  lemma HeldStandForAdded(a: set<DataType>, s: seq<DataType>, b: set<DataType>, r: seq<DataType>)
    requires Canonical(a, s) && Canonical(Members(s) + b, r)
    ensures Canonical(a + b, r)
  {
    hide IsLeastUpperBound, NumericFamily;
    var held, all := Members(s) + b, a + b;
    OnlyNull(a, s, b);
    NumericSoFar(a, s);
    assert Numerics(all) == Numerics(a) + Numerics(b) && Numerics(held) == Numerics(Members(s)) + Numerics(b);
    if Numerics(a) == {} {
      assert Numerics(Members(s)) == {};
    } else {
      var u :| u in s && IsLeastUpperBound(Numerics(a), u) && forall t <- s :: IsNumeric(t) ==> t == u;
      assert Numerics(Members(s)) == {u};
      forall x ensures IsLeastUpperBound(Numerics(held), x) <==> IsLeastUpperBound(Numerics(all), x) {
        BoundsAgree(Numerics(a), Numerics(b), u, x);
      }
    }
    forall x ensures x in r <==> Belongs(all, x) {
      assert x in r <==> Belongs(held, x);
      assert x in s <==> Belongs(a, x);
    }
  }

  /** Union holds what a set given everything added to both would hold, whatever each had collapsed. */
  method Union(a: TypeSet, b: TypeSet) returns (result: TypeSet)
    requires a.Valid() && b.Valid()
    ensures fresh(result) && result.Valid() && Canonical(a.added + b.added, result.types)
  {
    hide Canonical;
    result := new TypeSet();
    for i := 0 to |a.types|
      invariant fresh(result) && result.Valid() && result.added == Members(a.types[..i])
    {
      assert a.types[..i + 1] == a.types[..i] + [a.types[i]];
      result.Add(a.types[i]);
    }
    assert a.types[..|a.types|] == a.types;
    for i := 0 to |b.types|
      invariant fresh(result) && result.Valid() && result.added == Members(a.types) + Members(b.types[..i])
    {
      assert b.types[..i + 1] == b.types[..i] + [b.types[i]];
      result.Add(b.types[i]);
    }
    assert b.types[..|b.types|] == b.types;
    HeldStandForAdded(a.added, a.types, Members(b.types), result.types);
    assert a.added + Members(b.types) == Members(b.types) + a.added;
    HeldStandForAdded(b.added, b.types, a.added, result.types);
    assert b.added + a.added == a.added + b.added;
  }
}
