/** A model's schema tree (model_schema.go): its mutators, its wire form, and its flattened fields. */
module ModelSchema {
  import opened DataTypes
  import opened TypeSets
  import opened Wrappers

  datatype NodeKind = KindLeaf | KindObject | KindArray

  /** A node as a value: the branches it carries, and whether it has been seen holding null. */
  datatype Node = Node(scalar: Option<seq<DataType>>, obj: ObjectBranch, arr: ArrayBranch, nullable: bool)
  datatype ObjectBranch = NoObject | AnObject(children: map<string, Node>)
  datatype ArrayBranch = NoArray | AnArray(element: Option<Node>)

  function Kinds(n: Node): seq<NodeKind> {
    (if n.scalar.Some? then [KindLeaf] else []) + (if n.obj.AnObject? then [KindObject] else []) +
    (if n.arr.AnArray? then [KindArray] else [])
  }

  function Children(b: ObjectBranch): map<string, Node> {
    if b.AnObject? then b.children else map[]
  }

  function DeclaredTypes(n: Node): seq<DataType> {
    if n.scalar.Some? then n.scalar.value else if n.nullable then [Null] else []
  }

  // ----- the mutators -----

  /** The types a type set can hold once NULL is kept out of it. */
  ghost predicate ScalarTypes(ts: seq<DataType>) {
    Null !in ts && Canonical(Members(ts), ts)
  }

  /** What the mutators keep of a node: no null marker beside a scalar branch, no NULL within one. */
  ghost predicate Sound(n: Node) {
    n.scalar.Some? ==> !n.nullable && ScalarTypes(n.scalar.value)
  }

  /** Every node of the tree is as the mutators leave it. */
  ghost predicate SoundTree(n: Node) {
    && Sound(n)
    && (n.obj.AnObject? ==> forall k :: k in n.obj.children ==> SoundTree(n.obj.children[k]))
    && (n.arr.AnArray? && n.arr.element.Some? ==> SoundTree(n.arr.element.value))
  }

  /** The children and the element hung under a node are sound. */
  ghost predicate SoundBelow(obj: ObjectBranch, arr: ArrayBranch) {
    && (obj.AnObject? ==> forall k :: k in obj.children ==> SoundTree(obj.children[k]))
    && (arr.AnArray? && arr.element.Some? ==> SoundTree(arr.element.value))
  }

  /** What a type set holds is what the set of its own members would hold. */
  lemma CanonicalOfItself(a: set<DataType>, ts: seq<DataType>)
    requires Canonical(a, ts) && Null !in ts
    ensures ScalarTypes(ts)
  {
    var own := Members(ts);
    forall t | t in ts && IsNumeric(t) ensures Numerics(own) == {t} && IsLeastUpperBound({t}, t) {
      forall u | u in Numerics(own) ensures u == t {
        CanonicalShape(a, ts, t, u);
      }
      BoundAttained({t}, t);
    }
    forall t ensures t in ts <==> Belongs(own, t) {
      if IsNumeric(t) && t !in ts && Belongs(own, t) {
        var u :| u in Numerics(own);
        assert u in ts && IsNumeric(u);
        LeastUpperBoundUnique({u}, t, u);
      }
    }
  }

  /** ModelNode, its fields changed in place; children and elements are held as values. */
  class ModelNode {
    var scalar: TypeSet?
    var obj: ObjectBranch
    var arr: ArrayBranch
    var nullable: bool

    ghost predicate Valid()
      reads this, scalar
    {
      && (scalar != null ==> scalar.Valid() && Null !in scalar.types && !nullable)
      && SoundBelow(obj, arr)
    }

    function Value(): Node
      reads this, scalar
    {
      Node(if scalar != null then Some(scalar.types) else None, obj, arr, nullable)
    }

    /** NewEmptyNode. */
    constructor ()
      ensures Valid() && Value() == Node(None, NoObject, NoArray, false)
    {
      scalar, obj, arr, nullable := null, NoObject, NoArray, false;
    }

    /** Whatever the mutators made of a node, its whole tree is sound. */
    lemma ValidIsSound()
      requires Valid()
      ensures SoundTree(Value())
    {
      if scalar != null {
        CanonicalOfItself(scalar.added, scalar.types);
      }
    }

    method DeclareKind(k: NodeKind)
      requires Valid()
      modifies this
      ensures Valid() && Value() == Declared(old(Value()), k)
    {
      match k
      case KindLeaf =>
        if scalar == null {
          scalar := new TypeSet();
          nullable := false;
        }
      case KindObject =>
        if obj.NoObject? {
          obj := AnObject(map[]);
        }
      case KindArray =>
        if arr.NoArray? {
          arr := AnArray(None);
        }
    }

    /** One of AddScalarTypes' types. */
    method AddScalarType(dt: DataType)
      requires Valid()
      modifies this, scalar
      ensures Valid()
      ensures Value().obj == old(obj) && Value().arr == old(arr)
      ensures dt == Null ==> Value() == Nulled(old(Value()))
      ensures dt != Null ==>
        scalar != null && !nullable && scalar.added == (if old(scalar) != null then old(scalar.added) else {}) + {dt}
      ensures scalar == old(scalar) || (old(scalar) == null && fresh(scalar))
    {
      if dt == Null {
        SetNullable();
        return;
      }
      if scalar == null {
        scalar := new TypeSet();
      }
      ghost var before, a := scalar.types, scalar.added;
      scalar.Add(dt);
      NoNullIn(a, before, dt, scalar.types);
      nullable := false;
    }

    method SetNullable()
      requires Valid()
      modifies this`nullable
      ensures Valid() && Value() == Nulled(old(Value()))
    {
      if scalar == null {
        nullable := true;
      }
    }

    method SetChild(name: string, child: Node)
      requires Valid() && SoundTree(child)
      modifies this`obj
      ensures Valid() && Value() == old(Value()).(obj := AnObject(Children(old(obj))[name := child]))
    {
      obj := AnObject(Children(obj)[name := child]);
    }

    method SetElement(element: Option<Node>)
      requires Valid() && (element.Some? ==> SoundTree(element.value))
      modifies this`arr
      ensures Valid() && Value() == old(Value()).(arr := AnArray(element))
    {
      arr := AnArray(element);
    }
  }

  function Declared(n: Node, k: NodeKind): Node {
    match k
    case KindLeaf => if n.scalar.Some? then n else n.(scalar := Some([]), nullable := false)
    case KindObject => if n.obj.AnObject? then n else n.(obj := AnObject(map[]))
    case KindArray => if n.arr.AnArray? then n else n.(arr := AnArray(None))
  }

  function Nulled(n: Node): Node {
    if n.scalar.Some? then n else n.(nullable := true)
  }

  /** Adding a concrete type to a set without NULL leaves it without NULL. */
  lemma NoNullIn(a: set<DataType>, before: seq<DataType>, dt: DataType, after: seq<DataType>)
    requires Canonical(a, before) && Null !in before && dt != Null && Canonical(a + {dt}, after)
    ensures Null !in after
  {
    assert dt in a + {dt};
    assert Null in after ==> Belongs(a + {dt}, Null);
  }

  // ----- the wire form -----

  /** A kind or type as the wire spells it: one of the known names, or another. */
  datatype Name<T> = Known(value: T) | Unknown

  datatype Wire = Wire(kind: Option<Name<NodeKind>>, kinds: seq<Name<NodeKind>>, types: seq<Name<DataType>>,
                       children: map<string, Child>, element: Option<Wire>)
  datatype Child = JsonNull | Child(wire: Wire)

  function Spelled<T>(s: seq<T>): seq<Name<T>> {
    seq(|s|, i requires 0 <= i < |s| => Known(s[i]))
  }

  function ToWire(n: Node): Wire {
    var kinds := Kinds(n);
    Wire(
      if |kinds| > 1 then None else if |kinds| == 1 then Some(Known(kinds[0])) else Some(Known(KindLeaf)),
      if |kinds| > 1 then Spelled(kinds) else [],
      Spelled(DeclaredTypes(n)),
      if n.obj.AnObject? then map k | k in n.obj.children :: Child(ToWire(n.obj.children[k])) else map[],
      if n.arr.AnArray? && n.arr.element.Some? then Some(ToWire(n.arr.element.value)) else None)
  }

  function Concrete(types: seq<Name<DataType>>): seq<DataType>
    requires Unknown !in types
  {
    if types == [] then []
    else
      assert types[0] != Unknown;
      var rest := Concrete(types[1..]);
      if types[0] == Known(Null) then rest else [types[0].value] + rest
  }

  /** What AddScalarTypes makes of types added to a node without a scalar branch. */
  ghost function Collected(ts: seq<DataType>): seq<DataType> {
    if r :| Canonical(Members(ts), r) then r else []
  }

  ghost predicate ChildReads(w: Wire, k: string)
    requires k in w.children
    decreases w, 0
  {
    w.children[k].Child? && FromWire(w.children[k].wire).Some?
  }

  ghost function ChildrenFrom(w: Wire): Option<map<string, Node>>
    decreases w, 1
  {
    if forall k :: k in w.children ==> ChildReads(w, k) then
      Some(map k | k in w.children && ChildReads(w, k) :: FromWire(w.children[k].wire).value)
    else None
  }

  ghost function FromWire(w: Wire): Option<Node>
    decreases w, 2
  {
    var names := if w.kinds == [] && w.kind.Some? then [w.kind.value] else w.kinds;
    if names == [] || Unknown in names || Unknown in w.types then None
    else
      var nullable, concrete := Known(Null) in w.types, Concrete(w.types);
      var leaf := Known(KindLeaf) in names;
      var nullMarker := leaf && |names| == 1 && nullable && concrete == [];
      var hasScalar := concrete != [] || (leaf && !nullMarker);
      var scalar := if hasScalar then Some(Collected(concrete)) else None;
      var hasObject := Known(KindObject) in names || w.children != map[];
      var children := if hasObject then ChildrenFrom(w) else None;
      var element := if w.element.Some? then FromWire(w.element.value) else None;
      var hasArray := Known(KindArray) in names || w.element.Some?;
      if (hasObject && children.None?) || (w.element.Some? && element.None?) then None
      else if !hasScalar && !hasObject && !hasArray && !nullable then None
      else
        Some(Node(scalar, if hasObject then AnObject(children.value) else NoObject,
          if hasArray then AnArray(element) else NoArray, nullable && !hasScalar))
  }

  lemma CollectedIs(ts: seq<DataType>, r: seq<DataType>)
    requires Canonical(Members(ts), r)
    ensures Collected(ts) == r
  {
    CanonicalUnique(Members(ts), Collected(ts), r);
  }

  method CollectTypes(ts: seq<DataType>) returns (r: seq<DataType>)
    ensures r == Collected(ts)
  {
    var types := new TypeSet();
    for i := 0 to |ts|
      invariant fresh(types) && types.Valid() && types.added == Members(ts[..i])
    {
      assert ts[..i + 1] == ts[..i] + [ts[i]];
      types.Add(ts[i]);
    }
    assert ts[..|ts|] == ts;
    CollectedIs(ts, types.types);
    r := types.types;
  }

  /** fromWire. */
  method Decode(w: Wire) returns (r: Option<Node>)
    ensures r == FromWire(w)
    decreases w
  {
    hide Collected, Concrete;
    var names := if w.kinds == [] && w.kind.Some? then [w.kind.value] else w.kinds;
    if names == [] || Unknown in names || Unknown in w.types {
      return None;
    }
    var nullable, concrete := Known(Null) in w.types, Concrete(w.types);
    var leaf := Known(KindLeaf) in names;
    var nullMarker := leaf && |names| == 1 && nullable && concrete == [];
    var scalar: Option<seq<DataType>> := None;
    if concrete != [] || (leaf && !nullMarker) {
      var types := CollectTypes(concrete);
      scalar := Some(types);
    }
    var obj, arr := NoObject, NoArray;
    if Known(KindObject) in names || w.children != map[] {
      var children := DecodeChildren(w);
      if children.None? {
        return None;
      }
      obj := AnObject(children.value);
    }
    if Known(KindArray) in names || w.element.Some? {
      var element: Option<Node> := None;
      if w.element.Some? {
        element := Decode(w.element.value);
        if element.None? {
          return None;
        }
      }
      arr := AnArray(element);
    }
    if scalar.None? && obj.NoObject? && arr.NoArray? && !nullable {
      return None;
    }
    return Some(Node(scalar, obj, arr, nullable && scalar.None?));
  }

  method DecodeChildren(w: Wire) returns (r: Option<map<string, Node>>)
    ensures r == ChildrenFrom(w)
    decreases w, 0
  {
    var left, children: map<string, Node> := w.children.Keys, map[];
    while left != {}
      invariant left <= w.children.Keys && children.Keys == w.children.Keys - left
      invariant forall k :: k in children ==> ChildReads(w, k) && children[k] == FromWire(w.children[k].wire).value
      decreases |left|
    {
      var k :| k in left;
      left := left - {k};
      if w.children[k].JsonNull? {
        assert !ChildReads(w, k);
        return None;
      }
      var child := Decode(w.children[k].wire);
      if child.None? {
        assert !ChildReads(w, k);
        return None;
      }
      children := children[k := child.value];
    }
    assert children == ChildrenFrom(w).value;
    return Some(children);
  }

  // ----- what is decoded is sound -----

  lemma {:induction false} ConcreteHasNoNull(types: seq<Name<DataType>>)
    requires Unknown !in types
    ensures Null !in Concrete(types)
  {
    if types != [] {
      ConcreteHasNoNull(types[1..]);
    }
  }

  lemma CollectedScalar(ts: seq<DataType>)
    requires Null !in ts
    ensures ScalarTypes(Collected(ts))
  {
    CollectedNone();
    if r :| Canonical(Members(ts), r) {
      CollectedIs(ts, r);
      assert Null in r <==> Belongs(Members(ts), Null);
      assert Members(ts) == {Null} ==> Null in Members(ts);
      CanonicalOfItself(Members(ts), r);
    }
  }

  /** Whatever fromWire accepts is a tree the mutators could have built. */
  lemma {:induction false} FromWireSound(w: Wire)
    requires FromWire(w).Some?
    ensures SoundTree(FromWire(w).value)
    decreases w
  {
    var n := FromWire(w).value;
    if n.obj.AnObject? {
      forall k | k in n.obj.children ensures SoundTree(n.obj.children[k]) {
        assert ChildReads(w, k) && n.obj.children[k] == FromWire(w.children[k].wire).value;
        FromWireSound(w.children[k].wire);
      }
    }
    if n.arr.AnArray? && n.arr.element.Some? {
      FromWireSound(w.element.value);
    }
    ConcreteHasNoNull(w.types);
    CollectedScalar(Concrete(w.types));
  }

  // ----- the wire round trip -----

  /** Every node of the tree declares a kind, or null. */
  predicate SaysSomething(n: Node) {
    && (n.scalar.Some? || n.obj.AnObject? || n.arr.AnArray? || n.nullable)
    && (n.obj.AnObject? ==> forall k :: k in n.obj.children ==> SaysSomething(n.obj.children[k]))
    && (n.arr.AnArray? && n.arr.element.Some? ==> SaysSomething(n.arr.element.value))
  }

  /** The tree with an empty scalar branch put where a node declares nothing. */
  function Filled(n: Node): Node {
    Node(
      if n.scalar.None? && n.obj.NoObject? && n.arr.NoArray? && !n.nullable then Some([]) else n.scalar,
      if n.obj.AnObject? then AnObject(map k | k in n.obj.children :: Filled(n.obj.children[k])) else NoObject,
      if n.arr.AnArray? then AnArray(if n.arr.element.Some? then Some(Filled(n.arr.element.value)) else None) else NoArray,
      n.nullable)
  }

  lemma {:induction false} ConcreteSpelled(ts: seq<DataType>)
    requires Null !in ts
    ensures Unknown !in Spelled(ts) && Known(Null) !in Spelled(ts) && Concrete(Spelled(ts)) == ts
  {
    assert Unknown !in Spelled(ts);
    if ts != [] {
      ConcreteSpelled(ts[1..]);
      assert Spelled(ts)[1..] == Spelled(ts[1..]) && ts == [ts[0]] + ts[1..];
      assert ts[0] in ts;
    }
  }

  lemma CollectedSelf(ts: seq<DataType>)
    requires ScalarTypes(ts)
    ensures Collected(ts) == ts
  {
    CollectedIs(ts, ts);
  }

  lemma CollectedNone()
    ensures ScalarTypes([])
  {
    assert forall t :: !Belongs({}, t);
    CanonicalOfItself({}, []);
  }

  /** What the kinds on the wire name. */
  lemma KindsNamed(n: Node)
    ensures var w := ToWire(n);
      var names := if w.kinds == [] && w.kind.Some? then [w.kind.value] else w.kinds;
      var none := n.scalar.None? && n.obj.NoObject? && n.arr.NoArray?;
      && names != [] && Unknown !in names
      && (Known(KindLeaf) in names <==> n.scalar.Some? || none)
      && (Known(KindObject) in names <==> n.obj.AnObject?)
      && (Known(KindArray) in names <==> n.arr.AnArray?)
      && (Known(KindLeaf) in names ==> (|names| == 1 <==> n.obj.NoObject? && n.arr.NoArray?))
  {
    var kinds := Kinds(n);
    assert n.scalar.Some? ==> kinds[0] == KindLeaf;
    assert n.obj.AnObject? ==> kinds[if n.scalar.Some? then 1 else 0] == KindObject;
    assert n.arr.AnArray? ==> kinds[|kinds| - 1] == KindArray;
    forall k ensures Known(k) in Spelled(kinds) <==> k in kinds {
      if k in kinds {
        var i :| 0 <= i < |kinds| && kinds[i] == k;
        assert Spelled(kinds)[i] == Known(k);
      }
    }
  }

  lemma {:induction false} WireChildren(n: Node)
    requires n.obj.AnObject? && forall k :: k in n.obj.children ==> FromWire(ToWire(n.obj.children[k])) == Some(Filled(n.obj.children[k]))
    ensures ChildrenFrom(ToWire(n)) == Some(Filled(n).obj.children)
  {
    hide FromWire;
    var w := ToWire(n);
    forall k | k in w.children ensures ChildReads(w, k) && FromWire(w.children[k].wire) == Some(Filled(n.obj.children[k])) {
      assert w.children[k] == Child(ToWire(n.obj.children[k]));
    }
    assert ChildrenFrom(w).value == Filled(n).obj.children;
  }

  /** The tree as filled is the tree itself exactly when every node declares something. */
  lemma {:induction false} FilledSame(n: Node)
    ensures Filled(n) == n <==> SaysSomething(n)
    decreases n
  {
    if n.obj.AnObject? {
      forall k | k in n.obj.children ensures Filled(n.obj.children[k]) == n.obj.children[k] <==> SaysSomething(n.obj.children[k]) {
        FilledSame(n.obj.children[k]);
      }
      var filled := Filled(n).obj.children;
      assert filled == n.obj.children <==> forall k :: k in n.obj.children ==> SaysSomething(n.obj.children[k]) by {
        assert forall k :: k in n.obj.children ==> filled[k] == Filled(n.obj.children[k]);
      }
    }
    if n.arr.AnArray? && n.arr.element.Some? {
      FilledSame(n.arr.element.value);
    }
  }

  /** A node that declares nothing comes back with an empty scalar branch. */
  lemma EmptyNodeComesBackScalar()
    ensures var n := Node(None, NoObject, NoArray, false);
      SoundTree(n) && FromWire(ToWire(n)) == Some(n.(scalar := Some([]))) && FromWire(ToWire(n)) != Some(n)
  {
    var n := Node(None, NoObject, NoArray, false);
    WireRoundTrip(n);
    assert ReadsBack(n);
    assert Filled(n) == n.(scalar := Some([]));
  }

  /** A tree the mutators built survives the wire exactly when every node of it declares something. */
  lemma WireRoundTripIff(n: Node)
    requires SoundTree(n)
    ensures FromWire(ToWire(n)) == Some(n) <==> SaysSomething(n)
  {
    hide FromWire, ToWire, Filled, SaysSomething;
    WireRoundTrip(n);
    FilledSame(n);
    assert ReadsBack(n);
  }

  ghost predicate ReadsBack(n: Node) {
    FromWire(ToWire(n)) == Some(Filled(n))
  }

  lemma WireParts(n: Node)
    ensures var w := ToWire(n);
      && w.types == Spelled(DeclaredTypes(n))
      && (w.children != map[] ==> n.obj.AnObject?)
      && w.element == if n.arr.AnArray? && n.arr.element.Some? then Some(ToWire(n.arr.element.value)) else None
  {
    hide Spelled, DeclaredTypes, Kinds;
  }

  lemma NodeReads(n: Node)
    requires Sound(n)
    requires n.obj.AnObject? ==> forall k :: k in n.obj.children ==> ReadsBack(n.obj.children[k])
    requires n.arr.AnArray? && n.arr.element.Some? ==> ReadsBack(n.arr.element.value)
    ensures ReadsBack(n)
  {
    hide Collected, Concrete, Kinds, Spelled, ScalarTypes, DeclaredTypes;
    if n.obj.AnObject? {
      WireChildren(n);
    }
    KindsNamed(n);
    TypesRead(n);
    WireParts(n);
    hide ChildrenFrom, ToWire, Canonical;
  }

  /** Read back from the wire, a tree is as it was but that a node declaring nothing has become an empty scalar. */
  lemma {:induction false} WireRoundTrip(n: Node)
    requires SoundTree(n)
    ensures ReadsBack(n)
    decreases n
  {
    hide ReadsBack, Sound;
    if n.obj.AnObject? {
      forall k | k in n.obj.children ensures ReadsBack(n.obj.children[k]) {
        WireRoundTrip(n.obj.children[k]);
      }
    }
    if n.arr.AnArray? && n.arr.element.Some? {
      WireRoundTrip(n.arr.element.value);
    }
    NodeReads(n);
  }

  lemma TypesRead(n: Node)
    requires Sound(n)
    ensures var types := Spelled(DeclaredTypes(n));
      && Unknown !in types
      && (Known(Null) in types <==> n.nullable)
      && Concrete(types) == (if n.scalar.Some? then n.scalar.value else [])
      && Collected(Concrete(types)) == Concrete(types)
  {
    CollectedNone();
    if n.scalar.Some? {
      ConcreteSpelled(n.scalar.value);
      CollectedSelf(n.scalar.value);
    } else {
      CollectedSelf([]);
      if n.nullable {
        assert Spelled([Null]) == [Known(Null)] && [Known(Null)][1..] == [];
      } else {
        assert Spelled<DataType>([]) == [];
      }
    }
  }
}
