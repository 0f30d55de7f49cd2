/** LessByOrder (order_compare.go): the order a list of sort keys puts entities in. */
module OrderCompare {
  import opened Bytes
  import opened Wrappers

  datatype OrderKind = OrderText | OrderNumeric | OrderBool | OrderTemporal
  datatype Source = Data | Meta
  datatype OrderSpec = OrderSpec(path: string, source: Source, desc: bool, kind: OrderKind)

  /** What a gjson result answers as text, as a number, as a truth value and as its stored Num; no NaN. */
  datatype Leaf = Leaf(text: Text, number: real, truth: bool, num: real)

  /** leaves are the present, non-null values the data paths and meta fields address, id apart. */
  datatype Entity = Entity(id: Text, leaves: map<(Source, string), Leaf>)

  /** orderLeafValue. */
  function LeafOf(e: Entity, s: OrderSpec): Option<Leaf> {
    if s.source.Meta? && s.path == "id" then
      if e.id != [] then Some(Leaf(e.id, 0.0, false, 0.0)) else None
    else if s.source.Data? && s.path == "" then None
    else if (s.source, s.path) in e.leaves then Some(e.leaves[(s.source, s.path)])
    else None
  }

  function CmpReal(a: real, b: real): int {
    if a < b then -1 else if a > b then 1 else 0
  }

  function CmpBool(a: bool, b: bool): int {
    if !a && b then -1 else if a && !b then 1 else 0
  }

  function CompareValues(a: Leaf, b: Leaf, kind: OrderKind): int {
    match kind
    case OrderNumeric => CmpReal(a.number, b.number)
    case OrderBool => CmpBool(a.truth, b.truth)
    case OrderTemporal => CmpReal(a.num, b.num)
    case OrderText => Compare(a.text, b.text)
  }

  datatype Decision = Undecided | Decided(less: bool)

  /** lessByOrderKey. */
  function LessByKey(a: Entity, b: Entity, s: OrderSpec): Decision {
    var av, bv := LeafOf(a, s), LeafOf(b, s);
    if av.None? || bv.None? then
      if av.None? == bv.None? then Undecided else Decided(av.Some?)
    else
      var c :=
        if s.source.Meta? && s.path == "id" then Compare(av.value.text, bv.value.text)
        else CompareValues(av.value, bv.value, s.kind);
      if c == 0 then Undecided else Decided(if s.desc then c > 0 else c < 0)
  }

  predicate LessByOrder(a: Entity, b: Entity, specs: seq<OrderSpec>) {
    if specs == [] then Less(a.id, b.id)
    else
      match LessByKey(a, b, specs[0])
      case Decided(less) => less
      case Undecided => LessByOrder(a, b, specs[1..])
  }

  /** LessByOrder as it is written. */
  method LessByOrderLoop(a: Entity, b: Entity, specs: seq<OrderSpec>) returns (less: bool)
    ensures less == LessByOrder(a, b, specs)
  {
    assert specs[0..] == specs;
    for i := 0 to |specs|
      invariant LessByOrder(a, b, specs) == LessByOrder(a, b, specs[i..])
    {
      assert specs[i..][0] == specs[i] && specs[i..][1..] == specs[i + 1..];
      var d := LessByKey(a, b, specs[i]);
      if d.Decided? {
        return d.less;
      }
    }
    assert specs[|specs|..] == [];
    return Less(a.id, b.id);
  }

  // ----- what the order is -----

  /** The key's value in the entity: its id, or what the path addresses; no data key has an empty path. */
  predicate HasValue(e: Entity, s: OrderSpec, v: Leaf) {
    if s.source == Meta && s.path == "id" then e.id != [] && v.text == e.id
    else !(s.source == Data && s.path == "") && (s.source, s.path) in e.leaves && e.leaves[(s.source, s.path)] == v
  }

  /** v is smaller than w: by bytes for texts and ids, as numbers, false before true, or the earlier instant. */
  ghost predicate Smaller(v: Leaf, w: Leaf, s: OrderSpec) {
    || ((s.kind == OrderText || (s.source == Meta && s.path == "id")) && Precedes(v.text, w.text))
    || (!(s.source == Meta && s.path == "id")
        && match s.kind
           case OrderNumeric => v.number < w.number
           case OrderBool => !v.truth && w.truth
           case OrderTemporal => v.num < w.num
           case OrderText => false)
  }

  /** The key puts a before b: a present value before a missing one either way, and of two present values the
      smaller one, or the larger where the key descends. */
  ghost predicate KeyPuts(a: Entity, b: Entity, s: OrderSpec) {
    exists v :: HasValue(a, s, v) &&
      ((forall w :: !HasValue(b, s, w))
       || exists w :: HasValue(b, s, w) && if s.desc then Smaller(w, v, s) else Smaller(v, w, s))
  }

  /** The first key that tells the two apart decides; where none does, the smaller id goes first. */
  ghost predicate KeysPut(a: Entity, b: Entity, specs: seq<OrderSpec>) {
    || (exists i :: 0 <= i < |specs| && KeyPuts(a, b, specs[i]) && Alike(a, b, specs[..i]))
    || (Alike(a, b, specs) && Precedes(a.id, b.id))
  }

  /** No key puts either first. */
  ghost predicate Alike(a: Entity, b: Entity, specs: seq<OrderSpec>) {
    forall s :: s in specs ==> !KeyPuts(a, b, s) && !KeyPuts(b, a, s)
  }

  lemma SmallerMeans(v: Leaf, w: Leaf, s: OrderSpec)
    requires !(s.source == Meta && s.path == "id")
    ensures CompareValues(v, w, s.kind) < 0 <==> Smaller(v, w, s)
    ensures CompareValues(v, w, s.kind) > 0 <==> Smaller(w, v, s)
  {
    hide Compare, Precedes;
    LessMeans(v.text, w.text);
    LessMeans(w.text, v.text);
    CompareIsOrder(v.text, w.text);
  }

  lemma LeafIs(e: Entity, s: OrderSpec)
    ensures LeafOf(e, s).Some? ==> HasValue(e, s, LeafOf(e, s).value)
    ensures forall v :: HasValue(e, s, v) ==> LeafOf(e, s).Some? && LeafOf(e, s).value.text == v.text
    ensures forall v :: HasValue(e, s, v) && !(s.source == Meta && s.path == "id") ==> LeafOf(e, s) == Some(v)
  {
  }

  /** One key decides by the smaller value, and only where it tells the two apart. */
  lemma KeyMeans(a: Entity, b: Entity, s: OrderSpec)
    ensures LessByKey(a, b, s) ==
      if KeyPuts(a, b, s) then Decided(true) else if KeyPuts(b, a, s) then Decided(false) else Undecided
    ensures !(KeyPuts(a, b, s) && KeyPuts(b, a, s))
  {
    LeafIs(a, s);
    LeafIs(b, s);
    hide Compare, Precedes, CompareValues, HasValue;
    var av, bv := LeafOf(a, s), LeafOf(b, s);
    if av.Some? && bv.Some? {
      var v, w := av.value, bv.value;
      if s.source == Meta && s.path == "id" {
        LessMeans(v.text, w.text);
        LessMeans(w.text, v.text);
        CompareIsOrder(v.text, w.text);
      } else {
        SmallerMeans(v, w, s);
      }
      hide Smaller, LeafOf;
    }
  }

  /** LessByOrder is the order the keys put entities in, by their values alone. */
  lemma {:induction false} OrderMeans(a: Entity, b: Entity, specs: seq<OrderSpec>)
    ensures LessByOrder(a, b, specs) <==> KeysPut(a, b, specs)
  {
    hide KeyPuts, LessByKey, Precedes;
    if specs == [] {
      LessMeans(a.id, b.id);
    } else {
      KeyMeans(a, b, specs[0]);
      OrderMeans(a, b, specs[1..]);
      KeysPutStep(a, b, specs);
    }
  }

  lemma KeysPutStep(a: Entity, b: Entity, specs: seq<OrderSpec>)
    requires specs != [] && !(KeyPuts(a, b, specs[0]) && KeyPuts(b, a, specs[0]))
    ensures KeysPut(a, b, specs) <==>
      KeyPuts(a, b, specs[0]) || (!KeyPuts(b, a, specs[0]) && KeysPut(a, b, specs[1..]))
  {
    hide KeyPuts, Precedes;
  }

  // ----- a strict total order -----

  lemma {:induction false} CompareChains(a: Text, b: Text, c: Text)
    requires Compare(a, b) <= 0 && Compare(b, c) <= 0
    ensures Compare(a, c) <= 0
    ensures Compare(a, b) < 0 || Compare(b, c) < 0 ==> Compare(a, c) < 0
  {
    CompareIsOrder(a, b);
    CompareIsOrder(b, c);
    if Compare(a, b) < 0 && Compare(b, c) < 0 {
      LessTransitive(a, b, c);
    }
  }

  lemma ValuesOrdered(a: Leaf, b: Leaf, c: Leaf, kind: OrderKind)
    ensures CompareValues(a, b, kind) == -CompareValues(b, a, kind)
    ensures CompareValues(a, b, kind) <= 0 && CompareValues(b, c, kind) <= 0 ==>
      CompareValues(a, c, kind) <= 0 &&
      (CompareValues(a, b, kind) < 0 || CompareValues(b, c, kind) < 0 ==> CompareValues(a, c, kind) < 0)
  {
    if kind.OrderText? {
      CompareIsOrder(a.text, b.text);
      if Compare(a.text, b.text) <= 0 && Compare(b.text, c.text) <= 0 {
        CompareChains(a.text, b.text, c.text);
      }
    }
  }

  function Flip(d: Decision): Decision {
    if d.Decided? then Decided(!d.less) else d
  }

  predicate AtMost(d: Decision) {
    d.Undecided? || d.less
  }

  lemma KindOfKey(a: Entity, b: Entity, s: OrderSpec)
    ensures LessByKey(b, a, s) == Flip(LessByKey(a, b, s))
  {
    var av, bv := LeafOf(a, s), LeafOf(b, s);
    if av.Some? && bv.Some? {
      CompareIsOrder(av.value.text, bv.value.text);
      ValuesOrdered(av.value, bv.value, av.value, s.kind);
    }
  }

  /** One key is a weak order: missing values last whichever its direction. */
  lemma KeyChains(a: Entity, b: Entity, c: Entity, s: OrderSpec)
    requires AtMost(LessByKey(a, b, s)) && AtMost(LessByKey(b, c, s))
    ensures AtMost(LessByKey(a, c, s))
    ensures LessByKey(a, b, s).Undecided? && LessByKey(b, c, s).Undecided? <==> LessByKey(a, c, s).Undecided?
  {
    var av, bv, cv := LeafOf(a, s), LeafOf(b, s), LeafOf(c, s);
    if av.Some? && bv.Some? && cv.Some? {
      var x, y, z := av.value, bv.value, cv.value;
      var kind := if s.source.Meta? && s.path == "id" then OrderText else s.kind;
      ValuesOrdered(x, y, z, kind);
      ValuesOrdered(z, y, x, kind);
      ValuesOrdered(y, z, y, kind);
      ValuesOrdered(x, z, x, kind);
    }
  }

  lemma {:induction false} OrderTransitive(a: Entity, b: Entity, c: Entity, specs: seq<OrderSpec>)
    requires LessByOrder(a, b, specs) && LessByOrder(b, c, specs)
    ensures LessByOrder(a, c, specs)
  {
    if specs == [] {
      LessTransitive(a.id, b.id, c.id);
    } else {
      KeyChains(a, b, c, specs[0]);
      if LessByKey(a, b, specs[0]).Undecided? && LessByKey(b, c, specs[0]).Undecided? {
        OrderTransitive(a, b, c, specs[1..]);
      }
    }
  }

  /** For every list of keys LessByOrder puts any two entities of distinct ids one way round, and
      never an entity before one of its own id whose values agree under the keys. */
  lemma {:induction false} OrderTotal(a: Entity, b: Entity, specs: seq<OrderSpec>)
    ensures !(LessByOrder(a, b, specs) && LessByOrder(b, a, specs))
    ensures a.id != b.id ==> LessByOrder(a, b, specs) || LessByOrder(b, a, specs)
    ensures a == b ==> !LessByOrder(a, b, specs)
  {
    if specs == [] {
      CompareIsOrder(a.id, b.id);
    } else {
      KindOfKey(a, b, specs[0]);
      if a == b {
        KindOfKey(a, a, specs[0]);
      }
      OrderTotal(a, b, specs[1..]);
    }
  }
}
