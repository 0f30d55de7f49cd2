/** Conditions, filters and prepared filters (condition_filter.go, prepared_filter.go). The leaf
    kernel, which decides one operand against one stored value, is a parameter. */
module Conditions {
  import opened Wrappers
  import opened FilterPath
  import opened FilterPathLaws
  import opened JsonValues
  import opened PathResolve
  import F = Filters
  import opened OperatorNames

  /** predicate.Condition, over operand values of type V. */
  datatype Condition<V> =
    | Simple(jsonPath: string, operator: string, value: V)
    | Lifecycle(field: string, operator: string, value: V)
    | Group(operator: string, conditions: seq<Condition<V>>)
    | ArrayClause(jsonPath: string, operator: string, values: seq<Option<V>>)
    | Function

  datatype Source = Data | Meta

  datatype Filter<V, T> =
    | And(children: seq<Filter<V, T>>)
    | Or(children: seq<Filter<V, T>>)
    | Not(children: seq<Filter<V, T>>)
    | Leaf(op: F.FilterOp, path: string, source: Source, value: V, declared: T)

  datatype Prepared<E> =
    | PAnd(children: seq<Prepared<E>>)
    | POr(children: seq<Prepared<E>>)
    | PNot(child: Prepared<E>)
    | PData(hops: seq<Hop>, exp: E)
    | PMeta(field: string, exp: E)

  datatype Entity<M> = Entity(data: Json, meta: M)

  /** ValidateOperand, ExpandLeaf (patterns compiled), EvalLeaf, the declared types of the model's
      fields, and the meta vocabulary. */
  datatype Kernel<!V, !T, !E, !M> = Kernel(
    accepts: (F.FilterOp, V) -> bool, expand: (F.FilterOp, V, T) -> Option<E>, holds: (E, Found) -> bool,
    fields: map<string, T>, noTypes: T,
    metaKnown: string -> bool, metaTypes: string -> T, metaValue: (string, M) -> Found)

  // ----- DesugarCondition -----

  function Positions<V>(values: seq<Option<V>>): seq<nat> {
    if values == [] then []
    else
      var n := |values| - 1;
      Positions(values[..n]) + (if values[n].Some? then [n] else [])
  }

  lemma {:induction false} PositionsExact<V>(values: seq<Option<V>>)
    ensures forall i :: i in Positions(values) <==> 0 <= i < |values| && values[i].Some?
  {
    if values != [] {
      var n := |values| - 1;
      PositionsExact(values[..n]);
      assert forall i :: 0 <= i < n ==> values[..n][i] == values[i];
    }
  }

  function ClauseLeaf<V>(path: string, op: string, values: seq<Option<V>>, i: nat): Condition<V>
    requires i < |values| && values[i].Some?
  {
    Simple(ElementPath(path, i), op, values[i].value)
  }

  predicate AreValues<V>(values: seq<Option<V>>, at: seq<nat>) {
    forall j :: 0 <= j < |at| ==> at[j] < |values| && values[at[j]].Some?
  }

  function ClauseLeaves<V>(path: string, op: string, values: seq<Option<V>>, at: seq<nat>): seq<Condition<V>>
    requires AreValues(values, at)
  {
    seq(|at|, j requires 0 <= j < |at| => ClauseLeaf(path, op, values, at[j]))
  }

  lemma PositionsAreValues<V>(values: seq<Option<V>>)
    ensures AreValues(values, Positions(values))
  {
    PositionsExact(values);
    forall j | 0 <= j < |Positions(values)| ensures Positions(values)[j] < |values| && values[Positions(values)[j]].Some? {
      assert Positions(values)[j] in Positions(values);
    }
  }

  function DesugarClause<V>(path: string, op: string, values: seq<Option<V>>): Option<Condition<V>> {
    PositionsAreValues(values);
    var leaves := ClauseLeaves(path, op, values, Positions(values));
    if leaves == [] then None else if |leaves| == 1 then Some(leaves[0]) else Some(Group("AND", leaves))
  }

  function Desugar<V>(c: Condition<V>): Option<Condition<V>> {
    match c
    case ArrayClause(path, op, values) => DesugarClause(path, op, values)
    case Group(op, conditions) =>
      (match Gather(Desugars(conditions))
       case None => None
       case Some(children) => Some(Group(op, children)))
    case _ => Some(c)
  }

  function Desugars<V>(conditions: seq<Condition<V>>): seq<Option<Condition<V>>> {
    seq(|conditions|, i requires 0 <= i < |conditions| => Desugar(conditions[i]))
  }

  // ----- ConditionToFilter, its conditions desugared -----

  predicate IsSpace(c: char) {
    c == ' ' || '\t' <= c <= '\r'
  }

  function TrimLeft(s: string): string {
    if s != "" && IsSpace(s[0]) then TrimLeft(s[1..]) else s
  }

  function TrimRight(s: string): string {
    if s != "" && IsSpace(s[|s| - 1]) then TrimRight(s[..|s| - 1]) else s
  }

  function NormalisePath(raw: string): string {
    var p := TrimRight(TrimLeft(raw));
    if p == "" || p[0] == '$' then p else LEADER + p
  }

  function Declared<V, T, E, M>(k: Kernel<V, T, E, M>, key: string): T {
    if key in k.fields then k.fields[key] else k.noTypes
  }

  function SimpleToFilter<V, T, E, M>(k: Kernel<V, T, E, M>, path: string, name: string, value: V): Option<Filter<V, T>> {
    match StripDollarDot(path)
    case None => None
    case Some(stripped) =>
      var op := LookupOperator(name);
      if op.None? || !k.accepts(op.value, value) then None
      else Some(Leaf(op.value, stripped, Data, value, Declared(k, Fold(NormalisePath(path)))))
  }

  function CanonicalMeta(field: string): string {
    if field == "previousTransition" then "transitionForLatestSave" else field
  }

  function LifecycleToFilter<V, T, E, M>(k: Kernel<V, T, E, M>, meta: string, name: string, value: V): Option<Filter<V, T>> {
    var field, op := CanonicalMeta(meta), LookupOperator(name);
    if op.None? || !k.accepts(op.value, value) then None
    else Some(Leaf(op.value, field, Meta, value, k.metaTypes(field)))
  }

  function GroupFilter<V, T>(op: string, children: seq<Filter<V, T>>): Option<Filter<V, T>> {
    if op == "AND" then Some(And(children))
    else if op == "OR" then Some(Or(children))
    else if op == "NOT" then Some(Not(children))
    else None
  }

  function DesugaredToFilter<V, T, E, M>(k: Kernel<V, T, E, M>, c: Condition<V>): Option<Filter<V, T>>
    decreases c
  {
    match c
    case Simple(path, op, value) => SimpleToFilter(k, path, op, value)
    case Lifecycle(field, op, value) => LifecycleToFilter(k, field, op, value)
    case Group(op, conditions) =>
      (match Gather(ToFilters(k, conditions))
       case None => None
       case Some(children) => GroupFilter(op, children))
    case _ => None
  }

  function ToFilters<V, T, E, M>(k: Kernel<V, T, E, M>, conditions: seq<Condition<V>>): seq<Option<Filter<V, T>>>
    decreases conditions
  {
    seq(|conditions|, i requires 0 <= i < |conditions| => DesugaredToFilter(k, conditions[i]))
  }

  function ConditionToFilter<V, T, E, M>(k: Kernel<V, T, E, M>, c: Condition<V>): Option<Filter<V, T>> {
    var d := Desugar(c);
    if d.None? then None else DesugaredToFilter(k, d.value)
  }

  // ----- Prepare -----

  function PrepareLeaf<V, T, E, M>(k: Kernel<V, T, E, M>, f: Filter<V, T>): Option<Prepared<E>>
    requires f.Leaf?
  {
    if F.LeafKindOf(f.op).None? then None
    else if f.source.Data? && (f.path == "" || Parse(f.path).None?) then None
    else if f.source.Meta? && !k.metaKnown(f.path) then None
    else if !k.accepts(f.op, f.value) then None
    else
      match k.expand(f.op, f.value, f.declared)
      case None => None
      case Some(exp) => Some(if f.source.Data? then PData(Parse(f.path).value, exp) else PMeta(f.path, exp))
  }

  function Prepare<V, T, E, M>(k: Kernel<V, T, E, M>, f: Filter<V, T>): Option<Prepared<E>>
    decreases f
  {
    match f
    case Leaf(_, _, _, _, _) => PrepareLeaf(k, f)
    case And(children) =>
      (match Gather(Prepares(k, children))
       case None => None
       case Some(ps) => Some(PAnd(ps)))
    case Or(children) =>
      (match Gather(Prepares(k, children))
       case None => None
       case Some(ps) => Some(POr(ps)))
    case Not(children) =>
      if |children| != 1 then None
      else
        match Prepare(k, children[0])
        case None => None
        case Some(p) => Some(PNot(p))
  }

  function Prepares<V, T, E, M>(k: Kernel<V, T, E, M>, children: seq<Filter<V, T>>): seq<Option<Prepared<E>>>
    decreases children
  {
    seq(|children|, i requires 0 <= i < |children| => Prepare(k, children[i]))
  }

  // ----- Match -----

  predicate SomeHolds<V, T, E, M>(k: Kernel<V, T, E, M>, exp: E, stored: seq<Found>) {
    exists i :: 0 <= i < |stored| && k.holds(exp, stored[i])
  }

  predicate Matches<V, T, E, M>(k: Kernel<V, T, E, M>, p: Prepared<E>, e: Entity<M>)
    decreases p
  {
    match p
    case PAnd(children) => forall i :: 0 <= i < |children| ==> Matches(k, children[i], e)
    case POr(children) => exists i :: 0 <= i < |children| && Matches(k, children[i], e)
    case PNot(child) => !Matches(k, child, e)
    case PData(hops, exp) => SomeHolds(k, exp, Address(Some(e.data), Steps(hops)))
    case PMeta(field, exp) => SomeHolds(k, exp, [k.metaValue(field, e.meta)])
  }

  // ----- as they are written -----

  method DesugarCondition<V>(c: Condition<V>) returns (r: Option<Condition<V>>)
    ensures r == Desugar(c)
    decreases c
  {
    match c
    case ArrayClause(path, op, values) =>
      r := DesugarArrayCondition(path, op, values);
    case Group(op, conditions) =>
      var children: seq<Condition<V>> := [];
      for i := 0 to |conditions|
        invariant |children| == i
        invariant forall j :: 0 <= j < i ==> Desugar(conditions[j]) == Some(children[j])
      {
        var d := DesugarCondition(conditions[i]);
        if d.None? {
          GatherFails(Desugars(conditions), i);
          return None;
        }
        children := children + [d.value];
      }
      GatherIs(Desugars(conditions), children);
      r := Some(Group(op, children));
    case _ =>
      r := Some(c);
  }

  method DesugarArrayCondition<V>(path: string, op: string, values: seq<Option<V>>) returns (r: Option<Condition<V>>)
    ensures r == DesugarClause(path, op, values)
  {
    hide LookupOperator, ElementPath;
    var leaves: seq<Condition<V>> := [];
    PositionsAreValues(values);
    for i := 0 to |values|
      invariant AreValues(values, Positions(values[..i])) && leaves == ClauseLeaves(path, op, values, Positions(values[..i]))
    {
      assert values[..i + 1][..i] == values[..i];
      PositionsAreValues(values[..i + 1]);
      if values[i].Some? {
        leaves := leaves + [Simple(ElementPath(path, i), op, values[i].value)];
      }
    }
    assert values[..|values|] == values;
    if leaves == [] {
      return None;
    }
    r := if |leaves| == 1 then Some(leaves[0]) else Some(Group("AND", leaves));
  }

  /** desugaredToFilter and groupToFilter. */
  method ToFilter<V, T, E, M>(k: Kernel<V, T, E, M>, c: Condition<V>) returns (r: Option<Filter<V, T>>)
    ensures r == DesugaredToFilter(k, c)
    decreases c
  {
    hide SimpleToFilter, LifecycleToFilter;
    match c
    case Simple(path, op, value) => r := SimpleToFilter(k, path, op, value);
    case Lifecycle(field, op, value) => r := LifecycleToFilter(k, field, op, value);
    case Group(op, conditions) =>
      var children: seq<Filter<V, T>> := [];
      for i := 0 to |conditions|
        invariant |children| == i
        invariant forall j :: 0 <= j < i ==> DesugaredToFilter(k, conditions[j]) == Some(children[j])
      {
        var f := ToFilter(k, conditions[i]);
        if f.None? {
          GatherFails(ToFilters(k, conditions), i);
          return None;
        }
        children := children + [f.value];
      }
      GatherIs(ToFilters(k, conditions), children);
      r := GroupFilter(op, children);
    case _ => r := None;
  }

  /** prepareNode. */
  method PrepareNode<V, T, E, M>(k: Kernel<V, T, E, M>, f: Filter<V, T>) returns (r: Option<Prepared<E>>)
    ensures r == Prepare(k, f)
    decreases f
  {
    hide PrepareLeaf;
    if f.Leaf? {
      return PrepareLeaf(k, f);
    }
    if f.Not? {
      if |f.children| != 1 {
        return None;
      }
      var child := PrepareNode(k, f.children[0]);
      return if child.None? then None else Some(PNot(child.value));
    }
    var children: seq<Prepared<E>> := [];
    for i := 0 to |f.children|
      invariant |children| == i
      invariant forall j :: 0 <= j < i ==> Prepare(k, f.children[j]) == Some(children[j])
    {
      var child := PrepareNode(k, f.children[i]);
      if child.None? {
        GatherFails(Prepares(k, f.children), i);
        return None;
      }
      children := children + [child.value];
    }
    GatherIs(Prepares(k, f.children), children);
    r := if f.And? then Some(PAnd(children)) else Some(POr(children));
  }

  method Match<V, T, E, M>(k: Kernel<V, T, E, M>, p: Prepared<E>, e: Entity<M>) returns (r: bool)
    ensures r == Matches(k, p, e)
    decreases p
  {
    match p
    case PAnd(children) =>
      for i := 0 to |children|
        invariant forall j :: 0 <= j < i ==> Matches(k, children[j], e)
      {
        var m := Match(k, children[i], e);
        if !m {
          return false;
        }
      }
      r := true;
    case POr(children) =>
      for i := 0 to |children|
        invariant forall j :: 0 <= j < i ==> !Matches(k, children[j], e)
      {
        var m := Match(k, children[i], e);
        if m {
          return true;
        }
      }
      r := false;
    case PNot(child) =>
      r := Match(k, child, e);
      r := !r;
    case PData(hops, exp) =>
      var stored := ResolvePath(e.data, hops);
      r := MatchLeaf(k, exp, stored);
    case PMeta(field, exp) =>
      r := MatchLeaf(k, exp, [k.metaValue(field, e.meta)]);
  }

  method MatchLeaf<V, T, E, M>(k: Kernel<V, T, E, M>, exp: E, stored: seq<Found>) returns (r: bool)
    ensures r == SomeHolds(k, exp, stored)
  {
    for i := 0 to |stored|
      invariant forall j :: 0 <= j < i ==> !k.holds(exp, stored[j])
    {
      if k.holds(exp, stored[i]) {
        return true;
      }
    }
    return false;
  }
}
