/** A condition means what its prepared filter matches: translation and preparation keep the meaning
    of every condition they accept, and accept exactly the conditions whose leaves are evaluable. */
module ConditionLaws {
  import opened Wrappers
  import opened FilterPath
  import opened FilterPathLaws
  import opened PathResolve
  import opened Conditions
  import opened OperatorNames

  // ----- desugaring -----

  /** No array clause at any depth. */
  predicate Plain<V>(c: Condition<V>) {
    match c
    case ArrayClause(_, _, _) => false
    case Group(_, conditions) => forall i :: 0 <= i < |conditions| ==> Plain(conditions[i])
    case _ => true
  }

  /** A condition without array clauses is left as it is. */
  lemma {:induction false} PlainUnchanged<V>(c: Condition<V>)
    requires Plain(c)
    ensures Desugar(c) == Some(c)
    decreases c
  {
    if c.Group? {
      forall i | 0 <= i < |c.conditions| ensures Desugar(c.conditions[i]) == Some(c.conditions[i]) {
        PlainUnchanged(c.conditions[i]);
      }
      GatherIs(Desugars(c.conditions), c.conditions);
    }
  }

  /** DesugarCondition leaves no array clause. */
  lemma {:induction false} DesugaredPlain<V>(c: Condition<V>)
    requires Desugar(c).Some?
    ensures Plain(Desugar(c).value)
    decreases c
  {
    if c.Group? {
      var ds := Gather(Desugars(c.conditions)).value;
      forall i | 0 <= i < |ds| ensures Plain(ds[i]) {
        assert Desugars(c.conditions)[i] == Desugar(c.conditions[i]);
        DesugaredPlain(c.conditions[i]);
      }
    } else if c.ArrayClause? {
      PositionsAreValues(c.values);
    }
  }

  /** So desugaring again changes nothing, and translation need not repeat it below the root. */
  lemma DesugarOnce<V>(c: Condition<V>)
    requires Desugar(c).Some?
    ensures Desugar(Desugar(c).value) == Desugar(c)
  {
    DesugaredPlain(c);
    PlainUnchanged(Desugar(c).value);
  }

  // ----- the meaning of a condition -----

  /** The hops of a wire path, None for a path outside the grammar. */
  function WireHops(path: string): (r: Option<seq<Hop>>)
    ensures r.Some? ==> r.value != []
  {
    match StripDollarDot(path)
    case None => None
    case Some(rest) =>
      Stripped(path);
      Parse(rest)
  }

  /** The types declared for the field the hops address, whatever the positions. */
  function TypesAt<V, T, E, M>(k: Kernel<V, T, E, M>, hops: seq<Hop>): T {
    Declared(k, LEADER + Render(hops, true))
  }

  predicate LeafOk<V, T, E, M>(k: Kernel<V, T, E, M>, op: string, value: V, types: T) {
    var o := LookupOperator(op);
    o.Some? && k.accepts(o.value, value) && k.expand(o.value, value, types).Some?
  }

  /** What the leaf's operand expands into. */
  function LeafOf<V, T, E, M>(k: Kernel<V, T, E, M>, op: string, value: V, types: T): E
    requires LeafOk(k, op, value, types)
  {
    k.expand(LookupOperator(op).value, value, types).value
  }

  /** Some value at the hops satisfies the leaf. */
  predicate DataHolds<V, T, E, M>(k: Kernel<V, T, E, M>, hops: seq<Hop>, op: string, value: V, e: Entity<M>)
    requires LeafOk(k, op, value, TypesAt(k, hops))
  {
    SomeHolds(k, LeafOf(k, op, value, TypesAt(k, hops)), Address(Some(e.data), Steps(hops)))
  }

  predicate MetaOk<V, T, E, M>(k: Kernel<V, T, E, M>, name: string, op: string, value: V) {
    k.metaKnown(CanonicalMeta(name)) && LeafOk(k, op, value, k.metaTypes(CanonicalMeta(name)))
  }

  predicate MetaHolds<V, T, E, M>(k: Kernel<V, T, E, M>, name: string, op: string, value: V, e: Entity<M>)
    requires MetaOk(k, name, op, value)
  {
    var field := CanonicalMeta(name);
    k.holds(LeafOf(k, op, value, k.metaTypes(field)), k.metaValue(field, e.meta))
  }

  predicate PositionOk<V, T, E, M>(k: Kernel<V, T, E, M>, path: string, op: string, value: V, i: nat) {
    var hops := WireHops(path);
    hops.Some? && i <= MAX_INDEX && LeafOk(k, op, value, TypesAt(k, ElementHops(hops.value, i)))
  }

  /** An array clause tests something, and can test each of its positions. */
  predicate ClauseOk<V, T, E, M>(k: Kernel<V, T, E, M>, path: string, op: string, values: seq<Option<V>>) {
    && (exists i :: 0 <= i < |values| && values[i].Some?)
    && forall i :: 0 <= i < |values| && values[i].Some? ==> PositionOk(k, path, op, values[i].value, i)
  }

  /** The conjunction over the non-null positions. */
  predicate ClauseHolds<V, T, E, M>(k: Kernel<V, T, E, M>, path: string, op: string, values: seq<Option<V>>, e: Entity<M>)
    requires ClauseOk(k, path, op, values)
  {
    forall i :: 0 <= i < |values| && values[i].Some? ==>
      DataHolds(k, ElementHops(WireHops(path).value, i), op, values[i].value, e)
  }

  predicate GroupOk(op: string, n: nat) {
    op == "AND" || op == "OR" || (op == "NOT" && n == 1)
  }

  /** Every leaf of the condition can be evaluated, and every group is an AND, an OR or a NOT of one. */
  predicate Evaluable<V, T, E, M>(k: Kernel<V, T, E, M>, c: Condition<V>)
    decreases c
  {
    match c
    case Simple(path, op, value) => WireHops(path).Some? && LeafOk(k, op, value, TypesAt(k, WireHops(path).value))
    case Lifecycle(name, op, value) => MetaOk(k, name, op, value)
    case ArrayClause(path, op, values) => ClauseOk(k, path, op, values)
    case Group(op, conditions) =>
      GroupOk(op, |conditions|) && forall i :: 0 <= i < |conditions| ==> Evaluable(k, conditions[i])
    case Function => false
  }

  /** What the condition says of an entity. */
  predicate Holds<V, T, E, M>(k: Kernel<V, T, E, M>, c: Condition<V>, e: Entity<M>)
    requires Evaluable(k, c)
    decreases c
  {
    match c
    case Simple(path, op, value) => DataHolds(k, WireHops(path).value, op, value, e)
    case Lifecycle(name, op, value) => MetaHolds(k, name, op, value, e)
    case ArrayClause(path, op, values) => ClauseHolds(k, path, op, values, e)
    case Group(op, conditions) =>
      if op == "AND" then forall i :: 0 <= i < |conditions| ==> Holds(k, conditions[i], e)
      else if op == "OR" then exists i :: 0 <= i < |conditions| && Holds(k, conditions[i], e)
      else !Holds(k, conditions[0], e)
  }

  // ----- leaves -----

  lemma NoSpaceNormal(path: string)
    requires path != "" && path[0] == '$' && !IsSpace(path[|path| - 1])
    ensures NormalisePath(path) == path
  {
  }

  /** The lookup key of an accepted wire path is its hops folded. */
  lemma KeyOfPath(path: string)
    requires StripDollarDot(path).Some?
    ensures var hops := WireHops(path);
      hops.Some? && Fold(NormalisePath(path)) == LEADER + Render(hops.value, true)
  {
    hide ScanHops, Contains, Fold, Render;
    Stripped(path);
    var rest := StripDollarDot(path).value;
    var hs := ScannedIsSpelled(rest);
    TextChars(hs);
    assert IsPathChar(rest[|rest| - 1]) && path[|path| - 1] == rest[|rest| - 1];
    NoSpaceNormal(path);
    FoldIsRender(rest);
  }

  function Compiled<V, T, E, M>(k: Kernel<V, T, E, M>, c: Condition<V>): Option<Prepared<E>> {
    var f := ConditionToFilter(k, c);
    if f.None? then None else Prepare(k, f.value)
  }

  lemma SimpleCompiled<V, T, E, M>(k: Kernel<V, T, E, M>, path: string, op: string, value: V)
    ensures Compiled(k, Simple(path, op, value)) ==
      var hops := WireHops(path);
      if hops.Some? && LeafOk(k, op, value, TypesAt(k, hops.value))
      then Some(PData(hops.value, LeafOf(k, op, value, TypesAt(k, hops.value)))) else None
  {
    hide StripDollarDot, Parse, Fold, NormalisePath, Render;
    if StripDollarDot(path).Some? {
      KeyOfPath(path);
      Stripped(path);
    }
  }

  lemma LifecycleCompiled<V, T, E, M>(k: Kernel<V, T, E, M>, name: string, op: string, value: V)
    ensures Compiled(k, Lifecycle(name, op, value)) ==
      var field := CanonicalMeta(name);
      if MetaOk(k, name, op, value) then Some(PMeta(field, LeafOf(k, op, value, k.metaTypes(field)))) else None
  {
  }

  // ----- groups -----

  function PGroup<E>(op: string, ps: seq<Prepared<E>>): Prepared<E>
    requires GroupOk(op, |ps|)
  {
    if op == "AND" then PAnd(ps) else if op == "OR" then POr(ps) else PNot(ps[0])
  }

  function Compileds<V, T, E, M>(k: Kernel<V, T, E, M>, conditions: seq<Condition<V>>): seq<Option<Prepared<E>>> {
    seq(|conditions|, i requires 0 <= i < |conditions| => Compiled(k, conditions[i]))
  }

  /** A group compiles to the group of its compiled children, when they all compile. */
  lemma GroupCompiled<V, T, E, M>(k: Kernel<V, T, E, M>, op: string, conditions: seq<Condition<V>>)
    ensures var ps := Gather(Compileds(k, conditions));
      Compiled(k, Group(op, conditions)) ==
        if ps.Some? && GroupOk(op, |conditions|) then Some(PGroup(op, ps.value)) else None
  {
    var ds, cs := Desugars(conditions), Compileds(k, conditions);
    if i :| 0 <= i < |conditions| && Desugar(conditions[i]).None? {
      GatherFails(ds, i);
      GatherFails(cs, i);
    } else {
      var d := Gather(ds).value;
      var fs := ToFilters(k, d);
      assert forall i :: 0 <= i < |d| ==> ds[i] == Desugar(conditions[i]) == Some(d[i]);
      if i :| 0 <= i < |d| && fs[i].None? {
        GatherFails(fs, i);
        GatherFails(cs, i);
      } else {
        var f := Gather(fs).value;
        assert forall i :: 0 <= i < |f| ==> fs[i] == Some(f[i]) && cs[i] == Prepare(k, f[i]);
        assert Prepares(k, f) == cs;
        FilterCompiled(k, op, f, cs);
      }
    }
  }

  lemma FilterCompiled<V, T, E, M>(k: Kernel<V, T, E, M>, op: string, f: seq<Filter<V, T>>, cs: seq<Option<Prepared<E>>>)
    requires cs == Prepares(k, f)
    ensures var g, ps := GroupFilter(op, f), Gather(cs);
      (if g.None? then None else Prepare(k, g.value)) ==
        if ps.Some? && GroupOk(op, |f|) then Some(PGroup(op, ps.value)) else None
  {
    if op == "NOT" && |f| == 1 {
      assert cs[0] == Prepare(k, f[0]);
    }
  }

  // ----- array clauses -----

  /** The leaf of one position compiles to the element's hops, with the types every position shares. */
  lemma PositionCompiled<V, T, E, M>(k: Kernel<V, T, E, M>, path: string, op: string, value: V, i: nat)
    ensures Compiled(k, Simple(ElementPath(path, i), op, value)) ==
      if PositionOk(k, path, op, value, i)
      then
        var hops := ElementHops(WireHops(path).value, i);
        Some(PData(hops, LeafOf(k, op, value, TypesAt(k, hops))))
      else None
  {
    hide StripDollarDot, Parse, ElementPath, ElementHops, Compiled, TypesAt;
    SimpleCompiled(k, ElementPath(path, i), op, value);
    ElementPathIff(path, i);
    if StripDollarDot(path).Some? && i <= MAX_INDEX {
      Stripped(path);
      ElementPathParses(path, i);
      assert WireHops(ElementPath(path, i)) == Some(ElementHops(WireHops(path).value, i));
    }
  }

  /** A desugared condition compiles to what its source does. */
  lemma CompiledDesugared<V, T, E, M>(k: Kernel<V, T, E, M>, c: Condition<V>)
    requires Desugar(c).Some?
    ensures Compiled(k, Desugar(c).value) == Compiled(k, c)
  {
    DesugarOnce(c);
  }

  /** An array clause with several non-null positions compiles to the AND of them, one with one position
      to that leaf, and one with none does not compile. */
  lemma ClauseCompiled<V, T, E, M>(k: Kernel<V, T, E, M>, path: string, op: string, values: seq<Option<V>>)
    ensures AreValues(values, Positions(values))
    ensures var leaves := ClauseLeaves(path, op, values, Positions(values));
      Compiled(k, ArrayClause(path, op, values)) ==
        if leaves == [] then None
        else if |leaves| == 1 then Compiled(k, leaves[0])
        else var ps := Gather(Compileds(k, leaves)); if ps.None? then None else Some(PAnd(ps.value))
  {
    PositionsAreValues(values);
    var leaves := ClauseLeaves(path, op, values, Positions(values));
    if leaves != [] {
      CompiledDesugared(k, ArrayClause(path, op, values));
      hide Compiled;
      if |leaves| > 1 {
        GroupCompiled(k, "AND", leaves);
      }
    }
  }

  // ----- the theorem -----

  ghost predicate SameMeaning<V, T, E, M>(k: Kernel<V, T, E, M>, c: Condition<V>, e: Entity<M>) {
    && (Compiled(k, c).Some? <==> Evaluable(k, c))
    && (Evaluable(k, c) ==> (Matches(k, Compiled(k, c).value, e) <==> Holds(k, c, e)))
  }

  lemma LeafMeaning<V, T, E, M>(k: Kernel<V, T, E, M>, c: Condition<V>, e: Entity<M>)
    requires c.Simple? || c.Lifecycle? || c.Function?
    ensures SameMeaning(k, c, e)
  {
    hide Compiled, WireHops;
    match c
    case Simple(path, op, value) => SimpleCompiled(k, path, op, value);
    case Lifecycle(name, op, value) =>
      LifecycleCompiled(k, name, op, value);
      assert [k.metaValue(CanonicalMeta(name), e.meta)][0] == k.metaValue(CanonicalMeta(name), e.meta);
    case Function => FunctionCompiled<V, T, E, M>(k);
  }

  lemma FunctionCompiled<V, T, E, M>(k: Kernel<V, T, E, M>)
    ensures Compiled(k, Condition<V>.Function) == None
  {
  }

  lemma GroupMeaning<V, T, E, M>(k: Kernel<V, T, E, M>, op: string, conditions: seq<Condition<V>>, e: Entity<M>)
    requires forall i :: 0 <= i < |conditions| ==> SameMeaning(k, conditions[i], e)
    ensures SameMeaning(k, Group(op, conditions), e)
  {
    hide Compiled;
    GroupCompiled(k, op, conditions);
    var cs := Compileds(k, conditions);
    if i :| 0 <= i < |conditions| && cs[i].None? {
      GatherFails(cs, i);
    } else {
      var ps := Gather(cs).value;
      assert forall i :: 0 <= i < |ps| ==> cs[i] == Some(ps[i]) && cs[i] == Compiled(k, conditions[i]);
    }
  }

  /** leaf is what position i compiles to, and matches when some value at element i satisfies it. */
  ghost predicate Agrees<V, T, E, M>(k: Kernel<V, T, E, M>, path: string, op: string, value: V, i: nat, e: Entity<M>,
                                     leaf: Option<Prepared<E>>) {
    && (leaf.Some? <==> PositionOk(k, path, op, value, i))
    && (leaf.Some? ==> (Matches(k, leaf.value, e) <==> DataHolds(k, ElementHops(WireHops(path).value, i), op, value, e)))
  }

  lemma PositionMeaning<V, T, E, M>(k: Kernel<V, T, E, M>, path: string, op: string, value: V, i: nat, e: Entity<M>)
    ensures Agrees(k, path, op, value, i, e, Compiled(k, Simple(ElementPath(path, i), op, value)))
  {
    hide Compiled, WireHops, ElementHops, ElementPath, TypesAt, Address;
    PositionCompiled(k, path, op, value, i);
  }

  /** leaves are what the positions at compile to. */
  ghost predicate LeavesAgree<V, T, E, M>(k: Kernel<V, T, E, M>, path: string, op: string, values: seq<Option<V>>,
                                          e: Entity<M>, at: seq<nat>, leaves: seq<Option<Prepared<E>>>) {
    && AreValues(values, at) && |leaves| == |at|
    && (forall i :: 0 <= i < |values| && values[i].Some? ==> exists j :: 0 <= j < |at| && at[j] == i)
    && forall j :: 0 <= j < |at| ==> Agrees(k, path, op, values[at[j]].value, at[j], e, leaves[j])
  }

  lemma AllPositionsOk<V, T, E, M>(k: Kernel<V, T, E, M>, path: string, op: string, values: seq<Option<V>>,
                                   e: Entity<M>, at: seq<nat>, leaves: seq<Option<Prepared<E>>>)
    requires LeavesAgree(k, path, op, values, e, at, leaves) && at != []
    ensures ClauseOk(k, path, op, values) <==> AllSome(leaves)
    ensures AllSome(leaves) ==>
      (ClauseHolds(k, path, op, values, e) <==> forall j :: 0 <= j < |leaves| ==> Matches(k, leaves[j].value, e))
  {
    hide PositionOk, DataHolds, Matches, WireHops, ElementHops;
    assert values[at[0]].Some?;
    if AllSome(leaves) {
      forall i | 0 <= i < |values| && values[i].Some? ensures PositionOk(k, path, op, values[i].value, i) {
        var j :| 0 <= j < |at| && at[j] == i;
        assert Agrees(k, path, op, values[at[j]].value, at[j], e, leaves[j]);
      }
    }
    if ClauseOk(k, path, op, values) {
      forall j | 0 <= j < |leaves| ensures leaves[j].Some? {
        assert Agrees(k, path, op, values[at[j]].value, at[j], e, leaves[j]) && values[at[j]].Some?;
      }
      assert forall j :: 0 <= j < |leaves| ==> Agrees(k, path, op, values[at[j]].value, at[j], e, leaves[j]);
    }
  }

  lemma NonNullPositions<V>(values: seq<Option<V>>)
    ensures var at := Positions(values);
      AreValues(values, at) && forall i :: 0 <= i < |values| && values[i].Some? ==> exists j :: 0 <= j < |at| && at[j] == i
  {
    PositionsAreValues(values);
    PositionsExact(values);
  }

  lemma ClauseLeavesAgree<V, T, E, M>(k: Kernel<V, T, E, M>, path: string, op: string, values: seq<Option<V>>,
                                      e: Entity<M>)
    ensures AreValues(values, Positions(values))
    ensures LeavesAgree(k, path, op, values, e, Positions(values),
      Compileds(k, ClauseLeaves(path, op, values, Positions(values))))
  {
    var at := Positions(values);
    NonNullPositions(values);
    var cs := Compileds(k, ClauseLeaves(path, op, values, at));
    hide Compiled, WireHops, ElementHops, ElementPath, TypesAt, PositionOk, DataHolds, Agrees, Positions;
    forall j | 0 <= j < |at| ensures Agrees(k, path, op, values[at[j]].value, at[j], e, cs[j]) {
      PositionMeaning(k, path, op, values[at[j]].value, at[j], e);
      assert cs[j] == Compiled(k, ClauseLeaf(path, op, values, at[j]));
    }
  }

  lemma ClauseMeaning<V, T, E, M>(k: Kernel<V, T, E, M>, path: string, op: string, values: seq<Option<V>>, e: Entity<M>)
    ensures SameMeaning(k, ArrayClause(path, op, values), e)
  {
    var at := Positions(values);
    ClauseLeavesAgree(k, path, op, values, e);
    ClauseCompiled(k, path, op, values);
    var leaves := ClauseLeaves(path, op, values, at);
    if at == [] {
      PositionsExact(values);
      hide Compiled, Positions, Agrees, PositionOk;
      assert !ClauseOk(k, path, op, values);
    } else {
      var cs := Compileds(k, leaves);
      assert |leaves| == |cs| == |at|;
      assert |at| == 1 ==> cs[0] == Compiled(k, leaves[0]);
      AllPositionsOk(k, path, op, values, e, at, cs);
      hide Compiled, Positions, LeavesAgree, ClauseOk, ClauseHolds, Compileds, ClauseLeaves;
      ClauseAnswers(k, path, op, values, e, cs);
    }
  }

  lemma ClauseAnswers<V, T, E, M>(k: Kernel<V, T, E, M>, path: string, op: string, values: seq<Option<V>>, e: Entity<M>,
                                  cs: seq<Option<Prepared<E>>>)
    requires cs != [] && (ClauseOk(k, path, op, values) <==> AllSome(cs))
    requires AllSome(cs) ==>
      (ClauseHolds(k, path, op, values, e) <==> forall j :: 0 <= j < |cs| ==> Matches(k, cs[j].value, e))
    requires Compiled(k, ArrayClause(path, op, values)) ==
      if |cs| == 1 then cs[0] else if AllSome(cs) then Some(PAnd(Gather(cs).value)) else None
    ensures SameMeaning(k, ArrayClause(path, op, values), e)
  {
    hide Compiled, ClauseOk, ClauseHolds;
    if AllSome(cs) {
      var ps := Gather(cs).value;
      assert forall j :: 0 <= j < |cs| ==> ps[j] == cs[j].value;
      assert |cs| == 1 ==> cs[0] == Some(ps[0]);
      assert Matches(k, PAnd(ps), e) <==> forall j :: 0 <= j < |cs| ==> Matches(k, cs[j].value, e);
    } else if |cs| == 1 {
      assert cs[0].None?;
    }
  }

  /** For every condition: ConditionToFilter and Prepare accept it exactly when it is evaluable, and then
      Match answers, for every entity, what the condition says of it. */
  lemma {:induction false} MatchIsMeaning<V, T, E, M>(k: Kernel<V, T, E, M>, c: Condition<V>, e: Entity<M>)
    ensures Compiled(k, c).Some? <==> Evaluable(k, c)
    ensures Evaluable(k, c) ==> (Matches(k, Compiled(k, c).value, e) <==> Holds(k, c, e))
    decreases c
  {
    hide Compiled;
    match c
    case Group(op, conditions) =>
      forall i | 0 <= i < |conditions| ensures SameMeaning(k, conditions[i], e) {
        MatchIsMeaning(k, conditions[i], e);
      }
      GroupMeaning(k, op, conditions, e);
    case ArrayClause(path, op, values) => ClauseMeaning(k, path, op, values, e);
    case _ => LeafMeaning(k, c, e);
  }

  /** What Match answers for NOT of a leaf, over a wildcard path too: no addressed value satisfies the
      leaf. A path that addresses nothing makes it true. */
  lemma NotMatchesNone<V, T, E, M>(k: Kernel<V, T, E, M>, path: string, op: string, value: V, e: Entity<M>)
    requires WireHops(path).Some? && LeafOk(k, op, value, TypesAt(k, WireHops(path).value))
    ensures var c, hops := Group("NOT", [Simple(path, op, value)]), WireHops(path).value;
      Compiled(k, c).Some? && (Matches(k, Compiled(k, c).value, e) <==>
        forall r <- Address(Some(e.data), Steps(hops)) :: !k.holds(LeafOf(k, op, value, TypesAt(k, hops)), r))
  {
    hide Compiled, WireHops, TypesAt, Address, Matches, LeafOk;
    var leaf := Simple(path, op, value);
    var c := Group("NOT", [leaf]);
    assert [leaf][0] == leaf && Evaluable(k, c);
    MatchIsMeaning(k, c, e);
  }

  /** A lifecycle condition tests the metadata field it names; previousTransition is another name of
      transitionForLatestSave, and every other name its own field's. */
  lemma MetaByName<V, T, E, M>(k: Kernel<V, T, E, M>, name: string, op: string, value: V, e: Entity<M>)
    ensures var field := if name == "previousTransition" then "transitionForLatestSave" else name;
      var c := Compiled(k, Lifecycle(name, op, value));
      && (c.Some? <==> k.metaKnown(field) && LeafOk(k, op, value, k.metaTypes(field)))
      && (c.Some? ==> (Matches(k, c.value, e) <==> k.holds(LeafOf(k, op, value, k.metaTypes(field)), k.metaValue(field, e.meta))))
  {
    hide Compiled, LeafOk, Matches;
    MatchIsMeaning(k, Lifecycle(name, op, value), e);
  }
}
