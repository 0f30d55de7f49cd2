/** The flattened fields of a schema tree (model_schema.go) against walking the tree, and the key a
    filter leaf looks its declared types up under. */
module SchemaFields {
  import opened DataTypes
  import opened FilterPath
  import opened FilterPathLaws
  import opened ModelSchema
  import opened PathResolve
  import opened Wrappers
  import Strings

  datatype Field = Field(path: string, types: seq<DataType>, isArray: bool)

  // ----- collectFields -----

  /** The node's own entry. */
  function Own(n: Node): Option<seq<DataType>> {
    if n.scalar.Some? && (n.scalar.value != [] || |Kinds(n)| == 1) then Some(n.scalar.value)
    else if n.nullable && Kinds(n) == [] then Some([DataType.Null])
    else None
  }

  /** A node is listed with its scalar types, of which there are none only where it is a scalar and nothing else; and
      one seen only as null is listed with NULL. */
  lemma OwnIs(n: Node, ts: seq<DataType>)
    ensures Own(n) == Some(ts) <==>
      || (n.scalar == Some(ts) && (ts != [] || (n.obj.NoObject? && n.arr.NoArray?)))
      || (n.scalar.None? && n.obj.NoObject? && n.arr.NoArray? && n.nullable && ts == [DataType.Null])
  {
  }

  /** An element with neither fields nor elements of its own is listed by its array. */
  predicate Simple(n: Node) {
    n.obj.NoObject? && n.arr.NoArray?
  }

  /** collectFields lists f when started at prefix. */
  ghost predicate Lists(n: Node, prefix: string, f: Field)
    decreases n
  {
    || (Own(n).Some? && f == Field(prefix, Own(n).value, false))
    || (n.obj.AnObject? && exists k :: k in n.obj.children && Lists(n.obj.children[k], prefix + ("." + k), f))
    || (n.arr.AnArray? && n.arr.element.Some? &&
        if Simple(n.arr.element.value) then f == Field(prefix + "[*]", DeclaredTypes(n.arr.element.value), true)
        else Lists(n.arr.element.value, prefix + "[*]", f))
  }

  // ----- walking the tree -----

  /** A step down the tree: to a named child, or to the element every position shares. */
  function Down(n: Node, step: PathStep): Option<Node> {
    match step
    case ByName(k) => if n.obj.AnObject? && k in n.obj.children then Some(n.obj.children[k]) else None
    case BySub(_) => if n.arr.AnArray? then n.arr.element else None
  }

  function NodeAt(n: Node, steps: seq<PathStep>): Option<Node> {
    if steps == [] then Some(n)
    else if Down(n, steps[0]).None? then None
    else NodeAt(Down(n, steps[0]).value, steps[1..])
  }

  /** Steps as a lookup key writes them, every subscript a wildcard. */
  predicate Folded(steps: seq<PathStep>) {
    forall i :: 0 <= i < |steps| ==> steps[i].BySub? ==> steps[i].sub.Wildcard?
  }

  function StepText(step: PathStep): string {
    if step.ByName? then "." + step.name else "[*]"
  }

  function StepsText(steps: seq<PathStep>): string {
    if steps == [] then "" else StepText(steps[0]) + StepsText(steps[1..])
  }

  /** What the listing says of the node steps lead to: nothing where it only holds other nodes. */
  function Entry(n: Node, steps: seq<PathStep>): Option<(seq<DataType>, bool)> {
    match NodeAt(n, steps)
    case None => None
    case Some(m) =>
      if steps != [] && steps[|steps| - 1].BySub? && Simple(m) then Some((DeclaredTypes(m), true))
      else if Own(m).Some? then Some((Own(m).value, false))
      else None
  }

  lemma EntryDown(n: Node, step: PathStep, rest: seq<PathStep>)
    ensures var next := Down(n, step);
      Entry(n, [step] + rest) ==
        if next.None? then None
        else if rest == [] && step.BySub? && Simple(next.value) then Some((DeclaredTypes(next.value), true))
        else Entry(next.value, rest)
  {
    var all := [step] + rest;
    assert all[1..] == rest && all[0] == step;
    assert all[|all| - 1] == if rest == [] then step else rest[|rest| - 1];
    var next := Down(n, step);
    assert NodeAt(n, all) == if next.None? then None else NodeAt(next.value, rest);
    if next.Some? && rest == [] {
      assert NodeAt(next.value, rest) == Some(next.value);
    }
  }

  ghost predicate ListedAt(n: Node, prefix: string, f: Field, steps: seq<PathStep>) {
    Folded(steps) && Entry(n, steps) == Some((f.types, f.isArray)) && f.path == prefix + StepsText(steps)
  }

  lemma TextCons(prefix: string, step: PathStep, rest: seq<PathStep>)
    ensures StepsText([step] + rest) == StepText(step) + StepsText(rest)
    ensures prefix + StepsText([step] + rest) == (prefix + StepText(step)) + StepsText(rest)
  {
    assert ([step] + rest)[1..] == rest;
    assert prefix + (StepText(step) + StepsText(rest)) == (prefix + StepText(step)) + StepsText(rest);
  }

  lemma FoldedCons(step: PathStep, rest: seq<PathStep>)
    ensures Folded([step] + rest) <==> (step.BySub? ==> step.sub.Wildcard?) && Folded(rest)
  {
    assert ([step] + rest)[0] == step;
    assert forall i :: 0 <= i < |rest| ==> ([step] + rest)[i + 1] == rest[i];
  }

  /** A field listed is the entry of some steps. */
  lemma {:induction false} ListedIsEntry(n: Node, prefix: string, f: Field) returns (steps: seq<PathStep>)
    requires Lists(n, prefix, f)
    ensures ListedAt(n, prefix, f, steps)
    decreases n
  {
    if Own(n).Some? && f == Field(prefix, Own(n).value, false) {
      steps := [];
      assert prefix + "" == prefix;
    } else if k :| n.obj.AnObject? && k in n.obj.children && Lists(n.obj.children[k], prefix + ("." + k), f) {
      var rest := ListedIsEntry(n.obj.children[k], prefix + ("." + k), f);
      steps := [ByName(k)] + rest;
      EntryDown(n, ByName(k), rest);
      TextCons(prefix, ByName(k), rest);
      FoldedCons(ByName(k), rest);
    } else {
      var e, step := n.arr.element.value, BySub(Wildcard);
      var rest: seq<PathStep> := [];
      if !Simple(e) {
        rest := ListedIsEntry(e, prefix + "[*]", f);
      }
      steps := [step] + rest;
      EntryDown(n, step, rest);
      TextCons(prefix, step, rest);
      FoldedCons(step, rest);
      assert (prefix + "[*]") + "" == prefix + "[*]";
    }
  }

  lemma SimpleEnds(n: Node, steps: seq<PathStep>)
    ensures Simple(n) && steps != [] ==> Entry(n, steps).None?
  {
  }

  /** Every entry is listed. */
  lemma {:induction false} EntryIsListed(n: Node, prefix: string, f: Field, steps: seq<PathStep>)
    requires ListedAt(n, prefix, f, steps)
    ensures Lists(n, prefix, f)
    decreases |steps|
  {
    if steps == [] {
      assert prefix + "" == prefix;
    } else {
      var step, rest := steps[0], steps[1..];
      assert steps == [step] + rest;
      EntryDown(n, step, rest);
      TextCons(prefix, step, rest);
      FoldedCons(step, rest);
      var next := Down(n, step).value;
      if rest == [] && step.BySub? && Simple(next) {
        assert (prefix + "[*]") + "" == prefix + "[*]";
      } else if step.BySub? && Simple(next) {
        SimpleEnds(next, rest);
      } else {
        EntryIsListed(next, prefix + StepText(step), f, rest);
      }
    }
  }

  // ----- distinct paths -----

  /** Every child's name is of the path alphabet. */
  predicate NamesOk(n: Node) {
    && (n.obj.AnObject? ==> forall k :: k in n.obj.children ==> IsName(k) && NamesOk(n.obj.children[k]))
    && (n.arr.AnArray? && n.arr.element.Some? ==> NamesOk(n.arr.element.value))
  }

  predicate StepNamesOk(steps: seq<PathStep>) {
    forall i :: 0 <= i < |steps| ==> steps[i].ByName? ==> IsName(steps[i].name)
  }

  lemma {:induction false} WalkedNamesOk(n: Node, steps: seq<PathStep>)
    requires NamesOk(n) && NodeAt(n, steps).Some?
    ensures StepNamesOk(steps)
    decreases |steps|
  {
    if steps != [] {
      WalkedNamesOk(Down(n, steps[0]).value, steps[1..]);
      assert forall i :: 0 < i < |steps| ==> steps[i] == steps[1..][i - 1];
    }
  }

  lemma TextHead(steps: seq<PathStep>)
    ensures StepsText(steps) == "" || StepsText(steps)[0] == '.' || StepsText(steps)[0] == '['
  {
  }

  lemma SameName(a: string, x: string, b: string, y: string)
    requires IsName(a) && IsName(b) && a + x == b + y
    requires x == "" || !IsNameChar(x[0])
    requires y == "" || !IsNameChar(y[0])
    ensures a == b && x == y
  {
    WordOf(a, x);
    WordOf(b, y);
    var s := a + x;
    assert a == s[..|a|] && b == s[..|b|] && x == s[|a|..] && y == s[|b|..];
  }

  /** Two ways down the tree are spelled differently. */
  lemma {:induction false} TextInjective(a: seq<PathStep>, b: seq<PathStep>)
    requires Folded(a) && Folded(b) && StepNamesOk(a) && StepNamesOk(b) && StepsText(a) == StepsText(b)
    ensures a == b
    decreases |a|
  {
    if a != [] && b != [] {
      assert a == [a[0]] + a[1..] && b == [b[0]] + b[1..];
      FoldedCons(a[0], a[1..]);
      FoldedCons(b[0], b[1..]);
      NamesCons(a[0], a[1..]);
      NamesCons(b[0], b[1..]);
      hide StepsText, IsName, Folded, StepNamesOk;
      TextCons("", a[0], a[1..]);
      TextCons("", b[0], b[1..]);
      TextHead(a[1..]);
      TextHead(b[1..]);
      SameStep(a[0], StepsText(a[1..]), b[0], StepsText(b[1..]));
      TextInjective(a[1..], b[1..]);
    } else {
      NoText(a);
      NoText(b);
    }
  }

  lemma NamesCons(step: PathStep, rest: seq<PathStep>)
    ensures StepNamesOk([step] + rest) <==> (step.ByName? ==> IsName(step.name)) && StepNamesOk(rest)
  {
    assert ([step] + rest)[0] == step;
    assert forall i :: 0 <= i < |rest| ==> ([step] + rest)[i + 1] == rest[i];
  }

  lemma NoText(steps: seq<PathStep>)
    ensures StepsText(steps) == "" <==> steps == []
  {
  }

  lemma SameStep(s: PathStep, x: string, t: PathStep, y: string)
    requires StepText(s) + x == StepText(t) + y
    requires if s.ByName? then IsName(s.name) else s.sub.Wildcard?
    requires if t.ByName? then IsName(t.name) else t.sub.Wildcard?
    requires x == "" || !IsNameChar(x[0])
    requires y == "" || !IsNameChar(y[0])
    ensures s == t && x == y
  {
    StepHead(s, x);
    StepHead(t, y);
    if s.ByName? {
      SameName(s.name, x, t.name, y);
    }
  }

  /** What the first character of a step's text says of it, and what is left after that. */
  lemma StepHead(s: PathStep, x: string)
    ensures var text := StepText(s) + x;
      && text != "" && (text[0] == '.' <==> s.ByName?)
      && (s.ByName? ==> text[1..] == s.name + x)
      && (s.BySub? ==> |text| >= 3 && text[3..] == x)
  {
    if s.ByName? {
      assert ("." + s.name) + x == "." + (s.name + x);
    }
  }

  const ROOT := "$"

  /** Fields of one path are one field. */
  lemma OnePathOneField(n: Node, f: Field, g: Field)
    requires NamesOk(n) && Lists(n, ROOT, f) && Lists(n, ROOT, g) && f.path == g.path
    ensures f == g
  {
    var a := ListedIsEntry(n, ROOT, f);
    var b := ListedIsEntry(n, ROOT, g);
    WalkedNamesOk(n, a);
    WalkedNamesOk(n, b);
    assert StepsText(a) == f.path[1..] && StepsText(b) == g.path[1..];
    TextInjective(a, b);
  }

  // ----- the loops -----

  ghost predicate DistinctPaths(s: seq<Field>) {
    forall i, j :: 0 <= i < j < |s| ==> s[i].path != s[j].path
  }

  /** Where the path of a field listed from prefix on begins. */
  lemma PathUnder(n: Node, prefix: string, f: Field) returns (text: string)
    requires Lists(n, prefix, f)
    ensures f.path == prefix + text && (text == "" || text[0] == '.' || text[0] == '[')
  {
    var steps := ListedIsEntry(n, prefix, f);
    text := StepsText(steps);
    TextHead(steps);
  }

  lemma ChildrenApart(m: Node, k: string, n: Node, j: string, prefix: string, f: Field, g: Field)
    requires IsName(k) && IsName(j) && k != j
    requires Lists(m, prefix + ("." + k), f) && Lists(n, prefix + ("." + j), g)
    ensures f.path != g.path
  {
    hide IsName;
    var x := PathUnder(m, prefix + ("." + k), f);
    var y := PathUnder(n, prefix + ("." + j), g);
    if f.path == g.path {
      assert f.path == prefix + ("." + (k + x)) && g.path == prefix + ("." + (j + y));
      assert k + x == f.path[|prefix| + 1..] == j + y;
      SameName(k, x, j, y);
    }
  }

  /** A field under a child or an element says so just after the prefix. */
  lemma MarkAfter(n: Node, prefix: string, mark: string, f: Field)
    requires mark != "" && Lists(n, prefix + mark, f)
    ensures |f.path| > |prefix| && f.path[|prefix|] == mark[0]
  {
    var x := PathUnder(n, prefix + mark, f);
    assert f.path == prefix + (mark + x);
  }

  /** The fields of the node itself and of the children visited. */
  ghost predicate ListsSome(n: Node, prefix: string, visited: set<string>, f: Field) {
    || (Own(n).Some? && f == Field(prefix, Own(n).value, false))
    || (n.obj.AnObject? && exists k :: k in n.obj.children && k in visited && Lists(n.obj.children[k], prefix + ("." + k), f))
  }

  lemma ChildApart(n: Node, prefix: string, visited: set<string>, k: string, f: Field, g: Field)
    requires NamesOk(n) && n.obj.AnObject? && k in n.obj.children && k !in visited
    requires ListsSome(n, prefix, visited, f) && Lists(n.obj.children[k], prefix + ("." + k), g)
    ensures f.path != g.path
  {
    if Own(n).Some? && f == Field(prefix, Own(n).value, false) {
      MarkAfter(n.obj.children[k], prefix, "." + k, g);
    } else {
      var j :| j in n.obj.children && j in visited && Lists(n.obj.children[j], prefix + ("." + j), f);
      ChildrenApart(n.obj.children[j], j, n.obj.children[k], k, prefix, f, g);
    }
  }

  lemma ElementApart(n: Node, prefix: string, visited: set<string>, f: Field, g: Field)
    requires ListsSome(n, prefix, visited, f)
    requires |g.path| > |prefix| && g.path[|prefix|] == '['
    ensures f.path != g.path
  {
    if !(Own(n).Some? && f == Field(prefix, Own(n).value, false)) {
      var k :| k in n.obj.children && k in visited && Lists(n.obj.children[k], prefix + ("." + k), f);
      MarkAfter(n.obj.children[k], prefix, "." + k, f);
    }
  }

  lemma DistinctConcat(a: seq<Field>, b: seq<Field>)
    requires DistinctPaths(a) && DistinctPaths(b)
    requires forall f, g :: f in a && g in b ==> f.path != g.path
    ensures DistinctPaths(a + b)
  {
    forall i, j | 0 <= i < j < |a + b| ensures (a + b)[i].path != (a + b)[j].path {
      assert i < |a| && j >= |a| ==> (a + b)[i] in a && (a + b)[j] in b;
    }
  }

  /** The fields of a child listed after those of the node and of the children before it. */
  lemma ChildListed(n: Node, prefix: string, visited: set<string>, k: string, before: seq<Field>, more: seq<Field>)
    requires n.obj.AnObject? && k in n.obj.children && k !in visited
    requires forall f :: f in before <==> ListsSome(n, prefix, visited, f)
    requires forall f :: f in more <==> Lists(n.obj.children[k], prefix + ("." + k), f)
    ensures forall f :: f in before + more <==> ListsSome(n, prefix, visited + {k}, f)
    ensures NamesOk(n) && DistinctPaths(before) && DistinctPaths(more) ==> DistinctPaths(before + more)
  {
    if NamesOk(n) && DistinctPaths(before) && DistinctPaths(more) {
      forall f, g | f in before && g in more ensures f.path != g.path {
        ChildApart(n, prefix, visited, k, f, g);
      }
      hide DistinctPaths, Lists, NamesOk;
      DistinctConcat(before, more);
    }
  }

  /** The fields of the element, last. */
  lemma ElementListed(n: Node, prefix: string, before: seq<Field>, more: seq<Field>)
    requires n.arr.AnArray? && n.arr.element.Some?
    requires forall f :: f in before <==> ListsSome(n, prefix, Children(n.obj).Keys, f)
    requires forall f :: f in more <==>
      if Simple(n.arr.element.value) then f == Field(prefix + "[*]", DeclaredTypes(n.arr.element.value), true)
      else Lists(n.arr.element.value, prefix + "[*]", f)
    ensures forall f :: f in before + more <==> Lists(n, prefix, f)
    ensures DistinctPaths(before) && DistinctPaths(more) ==> DistinctPaths(before + more)
  {
    forall f, g | f in before && g in more ensures f.path != g.path {
      if !Simple(n.arr.element.value) {
        MarkAfter(n.arr.element.value, prefix, "[*]", g);
      }
      ElementApart(n, prefix, Children(n.obj).Keys, f, g);
    }
    hide DistinctPaths;
    if DistinctPaths(before) && DistinctPaths(more) {
      DistinctConcat(before, more);
    }
  }

  /** collectFields: the fields it lists; with child names of the path alphabet no path twice. */
  method CollectFields(n: Node, prefix: string) returns (out: seq<Field>)
    ensures forall f :: f in out <==> Lists(n, prefix, f)
    ensures NamesOk(n) ==> DistinctPaths(out)
    decreases n
  {
    hide Lists, DistinctPaths, IsName;
    out := OwnFields(n, prefix);
    if n.obj.AnObject? {
      var left := n.obj.children.Keys;
      while left != {}
        invariant left <= n.obj.children.Keys
        invariant forall f :: f in out <==> ListsSome(n, prefix, n.obj.children.Keys - left, f)
        invariant NamesOk(n) ==> DistinctPaths(out)
        decreases |left|
      {
        var k :| k in left;
        var more := CollectFields(n.obj.children[k], prefix + ("." + k));
        ChildListed(n, prefix, n.obj.children.Keys - left, k, out, more);
        assert (n.obj.children.Keys - left) + {k} == n.obj.children.Keys - (left - {k});
        left := left - {k};
        out := out + more;
      }
      assert n.obj.children.Keys - left == n.obj.children.Keys;
    }
    if n.arr.NoArray? || n.arr.element.None? {
      forall f ensures ListsSome(n, prefix, Children(n.obj).Keys, f) <==> Lists(n, prefix, f) {
        WithoutElement(n, prefix, f);
      }
      return;
    }
    var element := n.arr.element.value;
    var more := [Field(prefix + "[*]", DeclaredTypes(element), true)];
    assert DistinctPaths(more) by { OneIsDistinct(more); }
    if !Simple(element) {
      more := CollectFields(element, prefix + "[*]");
    }
    ElementListed(n, prefix, out, more);
    out := out + more;
  }

  lemma OneIsDistinct(s: seq<Field>)
    requires |s| <= 1
    ensures DistinctPaths(s)
  {
  }

  lemma WithoutElement(n: Node, prefix: string, f: Field)
    requires n.arr.NoArray? || n.arr.element.None?
    ensures ListsSome(n, prefix, Children(n.obj).Keys, f) <==> Lists(n, prefix, f)
  {
  }

  method OwnFields(n: Node, prefix: string) returns (out: seq<Field>)
    ensures forall f :: f in out <==> ListsSome(n, prefix, {}, f)
    ensures DistinctPaths(out)
  {
    out := [];
    if n.scalar.Some? && (n.scalar.value != [] || |Kinds(n)| == 1) {
      out := [Field(prefix, n.scalar.value, false)];
    } else if n.nullable && Kinds(n) == [] {
      out := [Field(prefix, [DataType.Null], false)];
    }
  }

  // ----- the sorted list -----

  ghost predicate SortedPaths(s: seq<Field>) {
    forall i, j :: 0 <= i < j < |s| ==> Strings.Compare(s[i].path, s[j].path) <= 0
  }

  ghost predicate AscendingPaths(s: seq<Field>) {
    forall i, j :: 0 <= i < j < |s| ==> Strings.Compare(s[i].path, s[j].path) < 0
  }

  lemma SortedDistinctAscends(s: seq<Field>)
    requires SortedPaths(s) && DistinctPaths(s)
    ensures AscendingPaths(s)
  {
    forall i, j | 0 <= i < j < |s| ensures Strings.Compare(s[i].path, s[j].path) < 0 {
      Strings.CompareIsOrder(s[i].path, s[j].path);
    }
  }

  lemma PutAt(s: seq<Field>, f: Field, k: nat)
    requires k <= |s| && SortedPaths(s)
    requires k > 0 ==> Strings.Compare(s[k - 1].path, f.path) <= 0
    requires k < |s| ==> Strings.Compare(f.path, s[k].path) <= 0
    ensures SortedPaths(s[..k] + [f] + s[k..])
  {
    hide Strings.Compare;
    forall i | 0 <= i < k ensures Strings.Compare(s[i].path, f.path) <= 0 {
      if i < k - 1 {
        Strings.CompareChains(s[i].path, s[k - 1].path, f.path);
      }
    }
    forall j | k <= j < |s| ensures Strings.Compare(f.path, s[j].path) <= 0 {
      if j > k {
        Strings.CompareChains(f.path, s[k].path, s[j].path);
      }
    }
  }

  lemma PutAmong(s: seq<Field>, f: Field, k: nat)
    requires k <= |s|
    ensures forall g :: g in s[..k] + [f] + s[k..] <==> g in s || g == f
    ensures DistinctPaths(s) && (forall g :: g in s ==> g.path != f.path) ==> DistinctPaths(s[..k] + [f] + s[k..])
  {
    assert s == s[..k] + s[k..];
    assert forall i :: 0 <= i < |s| ==> s[i] in s;
  }

  /** Puts a field in its place. */
  method Insert(s: seq<Field>, f: Field) returns (r: seq<Field>)
    requires SortedPaths(s)
    ensures SortedPaths(r) && forall g :: g in r <==> g in s || g == f
    ensures DistinctPaths(s) && (forall g :: g in s ==> g.path != f.path) ==> DistinctPaths(r)
  {
    hide Strings.Compare, SortedPaths, DistinctPaths;
    var k := |s|;
    while k > 0 && Strings.Compare(f.path, s[k - 1].path) < 0
      invariant 0 <= k <= |s| && (k < |s| ==> Strings.Compare(f.path, s[k].path) < 0)
    {
      k := k - 1;
    }
    if k > 0 {
      Strings.CompareIsOrder(f.path, s[k - 1].path);
    }
    PutAt(s, f, k);
    PutAmong(s, f, k);
    r := s[..k] + [f] + s[k..];
  }

  method SortByPath(s: seq<Field>) returns (r: seq<Field>)
    ensures SortedPaths(r) && forall f :: f in r <==> f in s
    ensures DistinctPaths(s) ==> DistinctPaths(r)
  {
    hide SortedPaths;
    r := [];
    assert SortedPaths(r) by { NothingToSort(r); }
    for i := 0 to |s|
      invariant SortedPaths(r) && forall f :: f in r <==> f in s[..i]
      invariant DistinctPaths(s) ==> DistinctPaths(r)
    {
      assert s[..i + 1] == s[..i] + [s[i]];
      r := Insert(r, s[i]);
    }
    assert s[..|s|] == s;
  }

  lemma NothingToSort(s: seq<Field>)
    requires s == []
    ensures SortedPaths(s)
  {
  }

  /** A map holds, under the text of any steps down the tree, the entry of the node they lead to. */
  ghost predicate Flattens(n: Node, byPath: map<string, Field>) {
    forall steps :: Folded(steps) && Entry(n, steps).Some? ==>
      ROOT + StepsText(steps) in byPath &&
      byPath[ROOT + StepsText(steps)] == Field(ROOT + StepsText(steps), Entry(n, steps).value.0, Entry(n, steps).value.1)
  }

  /** buildFieldCache: the sorted list of the fields and the map of them by path. With child names of the
      path alphabet no path is listed twice, and the map holds every entry of the tree and nothing else. */
  method BuildFieldCache(n: Node) returns (list: seq<Field>, byPath: map<string, Field>)
    ensures SortedPaths(list) && forall f :: f in list <==> Lists(n, ROOT, f)
    ensures forall p :: p in byPath ==> byPath[p].path == p && byPath[p] in list
    ensures forall f :: f in list ==> f.path in byPath
    ensures NamesOk(n) ==> AscendingPaths(list) && Flattens(n, byPath) && HoldsOnlyEntries(n, byPath)
  {
    hide Entry, StepsText, SortedPaths, AscendingPaths, DistinctPaths, Flattens, HoldsOnlyEntries, Lists;
    list := CollectFields(n, ROOT);
    list := SortByPath(list);
    byPath := map[];
    for i := 0 to |list|
      invariant forall p :: p in byPath ==> byPath[p].path == p && byPath[p] in list
      invariant forall j :: 0 <= j < i ==> list[j].path in byPath
    {
      byPath := byPath[list[i].path := list[i]];
    }
    if NamesOk(n) {
      SortedDistinctAscends(list);
      MapHoldsEntries(n, byPath);
    }
  }

  /** A map of the fields listed, under their paths. */
  lemma MapHoldsEntries(n: Node, byPath: map<string, Field>)
    requires NamesOk(n)
    requires forall p :: p in byPath ==> byPath[p].path == p && Lists(n, ROOT, byPath[p])
    requires forall f :: Lists(n, ROOT, f) ==> f.path in byPath
    ensures Flattens(n, byPath) && HoldsOnlyEntries(n, byPath)
  {
    hide Entry, StepsText, Lists;
    forall steps | Folded(steps) && Entry(n, steps).Some?
      ensures ROOT + StepsText(steps) in byPath &&
        byPath[ROOT + StepsText(steps)] == Field(ROOT + StepsText(steps), Entry(n, steps).value.0, Entry(n, steps).value.1)
    {
      var p := ROOT + StepsText(steps);
      var f := Field(p, Entry(n, steps).value.0, Entry(n, steps).value.1);
      EntryIsListed(n, ROOT, f, steps);
      OnePathOneField(n, f, byPath[p]);
    }
    forall steps | Folded(steps) && StepNamesOk(steps) && ROOT + StepsText(steps) in byPath ensures Entry(n, steps).Some? {
      OnlyEntries(n, byPath[ROOT + StepsText(steps)], steps);
    }
  }

  ghost predicate HoldsOnlyEntries(n: Node, byPath: map<string, Field>) {
    forall steps :: Folded(steps) && StepNamesOk(steps) && ROOT + StepsText(steps) in byPath ==> Entry(n, steps).Some?
  }

  lemma OnlyEntries(n: Node, f: Field, steps: seq<PathStep>)
    requires NamesOk(n) && Lists(n, ROOT, f) && f.path == ROOT + StepsText(steps) && Folded(steps) && StepNamesOk(steps)
    ensures Entry(n, steps).Some?
  {
    var a := ListedIsEntry(n, ROOT, f);
    WalkedNamesOk(n, a);
    assert StepsText(a) == f.path[1..] == StepsText(steps);
    TextInjective(a, steps);
  }

  // ----- the key of a filter leaf -----

  lemma {:induction false} SubsText(subs: seq<Sub>)
    ensures StepsText(StepsOfSubs(FoldSubs(subs))) == RenderSubs(subs, true)
  {
    if subs != [] {
      SubsText(subs[1..]);
      assert FoldSubs(subs)[1..] == FoldSubs(subs[1..]);
      assert StepsOfSubs(FoldSubs(subs))[1..] == StepsOfSubs(FoldSubs(subs[1..]));
    }
  }

  lemma {:induction false} StepsTextConcat(a: seq<PathStep>, b: seq<PathStep>)
    ensures StepsText(a + b) == StepsText(a) + StepsText(b)
  {
    if a == [] {
      assert a + b == b;
    } else {
      assert (a + b)[1..] == a[1..] + b;
      StepsTextConcat(a[1..], b);
    }
  }

  /** The lookup key of a path is the text of its folded hops' way down the tree. */
  lemma {:induction false} KeyIsWay(hops: seq<Hop>)
    requires hops != []
    ensures LEADER + Render(hops, true) == ROOT + StepsText(Steps(FoldHops(hops)))
    decreases |hops|
  {
    var h, rest := hops[0], hops[1..];
    var head := [ByName(h.name)];
    var subs := StepsOfSubs(FoldSubs(h.subs));
    assert FoldHops(hops)[1..] == FoldHops(rest);
    assert Steps(FoldHops(hops)) == head + subs + Steps(FoldHops(rest));
    StepsTextConcat(head + subs, Steps(FoldHops(rest)));
    StepsTextConcat(head, subs);
    SubsText(h.subs);
    assert StepsText(head) == "." + h.name by { assert head[1..] == []; }
    if rest != [] {
      KeyIsWay(rest);
      DottedWay(rest);
    } else {
      assert StepsText(Steps(FoldHops(rest))) == "" == RenderDotted(rest, true);
    }
    Regrouped(h.name, RenderSubs(h.subs, true), RenderDotted(rest, true));
  }

  lemma DottedWay(rest: seq<Hop>)
    requires rest != [] && LEADER + Render(rest, true) == ROOT + StepsText(Steps(FoldHops(rest)))
    ensures StepsText(Steps(FoldHops(rest))) == RenderDotted(rest, true)
  {
    var a, b := Render(rest, true), StepsText(Steps(FoldHops(rest)));
    assert b == (ROOT + b)[1..] == (LEADER + a)[1..] == "." + a;
  }

  lemma Regrouped(name: string, subs: string, rest: string)
    ensures LEADER + (name + (subs + rest)) == ROOT + (("." + name) + subs + rest)
  {
  }

  lemma {:induction false} FoldedSteps(hops: seq<Hop>)
    ensures Folded(Steps(FoldHops(hops)))
  {
    if hops != [] {
      FoldedSteps(hops[1..]);
      assert FoldHops(hops)[1..] == FoldHops(hops[1..]);
    }
  }

  /** A filter leaf is given the types declared at the node its path leads to, whatever positions it names. */
  lemma LeafTypes(n: Node, byPath: map<string, Field>, hops: seq<Hop>)
    requires hops != [] && Entry(n, Steps(FoldHops(hops))).Some? && Flattens(n, byPath)
    ensures var key := LEADER + Render(hops, true);
      key in byPath && NodeAt(n, Steps(FoldHops(hops))).Some? &&
      byPath[key].types == DeclaredTypes(NodeAt(n, Steps(FoldHops(hops))).value)
  {
    KeyIsWay(hops);
    FoldedSteps(hops);
  }
}
