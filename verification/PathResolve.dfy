/** ResolvePath (filter_path_resolve.go): the values a filter path addresses in a JSON document. */
module PathResolve {
  import opened Wrappers
  import opened FilterPath
  import opened FilterPathLaws
  import opened JsonValues

  function Lookup(fields: seq<(string, Json)>, name: string): Found {
    if fields == [] then None else if fields[0].0 == name then Some(fields[0].1) else Lookup(fields[1..], name)
  }

  /** fieldResult. */
  function FieldOf(r: Found, name: string): Found {
    if r.Some? && r.value.Object? then Lookup(r.value.fields, name) else None
  }

  /** indexResult. */
  function ElementAt(r: Found, index: nat): Found {
    if r.Some? && r.value.Array? && index < |r.value.elems| then Some(r.value.elems[index]) else None
  }

  function Elements(r: Found): seq<Found> {
    if r.Some? && r.value.Array? then seq(|r.value.elems|, i requires 0 <= i < |r.value.elems| => Some(r.value.elems[i]))
    else []
  }

  // ----- what a path addresses -----

  datatype PathStep = ByName(name: string) | BySub(sub: Sub)

  function StepsOfSubs(subs: seq<Sub>): seq<PathStep> {
    seq(|subs|, i requires 0 <= i < |subs| => BySub(subs[i]))
  }

  function Steps(hops: seq<Hop>): seq<PathStep> {
    if hops == [] then [] else [ByName(hops[0].name)] + StepsOfSubs(hops[0].subs) + Steps(hops[1..])
  }

  /** What one step makes of one result. */
  function StepTo(r: Found, step: PathStep): seq<Found> {
    match step
    case ByName(name) => [FieldOf(r, name)]
    case BySub(Wildcard) => Elements(r)
    case BySub(At(i)) => [ElementAt(r, i)]
  }

  function StepAll(rs: seq<Found>, step: PathStep): seq<Found> {
    if rs == [] then [] else StepTo(rs[0], step) + StepAll(rs[1..], step)
  }

  /** The values the steps address from one result, depth first: document order. */
  function Address(r: Found, steps: seq<PathStep>): seq<Found>
    decreases |steps|, 0, 0
  {
    if steps == [] then [r] else AddressAll(StepTo(r, steps[0]), steps[1..])
  }

  function AddressAll(rs: seq<Found>, steps: seq<PathStep>): seq<Found>
    decreases |steps|, 1, |rs|
  {
    if rs == [] then [] else Address(rs[0], steps) + AddressAll(rs[1..], steps)
  }

  lemma {:induction false} AddressAllConcat(a: seq<Found>, b: seq<Found>, steps: seq<PathStep>)
    ensures AddressAll(a + b, steps) == AddressAll(a, steps) + AddressAll(b, steps)
    decreases |a|
  {
    if a == [] {
      assert a + b == b;
    } else {
      assert (a + b)[1..] == a[1..] + b;
      AddressAllConcat(a[1..], b, steps);
    }
  }

  /** Taking one step from every result at once. */
  lemma {:induction false} BreadthFirst(rs: seq<Found>, step: PathStep, steps: seq<PathStep>)
    ensures AddressAll(rs, [step] + steps) == AddressAll(StepAll(rs, step), steps)
    decreases |rs|
  {
    if rs != [] {
      assert ([step] + steps)[1..] == steps;
      BreadthFirst(rs[1..], step, steps);
      AddressAllConcat(StepTo(rs[0], step), StepAll(rs[1..], step), steps);
    }
  }

  lemma {:induction false} AddressNothing(rs: seq<Found>)
    ensures AddressAll(rs, []) == rs
  {
    if rs != [] {
      AddressNothing(rs[1..]);
      assert rs == [rs[0]] + rs[1..];
    }
  }

  // ----- the loops -----

  lemma StepAllSnoc(rs: seq<Found>, i: nat, step: PathStep)
    requires i < |rs|
    ensures StepAll(rs[..i + 1], step) == StepAll(rs[..i], step) + StepTo(rs[i], step)
  {
    assert rs[..i + 1] == rs[..i] + [rs[i]];
    StepAllConcat(rs[..i], [rs[i]], step);
    assert [rs[i]][1..] == [] && StepTo(rs[i], step) + [] == StepTo(rs[i], step);
  }

  lemma {:induction false} StepAllConcat(a: seq<Found>, b: seq<Found>, step: PathStep)
    ensures StepAll(a + b, step) == StepAll(a, step) + StepAll(b, step)
  {
    if a == [] {
      assert a + b == b;
    } else {
      assert (a + b)[1..] == a[1..] + b;
      StepAllConcat(a[1..], b, step);
    }
  }

  method TakeField(results: seq<Found>, name: string) returns (next: seq<Found>)
    ensures next == StepAll(results, ByName(name))
  {
    hide StepAll;
    next := [];
    StepNone(ByName(name));
    for i := 0 to |results|
      invariant next == StepAll(results[..i], ByName(name))
    {
      StepAllSnoc(results, i, ByName(name));
      next := next + [FieldOf(results[i], name)];
    }
    assert results[..|results|] == results;
  }

  lemma StepNone(step: PathStep)
    ensures StepAll([], step) == []
  {
  }

  method TakeSub(results: seq<Found>, sub: Sub) returns (next: seq<Found>)
    ensures next == StepAll(results, BySub(sub))
  {
    hide StepAll, Elements;
    next := [];
    StepNone(BySub(sub));
    for i := 0 to |results|
      invariant next == StepAll(results[..i], BySub(sub))
    {
      var r := results[i];
      StepAllSnoc(results, i, BySub(sub));
      if sub.Wildcard? {
        var elems := TakeElements(r);
        next := next + elems;
      } else {
        next := next + [ElementAt(r, sub.index)];
      }
    }
    assert results[..|results|] == results;
  }

  method TakeElements(r: Found) returns (elems: seq<Found>)
    ensures elems == Elements(r)
  {
    elems := [];
    if r.Some? && r.value.Array? {
      for j := 0 to |r.value.elems|
        invariant elems == Elements(r)[..j]
      {
        elems := elems + [Some(r.value.elems[j])];
      }
    }
  }

  lemma StepsCons(hops: seq<Hop>, i: nat)
    requires i < |hops|
    ensures Steps(hops[i..]) == [ByName(hops[i].name)] + (StepsOfSubs(hops[i].subs) + Steps(hops[i + 1..]))
  {
    assert hops[i..][1..] == hops[i + 1..];
  }

  lemma SubsCons(subs: seq<Sub>, j: nat, rest: seq<PathStep>)
    requires j < |subs|
    ensures StepsOfSubs(subs[j..]) + rest == [BySub(subs[j])] + (StepsOfSubs(subs[j + 1..]) + rest)
  {
  }

  /** ResolvePath: the lists replaced hop by hop end as the values the path addresses, in document order. */
  method ResolvePath(doc: Json, hops: seq<Hop>) returns (results: seq<Found>)
    ensures results == Address(Some(doc), Steps(hops))
  {
    hide AddressAll, StepAll, Steps, StepsOfSubs;
    results := [Some(doc)];
    AddressOne(Some(doc), Steps(hops));
    assert hops[0..] == hops;
    for i := 0 to |hops|
      invariant AddressAll(results, Steps(hops[i..])) == Address(Some(doc), Steps(hops))
    {
      var subs, rest := hops[i].subs, Steps(hops[i + 1..]);
      StepsCons(hops, i);
      BreadthFirst(results, ByName(hops[i].name), StepsOfSubs(subs) + rest);
      results := TakeField(results, hops[i].name);
      assert subs[0..] == subs;
      for j := 0 to |subs|
        invariant AddressAll(results, StepsOfSubs(subs[j..]) + rest) == Address(Some(doc), Steps(hops))
      {
        SubsCons(subs, j, rest);
        BreadthFirst(results, BySub(subs[j]), StepsOfSubs(subs[j + 1..]) + rest);
        results := TakeSub(results, subs[j]);
      }
      NoSteps(subs[|subs|..], rest);
    }
    NoHopsLeft(hops[|hops|..]);
    AddressNothing(results);
  }

  lemma NoSteps(subs: seq<Sub>, rest: seq<PathStep>)
    requires subs == []
    ensures StepsOfSubs(subs) + rest == rest
  {
  }

  lemma NoHopsLeft(hops: seq<Hop>)
    requires hops == []
    ensures Steps(hops) == []
  {
  }

  lemma AddressOne(r: Found, steps: seq<PathStep>)
    ensures AddressAll([r], steps) == Address(r, steps)
  {
    assert [r][1..] == [] && AddressAll([], steps) == [];
    assert Address(r, steps) + [] == Address(r, steps);
  }

  // ----- step by step -----

  predicate FirstNamed(fields: seq<(string, Json)>, name: string, k: nat) {
    k < |fields| && fields[k].0 == name && forall j :: 0 <= j < k ==> fields[j].0 != name
  }

  lemma {:induction false} LookupMeans(fields: seq<(string, Json)>, name: string)
    ensures forall k: nat :: FirstNamed(fields, name, k) ==> Lookup(fields, name) == Some(fields[k].1)
    ensures (forall k :: 0 <= k < |fields| ==> fields[k].0 != name) <==> Lookup(fields, name) == None
  {
    if fields != [] {
      LookupMeans(fields[1..], name);
      forall k: nat | FirstNamed(fields, name, k) ensures Lookup(fields, name) == Some(fields[k].1) {
        if k > 0 {
          assert FirstNamed(fields[1..], name, k - 1);
        }
      }
      assert forall k :: 0 < k < |fields| ==> fields[k] == fields[1..][k - 1];
      assert forall k :: 0 <= k < |fields| - 1 ==> fields[1..][k] == fields[k + 1];
    }
  }

  /** A name leads to the first member of an object so named, and anywhere else to nothing. */
  lemma NameAddresses(r: Found, name: string, rest: seq<PathStep>, k: nat)
    ensures r.Some? && r.value.Object? && FirstNamed(r.value.fields, name, k) ==>
      Address(r, [ByName(name)] + rest) == Address(Some(r.value.fields[k].1), rest)
    ensures !(r.Some? && r.value.Object? && exists j :: 0 <= j < |r.value.fields| && r.value.fields[j].0 == name) ==>
      Address(r, [ByName(name)] + rest) == Address(None, rest)
  {
    OneStep(r, ByName(name), rest);
    AddressOne(FieldOf(r, name), rest);
    if r.Some? && r.value.Object? {
      LookupMeans(r.value.fields, name);
    }
  }

  /** [i] leads to the array's element i, and anywhere else to nothing. */
  lemma IndexAddresses(r: Found, i: nat, rest: seq<PathStep>)
    ensures Address(r, [BySub(At(i))] + rest) ==
      Address(if r.Some? && r.value.Array? && i < |r.value.elems| then Some(r.value.elems[i]) else None, rest)
  {
    OneStep(r, BySub(At(i)), rest);
    AddressOne(ElementAt(r, i), rest);
  }

  /** [*] leads to every element of an array, the first one's values first, and anywhere else nowhere. */
  lemma WildcardAddresses(r: Found, rest: seq<PathStep>)
    ensures !(r.Some? && r.value.Array?) || r.value.elems == [] ==> Address(r, [BySub(Wildcard)] + rest) == []
    ensures r.Some? && r.value.Array? && r.value.elems != [] ==>
      Address(r, [BySub(Wildcard)] + rest) ==
        Address(Some(r.value.elems[0]), rest) + Address(Some(Array(r.value.elems[1..])), [BySub(Wildcard)] + rest)
  {
    OneStep(r, BySub(Wildcard), rest);
    if r.Some? && r.value.Array? && r.value.elems != [] {
      var others := Some(Array(r.value.elems[1..]));
      OneStep(others, BySub(Wildcard), rest);
      assert Elements(r)[1..] == Elements(others);
    }
  }

  lemma OneStep(r: Found, step: PathStep, rest: seq<PathStep>)
    ensures Address(r, [step] + rest) == AddressAll(StepTo(r, step), rest)
  {
    assert ([step] + rest)[1..] == rest;
  }

  // ----- wildcards -----

  predicate IsWildcard(step: PathStep) {
    step.BySub? && step.sub.Wildcard?
  }

  /** A path without a wildcard addresses exactly one result, which may not exist. */
  lemma {:induction false} NoWildcardOneResult(r: Found, steps: seq<PathStep>)
    requires forall i :: 0 <= i < |steps| ==> !IsWildcard(steps[i])
    ensures |Address(r, steps)| == 1
    decreases |steps|
  {
    if steps != [] {
      var next := StepTo(r, steps[0])[0];
      NoWildcardOneResult(next, steps[1..]);
      AddressOne(next, steps[1..]);
    }
  }

  /** steps with each wildcard replaced by some index. */
  predicate Instance(steps: seq<PathStep>, picked: seq<PathStep>) {
    |picked| == |steps| &&
    forall i :: 0 <= i < |steps| ==>
      if IsWildcard(steps[i]) then picked[i].BySub? && picked[i].sub.At? else picked[i] == steps[i]
  }

  lemma {:induction false} InAll(rs: seq<Found>, steps: seq<PathStep>, x: Found)
    ensures x in AddressAll(rs, steps) <==> exists i :: 0 <= i < |rs| && x in Address(rs[i], steps)
  {
    if rs != [] {
      InAll(rs[1..], steps, x);
      if i :| 0 <= i < |rs| && x in Address(rs[i], steps) {
        assert i > 0 ==> x in Address(rs[1..][i - 1], steps);
      }
      if x in AddressAll(rs[1..], steps) {
        var i :| 0 <= i < |rs| - 1 && x in Address(rs[1..][i], steps);
        assert rs[1..][i] == rs[i + 1];
      }
    }
  }

  lemma {:induction false} NothingFromNothing(steps: seq<PathStep>, x: Json)
    requires steps != []
    ensures Some(x) !in Address(None, steps)
    decreases |steps|
  {
    InAll(StepTo(None, steps[0]), steps[1..], Some(x));
    if |steps| > 1 {
      NothingFromNothing(steps[1..], x);
    }
  }

  /** A value a wildcard path addresses is the one some positional path of it addresses. */
  lemma {:induction false} WildcardPicks(r: Found, steps: seq<PathStep>, x: Json) returns (picked: seq<PathStep>)
    requires Some(x) in Address(r, steps)
    ensures Instance(steps, picked) && Address(r, picked) == [Some(x)]
    decreases |steps|
  {
    if steps == [] {
      picked := [];
    } else {
      var rest := steps[1..];
      InAll(StepTo(r, steps[0]), rest, Some(x));
      var i :| 0 <= i < |StepTo(r, steps[0])| && Some(x) in Address(StepTo(r, steps[0])[i], rest);
      var next := StepTo(r, steps[0])[i];
      var more := WildcardPicks(next, rest, x);
      var first := if IsWildcard(steps[0]) then BySub(At(i)) else steps[0];
      picked := [first] + more;
      assert StepTo(r, first) == [next] && picked[1..] == more;
      AddressOne(next, more);
    }
  }

  /** An existing value a positional path addresses is among those of its wildcard path. */
  lemma {:induction false} PickIsAmong(r: Found, steps: seq<PathStep>, picked: seq<PathStep>, x: Json)
    requires Instance(steps, picked) && Some(x) in Address(r, picked)
    ensures Some(x) in Address(r, steps)
    decreases |steps|
  {
    if steps == [] {
      assert picked == [];
    } else {
      var rest, more := steps[1..], picked[1..];
      InAll(StepTo(r, picked[0]), more, Some(x));
      var i :| 0 <= i < |StepTo(r, picked[0])| && Some(x) in Address(StepTo(r, picked[0])[i], more);
      var next := StepTo(r, picked[0])[i];
      assert Instance(rest, more);
      PickIsAmong(next, rest, more, x);
      InAll(StepTo(r, steps[0]), rest, Some(x));
      if IsWildcard(steps[0]) {
        Reached(r, picked[0].sub.index, rest, x);
      }
    }
  }

  lemma Reached(r: Found, index: nat, rest: seq<PathStep>, x: Json)
    requires Some(x) in Address(ElementAt(r, index), rest)
    ensures exists i :: 0 <= i < |Elements(r)| && Some(x) in Address(Elements(r)[i], rest)
  {
    if ElementAt(r, index).None? {
      if rest != [] {
        NothingFromNothing(rest, x);
      }
    } else {
      assert Elements(r)[index] == ElementAt(r, index);
    }
  }

  /** The existing values of a path with wildcards are exactly those of its positional paths. */
  lemma WildcardIsAllPositions(r: Found, steps: seq<PathStep>, x: Json)
    ensures Some(x) in Address(r, steps) <==>
      exists picked :: Instance(steps, picked) && Address(r, picked) == [Some(x)]
  {
    if Some(x) in Address(r, steps) {
      var picked := WildcardPicks(r, steps, x);
    }
    if picked :| Instance(steps, picked) && Address(r, picked) == [Some(x)] {
      PickIsAmong(r, steps, picked, x);
    }
  }

  /** A positional path is an instance of its fold: what it addresses, the folded path addresses. */
  lemma {:induction false} FoldAddressesMore(r: Found, hops: seq<Hop>, x: Json)
    requires Some(x) in Address(r, Steps(hops))
    ensures Some(x) in Address(r, Steps(FoldHops(hops)))
  {
    var picked := WildcardPicks(r, Steps(hops), x);
    FoldOfInstance(hops, picked);
    PickIsAmong(r, Steps(FoldHops(hops)), picked, x);
  }

  lemma {:induction false} FoldOfInstance(hops: seq<Hop>, picked: seq<PathStep>)
    requires Instance(Steps(hops), picked)
    ensures Instance(Steps(FoldHops(hops)), picked)
  {
    if hops != [] {
      var n := 1 + |hops[0].subs|;
      var head, tail := [ByName(hops[0].name)] + StepsOfSubs(hops[0].subs), Steps(hops[1..]);
      assert Steps(hops) == head + tail;
      assert Instance(tail, picked[n..]) by {
        assert forall i :: 0 <= i < |tail| ==> Steps(hops)[n + i] == tail[i];
      }
      FoldOfInstance(hops[1..], picked[n..]);
      assert FoldHops(hops)[1..] == FoldHops(hops[1..]);
      var head' := [ByName(hops[0].name)] + StepsOfSubs(FoldSubs(hops[0].subs));
      assert Steps(FoldHops(hops)) == head' + Steps(FoldHops(hops[1..]));
      assert forall i :: 0 <= i < n ==> Steps(hops)[i] == head[i];
    }
  }
}
