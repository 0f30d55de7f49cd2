/** Filter paths (filter_path.go, condition_filter.go): the grammar, its scan, its printer and the
    fold to a lookup key. A path is a string of bytes; every byte above 127 is outside the grammar. */
module FilterPath {
  import opened Numerals
  import opened Strings
  import opened Wrappers

  datatype Sub = Wildcard | At(index: nat)
  datatype Hop = Hop(name: string, subs: seq<Sub>)

  const MAX_INDEX := 0x7fff_ffff

  predicate IsNameChar(c: char) {
    'a' <= c <= 'z' || 'A' <= c <= 'Z' || '0' <= c <= '9' || c == '_' || c == '-'
  }

  /** IsArrayIndex. */
  predicate IsArrayIndex(s: string) {
    s != "" && AllDigits(s)
  }

  // ----- the grammar -----

  /** One hop as it is spelled: its name and the texts between its brackets. */
  datatype Spelled = Spelled(name: string, inners: seq<string>)

  predicate IsName(s: string) {
    s != "" && forall i :: 0 <= i < |s| ==> IsNameChar(s[i])
  }

  predicate IsInner(s: string) {
    s == "*" || (IsArrayIndex(s) && Number(s) <= MAX_INDEX)
  }

  predicate AllInners(inners: seq<string>) {
    forall i :: 0 <= i < |inners| ==> IsInner(inners[i])
  }

  predicate IsHop(h: Spelled) {
    IsName(h.name) && AllInners(h.inners)
  }

  predicate AllHops(hs: seq<Spelled>) {
    forall i :: 0 <= i < |hs| ==> IsHop(hs[i])
  }

  predicate IsSpelling(hs: seq<Spelled>) {
    hs != [] && AllHops(hs)
  }

  function Brackets(inners: seq<string>): string {
    if inners == [] then "" else "[" + inners[0] + "]" + Brackets(inners[1..])
  }

  /** hop ( "." hop )* */
  function Text(hs: seq<Spelled>): string
    decreases |hs|, 0
  {
    if hs == [] then "" else hs[0].name + (Brackets(hs[0].inners) + Dotted(hs[1..]))
  }

  function Dotted(hs: seq<Spelled>): string
    decreases |hs|, 1
  {
    if hs == [] then "" else "." + Text(hs)
  }

  function SubOf(inner: string): Sub
    requires IsInner(inner)
  {
    if inner == "*" then Wildcard else At(Number(inner))
  }

  function SubsOf(inners: seq<string>): (subs: seq<Sub>)
    requires AllInners(inners)
    ensures |subs| == |inners|
  {
    if inners == [] then [] else [SubOf(inners[0])] + SubsOf(inners[1..])
  }

  function HopsOf(hs: seq<Spelled>): (hops: seq<Hop>)
    requires AllHops(hs)
    ensures |hops| == |hs|
  {
    if hs == [] then [] else [Hop(hs[0].name, SubsOf(hs[0].inners))] + HopsOf(hs[1..])
  }

  /** The documented grammar: p is spelled by some hops, which mean hops. */
  ghost predicate Spells(p: string, hops: seq<Hop>) {
    exists hs :: IsSpelling(hs) && Text(hs) == p && HopsOf(hs) == hops
  }

  // ----- the scan -----

  function Word(s: string): (n: nat)
    ensures n <= |s|
  {
    if s == "" || !IsNameChar(s[0]) then 0 else 1 + Word(s[1..])
  }

  /** parsePathSub. */
  function ParseSub(inner: string): Option<Sub> {
    if IsInner(inner) then Some(SubOf(inner)) else None
  }

  /** The subscripts s begins with, and what follows them. */
  function ScanSubs(s: string): (r: Option<(seq<Sub>, string)>)
    ensures r.Some? ==> |r.value.1| <= |s|
    decreases |s|
  {
    if s == "" || s[0] != '[' then Some(([], s))
    else
      var k := Find(s, ']');
      if k == |s| || ParseSub(s[1..k]).None? then None
      else
        match ScanSubs(s[k + 1..])
        case None => None
        case Some((subs, rest)) => Some(([ParseSub(s[1..k]).value] + subs, rest))
  }

  function ScanHops(s: string): Option<seq<Hop>>
    decreases |s|
  {
    var n := Word(s);
    if n == 0 then None
    else
      match ScanSubs(s[n..])
      case None => None
      case Some((subs, rest)) =>
        if rest == "" then Some([Hop(s[..n], subs)])
        else if rest[0] != '.' then None
        else
          match ScanHops(rest[1..])
          case None => None
          case Some(hops) => Some([Hop(s[..n], subs)] + hops)
  }

  /** ParseFilterPath, with None for every rejection. */
  function Parse(p: string): Option<seq<Hop>> {
    if p == "" then Some([]) else ScanHops(p)
  }

  function After(hops: seq<Hop>, r: Option<seq<Hop>>): Option<seq<Hop>> {
    if r.None? then None else Some(hops + r.value)
  }

  function AfterSubs(subs: seq<Sub>, r: Option<(seq<Sub>, string)>): Option<(seq<Sub>, string)> {
    if r.None? then None else Some((subs + r.value.0, r.value.1))
  }

  lemma AfterStep(hops: seq<Hop>, hop: Hop, r: Option<seq<Hop>>)
    ensures After([], r) == r
    ensures After(hops, After([hop], r)) == After(hops + [hop], r)
    ensures After(hops, Some([hop])) == Some(hops + [hop])
  {
    if r.Some? {
      assert [] + r.value == r.value && hops + ([hop] + r.value) == hops + [hop] + r.value;
    }
  }

  lemma AfterSubsStep(subs: seq<Sub>, sub: Sub, r: Option<(seq<Sub>, string)>, rest: string)
    ensures AfterSubs([], r) == r
    ensures AfterSubs(subs, AfterSubs([sub], r)) == AfterSubs(subs + [sub], r)
    ensures AfterSubs(subs, Some(([], rest))) == Some((subs, rest))
  {
    if r.Some? {
      assert [] + r.value.0 == r.value.0 && subs + ([sub] + r.value.0) == subs + [sub] + r.value.0;
    }
    assert subs + [] == subs;
  }

  lemma WordStep(s: string, i: nat)
    requires i <= |s|
    ensures Word(s[i..]) == if i < |s| && IsNameChar(s[i]) then 1 + Word(s[i + 1..]) else 0
  {
    if i < |s| {
      assert s[i..][1..] == s[i + 1..];
    }
  }

  lemma ScanSubsStep(body: string, i: nat)
    requires i <= |body|
    ensures ScanSubs(body[i..]) ==
      if i == |body| || body[i] != '[' then Some(([], body[i..]))
      else
        var rel := Find(body[i..], ']');
        if rel == |body| - i || ParseSub(body[i + 1..i + rel]).None? then None
        else AfterSubs([ParseSub(body[i + 1..i + rel]).value], ScanSubs(body[i + rel + 1..]))
  {
    hide ParseSub, Find;
    var rel := Find(body[i..], ']');
    if i < |body| && body[i] == '[' && rel < |body| - i {
      assert body[i..][1..rel] == body[i + 1..i + rel] && body[i..][rel + 1..] == body[i + rel + 1..];
    }
  }

  lemma ScanHopsStep(body: string, i: nat, j: nat)
    requires i <= j <= |body| && Word(body[i..]) == j - i
    ensures ScanHops(body[i..]) ==
      if j == i then None
      else
        match ScanSubs(body[j..])
        case None => None
        case Some((subs, rest)) =>
          var hop := Hop(body[i..j], subs);
          if rest == "" then Some([hop]) else if rest[0] != '.' then None else After([hop], ScanHops(rest[1..]))
  {
    hide Word, ScanSubs;
    assert body[i..][..j - i] == body[i..j] && body[i..][j - i..] == body[j..];
  }

  lemma NothingToScan()
    ensures ScanHops("") == None
  {
  }

  /** scanPathHops' subscript loop, from body[start]. */
  method TakeSubs(body: string, start: nat) returns (subs: seq<Sub>, i: nat, ok: bool)
    requires start <= |body|
    ensures start <= i <= |body|
    ensures ScanSubs(body[start..]) == if ok then Some((subs, body[i..])) else None
  {
    hide ScanSubs, AfterSubs, IsInner, ParseSub;
    subs, i, ok := [], start, true;
    AfterSubsStep([], Wildcard, ScanSubs(body[start..]), "");
    while i < |body| && body[i] == '['
      invariant start <= i <= |body|
      invariant ScanSubs(body[start..]) == AfterSubs(subs, ScanSubs(body[i..]))
    {
      ScanSubsStep(body, i);
      var rel := Find(body[i..], ']');
      NoSubs(subs);
      if i + rel == |body| {
        return subs, i, false;
      }
      var sub := ParseSub(body[i + 1..i + rel]);
      if sub.None? {
        return subs, i, false;
      }
      AfterSubsStep(subs, sub.value, ScanSubs(body[i + rel + 1..]), "");
      subs := subs + [sub.value];
      i := i + rel + 1;
    }
    ScanSubsStep(body, i);
    AfterSubsStep(subs, Wildcard, None, body[i..]);
  }

  lemma NoSubs(subs: seq<Sub>)
    ensures AfterSubs(subs, None) == None
  {
  }

  /** scanPathHops, its cursor moving through the body. */
  method ScanPathHops(body: string) returns (r: Option<seq<Hop>>)
    ensures r == ScanHops(body)
  {
    hide ScanHops, ScanSubs, Word;
    var hops: seq<Hop>, i := [], 0;
    assert body[0..] == body;
    AfterStep([], Hop("", []), ScanHops(body));
    while true
      invariant 0 <= i <= |body|
      invariant ScanHops(body) == After(hops, ScanHops(body[i..]))
      decreases |body| - i
    {
      var nameStart := i;
      while i < |body| && IsNameChar(body[i])
        invariant nameStart <= i <= |body|
        invariant Word(body[nameStart..]) == i - nameStart + Word(body[i..])
      {
        WordStep(body, i);
        i := i + 1;
      }
      WordStep(body, i);
      ScanHopsStep(body, nameStart, i);
      if i == nameStart {
        return None;
      }
      var name := body[nameStart..i];
      var subs, next, ok := TakeSubs(body, i);
      if !ok {
        return None;
      }
      var hop := Hop(name, subs);
      ghost var before := hops;
      hops := hops + [hop];
      i := next;
      AfterStep(before, hop, None);
      if i == |body| {
        return Some(hops);
      }
      if body[i] != '.' {
        return None;
      }
      assert body[i..][1..] == body[i + 1..];
      i := i + 1;
      AfterStep(before, hop, ScanHops(body[i..]));
      NothingToScan();
      if i == |body| {
        assert body[i..] == "";
        return None;
      }
    }
  }

  /** ParseFilterPath. */
  method ParseFilterPath(p: string) returns (r: Option<seq<Hop>>)
    ensures r == Parse(p)
    ensures p != "" ==> forall hops :: Spells(p, hops) <==> r == Some(hops)
  {
    forall hops | p != "" ensures Spells(p, hops) <==> Parse(p) == Some(hops) {
      ParseIsGrammar(p, hops);
    }
    if p == "" {
      return Some([]);
    }
    r := ScanPathHops(p);
  }

  // ----- scan and grammar agree -----

  lemma {:induction false} WordOf(name: string, rest: string)
    requires forall i :: 0 <= i < |name| ==> IsNameChar(name[i])
    requires rest == "" || !IsNameChar(rest[0])
    ensures Word(name + rest) == |name|
  {
    if name == "" {
      assert name + rest == rest;
    } else {
      assert (name + rest)[1..] == name[1..] + rest;
      WordOf(name[1..], rest);
    }
  }

  lemma {:induction false} WordIsName(s: string)
    ensures forall i :: 0 <= i < Word(s) ==> IsNameChar(s[i])
    ensures Word(s) < |s| ==> !IsNameChar(s[Word(s)])
  {
    if s != "" && IsNameChar(s[0]) {
      WordIsName(s[1..]);
      assert forall i :: 0 < i < |s| ==> s[i] == s[1..][i - 1];
    }
  }

  lemma InnerChars(inner: string)
    requires IsInner(inner)
    ensures forall i :: 0 <= i < |inner| ==> inner[i] == '*' || IsDigit(inner[i])
  {
  }

  lemma FindIn(inner: string, rest: string)
    requires IsInner(inner)
    ensures Find("[" + inner + "]" + rest, ']') == |inner| + 1
  {
    InnerChars(inner);
    var s := "[" + inner + "]" + rest;
    assert s[|inner| + 1] == ']';
    assert forall i :: 0 < i <= |inner| ==> s[i] == inner[i - 1];
  }

  lemma InnersCons(inner: string, inners: seq<string>)
    requires IsInner(inner) && AllInners(inners)
    ensures AllInners([inner] + inners)
    ensures Brackets([inner] + inners) == "[" + inner + "]" + Brackets(inners)
    ensures SubsOf([inner] + inners) == [SubOf(inner)] + SubsOf(inners)
  {
    assert ([inner] + inners)[1..] == inners;
  }

  /** One subscript in front of a text. */
  lemma ScanOneSub(inner: string, after: string)
    requires IsInner(inner)
    ensures ScanSubs("[" + inner + "]" + after) ==
      match ScanSubs(after)
      case None => None
      case Some((subs, rest)) => Some(([SubOf(inner)] + subs, rest))
  {
    var s := "[" + inner + "]" + after;
    FindIn(inner, after);
    assert s[1..|inner| + 1] == inner && s[|inner| + 2..] == after;
  }

  /** s is these subscripts, then rest; and so ScanSubs reads it. */
  ghost predicate Reads(s: string, inners: seq<string>, rest: string) {
    && AllInners(inners) && s == Brackets(inners) + rest
    && ScanSubs(s) == Some((SubsOf(inners), rest))
  }

  lemma ReadsMore(s: string, inner: string, inners: seq<string>, rest: string)
    requires IsInner(inner) && Reads(s, inners, rest)
    ensures Reads("[" + inner + "]" + s, [inner] + inners, rest)
  {
    hide ScanSubs, Brackets, SubsOf, IsInner;
    ScanOneSub(inner, s);
    InnersCons(inner, inners);
    assert Brackets([inner] + inners) + rest == "[" + inner + "]" + s;
  }

  lemma ReadsNone(s: string)
    requires s == "" || s[0] != '['
    ensures Reads(s, [], s)
  {
  }

  lemma {:induction false} ScanSubsOf(inners: seq<string>, rest: string)
    requires AllInners(inners)
    requires rest == "" || rest[0] != '['
    ensures Reads(Brackets(inners) + rest, inners, rest)
    decreases |inners|
  {
    hide Reads, AllInners, SubsOf;
    ReadsNone(rest);
    if inners == [] {
      assert Brackets(inners) + rest == rest;
    } else {
      var tail := inners[1..];
      assert inners == [inners[0]] + tail;
      OfCons(inners[0], tail);
      ScanSubsOf(tail, rest);
      ReadsMore(Brackets(tail) + rest, inners[0], tail, rest);
      assert Brackets(inners) + rest == "[" + inners[0] + "]" + (Brackets(tail) + rest);
    }
  }

  lemma OfCons(inner: string, inners: seq<string>)
    requires AllInners([inner] + inners)
    ensures IsInner(inner) && AllInners(inners)
  {
    assert ([inner] + inners)[0] == inner && ([inner] + inners)[1..] == inners;
    assert forall i :: 0 <= i < |inners| ==> inners[i] == ([inner] + inners)[i + 1];
  }

  lemma TextCons(h: Spelled, hs: seq<Spelled>)
    requires IsHop(h) && AllHops(hs)
    ensures AllHops([h] + hs)
    ensures Text([h] + hs) == h.name + (Brackets(h.inners) + Dotted(hs))
    ensures HopsOf([h] + hs) == [Hop(h.name, SubsOf(h.inners))] + HopsOf(hs)
  {
    assert ([h] + hs)[1..] == hs;
  }

  lemma BracketsHead(inners: seq<string>)
    ensures Brackets(inners) == "" || Brackets(inners)[0] == '['
  {
  }

  ghost predicate ScansAs(s: string, hops: seq<Hop>) {
    ScanHops(s) == Some(hops)
  }

  /** One hop in front of a text. */
  lemma ScanOneHop(h: Spelled, rest: string, hops: seq<Hop>)
    requires IsHop(h)
    requires if rest == "" then hops == [] else rest[0] == '.' && ScansAs(rest[1..], hops)
    ensures ScansAs(h.name + (Brackets(h.inners) + rest), [Hop(h.name, SubsOf(h.inners))] + hops)
  {
    hide Brackets, SubsOf, Word, ScanSubs;
    var tail := Brackets(h.inners) + rest;
    var s := h.name + tail;
    BracketsHead(h.inners);
    WordOf(h.name, tail);
    assert s[..|h.name|] == h.name && s[|h.name|..] == tail;
    ScanSubsOf(h.inners, rest);
    assert Reads(tail, h.inners, rest);
    var hop := Hop(h.name, SubsOf(h.inners));
    assert rest == "" ==> [hop] + hops == [hop];
  }

  lemma {:induction false} SpelledIsScanned(hs: seq<Spelled>)
    requires IsSpelling(hs)
    ensures ScansAs(Text(hs), HopsOf(hs))
    decreases |hs|
  {
    hide ScansAs, Brackets, SubsOf;
    var h, more := hs[0], hs[1..];
    if more != [] {
      SpelledIsScanned(more);
      assert Dotted(more)[1..] == Text(more);
    }
    ScanOneHop(h, Dotted(more), HopsOf(more));
  }

  lemma NoHops()
    ensures HopsOf([]) == [] && AllHops([])
  {
  }

  lemma {:induction false} ScannedSubs(s: string) returns (inners: seq<string>, rest: string)
    requires ScanSubs(s).Some?
    ensures Reads(s, inners, rest) && (rest == "" || rest[0] != '[')
    decreases |s|
  {
    if s == "" || s[0] != '[' {
      inners, rest := [], s;
      ReadsNone(s);
    } else {
      hide Reads;
      var k := Find(s, ']');
      inners, rest := ScannedSubs(s[k + 1..]);
      ReadsMore(s[k + 1..], s[1..k], inners, rest);
      Bracketed(s, k);
      inners := [s[1..k]] + inners;
    }
  }

  lemma Bracketed(s: string, k: nat)
    requires 0 < k < |s| && s[0] == '[' && s[k] == ']'
    ensures s == "[" + s[1..k] + "]" + s[k + 1..]
  {
  }

  lemma {:induction false} ScannedIsSpelled(s: string) returns (hs: seq<Spelled>)
    requires ScanHops(s).Some?
    ensures IsSpelling(hs) && Text(hs) == s && HopsOf(hs) == ScanHops(s).value
    decreases |s|
  {
    hide Text, HopsOf, Brackets, SubsOf, ScanSubs, Word;
    var n := Word(s);
    WordIsName(s);
    var inners, rest := ScannedSubs(s[n..]);
    assert Reads(s[n..], inners, rest);
    var h := Spelled(s[..n], inners);
    assert s == s[..n] + (Brackets(inners) + rest);
    NoHops();
    if rest == "" {
      hs := [h];
      TextCons(h, []);
      assert [h] + [] == hs;
    } else {
      var more := ScannedIsSpelled(rest[1..]);
      hs := [h] + more;
      TextCons(h, more);
      assert rest == "." + rest[1..];
    }
  }

  /** ParseFilterPath accepts exactly the paths of the grammar, and reads their hops. */
  lemma ParseIsGrammar(p: string, hops: seq<Hop>)
    requires p != ""
    ensures Parse(p) == Some(hops) <==> Spells(p, hops)
  {
    if Parse(p) == Some(hops) {
      var hs := ScannedIsSpelled(p);
      assert IsSpelling(hs) && Text(hs) == p && HopsOf(hs) == hops;
    }
    if hs :| IsSpelling(hs) && Text(hs) == p && HopsOf(hs) == hops {
      SpelledIsScanned(hs);
      assert ScansAs(p, hops);
    }
  }

  // ----- the printer -----

  function RenderSub(sub: Sub, fold: bool): string {
    if fold || sub.Wildcard? then "[*]" else "[" + Digits(sub.index) + "]"
  }

  function RenderSubs(subs: seq<Sub>, fold: bool): string {
    if subs == [] then "" else RenderSub(subs[0], fold) + RenderSubs(subs[1..], fold)
  }

  /** renderPathHops. */
  function Render(hops: seq<Hop>, fold: bool): string
    decreases |hops|, 0
  {
    if hops == [] then "" else hops[0].name + (RenderSubs(hops[0].subs, fold) + RenderDotted(hops[1..], fold))
  }

  function RenderDotted(hops: seq<Hop>, fold: bool): string
    decreases |hops|, 1
  {
    if hops == [] then "" else "." + Render(hops, fold)
  }

  /** What is still to be written from hop i. */
  function Left(hops: seq<Hop>, fold: bool, i: nat): string
    requires i <= |hops|
  {
    if i == 0 then Render(hops, fold) else RenderDotted(hops[i..], fold)
  }

  lemma LeftStep(hops: seq<Hop>, fold: bool, i: nat)
    requires i < |hops|
    ensures Left(hops, fold, i) ==
      (if i == 0 then "" else ".") + (hops[i].name + (RenderSubs(hops[i].subs, fold) + Left(hops, fold, i + 1)))
  {
    assert hops[i..][1..] == hops[i + 1..] && hops[0..] == hops;
    assert hops[i..] != [] && hops[i..][0] == hops[i];
    assert Render(hops[i..], fold) == hops[i].name + (RenderSubs(hops[i].subs, fold) + RenderDotted(hops[i + 1..], fold));
    var rest := hops[i].name + (RenderSubs(hops[i].subs, fold) + RenderDotted(hops[i + 1..], fold));
    assert "" + rest == rest;
  }

  lemma Appended(whole: string, b: string, dot: string, name: string, subs: string, left: string)
    requires whole == b + (dot + (name + (subs + left)))
    ensures whole == (b + (dot + name + subs)) + left
  {
  }

  lemma RenderSubsStep(subs: seq<Sub>, fold: bool, j: nat)
    requires j < |subs|
    ensures RenderSubs(subs[j..], fold) == RenderSub(subs[j], fold) + RenderSubs(subs[j + 1..], fold)
  {
    assert subs[j..][1..] == subs[j + 1..];
  }

  /** renderPathHops as it is written, filling a buffer. */
  method RenderPathHops(hops: seq<Hop>, fold: bool) returns (b: string)
    ensures b == Render(hops, fold)
  {
    b := "";
    for i := 0 to |hops|
      invariant Render(hops, fold) == b + Left(hops, fold, i)
    {
      hide Render, RenderSubs, Left;
      LeftStep(hops, fold, i);
      var dot := if i > 0 then "." else "";
      var subs := RenderInto(hops[i].subs, fold);
      Appended(Render(hops, fold), b, dot, hops[i].name, subs, Left(hops, fold, i + 1));
      b := b + (dot + hops[i].name + subs);
    }
    assert hops[|hops|..] == [];
  }

  method RenderInto(subs: seq<Sub>, fold: bool) returns (b: string)
    ensures b == RenderSubs(subs, fold)
  {
    hide RenderSubs;
    b := "";
    assert subs[0..] == subs;
    for j := 0 to |subs|
      invariant b + RenderSubs(subs[j..], fold) == RenderSubs(subs, fold)
    {
      RenderSubsStep(subs, fold, j);
      if fold || subs[j].Wildcard? {
        b := b + "[*]";
      } else {
        b := b + ("[" + Digits(subs[j].index) + "]");
      }
    }
    RenderNoSubs(fold);
    assert subs[|subs|..] == [];
  }

  lemma RenderNoSubs(fold: bool)
    ensures RenderSubs([], fold) == ""
  {
  }

  // ----- the grammar's letters -----

  /** A to Z, a to z, 0 to 9, the underscore and the dash, by their codes. */
  lemma NameCharIs(c: char)
    ensures IsNameChar(c) <==> 65 <= c as int <= 90 || 97 <= c as int <= 122 || 48 <= c as int <= 57 || c as int in {95, 45}
  {
  }

  /** A subscript is a star, or digits for an index below 2^31. */
  lemma InnerIs(s: string)
    ensures IsInner(s) <==> s == "*" || (s != "" && (forall c :: c in s ==> c in "0123456789") && AllDigits(s) && Number(s) < 2_147_483_648)
  {
    if AllDigits(s) {
      forall c | c in s ensures c in "0123456789" {
        assert "0123456789"[c as int - '0' as int] == c;
      }
    }
  }

  /** Names are joined by dots, and each is followed by its subscripts in brackets. */
  lemma ParseExample()
    ensures Parse("a[7][*].b") == Some([Hop("a", [At(7), Wildcard]), Hop("b", [])])
  {
    hide Parse, Text, HopsOf;
    var hs := [Spelled("a", ["7", "*"]), Spelled("b", [])];
    assert "7"[..0] == "" && Number("7") == 7;
    assert IsSpelling(hs);
    ExampleText();
    ExampleHops();
    assert Spells("a[7][*].b", [Hop("a", [At(7), Wildcard]), Hop("b", [])]);
    ParseIsGrammar("a[7][*].b", [Hop("a", [At(7), Wildcard]), Hop("b", [])]);
  }

  lemma ExampleText()
    ensures Text([Spelled("a", ["7", "*"]), Spelled("b", [])]) == "a[7][*].b"
  {
    var star, seven, b := ["*"], ["7", "*"], [Spelled("b", [])];
    var hs := [Spelled("a", seven)] + b;
    BracketsText();
    assert star[1..] == [] && seven[1..] == star && hs[1..] == b && b[1..] == [];
    assert Brackets(star) == "[" + "*" + "]" + Brackets([]) && Brackets(seven) == "[" + "7" + "]" + Brackets(star);
    hide Brackets;
    assert Text(b) == "b" + ("" + "") == "b" by { assert Brackets([]) == ""; }
    assert hs == [Spelled("a", ["7", "*"]), Spelled("b", [])];
    assert Text(hs) == "a" + ("[7][*]" + ("." + "b"));
  }

  lemma BracketsText()
    ensures "[" + "*" + "]" + "" == "[*]" && "[" + "7" + "]" + "[*]" == "[7][*]"
    ensures "a" + ("[7][*]" + ("." + "b")) == "a[7][*].b"
    ensures Brackets([]) == ""
  {
  }

  lemma ExampleHops()
    ensures AllHops([Spelled("a", ["7", "*"]), Spelled("b", [])])
    ensures HopsOf([Spelled("a", ["7", "*"]), Spelled("b", [])]) == [Hop("a", [At(7), Wildcard]), Hop("b", [])]
  {
    var hs := [Spelled("a", ["7", "*"]), Spelled("b", [])];
    assert "7"[..0] == "" && Number("7") == 7;
    assert ["7", "*"][1..] == ["*"] && ["*"][1..] == [] && hs[1..] == [Spelled("b", [])] && hs[1..][1..] == [];
    assert SubsOf(["*"]) == [Wildcard] && SubsOf(["7", "*"]) == [At(7), Wildcard];
    assert HopsOf(hs[1..]) == [Hop("b", [])];
  }
}
