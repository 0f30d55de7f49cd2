/** What the filter-path functions promise together: printing and parsing undo each other, the fold
    to a lookup key, and the element paths of an array clause. */
module FilterPathLaws {
  import opened Numerals
  import opened Wrappers
  import opened FilterPath

  // ----- printing, then parsing -----

  /** Hops a path can spell. */
  predicate ValidHop(h: Hop) {
    IsName(h.name) && forall i :: 0 <= i < |h.subs| ==> h.subs[i].At? ==> h.subs[i].index <= MAX_INDEX
  }

  predicate ValidHops(hops: seq<Hop>) {
    hops != [] && forall i :: 0 <= i < |hops| ==> ValidHop(hops[i])
  }

  function InnersOf(subs: seq<Sub>): seq<string> {
    if subs == [] then [] else [if subs[0].Wildcard? then "*" else Digits(subs[0].index)] + InnersOf(subs[1..])
  }

  function SpellingOf(hops: seq<Hop>): seq<Spelled> {
    if hops == [] then [] else [Spelled(hops[0].name, InnersOf(hops[0].subs))] + SpellingOf(hops[1..])
  }

  predicate SmallSubs(subs: seq<Sub>) {
    forall i :: 0 <= i < |subs| ==> subs[i].At? ==> subs[i].index <= MAX_INDEX
  }

  lemma {:induction false} RenderedSubs(subs: seq<Sub>)
    requires SmallSubs(subs)
    ensures AllInners(InnersOf(subs)) && SubsOf(InnersOf(subs)) == subs
    ensures Brackets(InnersOf(subs)) == RenderSubs(subs, false)
  {
    if subs != [] {
      hide Number, Digits;
      var inner := if subs[0].Wildcard? then "*" else Digits(subs[0].index);
      if subs[0].At? {
        DigitsNumber(subs[0].index);
        assert IsArrayIndex(inner) && inner != "*" by { assert IsDigit(inner[0]); }
      }
      RenderedSubs(subs[1..]);
      InnersCons(inner, InnersOf(subs[1..]));
    }
  }

  lemma {:induction false} RenderedHops(hops: seq<Hop>)
    requires forall i :: 0 <= i < |hops| ==> ValidHop(hops[i])
    ensures AllHops(SpellingOf(hops)) && HopsOf(SpellingOf(hops)) == hops && |SpellingOf(hops)| == |hops|
    ensures Text(SpellingOf(hops)) == Render(hops, false)
  {
    if hops != [] {
      var h := Spelled(hops[0].name, InnersOf(hops[0].subs));
      assert SmallSubs(hops[0].subs) by { assert ValidHop(hops[0]); }
      RenderedSubs(hops[0].subs);
      RenderedHops(hops[1..]);
      TextCons(h, SpellingOf(hops[1..]));
    }
  }

  /** Parsing what renderPathHops printed gives the hops back. */
  lemma ParseOfRender(hops: seq<Hop>)
    requires ValidHops(hops)
    ensures Parse(Render(hops, false)) == Some(hops)
  {
    hide Text, HopsOf, SpellingOf, Render;
    var hs := SpellingOf(hops);
    RenderedHops(hops);
    assert IsSpelling(hs) && Text(hs) == Render(hops, false) && HopsOf(hs) == hops;
    SpelledIsScanned(hs);
    assert ScansAs(Text(hs), hops);
    TextNotEmpty(hs);
  }

  lemma TextNotEmpty(hs: seq<Spelled>)
    requires IsSpelling(hs)
    ensures Text(hs) != ""
  {
    assert IsHop(hs[0]);
  }

  lemma {:induction false} SmallSubsOf(inners: seq<string>)
    requires AllInners(inners)
    ensures SmallSubs(SubsOf(inners))
  {
    if inners != [] {
      SmallSubsOf(inners[1..]);
    }
  }

  lemma {:induction false} SpelledHops(hs: seq<Spelled>)
    requires AllHops(hs)
    ensures forall i :: 0 <= i < |hs| ==> ValidHop(HopsOf(hs)[i])
  {
    if hs != [] {
      SmallSubsOf(hs[0].inners);
      SpelledHops(hs[1..]);
    }
  }

  /** Whatever parses has hops a path can spell. */
  lemma ParsedHops(p: string)
    requires p != "" && Parse(p).Some?
    ensures ValidHops(Parse(p).value)
  {
    var hs := ScannedIsSpelled(p);
    SpelledHops(hs);
  }

  // ----- the fold -----

  function FoldSubs(subs: seq<Sub>): seq<Sub> {
    seq(|subs|, i => Wildcard)
  }

  function FoldHops(hops: seq<Hop>): seq<Hop> {
    seq(|hops|, i requires 0 <= i < |hops| => Hop(hops[i].name, FoldSubs(hops[i].subs)))
  }

  lemma {:induction false} RenderFoldedSubs(subs: seq<Sub>)
    ensures RenderSubs(subs, true) == RenderSubs(FoldSubs(subs), false)
  {
    if subs != [] {
      RenderFoldedSubs(subs[1..]);
      assert FoldSubs(subs)[1..] == FoldSubs(subs[1..]);
    }
  }

  lemma {:induction false} RenderFolded(hops: seq<Hop>)
    ensures Render(hops, true) == Render(FoldHops(hops), false)
  {
    if hops != [] {
      RenderFoldedSubs(hops[0].subs);
      RenderFolded(hops[1..]);
      assert FoldHops(hops)[1..] == FoldHops(hops[1..]);
    }
  }

  lemma FoldTwice(hops: seq<Hop>)
    ensures FoldHops(FoldHops(hops)) == FoldHops(hops)
  {
    forall i | 0 <= i < |hops| ensures FoldSubs(FoldSubs(hops[i].subs)) == FoldSubs(hops[i].subs) {
    }
  }

  lemma FoldedHopsValid(hops: seq<Hop>)
    requires ValidHops(hops)
    ensures ValidHops(FoldHops(hops))
  {
  }

  const LEADER := "$."

  /** strings.CutPrefix(path, "$."). */
  function CutLeader(path: string): Option<string> {
    if LEADER <= path then Some(path[2..]) else None
  }

  /** foldSubscriptWildcards. */
  function Fold(key: string): string {
    match CutLeader(key)
    case None => key
    case Some(rest) =>
      if '[' !in rest then key
      else
        match Parse(rest)
        case None => key
        case Some(hops) => LEADER + Render(hops, true)
  }

  lemma LeaderCut(rest: string)
    ensures CutLeader(LEADER + rest) == Some(rest)
  {
  }

  lemma {:induction false} NoBrackets(hs: seq<Spelled>)
    requires AllHops(hs)
    ensures '[' !in Text(hs) ==> Render(HopsOf(hs), true) == Text(hs)
  {
    if hs != [] {
      NoBrackets(hs[1..]);
      if hs[0].inners != [] {
        assert Brackets(hs[0].inners)[0] == '[' && Brackets(hs[0].inners)[0] in Brackets(hs[0].inners);
      } else {
        assert "." + Text(hs[1..]) == Dotted(hs[1..]) || hs[1..] == [];
      }
    }
  }

  /** The lookup key of a path that parses is its hops printed with every subscript a wildcard. */
  lemma FoldIsRender(rest: string)
    requires rest != "" && Parse(rest).Some?
    ensures Fold(LEADER + rest) == LEADER + Render(Parse(rest).value, true)
  {
    hide Render, ScanHops;
    LeaderCut(rest);
    if '[' !in rest {
      var hs := ScannedIsSpelled(rest);
      NoBrackets(hs);
    }
  }

  /** Folding twice folds once, for every string. */
  lemma FoldIdempotent(key: string)
    ensures Fold(Fold(key)) == Fold(key)
  {
    hide Render, ScanHops;
    if CutLeader(key).Some? && '[' in CutLeader(key).value && Parse(CutLeader(key).value).Some? {
      var rest := CutLeader(key).value;
      var hops := Parse(rest).value;
      ParsedHops(rest);
      FoldOfHops(hops);
    }
  }

  lemma FoldOfHops(hops: seq<Hop>)
    requires ValidHops(hops)
    ensures Parse(Render(hops, true)) == Some(FoldHops(hops)) && Render(hops, true) != ""
    ensures Fold(LEADER + Render(hops, true)) == LEADER + Render(hops, true)
  {
    hide ScanHops;
    RenderFolded(hops);
    FoldedHopsValid(hops);
    ParseOfRender(FoldHops(hops));
    FoldTwice(hops);
    RenderFolded(FoldHops(hops));
    assert hops[0].name != "" by { assert ValidHop(hops[0]); }
    FoldIsRender(Render(hops, true));
  }

  // ----- the wire boundary -----

  predicate Contains(s: string, t: string) {
    t <= s || (s != "" && Contains(s[1..], t))
  }

  predicate ContainsBracketQuote(s: string) {
    Contains(s, "['") || Contains(s, "']") || Contains(s, "[\"") || Contains(s, "\"]")
  }

  /** stripDollarDot, with None for every rejection. */
  function StripDollarDot(path: string): Option<string> {
    match CutLeader(path)
    case None => None
    case Some(rest) =>
      if rest == "" || ContainsBracketQuote(rest) || ScanHops(rest).None? then None else Some(rest)
  }

  predicate IsPathChar(c: char) {
    IsNameChar(c) || c == '.' || c == '[' || c == ']' || c == '*'
  }

  predicate PathChars(s: string) {
    forall i :: 0 <= i < |s| ==> IsPathChar(s[i])
  }

  lemma {:induction false} BracketsChars(inners: seq<string>)
    requires AllInners(inners)
    ensures PathChars(Brackets(inners))
  {
    if inners != [] {
      InnerChars(inners[0]);
      BracketsChars(inners[1..]);
      assert PathChars("[" + inners[0] + "]");
    }
  }

  lemma {:induction false} TextChars(hs: seq<Spelled>)
    requires AllHops(hs)
    ensures PathChars(Text(hs))
  {
    if hs != [] {
      TextChars(hs[1..]);
      BracketsChars(hs[0].inners);
      assert PathChars(hs[0].name) && PathChars(Dotted(hs[1..]));
    }
  }

  /** The wire boundary accepts the leader followed by a path of the grammar, and no other path. */
  lemma StripIsGrammar(path: string, rest: string)
    ensures StripDollarDot(path) == Some(rest) <==> path == "$." + rest && exists hops :: Spells(rest, hops)
  {
    hide ScanHops, Contains;
    if path == LEADER + rest && rest != "" && Parse(rest).Some? {
      var hs := ScannedIsSpelled(rest);
      TextChars(hs);
      NoQuote(rest);
      ParseIsGrammar(rest, Parse(rest).value);
    }
    if hops :| Spells(rest, hops) {
      SpelledNotEmpty(rest, hops);
      ParseIsGrammar(rest, hops);
    }
  }

  lemma SpelledNotEmpty(p: string, hops: seq<Hop>)
    requires Spells(p, hops)
    ensures p != ""
  {
    var hs :| IsSpelling(hs) && Text(hs) == p && HopsOf(hs) == hops;
    TextNotEmpty(hs);
  }

  lemma PrefixChar(s: string, t: string, k: nat)
    requires PathChars(s) && k < |t|
    ensures t <= s ==> IsPathChar(t[k])
  {
    if t <= s {
      assert s[k] == t[k];
    }
  }

  lemma {:induction false} NotContained(s: string, t: string, k: nat)
    requires PathChars(s) && k < |t| && !IsPathChar(t[k])
    ensures !Contains(s, t)
  {
    PrefixChar(s, t, k);
    if s != "" {
      NotContained(s[1..], t, k);
    }
  }

  lemma NoQuote(s: string)
    requires PathChars(s)
    ensures !ContainsBracketQuote(s)
  {
    NotContained(s, "['", 1);
    NotContained(s, "']", 0);
    NotContained(s, "[\"", 1);
    NotContained(s, "\"]", 0);
  }

  /** What stripDollarDot accepted, it stripped of the leader, and it parses. */
  lemma Stripped(path: string)
    requires StripDollarDot(path).Some?
    ensures var rest := StripDollarDot(path).value;
      path == LEADER + rest && rest != "" && Parse(rest).Some? && ValidHops(Parse(rest).value)
  {
    hide ScanHops;
    ParsedHops(StripDollarDot(path).value);
  }

  lemma StripOfHops(hops: seq<Hop>)
    requires ValidHops(hops)
    ensures StripDollarDot(LEADER + Render(hops, false)) == Some(Render(hops, false))
  {
    hide ScanHops, Contains;
    ParseOfRender(hops);
    var rest := Render(hops, false);
    assert rest != "" by { assert ValidHop(hops[0]); }
    ParseIsGrammar(rest, hops);
    StripIsGrammar(LEADER + rest, rest);
  }

  // ----- the element paths of an array clause -----

  /** The hops of position i: a last wildcard becomes i, otherwise i is added. */
  function ElementHops(hops: seq<Hop>, i: nat): seq<Hop>
    requires hops != []
  {
    var n := |hops| - 1;
    var subs := hops[n].subs;
    hops[..n] + [Hop(hops[n].name,
      (if subs != [] && subs[|subs| - 1].Wildcard? then subs[..|subs| - 1] else subs) + [At(i)])]
  }

  predicate EndsIn(s: string, t: string) {
    |t| <= |s| && s[|s| - |t|..] == t
  }

  /** desugarArrayElementPath. */
  function ElementPath(path: string, i: nat): string {
    var parsed := if CutLeader(path).Some? then Parse(CutLeader(path).value) else None;
    if parsed.Some? && parsed.value != [] then LEADER + Render(ElementHops(parsed.value, i), false)
    else (if EndsIn(path, "[*]") then path[..|path| - 3] else path) + "[" + Digits(i) + "]"
  }

  lemma ElementHopsValid(hops: seq<Hop>, i: nat)
    requires ValidHops(hops) && i <= MAX_INDEX
    ensures ValidHops(ElementHops(hops, i))
  {
  }

  /** Every position folds to the same hops, the container's when it ends in a wildcard. */
  lemma ElementsFoldAlike(hops: seq<Hop>, i: nat, j: nat)
    requires hops != []
    ensures FoldHops(ElementHops(hops, i)) == FoldHops(ElementHops(hops, j))
    ensures var subs := hops[|hops| - 1].subs;
      subs != [] && subs[|subs| - 1].Wildcard? ==> FoldHops(ElementHops(hops, i)) == FoldHops(hops)
  {
    var n := |hops| - 1;
    var a, b := ElementHops(hops, i), ElementHops(hops, j);
    assert FoldSubs(a[n].subs) == FoldSubs(b[n].subs);
    assert forall k :: 0 <= k < n ==> a[k] == hops[k] == b[k];
    var subs := hops[n].subs;
    if subs != [] && subs[|subs| - 1].Wildcard? {
      assert FoldSubs(a[n].subs) == FoldSubs(subs);
    }
  }

  /** The element path of a well-formed container is the element's hops, printed. */
  lemma ElementPathParses(path: string, i: nat)
    requires StripDollarDot(path).Some? && i <= MAX_INDEX
    ensures var hops := Parse(StripDollarDot(path).value).value;
      && hops != []
      && ElementPath(path, i) == LEADER + Render(ElementHops(hops, i), false)
      && StripDollarDot(ElementPath(path, i)) == Some(Render(ElementHops(hops, i), false))
      && Parse(Render(ElementHops(hops, i), false)) == Some(ElementHops(hops, i))
  {
    hide ScanHops, Contains, ElementHops, Render;
    Stripped(path);
    var hops := Parse(StripDollarDot(path).value).value;
    ElementHopsValid(hops, i);
    StripOfHops(ElementHops(hops, i));
    ParseOfRender(ElementHops(hops, i));
  }

  /** Every element of a container looks its types up under one key, the container's own when the
      container ends in the wildcard. */
  lemma ElementsShareKey(path: string, i: nat, j: nat)
    requires StripDollarDot(path).Some? && i <= MAX_INDEX && j <= MAX_INDEX
    ensures Fold(ElementPath(path, i)) == Fold(ElementPath(path, j))
    ensures var hops := Parse(StripDollarDot(path).value).value;
      hops != [] && (var subs := hops[|hops| - 1].subs;
        subs != [] && subs[|subs| - 1].Wildcard? ==> Fold(ElementPath(path, i)) == Fold(path))
  {
    hide ScanHops, Contains, Render, Fold, ElementPath, StripDollarDot;
    Stripped(path);
    var rest := StripDollarDot(path).value;
    var hops := Parse(rest).value;
    ElementsFoldAlike(hops, i, j);
    ElementKey(path, i);
    ElementKey(path, j);
    FoldIsRender(rest);
    RenderFolded(ElementHops(hops, i));
    RenderFolded(ElementHops(hops, j));
    RenderFolded(hops);
  }

  lemma ElementKey(path: string, i: nat)
    requires StripDollarDot(path).Some? && i <= MAX_INDEX
    ensures var hops := Parse(StripDollarDot(path).value).value;
      hops != [] && Fold(ElementPath(path, i)) == LEADER + Render(ElementHops(hops, i), true)
  {
    ElementPathParses(path, i);
    hide ScanHops, Contains, Render, Fold, ElementPath, ElementHops;
    Stripped(ElementPath(path, i));
    FoldIsRender(StripDollarDot(ElementPath(path, i)).value);
  }

  // ----- a malformed container stays malformed -----

  lemma {:induction false} BracketsSnoc(inners: seq<string>, x: string)
    ensures Brackets(inners + [x]) == Brackets(inners) + ("[" + x + "]")
  {
    if inners == [] {
      assert inners + [x] == [x] && [x][1..] == [];
    } else {
      assert (inners + [x])[1..] == inners[1..] + [x];
      BracketsSnoc(inners[1..], x);
    }
  }

  /** The text of some hops up to the brackets of the last. */
  function BeforeLast(hs: seq<Spelled>): string
    requires hs != []
  {
    if |hs| == 1 then hs[0].name else hs[0].name + (Brackets(hs[0].inners) + ("." + BeforeLast(hs[1..])))
  }

  lemma {:induction false} TextEnd(hs: seq<Spelled>)
    requires hs != []
    ensures Text(hs) == BeforeLast(hs) + Brackets(hs[|hs| - 1].inners)
  {
    if |hs| > 1 {
      TextEnd(hs[1..]);
      assert hs[1..][|hs| - 2] == hs[|hs| - 1];
    } else {
      assert Dotted(hs[1..]) == "";
    }
  }

  lemma {:induction false} SameBefore(hs: seq<Spelled>, inners: seq<string>)
    requires hs != []
    ensures BeforeLast(hs[..|hs| - 1] + [Spelled(hs[|hs| - 1].name, inners)]) == BeforeLast(hs)
  {
    var last := Spelled(hs[|hs| - 1].name, inners);
    var hs' := hs[..|hs| - 1] + [last];
    if |hs| > 1 {
      SameBefore(hs[1..], inners);
      assert hs'[1..] == hs[1..][..|hs| - 2] + [last];
    }
  }

  lemma {:induction false} BeforeLastEnd(hs: seq<Spelled>)
    requires IsSpelling(hs)
    ensures BeforeLast(hs) != "" && IsNameChar(BeforeLast(hs)[|BeforeLast(hs)| - 1])
  {
    assert IsHop(hs[0]);
    if |hs| > 1 {
      BeforeLastEnd(hs[1..]);
    }
  }

  /** hs with the brackets of its last hop replaced. */
  lemma WithBrackets(hs: seq<Spelled>, inners: seq<string>) returns (hs': seq<Spelled>)
    requires IsSpelling(hs) && AllInners(inners)
    ensures IsSpelling(hs') && Text(hs') == BeforeLast(hs) + Brackets(inners)
  {
    var n := |hs| - 1;
    hs' := hs[..n] + [Spelled(hs[n].name, inners)];
    assert IsHop(hs[n]);
    SameBefore(hs, inners);
    TextEnd(hs');
  }

  /** Where two texts end in a bracketed part with no bracket inside, they split alike. */
  lemma SameSplit(a: string, x: string, b: string, y: string)
    requires a + ("[" + x + "]") == b + ("[" + y + "]")
    requires '[' !in x && '[' !in y
    ensures a == b && x == y
  {
    var s := a + ("[" + x + "]");
    var t := b + ("[" + y + "]");
    NotShorter(a, x, b, y);
    NotShorter(b, y, a, x);
    assert a == s[..|a|] && b == t[..|b|] && x == s[|a| + 1..|s| - 1] && y == t[|b| + 1..|t| - 1];
  }

  lemma NotShorter(a: string, x: string, b: string, y: string)
    requires a + ("[" + x + "]") == b + ("[" + y + "]")
    ensures |a| + |x| == |b| + |y|
    ensures |a| < |b| ==> '[' in x
  {
    var s := a + ("[" + x + "]");
    assert s[|b|] == '[';
    if |a| < |b| {
      assert s[|b|] == x[|b| - |a| - 1];
    }
  }

  /** A path that ends in a subscript is a path without it, and with any other in its place. */
  lemma LastSubscript(v: string, d: string)
    requires Parse(v + ("[" + d + "]")).Some? && '[' !in d
    ensures IsInner(d) && v != "" && Parse(v).Some? && Parse(v + "[*]").Some?
  {
    hide ScanHops, Text, BeforeLast, IsInner;
    var s := v + ("[" + d + "]");
    var hs := ScannedIsSpelled(s);
    var inners := hs[|hs| - 1].inners;
    TextEnd(hs);
    assert s[|s| - 1] == ']';
    assert IsHop(hs[|hs| - 1]);
    if inners == [] {
      EndsInName(hs);
    }
    var n := |inners| - 1;
    assert inners == inners[..n] + [inners[n]];
    BracketsSnoc(inners[..n], inners[n]);
    LastOk(inners);
    SameSplit(BeforeLast(hs) + Brackets(inners[..n]), inners[n], v, d);
    Reparse(hs, inners[..n], v);
    BracketsSnoc(inners[..n], "*");
    Reparse(hs, inners[..n] + ["*"], v + "[*]");
  }

  lemma EndsInName(hs: seq<Spelled>)
    requires IsSpelling(hs) && hs[|hs| - 1].inners == []
    ensures Text(hs) != "" && IsNameChar(Text(hs)[|Text(hs)| - 1])
  {
    TextEnd(hs);
    BeforeLastEnd(hs);
  }

  lemma LastOk(inners: seq<string>)
    requires inners != [] && AllInners(inners)
    ensures var n := |inners| - 1;
      IsInner(inners[n]) && '[' !in inners[n] && AllInners(inners[..n]) && AllInners(inners[..n] + ["*"])
  {
    InnerChars(inners[|inners| - 1]);
  }

  lemma Reparse(hs: seq<Spelled>, inners: seq<string>, p: string)
    requires IsSpelling(hs) && AllInners(inners) && p == BeforeLast(hs) + Brackets(inners)
    ensures p != "" && Parse(p).Some?
  {
    hide ScanHops;
    BeforeLastEnd(hs);
    var hs' := WithBrackets(hs, inners);
    SpelledIsScanned(hs');
    assert ScansAs(p, HopsOf(hs'));
  }

  lemma {:induction false} RenderSubsEnd(subs: seq<Sub>, i: nat)
    ensures RenderSubs(subs + [At(i)], false) == RenderSubs(subs, false) + ("[" + Digits(i) + "]")
  {
    if subs == [] {
      assert subs + [At(i)] == [At(i)] && [At(i)][1..] == [];
    } else {
      RenderSubsEnd(subs[1..], i);
      assert (subs + [At(i)])[1..] == subs[1..] + [At(i)];
    }
  }

  lemma {:induction false} RenderEnd(hops: seq<Hop>, name: string, subs: seq<Sub>, i: nat) returns (v: string)
    ensures Render(hops + [Hop(name, subs + [At(i)])], false) == v + ("[" + Digits(i) + "]")
  {
    var all := hops + [Hop(name, subs + [At(i)])];
    if hops == [] {
      RenderSubsEnd(subs, i);
      v := name + RenderSubs(subs, false);
      assert all[1..] == [];
    } else {
      var w := RenderEnd(hops[1..], name, subs, i);
      assert all[1..] == hops[1..] + [Hop(name, subs + [At(i)])];
      v := hops[0].name + (RenderSubs(hops[0].subs, false) + ("." + w));
    }
  }

  /** An element path is a path exactly when its container is one and the position fits an index:
      the textual fallback for a malformed container never yields a path. */
  lemma ElementPathIff(path: string, i: nat)
    ensures StripDollarDot(ElementPath(path, i)).Some? <==> StripDollarDot(path).Some? && i <= MAX_INDEX
  {
    if StripDollarDot(path).Some? && i <= MAX_INDEX {
      ElementPathParses(path, i);
    } else if StripDollarDot(ElementPath(path, i)).Some? {
      if StripDollarDot(path).Some? {
        LargePosition(path, i);
      } else {
        MalformedContainer(path, i);
      }
    }
  }

  lemma DigitsPlain(n: nat)
    ensures '[' !in Digits(n) && (IsInner(Digits(n)) ==> n <= MAX_INDEX)
  {
    DigitsNumber(n);
    assert IsDigit(Digits(n)[0]);
  }

  lemma LargePosition(path: string, i: nat)
    requires StripDollarDot(path).Some? && StripDollarDot(ElementPath(path, i)).Some?
    ensures i <= MAX_INDEX
  {
    hide ScanHops, Contains, Render, Digits, IsInner;
    Stripped(path);
    Stripped(ElementPath(path, i));
    var hops := Parse(StripDollarDot(path).value).value;
    var h := ElementHops(hops, i)[|hops| - 1];
    var v := RenderEnd(hops[..|hops| - 1], h.name, h.subs[..|h.subs| - 1], i);
    assert ElementHops(hops, i) == hops[..|hops| - 1] + [Hop(h.name, h.subs[..|h.subs| - 1] + [At(i)])];
    assert StripDollarDot(ElementPath(path, i)).value == v + ("[" + Digits(i) + "]");
    DigitsPlain(i);
    LastSubscript(v, Digits(i));
  }

  lemma MalformedContainer(path: string, i: nat)
    requires StripDollarDot(ElementPath(path, i)).Some?
    ensures StripDollarDot(path).Some?
  {
    hide ScanHops, Contains, Render, Digits, IsInner, ElementHops;
    Stripped(ElementPath(path, i));
    var parsed := if CutLeader(path).Some? then Parse(CutLeader(path).value) else None;
    if parsed.Some? && parsed.value != [] {
      Accepted(CutLeader(path).value);
    } else {
      var rest := StripDollarDot(ElementPath(path, i)).value;
      var u := if EndsIn(path, "[*]") then path[..|path| - 3] else path;
      assert LEADER + rest == u + ("[" + Digits(i) + "]");
      HasLeader(u, Digits(i), rest);
      DigitsPlain(i);
      LastSubscript(u[2..], Digits(i));
      Accepted(u[2..]);
      Accepted(u[2..] + "[*]");
      assert EndsIn(path, "[*]") ==> path == LEADER + (u[2..] + "[*]");
    }
  }

  lemma HasLeader(u: string, d: string, rest: string)
    requires LEADER + rest == u + ("[" + d + "]")
    ensures LEADER <= u && rest == u[2..] + ("[" + d + "]") && u == LEADER + u[2..]
  {
    var s := LEADER + rest;
    assert s[0] == '$' && s[1] == '.' && s[|u|] == '[';
    assert |u| >= 2;
    assert u == s[..|u|];
    assert rest == s[2..];
  }

  lemma Accepted(rest: string)
    requires rest != "" && Parse(rest).Some?
    ensures StripDollarDot(LEADER + rest) == Some(rest)
  {
    hide ScanHops, Contains;
    ParseIsGrammar(rest, Parse(rest).value);
    StripIsGrammar(LEADER + rest, rest);
  }
}
