/** like_pattern.go: LIKE tokenised once and matched by a greedy scan with a single
    backtrack point. Operands and stored values are sequences of code points, which is
    what the source's byte strings come to when both are valid UTF-8. */
module LikePattern {
  import opened Wrappers

  datatype LikeTok = Lit(text: string) | One | Any

  /** The grammar of filter.go, read directly off the operand: '%' is any run, '_' any one
      character, '\X' the character X, and anything else itself. */
  ghost predicate Glob(p: string, s: string)
    decreases |p|
  {
    if p == "" then s == ""
    else if p[0] == '%' then exists k | 0 <= k <= |s| :: Glob(p[1..], s[k..])
    else if p[0] == '_' then s != "" && Glob(p[1..], s[1..])
    else if p[0] == '\\' then |p| >= 2 && s != "" && s[0] == p[1] && Glob(p[2..], s[1..])
    else s != "" && s[0] == p[0] && Glob(p[1..], s[1..])
  }

  /** The only malformed operand ends in an escape that escapes nothing. */
  predicate WellFormed(p: string) {
    if p == "" then true
    else if p[0] == '\\' then |p| >= 2 && WellFormed(p[2..])
    else WellFormed(p[1..])
  }

  /** The strings that t followed by a string of l makes up. */
  ghost function Then(t: LikeTok, l: iset<string>): iset<string> {
    match t
    case Lit(text) => iset s: string | text <= s && s[|text|..] in l
    case One => iset s: string | s != "" && s[1..] in l
    case Any => iset s: string | exists k | 0 <= k <= |s| :: s[k..] in l
  }

  /** The strings that the tokens followed by a string of l make up. */
  ghost function Language(toks: seq<LikeTok>, l: iset<string>): iset<string> {
    if toks == [] then l else Then(toks[0], Language(toks[1..], l))
  }

  ghost predicate Accepts(toks: seq<LikeTok>, s: string) {
    s in Language(toks, iset{""})
  }

  /** What the tokeniser never emits: an empty or adjacent literal, or adjacent '%'. */
  predicate Tidy(toks: seq<LikeTok>) {
    && (forall i | 0 <= i < |toks| :: toks[i].Lit? ==> toks[i].text != "")
    && (forall i | 0 < i < |toks| :: !(toks[i - 1].Lit? && toks[i].Lit?) && !(toks[i - 1].Any? && toks[i].Any?))
  }

  // ----- the tokeniser -----

  ghost function GlobLanguage(p: string): iset<string> {
    iset s: string | Glob(p, s)
  }

  lemma {:induction false} LanguageSnoc(toks: seq<LikeTok>, t: LikeTok, l: iset<string>)
    ensures Language(toks + [t], l) == Language(toks, Then(t, l))
  {
    hide Then;
    if toks == [] {
      assert [] + [t] == [t] && [t][1..] == [];
    } else {
      assert (toks + [t])[1..] == toks[1..] + [t];
      LanguageSnoc(toks[1..], t, l);
    }
  }

  lemma EmptyLiteral(l: iset<string>)
    ensures Then(Lit(""), l) == l
  {
    assert forall s: string :: s[0..] == s;
  }

  /** A literal followed by one more character is a longer literal. */
  lemma LiteralGrows(lit: string, c: char, l: iset<string>)
    ensures Then(Lit(lit), Then(Lit([c]), l)) == Then(Lit(lit + [c]), l)
  {
    forall s: string ensures s in Then(Lit(lit), Then(Lit([c]), l)) <==> s in Then(Lit(lit + [c]), l) {
      if lit <= s {
        var r := s[|lit|..];
        assert s == lit + r;
        if r != "" {
          assert r[1..] == s[|lit| + 1..];
          assert [c] <= r <==> r[0] == c;
          assert lit + [c] <= s <==> r[0] == c;
        }
      }
    }
  }

  /** A run of '%' means what one does. */
  lemma AnyAny(l: iset<string>)
    ensures Then(Any, Then(Any, l)) == Then(Any, l)
  {
    forall s: string ensures s in Then(Any, Then(Any, l)) <==> s in Then(Any, l) {
      if s in Then(Any, Then(Any, l)) {
        var k :| 0 <= k <= |s| && s[k..] in Then(Any, l);
        var m :| 0 <= m <= |s[k..]| && s[k..][m..] in l;
        assert s[k..][m..] == s[k + m..];
      }
      if s in Then(Any, l) {
        assert s[0..] == s;
      }
    }
  }

  lemma GlobCharacter(p: string, c: char, rest: string)
    requires (p == [c] + rest && c !in {'%', '_', '\\'}) || p == ['\\', c] + rest
    ensures GlobLanguage(p) == Then(Lit([c]), GlobLanguage(rest))
  {
    if p[0] == '\\' { assert p[2..] == rest; } else { assert p[1..] == rest; }
    forall s: string ensures Glob(p, s) <==> [c] <= s && Glob(rest, s[1..]) {
      assert [c] <= s <==> s != "" && s[0] == c;
    }
  }

  lemma GlobWildcard(p: string, t: LikeTok)
    requires p != "" && (if p[0] == '%' then t == Any else p[0] == '_' && t == One)
    ensures GlobLanguage(p) == Then(t, GlobLanguage(p[1..]))
  {
  }

  /** The tokens with the literal under construction, if any, appended. */
  function Flushed(toks: seq<LikeTok>, lit: string): seq<LikeTok> {
    if lit == "" then toks else toks + [Lit(lit)]
  }

  lemma FlushedLanguage(toks: seq<LikeTok>, lit: string, l: iset<string>)
    ensures Language(Flushed(toks, lit), l) == Language(toks, Then(Lit(lit), l))
  {
    hide Then, Language;
    if lit == "" {
      EmptyLiteral(l);
    } else {
      LanguageSnoc(toks, Lit(lit), l);
    }
  }

  lemma GlobOfNothing(p: string)
    requires p == ""
    ensures GlobLanguage(p) == iset{""}
  {
  }

  lemma CollapseAny(toks: seq<LikeTok>, l: iset<string>)
    requires toks != [] && toks[|toks| - 1].Any?
    ensures Language(toks, Then(Any, l)) == Language(toks, l)
  {
    hide Then, Language;
    var init := toks[..|toks| - 1];
    assert toks == init + [Any];
    LanguageSnoc(init, Any, l);
    LanguageSnoc(init, Any, Then(Any, l));
    AnyAny(l);
  }

  /** The operand up to i has moved into the tokens and the literal under construction. */
  ghost predicate Reads(operand: string, i: nat, toks: seq<LikeTok>, lit: string)
    requires i <= |operand|
  {
    GlobLanguage(operand) == Language(toks, Then(Lit(lit), GlobLanguage(operand[i..])))
  }

  lemma ReadsNothing(operand: string)
    ensures Reads(operand, 0, [], "")
  {
    hide Then;
    EmptyLiteral(GlobLanguage(operand));
    assert operand[0..] == operand;
  }

  /** An ordinary character, or an escaped one, joins the literal. */
  lemma ReadsCharacter(operand: string, i: nat, n: nat, toks: seq<LikeTok>, lit: string)
    requires 1 <= n <= 2 && i + n <= |operand| && Reads(operand, i, toks, lit)
    requires if n == 2 then operand[i] == '\\' else operand[i] !in {'%', '_', '\\'}
    ensures Reads(operand, i + n, toks, lit + [operand[i + n - 1]])
  {
    hide Then, Language, Glob;
    var rest, c := operand[i + n..], operand[i + n - 1];
    assert operand[i..] == (if n == 2 then ['\\', c] else [c]) + rest;
    GlobCharacter(operand[i..], c, rest);
    LiteralGrows(lit, c, GlobLanguage(rest));
  }

  /** A wildcard flushes the literal and becomes the last token; a second '%' in a row
      is already there. */
  lemma ReadsWildcard(operand: string, i: nat, t: LikeTok, toks: seq<LikeTok>, lit: string, toks': seq<LikeTok>)
    requires i < |operand| && Reads(operand, i, toks, lit)
    requires if operand[i] == '%' then t == Any else operand[i] == '_' && t == One
    requires var f := Flushed(toks, lit);
      toks' == f + [t] || (t == Any && f != [] && f[|f| - 1] == Any && toks' == f)
    ensures Reads(operand, i + 1, toks', "")
  {
    hide Then, Language, Glob;
    var l, f := GlobLanguage(operand[i + 1..]), Flushed(toks, lit);
    assert operand[i..][1..] == operand[i + 1..];
    GlobWildcard(operand[i..], t);
    FlushedLanguage(toks, lit, Then(t, l));
    EmptyLiteral(l);
    if toks' == f {
      CollapseAny(f, l);
    } else {
      LanguageSnoc(f, t, l);
    }
  }

  lemma ReadsAll(operand: string, toks: seq<LikeTok>, lit: string)
    requires Reads(operand, |operand|, toks, lit)
    ensures forall s :: Accepts(Flushed(toks, lit), s) <==> Glob(operand, s)
  {
    hide Then, Language, Glob;
    var l := GlobLanguage(operand[|operand|..]);
    GlobOfNothing(operand[|operand|..]);
    FlushedLanguage(toks, lit, l);
    forall s ensures Glob(operand, s) <==> s in GlobLanguage(operand) {}
  }

  /** The tokens of what is left of an operand, after those emitted and the literal being read. */
  function TokensFrom(p: string, toks: seq<LikeTok>, lit: string): seq<LikeTok>
    decreases |p|
  {
    if p == "" then Flushed(toks, lit)
    else if p[0] == '\\' then if |p| < 2 then [] else TokensFrom(p[2..], toks, lit + [p[1]])
    else if p[0] == '%' then
      var flushed := Flushed(toks, lit);
      TokensFrom(p[1..], if flushed != [] && flushed[|flushed| - 1].Any? then flushed else flushed + [Any], "")
    else if p[0] == '_' then TokensFrom(p[1..], Flushed(toks, lit) + [One], "")
    else TokensFrom(p[1..], toks, lit + [p[0]])
  }

  function Tokens(operand: string): seq<LikeTok> {
    TokensFrom(operand, [], "")
  }

  lemma TidyWildcard(toks: seq<LikeTok>, t: LikeTok)
    requires Tidy(toks) && !t.Lit? && (t.Any? && toks != [] ==> !toks[|toks| - 1].Any?)
    ensures Tidy(toks + [t])
  {
  }

  method Flush(toks: seq<LikeTok>, lit: string) returns (r: seq<LikeTok>)
    ensures r == Flushed(toks, lit)
  {
    r := toks;
    if |lit| > 0 {
      r := toks + [Lit(lit)];
    }
  }

  lemma TidyFlushed(toks: seq<LikeTok>, lit: string)
    requires Tidy(toks) && (toks == [] || !toks[|toks| - 1].Lit?)
    ensures Tidy(Flushed(toks, lit))
  {
  }

  lemma {:induction false} TokensFromMean(operand: string, i: nat, toks: seq<LikeTok>, lit: string)
    requires i <= |operand| && WellFormed(operand[i..]) && Reads(operand, i, toks, lit)
    requires Tidy(toks) && (toks == [] || !toks[|toks| - 1].Lit?)
    ensures var all := TokensFrom(operand[i..], toks, lit);
      Tidy(all) && forall s :: Accepts(all, s) <==> Glob(operand, s)
    decreases |operand| - i
  {
    hide Reads, Glob, Accepts, Tidy;
    var flushed := Flushed(toks, lit);
    TidyFlushed(toks, lit);
    if i == |operand| {
      ReadsAll(operand, toks, lit);
    } else {
      assert operand[i..][1..] == operand[i + 1..];
      if operand[i] == '\\' {
        assert operand[i..][2..] == operand[i + 2..];
        ReadsCharacter(operand, i, 2, toks, lit);
        TokensFromMean(operand, i + 2, toks, lit + [operand[i + 1]]);
      } else if operand[i] == '%' {
        var next := if flushed != [] && flushed[|flushed| - 1].Any? then flushed else flushed + [Any];
        if next != flushed {
          TidyWildcard(flushed, Any);
        }
        ReadsWildcard(operand, i, Any, toks, lit, next);
        TokensFromMean(operand, i + 1, next, "");
      } else if operand[i] == '_' {
        TidyWildcard(flushed, One);
        ReadsWildcard(operand, i, One, toks, lit, flushed + [One]);
        TokensFromMean(operand, i + 1, flushed + [One], "");
      } else {
        ReadsCharacter(operand, i, 1, toks, lit);
        TokensFromMean(operand, i + 1, toks, lit + [operand[i]]);
      }
    }
  }

  /** The tokens of a well-formed operand are tidy and accept what the operand means. */
  lemma TokensMean(operand: string)
    requires WellFormed(operand)
    ensures Tidy(Tokens(operand)) && forall s :: Accepts(Tokens(operand), s) <==> Glob(operand, s)
  {
    hide Reads, Glob, Accepts;
    ReadsNothing(operand);
    assert operand[0..] == operand;
    TokensFromMean(operand, 0, [], "");
  }

  /** parseLikePattern: fails exactly on an unpaired trailing escape, at its position, and
      otherwise returns tidy tokens that accept what the operand means. */
  method ParseLikePattern(operand: string) returns (r: Result<seq<LikeTok>, nat>)
    ensures r.Success? <==> WellFormed(operand)
    ensures r.Failure? ==> r.error + 1 == |operand| && operand[r.error] == '\\'
    ensures r.Success? ==> r.value == Tokens(operand)
    ensures r.Success? ==> Tidy(r.value) && forall s :: Accepts(r.value, s) <==> Glob(operand, s)
  {
    hide Glob, Accepts, Tidy;
    var toks: seq<LikeTok>, lit: string := [], "";
    var i := 0;
    assert operand[0..] == operand;
    while i < |operand|
      invariant 0 <= i <= |operand|
      invariant WellFormed(operand) <==> WellFormed(operand[i..])
      invariant Tokens(operand) == TokensFrom(operand[i..], toks, lit)
    {
      if operand[i] == '\\' {
        if i + 1 >= |operand| {
          return Failure(i);
        }
        assert operand[i..][2..] == operand[i + 2..];
        lit := lit + [operand[i + 1]];
        i := i + 2;
        continue;
      }
      assert operand[i..][1..] == operand[i + 1..];
      if operand[i] == '%' {
        toks := Flush(toks, lit);
        if |toks| == 0 || !toks[|toks| - 1].Any? {
          toks := toks + [Any];
        }
        lit := "";
      } else if operand[i] == '_' {
        toks := Flush(toks, lit);
        toks := toks + [One];
        lit := "";
      } else {
        lit := lit + [operand[i]];
      }
      i := i + 1;
    }
    toks := Flush(toks, lit);
    TokensMean(operand);
    return Success(toks);
  }

  // ----- the matcher -----

  function FixedLength(toks: seq<LikeTok>): nat {
    if toks == [] then 0
    else (match toks[0] case Lit(text) => |text| case One => 1 case Any => 0) + FixedLength(toks[1..])
  }

  predicate NoAny(toks: seq<LikeTok>) {
    forall t <- toks :: !t.Any?
  }

  /** Tokens other than '%' take a fixed number of characters. */
  lemma {:induction false} FixedPart(fixed: seq<LikeTok>, toks: seq<LikeTok>, s: string)
    requires NoAny(fixed) && Accepts(fixed + toks, s)
    ensures FixedLength(fixed) <= |s| && Accepts(toks, s[FixedLength(fixed)..])
    decreases |fixed|
  {
    if fixed == [] {
      assert [] + toks == toks && s[0..] == s;
    } else {
      assert (fixed + toks)[1..] == fixed[1..] + toks;
      var n := if fixed[0].Lit? then |fixed[0].text| else 1;
      assert fixed[0] in fixed && !fixed[0].Any?;
      FixedPart(fixed[1..], toks, s[n..]);
      assert s[n..][FixedLength(fixed[1..])..] == s[FixedLength(fixed)..];
    }
  }

  /** What follows a '%' may as well start later. */
  lemma AnyAbsorbs(toks: seq<LikeTok>, s: string, m: nat)
    requires toks != [] && toks[0].Any? && m <= |s| && Accepts(toks, s[m..])
    ensures Accepts(toks, s)
  {
    var l := Language(toks[1..], iset{""});
    var k :| 0 <= k <= |s[m..]| && s[m..][k..] in l;
    assert s[m..][k..] == s[m + k..];
  }

  /** A later start for the current star: some k beyond star whose rest the tokens accept. */
  ghost predicate LaterStart(toks: seq<LikeTok>, s: string, star: nat) {
    exists k | star < k <= |s| :: Accepts(toks, s[k..])
  }

  lemma NextStart(toks: seq<LikeTok>, s: string, star: nat)
    requires star < |s|
    ensures LaterStart(toks, s, star) <==> Accepts(toks, s[star + 1..]) || LaterStart(toks, s, star + 1)
  {
  }

  /** Reaching another '%' makes every later start of the previous one pointless: it
      would reach this '%' later still, which this '%' can absorb. */
  lemma StarForgotten(fixed: seq<LikeTok>, rest: seq<LikeTok>, s: string, star: nat, j: nat)
    requires NoAny(fixed) && rest != [] && rest[0].Any? && j == star + FixedLength(fixed) && j <= |s|
    requires LaterStart(fixed + rest, s, star)
    ensures Accepts(rest, s[j..])
  {
    var k :| star < k <= |s| && Accepts(fixed + rest, s[k..]);
    FixedPart(fixed, rest, s[k..]);
    var n := FixedLength(fixed);
    assert s[k..][n..] == s[j..][k - star..];
    AnyAbsorbs(rest, s[j..], k - star);
  }

  /** With the string used up, a later start has too little of it left. */
  lemma NoRoomLater(fixed: seq<LikeTok>, rest: seq<LikeTok>, s: string, star: nat)
    requires NoAny(fixed) && star + FixedLength(fixed) == |s|
    ensures !LaterStart(fixed + rest, s, star)
  {
    forall k | star < k <= |s| ensures !Accepts(fixed + rest, s[k..]) {
      if Accepts(fixed + rest, s[k..]) {
        FixedPart(fixed, rest, s[k..]);
      }
    }
  }

  lemma {:induction false} OnlyAnysAcceptNothing(toks: seq<LikeTok>)
    requires Tidy(toks)
    ensures Accepts(toks, "") <==> forall t <- toks :: t.Any?
  {
    if toks != [] {
      assert Tidy(toks[1..]);
      OnlyAnysAcceptNothing(toks[1..]);
      assert toks == [toks[0]] + toks[1..];
      assert toks[0].Any? ==> ""[0..] == "";
    }
  }

  lemma {:induction false} FixedLengthSnoc(toks: seq<LikeTok>, t: LikeTok)
    ensures FixedLength(toks + [t]) == FixedLength(toks) + FixedLength([t])
  {
    if toks == [] {
      assert [] + [t] == [t];
    } else {
      assert (toks + [t])[1..] == toks[1..] + [t];
      FixedLengthSnoc(toks[1..], t);
    }
  }

  /** One token read at position j. */
  lemma ReadToken(toks: seq<LikeTok>, s: string, i: nat, j: nat)
    requires i < |toks| && j <= |s|
    ensures Accepts(toks[i..], s[j..]) <==>
      match toks[i]
      case Lit(text) => text <= s[j..] && Accepts(toks[i + 1..], s[j + |text|..])
      case One => j < |s| && Accepts(toks[i + 1..], s[j + 1..])
      case Any => Accepts(toks[i + 1..], s[j..]) || LaterStart(toks[i + 1..], s, j)
  {
    var l, r := Language(toks[i + 1..], iset{""}), s[j..];
    assert toks[i..][0] == toks[i] && toks[i..][1..] == toks[i + 1..];
    assert forall k | 0 <= k <= |r| :: r[k..] == s[j + k..];
    if toks[i].Any? {
      forall k | j <= k <= |s| ensures s[k..] == r[k - j..] {}
      assert (exists k | 0 <= k <= |r| :: r[k..] in l) <==> (exists k | j <= k <= |s| :: s[k..] in l) by {
        if k :| 0 <= k <= |r| && r[k..] in l { assert s[j + k..] in l; }
        if k :| j <= k <= |s| && s[k..] in l { assert r[k - j..] in l; }
      }
    }
  }

  /** The tokens read since the last '%'; -1 stands for none. */
  predicate SinceStar(toks: seq<LikeTok>, starTok: int, starPos: nat, i: nat, j: nat)
    requires -1 <= starTok < i <= |toks|
  {
    starTok >= 0 ==> NoAny(toks[starTok + 1..i]) && j == starPos + FixedLength(toks[starTok + 1..i])
  }

  lemma SinceStarGrows(toks: seq<LikeTok>, starTok: int, starPos: nat, i: nat, j: nat, n: nat)
    requires -1 <= starTok < i < |toks| && SinceStar(toks, starTok, starPos, i, j)
    requires !toks[i].Any? && n == (if toks[i].Lit? then |toks[i].text| else 1)
    ensures SinceStar(toks, starTok, starPos, i + 1, j + n)
  {
    if starTok >= 0 {
      assert toks[starTok + 1..i + 1] == toks[starTok + 1..i] + [toks[i]];
      FixedLengthSnoc(toks[starTok + 1..i], toks[i]);
      assert [toks[i]][1..] == [] && FixedLength([toks[i]]) == n;
    }
  }

  /** What is left to decide: the tokens from i at j, or a later start of the last '%'. */
  ghost predicate Pending(toks: seq<LikeTok>, s: string, starTok: int, starPos: nat, i: nat, j: nat)
    requires -1 <= starTok < i <= |toks| && j <= |s|
  {
    Accepts(toks[i..], s[j..]) || (starTok >= 0 && LaterStart(toks[starTok + 1..], s, starPos))
  }

  lemma MeetsStar(toks: seq<LikeTok>, s: string, starTok: int, starPos: nat, i: nat, j: nat)
    requires -1 <= starTok < i < |toks| && j <= |s| && toks[i].Any? && SinceStar(toks, starTok, starPos, i, j)
    ensures Pending(toks, s, starTok, starPos, i, j) <==> Pending(toks, s, i, j, i + 1, j)
    ensures SinceStar(toks, i, j, i + 1, j)
  {
    hide Language;
    ReadToken(toks, s, i, j);
    if starTok >= 0 && LaterStart(toks[starTok + 1..], s, starPos) {
      assert toks[starTok + 1..] == toks[starTok + 1..i] + toks[i..];
      StarForgotten(toks[starTok + 1..i], toks[i..], s, starPos, j);
    }
    assert toks[i + 1..i + 1] == [];
  }

  lemma BackTracks(toks: seq<LikeTok>, s: string, starTok: int, starPos: nat, i: nat, j: nat)
    requires 0 <= starTok < i <= |toks| && starPos < |s| && j <= |s| && !Accepts(toks[i..], s[j..])
    ensures Pending(toks, s, starTok, starPos, i, j)
      <==> Pending(toks, s, starTok, starPos + 1, starTok + 1, starPos + 1)
    ensures SinceStar(toks, starTok, starPos + 1, starTok + 1, starPos + 1)
  {
    hide Language;
    NextStart(toks[starTok + 1..], s, starPos);
    assert toks[starTok + 1..starTok + 1] == [];
  }

  lemma UsedUp(toks: seq<LikeTok>, s: string, starTok: int, starPos: nat, i: nat)
    requires Tidy(toks) && -1 <= starTok < i <= |toks| && SinceStar(toks, starTok, starPos, i, |s|)
    ensures Pending(toks, s, starTok, starPos, i, |s|) <==> forall t <- toks[i..] :: t.Any?
  {
    hide Language;
    assert Tidy(toks[i..]) && s[|s|..] == "";
    OnlyAnysAcceptNothing(toks[i..]);
    if starTok >= 0 {
      assert toks[starTok + 1..] == toks[starTok + 1..i] + toks[i..];
      NoRoomLater(toks[starTok + 1..i], toks[i..], s, starPos);
    }
  }

  /** The scan accepts exactly the tokens' language. starTok is -1 until a '%' is met. */
  method Matches(toks: seq<LikeTok>, s: string) returns (b: bool)
    requires Tidy(toks)
    ensures b <==> Accepts(toks, s)
  {
    hide Accepts, LaterStart, SinceStar;
    var starTok, starPos := -1, 0;
    var i, j := 0, 0;
    assert toks[0..] == toks && s[0..] == s;
    assert SinceStar(toks, -1, 0, 0, 0) by { StartSinceStar(toks); }
    while j < |s|
      invariant 0 <= i <= |toks| && 0 <= j <= |s| && -1 <= starTok < i && 0 <= starPos <= j
      invariant SinceStar(toks, starTok, starPos, i, j)
      invariant Accepts(toks, s) <==> Pending(toks, s, starTok, starPos, i, j)
      decreases |toks| - starTok, |s| - starPos, |toks| - i
    {
      if i < |toks| {
        var t := toks[i];
        ReadToken(toks, s, i, j);
        if t.Lit? {
          if t.text <= s[j..] {
            SinceStarGrows(toks, starTok, starPos, i, j, |t.text|);
            j := j + |t.text|;
            i := i + 1;
            continue;
          }
        } else if t.One? {
          SinceStarGrows(toks, starTok, starPos, i, j, 1);
          j := j + 1;
          i := i + 1;
          continue;
        } else {
          MeetsStar(toks, s, starTok, starPos, i, j);
          starTok, starPos := i, j;
          i := i + 1;
          continue;
        }
      } else {
        NothingLeftToRead(toks, s, j);
      }
      if starTok < 0 {
        return false;
      }
      BackTracks(toks, s, starTok, starPos, i, j);
      starPos := starPos + 1;
      i, j := starTok + 1, starPos;
    }
    UsedUp(toks, s, starTok, starPos, i);
    ghost var from := i;
    while i < |toks| && toks[i].Any?
      invariant from <= i <= |toks|
      invariant forall k | from <= k < i :: toks[k].Any?
    {
      i := i + 1;
    }
    assert i < |toks| ==> toks[i] in toks[from..];
    return i == |toks|;
  }

  lemma StartSinceStar(toks: seq<LikeTok>)
    ensures SinceStar(toks, -1, 0, 0, 0)
  {
  }

  lemma NothingLeftToRead(toks: seq<LikeTok>, s: string, j: nat)
    requires j < |s|
    ensures !Accepts(toks[|toks|..], s[j..])
  {
    assert toks[|toks|..] == [];
  }

  /** LIKE, end to end: for every operand and stored value, the operand is refused exactly
      when its last escape is unpaired, and otherwise matches what the grammar says. */
  method Like(operand: string, s: string) returns (r: Result<bool, nat>)
    ensures r.Success? <==> WellFormed(operand)
    ensures r.Success? ==> (r.value <==> Glob(operand, s))
  {
    hide Glob, Accepts, WellFormed;
    var toks := ParseLikePattern(operand);
    if toks.Failure? {
      return Failure(toks.error);
    }
    var b := Matches(toks.value, s);
    return Success(b);
  }
}
