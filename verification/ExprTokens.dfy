/**
 * Spellings: an expression text means what its tokens say, so blanks, the kind of
 * quotes, unquoted words and the second spellings of operators make no difference.
 */
module ExprTokens {
  import opened Text
  import opened Expr
  import opened ExprLex
  import ExprRoundTrip

  // ---------------------------------------------------------------- tokens decide

  /** The tokens of a text, a '/' being a pattern only after =~ or !~. */
  function Tokens(input: string, afterMatch: bool): seq<Token>
    decreases |input|
  {
    var (t, rest) := Lex(input, afterMatch);
    if t.TEof? then [] else [t] + Tokens(rest, AfterMatch(t))
  }

  /** Two tokenizer states with the same tokens ahead. */
  predicate Same(s: State, t: State) {
    && s.cur == t.cur && s.depth == t.depth && s.error == t.error
    && Tokens(s.input, AfterMatch(s.cur)) == Tokens(t.input, AfterMatch(t.cur))
  }

  predicate SameResult(a: Parsed, b: Parsed) { a.0 == b.0 && Same(a.1, b.1) }

  lemma LoadSame(x: string, y: string, afterMatch: bool, depth: nat, error: bool)
    requires Tokens(x, afterMatch) == Tokens(y, afterMatch)
    ensures Same(Load(x, afterMatch, depth, error), Load(y, afterMatch, depth, error))
  {
    hide Lex;
    var (t, rest) := Lex(x, afterMatch);
    var (u, more) := Lex(y, afterMatch);
    if !t.TEof? {
      assert Tokens(x, afterMatch)[0] == t && Tokens(x, afterMatch)[1..] == Tokens(rest, AfterMatch(t));
    }
    if !u.TEof? {
      assert Tokens(y, afterMatch)[0] == u && Tokens(y, afterMatch)[1..] == Tokens(more, AfterMatch(u));
    }
  }

  lemma AdvanceSame(s: State, t: State)
    requires Same(s, t)
    ensures Same(Advance(s), Advance(t))
  {
    hide Load, Tokens;
    LoadSame(s.input, t.input, AfterMatch(s.cur), s.depth, s.error);
  }

  lemma Deeper(s: State, t: State, depth: nat)
    requires Same(s, t)
    ensures Same(s.(depth := depth), t.(depth := depth)) && Same(Failed(s), Failed(t))
    ensures Same(State(s.input, s.cur, depth, true), State(t.input, t.cur, depth, true))
  {
    hide Tokens;
  }

  lemma ValueSame(s: State, t: State)
    requires Same(s, t)
    ensures SameResult(ParseValue(s), ParseValue(t))
  {
    hide Advance, Tokens;
    AdvanceSame(s, t);
  }

  lemma {:induction false} PrimarySame(s: State, t: State)
    requires Same(s, t)
    ensures SameResult(ParsePrimary(s), ParsePrimary(t))
    decreases Size(s), 0
  {
    hide Advance, Same, ParseValue, ParseOr;
    SameParts(s, t);
    Deeper(s, t, s.depth + 1);
    if s.cur.TLParen? {
      if s.depth + 1 <= MAX_DEPTH { ParenSame(s, t); }
    } else if s.cur.TFile? || s.cur.TIp? {
      AdvanceSame(s, t);
      ValueSame(Advance(s), Advance(t));
      var v, w := ParseValue(Advance(s)), ParseValue(Advance(t));
      Deeper(v.1, w.1, 0);
    } else if s.cur.TFunc? {
      if s.depth + 1 <= MAX_DEPTH { FuncSame(s, t); }
    } else {
      ValueSame(s, t);
    }
  }

  lemma SameParts(s: State, t: State)
    requires Same(s, t)
    ensures s.cur == t.cur && s.depth == t.depth && s.error == t.error
  {
  }

  lemma {:induction false} ParenSame(s: State, t: State)
    requires Same(s, t) && s.cur.TLParen? && s.depth + 1 <= MAX_DEPTH
    ensures SameResult(ParsePrimary(s), ParsePrimary(t))
    decreases Size(s), 0, 0
  {
    hide Advance, Same, ParseOr;
    SameParts(s, t);
    var s0, t0 := s.(depth := s.depth + 1), t.(depth := t.depth + 1);
    Deeper(s, t, s.depth + 1);
    AdvanceSame(s0, t0);
    Shrinks(s0);
    OrSame(Advance(s0), Advance(t0));
    var a, b := ParseOr(Advance(s0)), ParseOr(Advance(t0));
    SameParts(a.1, b.1);
    Deeper(a.1, b.1, 0);
    AdvanceSame(a.1, b.1);
    var u, w := Advance(a.1), Advance(b.1);
    SameParts(u, w);
    if a.1.cur.TRParen? {
      Shrinks(a.1);
      Deeper(u, w, u.depth - 1);
    }
  }

  lemma Shrinks(s: State)
    requires !s.cur.TEof?
    ensures Size(Advance(s)) < Size(s) && Advance(s).depth == s.depth
  {
    hide Lex;
  }

  lemma {:induction false} FuncSame(s: State, t: State)
    requires Same(s, t) && s.cur.TFunc? && s.depth + 1 <= MAX_DEPTH
    ensures SameResult(ParsePrimary(s), ParsePrimary(t))
    decreases Size(s), 0, 0
  {
    hide Advance, Same, ParseOr;
    SameParts(s, t);
    var s0, t0 := s.(depth := s.depth + 1), t.(depth := t.depth + 1);
    Deeper(s, t, s.depth + 1);
    AdvanceSame(s0, t0);
    Shrinks(s0);
    var s1, t1 := Advance(s0), Advance(t0);
    SameParts(s1, t1);
    Deeper(s1, t1, 0);
    if s1.cur.TLParen? {
      AdvanceSame(s1, t1);
      Shrinks(s1);
      OrSame(Advance(s1), Advance(t1));
      var a, b := ParseOr(Advance(s1)), ParseOr(Advance(t1));
      SameParts(a.1, b.1);
      Deeper(a.1, b.1, 0);
      AdvanceSame(a.1, b.1);
      var u, w := Advance(a.1), Advance(b.1);
      SameParts(u, w);
      if a.1.cur.TRParen? {
        Shrinks(a.1);
        Deeper(u, w, u.depth - 1);
      }
    }
  }

  lemma {:induction false} CmpSame(s: State, t: State)
    requires Same(s, t)
    ensures SameResult(ParseCmp(s), ParseCmp(t))
    decreases Size(s), 1
  {
    hide Advance, Same, ParsePrimary, ParseValue;
    PrimarySame(s, t);
    var a, b := ParsePrimary(s), ParsePrimary(t);
    SameParts(a.1, b.1);
    if a.0.Some? && (a.1.cur.TIp? || a.1.cur.TCmp?) {
      AdvanceSame(a.1, b.1);
      Shrinks(a.1);
      ValueSame(Advance(a.1), Advance(b.1));
      PrimarySame(Advance(a.1), Advance(b.1));
      var v, w := ParseValue(Advance(a.1)), ParseValue(Advance(b.1));
      Deeper(v.1, w.1, 0);
      var x, y := ParsePrimary(Advance(a.1)), ParsePrimary(Advance(b.1));
      Deeper(x.1, y.1, 0);
    }
  }

  lemma {:induction false} NotSame(s: State, t: State)
    requires Same(s, t)
    ensures SameResult(ParseNot(s), ParseNot(t))
    decreases Size(s), 2
  {
    hide Advance, Same, ParseCmp;
    SameParts(s, t);
    Deeper(s, t, s.depth + 1);
    if !s.cur.TNot? {
      CmpSame(s, t);
    } else if s.depth + 1 <= MAX_DEPTH {
      var s0, t0 := s.(depth := s.depth + 1), t.(depth := t.depth + 1);
      AdvanceSame(s0, t0);
      Shrinks(s0);
      NotSame(Advance(s0), Advance(t0));
      var a, b := ParseNot(Advance(s0)), ParseNot(Advance(t0));
      SameParts(a.1, b.1);
      Deeper(a.1, b.1, a.1.depth - 1);
    }
  }

  lemma {:induction false} AndLoopSame(left: Expr, s: State, t: State)
    requires Same(s, t)
    ensures SameResult(AndLoop(left, s), AndLoop(left, t))
    decreases Size(s), 3
  {
    hide Advance, Same, ParseNot;
    SameParts(s, t);
    Deeper(s, t, s.depth + 1);
    if s.cur.TAnd? && s.depth + 1 <= MAX_DEPTH {
      var s0, t0 := s.(depth := s.depth + 1), t.(depth := t.depth + 1);
      AdvanceSame(s0, t0);
      Shrinks(s0);
      NotSame(Advance(s0), Advance(t0));
      var a, b := ParseNot(Advance(s0)), ParseNot(Advance(t0));
      if a.0.Some? { AndLoopSame(And(left, a.0.value), a.1, b.1); }
    }
  }

  lemma {:induction false} AndSame(s: State, t: State)
    requires Same(s, t)
    ensures SameResult(ParseAnd(s), ParseAnd(t))
    decreases Size(s), 4
  {
    hide Same, ParseNot, AndLoop;
    NotSame(s, t);
    var a, b := ParseNot(s), ParseNot(t);
    if a.0.Some? { AndLoopSame(a.0.value, a.1, b.1); }
  }

  lemma {:induction false} OrLoopSame(left: Expr, s: State, t: State)
    requires Same(s, t)
    ensures SameResult(OrLoop(left, s), OrLoop(left, t))
    decreases Size(s), 5
  {
    hide Advance, Same, ParseAnd;
    SameParts(s, t);
    Deeper(s, t, s.depth + 1);
    if s.cur.TOr? && s.depth + 1 <= MAX_DEPTH {
      var s0, t0 := s.(depth := s.depth + 1), t.(depth := t.depth + 1);
      AdvanceSame(s0, t0);
      Shrinks(s0);
      AndSame(Advance(s0), Advance(t0));
      var a, b := ParseAnd(Advance(s0)), ParseAnd(Advance(t0));
      if a.0.Some? { OrLoopSame(Or(left, a.0.value), a.1, b.1); }
    }
  }

  lemma {:induction false} OrSame(s: State, t: State)
    requires Same(s, t)
    ensures SameResult(ParseOr(s), ParseOr(t))
    decreases Size(s), 6
  {
    hide Same, ParseAnd, OrLoop;
    AndSame(s, t);
    var a, b := ParseAnd(s), ParseAnd(t);
    if a.0.Some? { OrLoopSame(a.0.value, a.1, b.1); }
  }

  /** Texts with the same tokens are parsed alike. */
  lemma TokensDecide(x: string, y: string)
    requires Tokens(Condition(x), false) == Tokens(Condition(y), false)
    ensures Parse(x) == Parse(y)
  {
    hide Same, ParseOr, Load, Condition, Tokens;
    ParseEmpty(x);
    ParseEmpty(y);
    LoadSame(Condition(x), Condition(y), false, 0, false);
    var s, t := Load(Condition(x), false, 0, false), Load(Condition(y), false, 0, false);
    OrSame(s, t);
    SameParts(ParseOr(s).1, ParseOr(t).1);
  }

  /** A text without a token is no expression. */
  lemma ParseEmpty(x: string)
    ensures Tokens("", false) == []
    ensures Tokens(Condition(x), false) == [] ==> Parse(x) == None
    ensures Condition(x) == "" ==> Parse(x) == None
  {
    hide Lex, Condition, TrimEnd;
    assert Lex("", false) == (TEof, "") by { LexNothing(); }
    var (t, rest) := Lex(Condition(x), false);
    if t.TEof? && Condition(x) != "" {
      assert ParseOr(Load(Condition(x), false, 0, false)).0 == None by {
        NoOperand(Load(Condition(x), false, 0, false));
      }
    }
  }

  lemma LexNothing()
    ensures Lex("", false) == (TEof, "")
  {
  }

  lemma NoOperand(s: State)
    requires s.cur.TEof?
    ensures ParseOr(s).0 == None
  {
    assert ParseCmp(s).0 == None;
    assert ParseNot(s).0 == None;
    assert ParseAnd(s).0 == None;
  }

  // ---------------------------------------------------------------------- spellings

  predicate BareWord(w: string, afterMatch: bool) {
    && w != "" && (forall i :: 0 <= i < |w| ==> IsWordChar(w[i])) && !IsIntText(w) && Dashed(w).None?
    && !(w[0] == '/' && afterMatch) && !(|w| > 1 && w[0] == '%' && w[1] == '{')
    && (w == "true" || w == "false" || NoName(w))
  }

  predicate NoName(w: string) {
    !NamedWord(w, "tolower") && !NamedWord(w, "toupper") && !NamedWord(w, "true") && !NamedWord(w, "false")
  }

  /** The ways to write a token. */
  predicate Spells(x: string, t: Token, afterMatch: bool) {
    match t
    case TStr(w) =>
      (x == "'" + w + "'" && '\'' !in w) || (x == "\"" + w + "\"" && '"' !in w) || (x == w && BareWord(w, afterMatch))
    case TVar(w) => x == w && VarOK(w)
    case TRegex(w) => afterMatch && RegexOK(w) && (x == "/" + w + "/" || x == "/" + w + "/i")
    case TInt(w) => x == w && IsIntText(w)
    case TAnd => x == "&&"
    case TOr => x == "||"
    case TNot => x == "!"
    case TCmp(op) => x == OpSymbol(op)
    case TFile(test) => x == TestText(test)[..2]
    case TIp => x == "-ipmatch" || x == "-R"
    case TLParen => x == "("
    case TRParen => x == ")"
    case TFunc(lower) => x == if lower then "tolower" else "toupper"
    case TEof => false
    case TError => false
  }

  /** A spelling that ends by itself, whatever follows. */
  predicate Closed(x: string, t: Token) {
    match t
    case TStr(_) => x != "" && (x[0] == '\'' || x[0] == '"')
    case TCmp(_) => |x| == 2
    case _ => t.TVar? || t.TAnd? || t.TOr? || t.TLParen? || t.TRParen?
  }

  /** A token as it is written, with the blanks before it. */
  datatype Piece = Piece(blanks: string, text: string, token: Token)

  function Joined(ps: seq<Piece>): string {
    if ps == [] then "" else ps[0].blanks + (ps[0].text + Joined(ps[1..]))
  }

  function TokensOf(ps: seq<Piece>): seq<Token> {
    if ps == [] then [] else [ps[0].token] + TokensOf(ps[1..])
  }

  predicate Legible(ps: seq<Piece>, afterMatch: bool)
    decreases |ps|
  {
    ps == [] ||
    var p := ps[0];
    && Blanks(p.blanks) && Spells(p.text, p.token, afterMatch)
    && (Closed(p.text, p.token) || Breaks(Joined(ps[1..]))) && Legible(ps[1..], AfterMatch(p.token))
  }

  lemma LexBlanks(b: string, x: string, afterMatch: bool)
    requires Blanks(b)
    ensures Lex(b + x, afterMatch) == Lex(x, afterMatch)
  {
    hide Front, Blanks;
    SkipBlanks(b, x);
  }

  /** A quote that is never closed takes the rest of the text. */
  lemma LexUnclosed(q: char, t: string, afterMatch: bool)
    requires (q == '\'' || q == '"') && q !in t
    ensures Lex([q] + t, afterMatch) == (TStr(t), "")
  {
    hide Lex;
    var s := [q] + t;
    assert s[1..] == t && s[|s|..] == "";
    LexFront(s, "", TStr(t), |s|, afterMatch);
  }

  /** A word in a text: its characters, its end and what comes behind. */
  lemma WordParts(w: string, k: string)
    requires w != "" && (forall i :: 0 <= i < |w| ==> IsWordChar(w[i])) && Breaks(k)
    ensures var s := w + k;
            && s[..|w|] == w && s[|w|..] == k && s[0] == w[0] && Span(s, 0, IsWordChar) == |w| && Symbol(s).None?
            && (|s| > 1 && s[0] == '%' && s[1] == '{' ==> |w| > 1 && w[1] == '{')
  {
    var s := w + k;
    assert |w| < |s| ==> s[|w|] == k[0];
    assert |w| > 1 ==> s[1] == w[1];
    assert |w| == 1 && |s| > 1 ==> s[1] == k[0];
    SpanIs(s, 0, IsWordChar, |w|);
  }

  lemma WordIs(w: string, k: string)
    requires w != "" && (forall i :: 0 <= i < |w| ==> IsWordChar(w[i])) && Breaks(k) && !IsIntText(w)
    requires w == "true" || w == "false" || NoName(w)
    ensures Word(w + k) == (TStr(w), |w|)
  {
    hide IsIntText, Symbol, IsWordChar, Span;
    var s := w + k;
    WordParts(w, k);
    if w == "true" || w == "false" {
      assert NamedWord(s, w) && s[0] == w[0] by { Followed(w, k); }
      assert w == "false" ==> !NamedWord(s, "tolower") && !NamedWord(s, "toupper") && !NamedWord(s, "true");
      if w == "true" {
        assert s[1] == w[1];
        assert !StartsWith(s, "tolower") && !StartsWith(s, "toupper");
      }
    } else {
      hide NamedWord;
      NotNamed(w, k, "tolower");
      NotNamed(w, k, "toupper");
      NotNamed(w, k, "true");
      NotNamed(w, k, "false");
    }
  }

  lemma Followed(w: string, k: string)
    requires Breaks(k)
    ensures NamedWord(w + k, w)
  {
    var s := w + k;
    assert s[..|w|] == w && (|w| < |s| ==> s[|w|] == k[0]);
  }

  lemma LexWord(w: string, k: string, afterMatch: bool)
    requires BareWord(w, afterMatch) && Breaks(k)
    ensures Lex(w + k, afterMatch) == (TStr(w), k)
  {
    hide Lex, Word, Symbol, NoName, IsIntText, Dashed, Span;
    WordParts(w, k);
    NoDash(w, k);
    WordIs(w, k);
    LexFront(w + k, k, TStr(w), |w|, afterMatch);
  }

  lemma NotNamed(w: string, k: string, name: string)
    requires !NamedWord(w, name) && Breaks(k) && forall i :: 0 <= i < |name| ==> IsAlpha(name[i])
    ensures !NamedWord(w + k, name)
  {
    var s := w + k;
    if |name| <= |w| {
      assert s[..|name|] == w[..|name|];
      assert |name| < |w| ==> s[|name|] == w[|name|];
    } else if |name| <= |s| {
      assert s[..|name|][|w|] == s[|w|] == k[0];
    }
  }

  lemma NoDash(w: string, k: string)
    requires w != "" && Dashed(w).None? && Breaks(k)
    ensures Dashed(w + k).None?
  {
    var s := w + k;
    assert s[0] == w[0];
    if |w| > 1 && w[0] == '-' && IsAlpha(w[1]) {
      assert s[1] == w[1];
      var end := Span(w, 1, KeywordChar);
      assert end < |s| && end == |w| ==> s[end] == k[0];
      assert forall i :: 0 <= i < |w| ==> s[i] == w[i];
      SpanIs(s, 1, KeywordChar, end);
      assert s[1..end] == w[1..end];
    }
  }

  lemma LexSign(x: string, t: Token, k: string, afterMatch: bool)
    requires Spells(x, t, afterMatch) && (t.TAnd? || t.TOr? || t.TNot? || t.TCmp? || t.TLParen? || t.TRParen?)
    requires Closed(x, t) || Breaks(k)
    requires t.TCmp? ==> !IsDashOp(t.op)
    ensures Lex(x + k, afterMatch) == (t, k)
  {
    hide Lex;
    var s := x + k;
    assert s[|x|..] == k && s[0] == x[0];
    if |x| == 2 { assert s[1] == x[1]; } else { assert |s| > 1 ==> s[1] == k[0]; }
    assert Symbol(s) == Some((t, |x|));
    LexSymbol(s, afterMatch);
  }

  /** However a token is written, it is read as that token, and no more. */
  lemma LexPiece(x: string, t: Token, k: string, afterMatch: bool)
    requires Spells(x, t, afterMatch) && (Closed(x, t) || Breaks(k))
    ensures Lex(x + k, afterMatch) == (t, k)
  {
    hide Lex, BareWord, VarOK, RegexOK, IsIntText, IsWordChar;
    match t
    case TStr(w) =>
      if x == "'" + w + "'" && '\'' !in w {
        LexQuoted('\'', w, k, afterMatch);
      } else if x == "\"" + w + "\"" && '"' !in w {
        LexQuoted('"', w, k, afterMatch);
      } else {
        WordStart(w, afterMatch);
        LexWord(w, k, afterMatch);
      }
    case TVar(w) => LexVar(w, k, afterMatch);
    case TRegex(w) => LexRegex(w, k);
    case TInt(w) => LexInt(w, k, afterMatch);
    case TFile(test) =>
      var kw := match test case FileF => "f" case FileD => "d" case FileS => "s" case FileL => "l" case FileE => "e";
      assert x == "-" + kw;
      LexDash(kw, k, t, afterMatch);
    case TIp =>
      var kw := if x == "-R" then "R" else "ipmatch";
      assert x == "-" + kw;
      LexDash(kw, k, t, afterMatch);
    case TFunc(lower) => LexName(lower, k, afterMatch);
    case TCmp(op) =>
      if IsDashOp(op) {
        var kw := OpSymbol(op)[1..];
        assert x == "-" + kw;
        LexDash(kw, k, t, afterMatch);
      } else {
        LexSign(x, t, k, afterMatch);
      }
    case _ => LexSign(x, t, k, afterMatch);
  }

  lemma WordStart(w: string, afterMatch: bool)
    requires BareWord(w, afterMatch)
    ensures w != "" && w[0] != '\'' && w[0] != '"'
  {
  }

  lemma {:induction false} TokensRead(ps: seq<Piece>, afterMatch: bool)
    requires Legible(ps, afterMatch)
    ensures Tokens(Joined(ps), afterMatch) == TokensOf(ps)
    decreases |ps|
  {
    hide Lex, Spells, Closed, Breaks, Blanks;
    if ps == [] {
      LexNothing();
    } else {
      var p, k := ps[0], Joined(ps[1..]);
      LexBlanks(p.blanks, p.text + k, afterMatch);
      LexPiece(p.text, p.token, k, afterMatch);
      assert !p.token.TEof? by { SpellsNoEnd(p, afterMatch); }
      TokensRead(ps[1..], AfterMatch(p.token));
    }
  }

  lemma SpellsNoEnd(p: Piece, afterMatch: bool)
    requires Spells(p.text, p.token, afterMatch)
    ensures !p.token.TEof?
  {
  }

  // -------------------------------------------------------------------- whole texts

  lemma Bracketed(a: string, x: string, b: string)
    requires Blanks(a) && Blanks(b) && x != "" && !IsSpace(x[0]) && !IsSpace(x[|x| - 1])
    ensures Condition(a + x + b) == Unquoted(x)
  {
    hide SkipSpace, TrimEnd, Unquoted, Blanks;
    assert a + x + b == a + (x + b);
    SkipBlanks(a, x + b);
    assert (x + b)[0] == x[0];
    SkipNone(x + b);
    TrimBlanks(x, b);
    assert TrimEnd(x) == x by { TrimNothing(x); }
  }

  lemma TrimNothing(x: string)
    requires x != "" && !IsSpace(x[|x| - 1])
    ensures TrimEnd(x) == x
  {
  }

  lemma QuotedCondition(a: string, x: string, b: string)
    requires Blanks(a) && Blanks(b)
    ensures Condition(a + ("\"" + x + "\"") + b) == x
  {
    hide Condition;
    var q := "\"" + x + "\"";
    Bracketed(a, q, b);
    assert q[1..|q| - 1] == x;
  }

  /** Between double quotes the meaning depends on the tokens alone, with blanks anywhere. */
  lemma SpelledAlike(ps: seq<Piece>, qs: seq<Piece>, a: string, b: string, c: string, d: string)
    requires Legible(ps, false) && Legible(qs, false) && TokensOf(ps) == TokensOf(qs)
    requires Blanks(a) && Blanks(b) && Blanks(c) && Blanks(d)
    ensures Parse(a + ("\"" + Joined(ps) + "\"") + b) == Parse(c + ("\"" + Joined(qs) + "\"") + d)
  {
    hide Condition, Joined, Legible, Blanks, TokensOf, Parse, Tokens;
    QuotedCondition(a, Joined(ps), b);
    QuotedCondition(c, Joined(qs), d);
    TokensRead(ps, false);
    TokensRead(qs, false);
    TokensDecide(a + ("\"" + Joined(ps) + "\"") + b, c + ("\"" + Joined(qs) + "\"") + d);
  }

  /** Without the outer quotes a text means the same, unless it starts and ends with a double quote of its own. */
  lemma QuotesOptional(ps: seq<Piece>, a: string, b: string)
    requires Legible(ps, false) && ps != [] && ps[0].blanks == "" && Blanks(a) && Blanks(b)
    requires var x := Joined(ps); !(|x| >= 2 && x[0] == '"' && x[|x| - 1] == '"')
    ensures Parse(a + Joined(ps) + b) == Parse("\"" + Joined(ps) + "\"")
  {
    hide Condition, Parse, Tokens, Blanks;
    var x := Joined(ps);
    LegibleEdges(ps, false);
    Bracketed(a, x, b);
    QuotedCondition("", x, "");
    assert "" + ("\"" + x + "\"") + "" == "\"" + x + "\"" && Blanks("");
    TokensDecide(a + x + b, "\"" + x + "\"");
  }

  lemma SpellingEdges(p: Piece, afterMatch: bool)
    requires Spells(p.text, p.token, afterMatch)
    ensures p.text != "" && !IsSpace(p.text[0]) && !IsSpace(p.text[|p.text| - 1])
  {
    hide IsIntText, RegexOK, RegexEnd, Find;
    if p.token.TInt? { IntChars(p.text); }
    if p.token.TVar? { assert Find(p.text, "}", 2) == Some(|p.text| - 1); VarEdges(p.text); }
  }

  lemma VarEdges(t: string)
    requires VarOK(t)
    ensures t[0] == '%' && t[|t| - 1] == '}'
  {
    assert t[0] == t[..2][0];
    assert t[|t| - 1] == t[|t| - 1..|t| - 1 + 1][0];
  }

  /** A text starts and ends with its first and last token. */
  lemma {:induction false} LegibleEdges(ps: seq<Piece>, afterMatch: bool)
    requires Legible(ps, afterMatch) && ps != []
    ensures var x := Joined(ps);
            x != "" && !IsSpace(x[|x| - 1]) && (ps[0].blanks == "" ==> !IsSpace(x[0]))
    decreases |ps|
  {
    hide Spells, Closed, Breaks, Blanks;
    var p := ps[0];
    SpellingEdges(p, afterMatch);
    if |ps| > 1 {
      LegibleEdges(ps[1..], AfterMatch(p.token));
    } else {
      assert Joined(ps[1..]) == "";
    }
  }

  /** Any spelling of a printed expression, quoted, is read as the printed text is. */
  lemma AnySpelling(e: Expr, ps: seq<Piece>)
    requires ExprRoundTrip.PrintOK(e) && Legible(ps, false) && TokensOf(ps) == Tokens(Print(e, false), false)
    ensures Parse("\"" + Joined(ps) + "\"")
         == if ExprRoundTrip.Fits(e) then Some(ExprRoundTrip.AsCondition(ExprRoundTrip.Norm(e))) else None
  {
    hide Condition, Joined, Legible, Blanks, TokensOf, Parse, Tokens, Print, ExprRoundTrip.PrintOK, ExprRoundTrip.Norm,
      ExprRoundTrip.Fits, ExprRoundTrip.AsCondition;
    NoBlank();
    QuotedCondition("", Joined(ps), "");
    assert "" + ("\"" + Joined(ps) + "\"") + "" == "\"" + Joined(ps) + "\"";
    TokensRead(ps, false);
    ExprRoundTrip.ConditionKeeps(e);
    ExprRoundTrip.PrintParses(e);
    TokensDecide("\"" + Joined(ps) + "\"", Print(e, false));
  }

  lemma NoBlank()
    ensures Blanks("")
  {
  }

  /** A comparison of two double-quoted words is lost when it stands alone: its first and last quote are taken off. */
  lemma OwnQuotes(u: string, w: string)
    requires BareWord(u, false) && BareWord(w, false)
    ensures var text := "\"" + u + "\" == \"" + w + "\"";
            Parse(text) == None && Parse("\"" + text + "\"") == Some(Cmp(Eq, Str(u), Str(w)))
  {
    hide BareWord, Condition, Lex, Parse, Blanks;
    var text := "\"" + u + "\" == \"" + w + "\"";
    NoBlank();
    QuotedCondition("", text, "");
    assert "" + ("\"" + text + "\"") + "" == "\"" + text + "\"";
    WordQuotes(u);
    WordQuotes(w);
    var rest := " == " + ("\"" + w + "\"");
    LexQuoted('"', u, rest, false);
    assert ['"'] + u + ['"'] + rest == text;
    var tail := ['"'] + w + ['"'] + "";
    assert "== " + tail == "==" + (" " + tail) && " " + ("== " + tail) == rest;
    ComparisonParses(text, u, w, rest, tail);
    LostParses(text, u, w);
  }

  lemma WordQuotes(w: string)
    requires BareWord(w, false)
    ensures '"' !in w && w != "" && !IsSpace(w[0]) && !IsSpace(w[|w| - 1])
  {
  }

  lemma ComparisonParses(text: string, u: string, w: string, rest: string, tail: string)
    requires Lex(text, false) == (TStr(u), rest) && '"' !in w && rest == " == " + tail && tail == ['"'] + w + ['"'] + ""
    requires Condition("\"" + text + "\"") == text && text != ""
    ensures Parse("\"" + text + "\"") == Some(Cmp(Eq, Str(u), Str(w)))
  {
    hide Lex, Condition;
    assert " == " + tail == OpText(Eq) + tail;
    LexOp(Eq, tail, false);
    LexSpace(tail, false);
    LexQuoted('"', w, "", false);
    LexNothing();
    var s := Load(text, false, 0, false);
    var t := State(" " + tail, TCmp(Eq), 0, false);
    var end := State("", TEof, 0, false);
    assert ParsePrimary(s) == (Some(Str(u)), t);
    assert ParsePrimary(Advance(t)) == (Some(Str(w)), end);
    assert ParseCmp(s) == (Some(Cmp(Eq, Str(u), Str(w))), end);
    assert ParseNot(s) == ParseCmp(s);
    assert ParseAnd(s) == ParseCmp(s);
    assert ParseOr(s) == ParseCmp(s);
  }

  lemma LostParses(text: string, u: string, w: string)
    requires text == "\"" + u + "\" == \"" + w + "\"" && BareWord(u, false) && '"' !in u && '"' !in w
    ensures Parse(text) == None
  {
    hide Lex, BareWord, Condition;
    var x := u + "\" == \"" + w;
    assert text == "\"" + x + "\"" == "" + ("\"" + x + "\"") + "";
    QuotedCondition("", x, "");
    var k := ['"'] + " == " + ['"'] + w;
    assert x == u + k;
    LexWord(u, k, false);
    LexQuoted('"', " == ", w, false);
    var s := Load(x, false, 0, false);
    var t := State(w, TStr(" == "), 0, false);
    assert ParsePrimary(s) == (Some(Str(u)), t);
    assert ParseCmp(s) == (Some(Str(u)), t);
    assert ParseNot(s) == ParseCmp(s);
    assert ParseAnd(s) == ParseCmp(s);
    assert ParseOr(s) == ParseCmp(s);
  }
}
