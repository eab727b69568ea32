/**
 * Printing with a continuation, and the token at the front of each printed piece.
 */
module ExprLex {
  import opened Text
  import opened Expr

  /** What is printed for `e`, followed by `k`. */
  function Written(e: Expr, underAnd: bool, k: string): string {
    match e
    case Str(t) => "'" + t + ("'" + k)
    case Var(t) => t + k
    case Regex(t) => "/" + t + ("/" + k)
    case Int(t) => t + k
    case Not(x) => if x.And? || x.Or? || x.Cmp? then "!" + ("(" + Written(x, false, ")" + k))
        else "!" + Written(x, false, k)
    case And(l, r) => Written(l, true, " && " + Written(r, true, k))
    case Or(l, r) =>
      if underAnd then "(" + Written(l, false, " || " + Written(r, false, ")" + k))
      else Written(l, false, " || " + Written(r, false, k))
    case Cmp(op, l, r) => Written(l, false, OpText(op) + Written(r, false, k))
    case File(test, x) => TestText(test) + Written(x, false, k)
    case IpUnary(x) => "-ipmatch " + Written(x, false, k)
    case IpBinary(l, r) => Written(l, false, " -ipmatch " + Written(r, false, k))
    case Func(lower, x) => FuncText(lower) + Written(x, false, ")" + k)
  }

  lemma Assoc4(a: string, b: string, c: string, d: string)
    ensures a + (b + (c + d)) == a + b + c + d
    ensures a + (b + c) == a + b + c
  {
    assert b + (c + d) == b + c + d;
  }

  lemma {:induction false} WrittenIsPrinted(e: Expr, underAnd: bool, k: string)
    ensures Written(e, underAnd, k) == Print(e, underAnd) + k
    decreases e
  {
    hide OpText, TestText, FuncText;
    match e
    case Str(t) => Assoc4("'", t, "'", k);
    case Var(_) =>
    case Regex(t) => Assoc4("/", t, "/", k);
    case Int(_) =>
    case Not(x) =>
      WrittenIsPrinted(x, false, ")" + k);
      WrittenIsPrinted(x, false, k);
      var s := Print(x, false);
      assert "!" + "(" == "!(";
      Assoc4("!", "(", s, ")" + k);
      Assoc4("!(" + s, ")", k, "");
      Assoc4("!", s, k, "");
      assert "!(" + s + ")" + k == "!(" + s + (")" + k);
    case And(l, r) =>
      WrittenIsPrinted(r, true, k);
      WrittenIsPrinted(l, true, " && " + Written(r, true, k));
      Assoc4(Print(l, true), " && ", Print(r, true), k);
    case Or(l, r) => OrPrinted(e, underAnd, k);
    case Cmp(op, l, r) =>
      WrittenIsPrinted(r, false, k);
      WrittenIsPrinted(l, false, OpText(op) + Written(r, false, k));
      Assoc4(Print(l, false), OpText(op), Print(r, false), k);
    case File(test, x) =>
      WrittenIsPrinted(x, false, k);
      Assoc4(TestText(test), Print(x, false), k, "");
    case IpUnary(x) =>
      WrittenIsPrinted(x, false, k);
      Assoc4("-ipmatch ", Print(x, false), k, "");
    case IpBinary(l, r) =>
      WrittenIsPrinted(r, false, k);
      WrittenIsPrinted(l, false, " -ipmatch " + Written(r, false, k));
      Assoc4(Print(l, false), " -ipmatch ", Print(r, false), k);
    case Func(lower, x) =>
      WrittenIsPrinted(x, false, ")" + k);
      Assoc4(FuncText(lower), Print(x, false), ")", k);
  }

  lemma {:induction false} OrPrinted(e: Expr, underAnd: bool, k: string)
    requires e.Or?
    ensures Written(e, underAnd, k) == Print(e, underAnd) + k
    decreases e, 0
  {
    var k' := if underAnd then ")" + k else k;
    var l, r := Print(e.left, false), Print(e.right, false);
    WrittenIsPrinted(e.right, false, k');
    WrittenIsPrinted(e.left, false, " || " + Written(e.right, false, k'));
    Assoc4(l, " || ", r, k');
    var s := l + " || " + r;
    if underAnd { Assoc4("(", s, ")", k); }
  }

  // ------------------------------------------------------- printable expressions

  /** %{NAME}, with no '}' inside. */
  predicate VarOK(t: string) {
    3 <= |t| && t[..2] == "%{" && Find(t, "}", 2) == Some(|t| - 1)
  }

  /** A pattern whose slashes are all escaped, up to and including the one printed after it. */
  predicate RegexOK(t: string) {
    RegexEnd("/" + t + "/", 1) == Some(|t| + 1)
  }

  predicate ValueOK(e: Expr, afterMatch: bool) {
    match e
    case Str(t) => '\'' !in t
    case Var(t) => VarOK(t)
    case Int(t) => IsIntText(t)
    case Regex(t) => afterMatch && RegexOK(t)
    case _ => false
  }

  /** What may follow a printed operand. */
  predicate Ends(k: string) { k == "" || k[0] == ' ' || k[0] == ')' }

  /** What ends a word and a one-character operator. */
  predicate Breaks(k: string) { k == "" || (!IsWordChar(k[0]) && k[0] != '=' && k[0] != '~') }

  // --------------------------------------------------------------- single tokens

  function Tok(e: Expr): Token
    requires IsValue(e)
  {
    match e
    case Str(t) => TStr(t)
    case Var(t) => TVar(t)
    case Int(t) => TInt(t)
    case Regex(t) => TRegex(t)
  }

  lemma SkipNone(s: string)
    requires s != "" ==> !IsSpace(s[0])
    ensures SkipSpace(s) == s
  {
  }

  predicate Blanks(b: string) { forall i :: 0 <= i < |b| ==> IsSpace(b[i]) }

  lemma {:induction false} SkipBlanks(b: string, x: string)
    requires Blanks(b)
    ensures SkipSpace(b + x) == SkipSpace(x)
    decreases |b|
  {
    if b == "" {
      assert b + x == x;
    } else {
      assert (b + x)[1..] == b[1..] + x && (b + x)[0] == b[0];
      SkipBlanks(b[1..], x);
    }
  }

  lemma {:induction false} TrimBlanks(x: string, b: string)
    requires Blanks(b)
    ensures TrimEnd(x + b) == TrimEnd(x)
    decreases |b|
  {
    if b == "" {
      assert x + b == x;
    } else {
      assert (x + b)[..|x + b| - 1] == x + b[..|b| - 1] && (x + b)[|x + b| - 1] == b[|b| - 1];
      TrimBlanks(x, b[..|b| - 1]);
    }
  }

  lemma LexSpace(x: string, afterMatch: bool)
    ensures Lex(" " + x, afterMatch) == Lex(x, afterMatch)
  {
    hide Front;
    assert (" " + x)[1..] == x;
    assert SkipSpace(" " + x) == SkipSpace(x);
  }

  /** A text that starts with a token of known length. */
  lemma LexFront(s: string, x: string, t: Token, n: nat, afterMatch: bool)
    requires s != "" && !IsSpace(s[0]) && n <= |s| && Front(s, afterMatch) == (t, n) && s[n..] == x
    ensures Lex(s, afterMatch) == (t, x)
  {
    hide Front;
    SkipNone(s);
  }

  lemma LexSymbol(s: string, afterMatch: bool)
    requires s != "" && Symbol(s).Some? && !IsSpace(s[0])
    ensures Symbol(s).value.1 <= |s| && Lex(s, afterMatch) == (Symbol(s).value.0, s[Symbol(s).value.1..])
  {
    LexFront(s, s[Symbol(s).value.1..], Symbol(s).value.0, Symbol(s).value.1, afterMatch);
  }

  lemma LexSymbols(x: string, afterMatch: bool)
    ensures Lex("(" + x, afterMatch) == (TLParen, x) && Lex(")" + x, afterMatch) == (TRParen, x)
    ensures x != "" && x[0] != '=' && x[0] != '~' ==> Lex("!" + x, afterMatch) == (TNot, x)
  {
    hide Lex;
    LexSymbol("(" + x, afterMatch);
    LexSymbol(")" + x, afterMatch);
    assert ("(" + x)[1..] == x && (")" + x)[1..] == x && ("!" + x)[1..] == x;
    if x != "" && x[0] != '=' && x[0] != '~' { LexSymbol("!" + x, afterMatch); }
  }

  lemma LexAnd(x: string, afterMatch: bool)
    ensures Lex(" && " + x, afterMatch) == (TAnd, " " + x)
  {
    hide Lex;
    var s := "&& " + x;
    assert " " + s == " && " + x && s[2..] == " " + x;
    LexSpace(s, afterMatch);
    LexSymbol(s, afterMatch);
  }

  lemma LexOr(x: string, afterMatch: bool)
    ensures Lex(" || " + x, afterMatch) == (TOr, " " + x)
  {
    hide Lex;
    var s := "|| " + x;
    assert " " + s == " || " + x && s[2..] == " " + x;
    LexSpace(s, afterMatch);
    LexSymbol(s, afterMatch);
  }

  function OpSymbol(op: CmpOp): string {
    match op
    case Eq => "==" case Ne => "!=" case Lt => "<" case Gt => ">"
    case Le => "<=" case Ge => ">=" case Match => "=~" case NoMatch => "!~"
    case IntEq => "-eq" case IntNe => "-ne" case IntLt => "-lt"
    case IntLe => "-le" case IntGt => "-gt" case IntGe => "-ge"
  }

  predicate IsDashOp(op: CmpOp) { |OpSymbol(op)| == 3 }

  lemma OpTextIs(op: CmpOp, x: string)
    ensures OpText(op) + x == " " + (OpSymbol(op) + (" " + x))
  {
    assert OpText(op) == " " + OpSymbol(op) + " ";
  }

  /** A dash keyword. */
  lemma LexDash(kw: string, k: string, t: Token, afterMatch: bool)
    requires kw != "" && (forall i :: 0 <= i < |kw| ==> IsAlpha(kw[i])) && DashKeyword(kw) == Some(t) && Breaks(k)
    ensures Lex("-" + kw + k, afterMatch) == (t, k)
  {
    hide Lex, DashKeyword;
    var s := "-" + kw + k;
    var n := |kw| + 1;
    assert s[0] == '-' && s[1..n] == kw && s[n..] == k && (n < |s| ==> s[n] == k[0]);
    assert forall i :: 1 <= i < n ==> s[i] == kw[i - 1];
    SpanIs(s, 1, KeywordChar, n);
    assert Dashed(s) == Some((t, n));
    assert Symbol(s).None?;
    LexFront(s, k, t, n, afterMatch);
  }

  lemma {:induction false} SpanIs(s: string, i: nat, p: char -> bool, j: nat)
    requires i <= j <= |s| && (forall k :: i <= k < j ==> p(s[k])) && (j < |s| ==> !p(s[j]))
    ensures Span(s, i, p) == j
    decreases |s| - i
  {
    if i < j { SpanIs(s, i + 1, p, j); }
  }

  lemma LexOp(op: CmpOp, x: string, afterMatch: bool)
    ensures Lex(OpText(op) + x, afterMatch) == (TCmp(op), " " + x)
  {
    hide Lex, OpText;
    OpTextIs(op, x);
    var s := OpSymbol(op) + (" " + x);
    LexSpace(s, afterMatch);
    if IsDashOp(op) {
      var kw := OpSymbol(op)[1..];
      assert s == "-" + kw + (" " + x);
      LexDash(kw, " " + x, TCmp(op), afterMatch);
    } else {
      assert s[|OpSymbol(op)|..] == " " + x;
      LexSymbol(s, afterMatch);
    }
  }

  lemma LexTest(test: FileOp, x: string, afterMatch: bool)
    ensures Lex(TestText(test) + x, afterMatch) == (TFile(test), " " + x)
  {
    hide Lex;
    var kw := match test case FileF => "f" case FileD => "d" case FileS => "s" case FileL => "l" case FileE => "e";
    assert TestText(test) + x == "-" + kw + (" " + x);
    LexDash(kw, " " + x, TFile(test), afterMatch);
  }

  lemma LexIp(x: string, afterMatch: bool)
    ensures Lex("-ipmatch " + x, afterMatch) == (TIp, " " + x)
    ensures Lex(" -ipmatch " + x, afterMatch) == (TIp, " " + x)
  {
    hide Lex;
    assert "-ipmatch " + x == "-" + "ipmatch" + (" " + x);
    assert " -ipmatch " + x == " " + ("-ipmatch " + x);
    LexDash("ipmatch", " " + x, TIp, afterMatch);
    LexSpace("-ipmatch " + x, afterMatch);
  }

  lemma LexName(lower: bool, k: string, afterMatch: bool)
    requires Breaks(k)
    ensures Lex((if lower then "tolower" else "toupper") + k, afterMatch) == (TFunc(lower), k)
  {
    hide Lex;
    var name := if lower then "tolower" else "toupper";
    var s := name + k;
    assert s[..7] == name && s[7..] == k && s[0] == 't' && s[2] == name[2];
    assert |s| > 7 ==> s[7] == k[0];
    assert NamedWord(s, name) && (!lower ==> !NamedWord(s, "tolower"));
    assert Word(s) == (TFunc(lower), 7);
    LexFront(s, k, TFunc(lower), 7, afterMatch);
  }

  lemma LexFunc(lower: bool, x: string, afterMatch: bool)
    ensures Lex(FuncText(lower) + x, afterMatch) == (TFunc(lower), "(" + x)
  {
    hide Lex;
    assert FuncText(lower) + x == (if lower then "tolower" else "toupper") + ("(" + x);
    LexName(lower, "(" + x, afterMatch);
  }

  lemma LexQuoted(q: char, t: string, k: string, afterMatch: bool)
    requires (q == '\'' || q == '"') && q !in t
    ensures Lex([q] + t + [q] + k, afterMatch) == (TStr(t), k)
  {
    hide Lex;
    var s := [q] + t + [q] + k;
    var n := |t| + 1;
    assert s[n..n + 1] == [q] && s[1..n] == t && s[n + 1..] == k;
    forall j: nat | 1 <= j < n
      ensures !OccursAt(s, [q], j)
    {
      assert s[j..j + 1][0] == t[j - 1];
    }
    FindIs(s, [q], 1, n);
    LexFront(s, k, TStr(t), n + 1, afterMatch);
  }

  lemma LexStr(t: string, k: string, afterMatch: bool)
    requires '\'' !in t
    ensures Lex("'" + t + ("'" + k), afterMatch) == (TStr(t), k)
  {
    hide Lex;
    LexQuoted('\'', t, k, afterMatch);
    assert ['\''] + t + ['\''] + k == "'" + t + ("'" + k);
  }

  lemma LexVar(t: string, k: string, afterMatch: bool)
    requires VarOK(t)
    ensures Lex(t + k, afterMatch) == (TVar(t), k)
  {
    hide Lex;
    var s := t + k;
    assert t[..2] == "%{" && t[0] == t[..2][0] && t[1] == t[..2][1];
    FindExtend(t, k, "}", 2);
    assert s[..|t|] == t && s[|t|..] == k;
    LexFront(s, k, TVar(t), |t|, afterMatch);
  }

  lemma {:induction false} RegexEndExtend(s: string, k: string, q: nat)
    requires 1 <= q && RegexEnd(s, q).Some?
    ensures RegexEnd(s + k, q) == RegexEnd(s, q)
    decreases |s| - q
  {
    if !(s[q] == '/' && (q == 1 || s[q - 1] != '\\')) { RegexEndExtend(s, k, q + 1); }
  }

  /** The flag behind a pattern is read over. */
  lemma LexRegex(t: string, k: string)
    requires RegexOK(t)
    ensures Lex("/" + t + "/i" + k, true) == (TRegex(t), k)
    ensures Breaks(k) ==> Lex("/" + t + "/" + k, true) == (TRegex(t), k)
  {
    hide Lex;
    var n := |t| + 1;
    var s := "/" + t + "/i" + k;
    assert s == "/" + t + "/" + ("i" + k);
    RegexEndExtend("/" + t + "/", "i" + k, 1);
    assert s[1..n] == t && s[n + 1] == 'i' && s[n + 2..] == k;
    LexFront(s, k, TRegex(t), n + 2, true);
    var u := "/" + t + "/" + k;
    RegexEndExtend("/" + t + "/", k, 1);
    assert u[1..n] == t && u[n + 1..] == k && (n + 1 < |u| ==> u[n + 1] == k[0]);
    if Breaks(k) { LexFront(u, k, TRegex(t), n + 1, true); }
  }

  lemma LexInt(t: string, k: string, afterMatch: bool)
    requires IsIntText(t) && Breaks(k)
    ensures Lex(t + k, afterMatch) == (TInt(t), k)
  {
    hide Lex;
    var s := t + k;
    IntChars(t);
    assert s[..|t|] == t && s[|t|..] == k;
    assert forall i :: 0 <= i < |t| ==> s[i] == t[i];
    assert |t| < |s| ==> s[|t|] == k[0];
    SpanIs(s, 0, IsWordChar, |t|);
    assert Symbol(s).None? && Dashed(s).None?;
    assert Word(s) == (TInt(t), |t|);
    LexFront(s, k, TInt(t), |t|, afterMatch);
  }

  lemma IntChars(t: string)
    requires IsIntText(t)
    ensures t != "" && (IsDigit(t[0]) || (1 < |t| && IsDigit(t[1]) && (t[0] == '-' || t[0] == '+')))
    ensures forall i :: 0 <= i < |t| ==> IsWordChar(t[i]) && !IsAlpha(t[i])
    ensures !IsSpace(t[|t| - 1])
  {
    var d := if t != "" && (t[0] == '-' || t[0] == '+') then t[1..] else t;
    var sign := |t| - |d|;
    assert forall i :: sign <= i < |t| ==> t[i] == d[i - sign] && IsDigit(d[i - sign]);
    assert IsDigit(t[sign]) && IsDigit(t[|t| - 1]);
  }

  /** The token of a printed value, and what follows it. */
  lemma LexValue(e: Expr, underAnd: bool, k: string, afterMatch: bool)
    requires ValueOK(e, afterMatch) && Ends(k)
    ensures Lex(Written(e, underAnd, k), afterMatch) == (Tok(e), k)
  {
    hide Lex;
    match e
    case Str(t) => LexStr(t, k, afterMatch);
    case Var(t) => LexVar(t, k, afterMatch);
    case Int(t) => LexInt(t, k, afterMatch);
    case Regex(t) =>
      LexRegex(t, k);
      assert "/" + t + "/" + k == "/" + t + ("/" + k);
  }
}
