/**
 * The tokenizer object and the recursive-descent methods that move it, and the
 * printer that appends to a growing buffer, each proved to compute its function.
 */
module ExprParser {
  import opened Text
  import opened Expr

  // ------------------------------------------------------------ the scanning loops

  method SpaceEnd(s: string) returns (i: nat)
    ensures i <= |s| && s[i..] == SkipSpace(s)
  {
    i := 0;
    while i < |s| && IsSpace(s[i])
      invariant i <= |s| && SkipSpace(s[i..]) == SkipSpace(s)
    {
      assert s[i..][1..] == s[i + 1..];
      i := i + 1;
    }
    if i < |s| { assert s[i..][0] == s[i]; }
  }

  /** memchr. */
  method MemChr(s: string, c: char, from: nat) returns (r: Option<nat>)
    ensures r == Find(s, [c], from)
  {
    var i := from;
    while i < |s|
      invariant from <= i && forall j: nat :: from <= j < i ==> !OccursAt(s, [c], j)
    {
      assert s[i..i + 1] == [s[i]];
      if s[i] == c {
        FindIs(s, [c], from, i);
        return Some(i);
      }
      i := i + 1;
    }
    return None;
  }

  method RegexClose(s: string) returns (r: Option<nat>)
    ensures r == RegexEnd(s, 1)
  {
    var q := 1;
    while q < |s|
      invariant 1 <= q && RegexEnd(s, q) == RegexEnd(s, 1)
    {
      if s[q] == '/' && (q == 1 || s[q - 1] != '\\') {
        return Some(q);
      }
      q := q + 1;
    }
    return None;
  }

  method KeywordEnd(s: string) returns (j: nat)
    requires s != ""
    ensures j == Span(s, 1, KeywordChar)
  {
    j := 1;
    while j < |s| && KeywordChar(s[j])
      invariant 1 <= j <= |s| && Span(s, j, KeywordChar) == Span(s, 1, KeywordChar)
    {
      j := j + 1;
    }
  }

  method WordEnd(s: string) returns (j: nat)
    ensures j == Span(s, 0, IsWordChar)
  {
    j := 0;
    while j < |s| && IsWordChar(s[j])
      invariant 0 <= j <= |s| && Span(s, j, IsWordChar) == Span(s, 0, IsWordChar)
    {
      j := j + 1;
    }
  }

  method PureInteger(w: string) returns (isInt: bool)
    ensures isInt == IsIntText(w)
  {
    var check := if w != "" && (w[0] == '-' || w[0] == '+') then 1 else 0;
    isInt := check != |w|;
    var ci := check;
    while ci < |w| && isInt
      invariant check <= ci <= |w|
      invariant isInt ==> check != |w| && forall k :: check <= k < ci ==> IsDigit(w[k])
      invariant !isInt ==> check == |w| || exists k :: check <= k < ci && !IsDigit(w[k])
    {
      isInt := IsDigit(w[ci]);
      ci := ci + 1;
    }
    IsIntByIndex(w, check);
  }

  lemma IsIntByIndex(w: string, check: nat)
    requires check == if w != "" && (w[0] == '-' || w[0] == '+') then 1 else 0
    ensures IsIntText(w) <==> check != |w| && forall k :: check <= k < |w| ==> IsDigit(w[k])
  {
    var d := w[check..];
    assert forall k :: check <= k < |w| ==> w[k] == d[k - check];
    assert IsIntText(w) <==> d != "" && AllDigits(d);
  }

  // ------------------------------------------------------------------ the tokenizer

  class Tokenizer {
    var input: string
    var current: Token
    var lastType: Token
    var error: bool
    var depth: nat

    /** What the parsing functions see of the tokenizer. */
    function View(): State
      reads this
    {
      State(input, current, depth, error)
    }

    /** tok_init: nothing came before the first token. */
    constructor (text: string)
      ensures View() == Load(text, false, 0, false)
    {
      input, current, lastType, error, depth := text, TEof, TEof, false, 0;
      new;
      TokNext();
    }

    method Take(t: Token, n: nat)
      requires n <= |input|
      modifies this
      ensures View() == State(old(input)[n..], t, old(depth), old(error)) && lastType == old(lastType)
    {
      current := t;
      input := input[n..];
    }

    method TokNext()
      modifies this
      ensures View() == Advance(old(View())) && lastType == old(current)
    {
      lastType := current;
      var spaces := SpaceEnd(input);
      input := input[spaces..];
      if input == "" {
        current := TEof;
        return;
      }
      var symbol := Symbol(input);
      if symbol.Some? {
        SymbolFits(input);
        Take(symbol.value.0, symbol.value.1);
        return;
      }
      FrontToken();
    }

    /** The tokens that are not symbols. */
    method FrontToken()
      requires input != "" && Symbol(input).None?
      modifies this
      ensures lastType == old(lastType)
      ensures var (t, n) := Front(old(input), AfterMatch(lastType));
              View() == State(old(input)[n..], t, old(depth), old(error) || t.TError?)
    {
      hide Word, Dashed, RegexEnd, Find, Symbol;
      var c := input[0];
      if c == '%' && 1 < |input| && input[1] == '{' {
        var close := MemChr(input, '}', 2);
        if close.Some? {
          Take(TVar(input[..close.value + 1]), close.value + 1);
          return;
        }
      }
      if c == '\'' || c == '"' {
        var close := MemChr(input, c, 1);
        if close.Some? {
          Take(TStr(input[1..close.value]), close.value + 1);
        } else {
          Take(TStr(input[1..]), |input|);
        }
        return;
      }
      if c == '/' && AfterMatch(lastType) {
        var q := RegexClose(input);
        if q.Some? {
          var end := q.value + 1;
          Take(TRegex(input[1..q.value]), if end < |input| && input[end] == 'i' then end + 1 else end);
          return;
        }
      }
      var dash := DashToken(input);
      if dash.Some? {
        Take(dash.value.0, dash.value.1);
      } else if IsWordChar(c) {
        var t, n := WordToken(input);
        Take(t, n);
      } else {
        Take(TError, 1);
        error := true;
      }
    }

    static method DashToken(s: string) returns (r: Option<(Token, nat)>)
      requires s != ""
      ensures r == Dashed(s)
    {
      if s[0] != '-' || |s| == 1 || !IsAlpha(s[1]) {
        return None;
      }
      var end := KeywordEnd(s);
      if end < |s| && IsWordChar(s[end]) && s[end] != '-' {
        return None;
      }
      var t := DashKeyword(s[1..end]);
      return if t.Some? then Some((t.value, end)) else None;
    }

    static method WordToken(s: string) returns (t: Token, n: nat)
      requires s != "" && IsWordChar(s[0])
      ensures (t, n) == Word(s)
    {
      if NamedWord(s, "tolower") {
        return TFunc(true), 7;
      }
      if NamedWord(s, "toupper") {
        return TFunc(false), 7;
      }
      if NamedWord(s, "true") {
        return TStr("true"), 4;
      }
      if NamedWord(s, "false") {
        return TStr("false"), 5;
      }
      n := WordEnd(s);
      var isInt := PureInteger(s[..n]);
      t := if isInt then TInt(s[..n]) else TStr(s[..n]);
    }

    // ------------------------------------------------------------ the parse methods

    /** ++depth against the budget; going over it is an error. */
    method Deepen() returns (ok: bool)
      modifies this
      ensures ok == (old(depth) + 1 <= MAX_DEPTH)
      ensures View() == old(View()).(depth := old(depth) + 1, error := old(error) || !ok)
    {
      depth := depth + 1;
      ok := depth <= MAX_DEPTH;
      if !ok { error := true; }
    }

    method Value() returns (r: Option<Expr>)
      modifies this
      ensures (r, View()) == ParseValue(old(View()))
      decreases Size(View()), 0
    {
      match current {
        case TStr(t) => r := Some(Str(t)); TokNext();
        case TVar(t) => r := Some(Var(t)); TokNext();
        case TRegex(t) => r := Some(Regex(t)); TokNext();
        case TInt(t) => r := Some(Int(t)); TokNext();
        case _ => r := None;
      }
    }

    /** A value that must be there. */
    method Needed() returns (r: Option<Expr>)
      modifies this
      ensures var (v, t) := ParseValue(old(View()));
              (r, View()) == (v, if v.Some? then t else Failed(t))
      decreases Size(View()), 1
    {
      r := Value();
      if r.None? { error := true; }
    }

    method Primary() returns (r: Option<Expr>)
      modifies this
      ensures (r, View()) == ParsePrimary(old(View()))
      decreases Size(View()), 0
    {
      hide Lex, ParseValue, ParseOr, Load;
      match current {
        case TLParen =>
          r := Parenthesized();
        case TFile(test) =>
          TokNext();
          var operand := Needed();
          r := if operand.Some? then Some(File(test, operand.value)) else None;
        case TIp =>
          TokNext();
          var operand := Needed();
          r := if operand.Some? then Some(IpUnary(operand.value)) else None;
        case TFunc(lower) =>
          r := Call(lower);
        case _ =>
          r := Value();
      }
    }

    method Parenthesized() returns (r: Option<Expr>)
      requires current.TLParen?
      modifies this
      ensures (r, View()) == ParsePrimary(old(View()))
      decreases Size(View()), 0, 0
    {
      hide Lex, ParseOr;
      var ok := Deepen();
      if !ok {
        return None;
      }
      TokNext();
      r := OrExpr();
      if current.TRParen? {
        TokNext();
      } else {
        error := true;
        return None;
      }
      depth := depth - 1;
    }

    method Call(lower: bool) returns (r: Option<Expr>)
      requires current == TFunc(lower)
      modifies this
      ensures (r, View()) == ParsePrimary(old(View()))
      decreases Size(View()), 0, 0
    {
      hide Lex, ParseOr;
      var ok := Deepen();
      if !ok {
        return None;
      }
      TokNext();
      if !current.TLParen? {
        error := true;
        return None;
      }
      TokNext();
      var arg := OrExpr();
      if arg.None? {
        error := true;
        return None;
      }
      if !current.TRParen? {
        error := true;
        return None;
      }
      TokNext();
      depth := depth - 1;
      return Some(Func(lower, arg.value));
    }

    method CmpExpr() returns (r: Option<Expr>)
      modifies this
      ensures (r, View()) == ParseCmp(old(View()))
      decreases Size(View()), 1
    {
      hide Lex, ParsePrimary, ParseValue;
      var left := Primary();
      if left.None? {
        return None;
      }
      if current.TIp? {
        TokNext();
        var right := Needed();
        return if right.Some? then Some(IpBinary(left.value, right.value)) else None;
      }
      if current.TCmp? {
        var op := current.op;
        TokNext();
        var right := Primary();
        if right.None? {
          error := true;
          return None;
        }
        return Some(Cmp(op, left.value, right.value));
      }
      return left;
    }

    method NotExpr() returns (r: Option<Expr>)
      modifies this
      ensures (r, View()) == ParseNot(old(View()))
      decreases Size(View()), 2
    {
      hide Lex, ParseCmp;
      if current.TNot? {
        var ok := Deepen();
        if !ok {
          return None;
        }
        TokNext();
        var inner := NotExpr();
        depth := depth - 1;
        return if inner.Some? then Some(Not(inner.value)) else None;
      }
      r := CmpExpr();
    }

    method AndExpr() returns (r: Option<Expr>)
      modifies this
      ensures (r, View()) == ParseAnd(old(View()))
      decreases Size(View()), 4
    {
      hide Lex, ParseNot;
      var first := NotExpr();
      if first.None? {
        return None;
      }
      var left := first.value;
      while current.TAnd?
        invariant AndLoop(left, View()) == ParseAnd(old(View())) && Size(View()) <= old(Size(View()))
        decreases Size(View())
      {
        var ok := Deepen();
        if !ok {
          return None;
        }
        TokNext();
        var right := NotExpr();
        if right.None? {
          return None;
        }
        left := And(left, right.value);
      }
      return Some(left);
    }

    method OrExpr() returns (r: Option<Expr>)
      modifies this
      ensures (r, View()) == ParseOr(old(View()))
      decreases Size(View()), 6
    {
      hide Lex, ParseAnd;
      var first := AndExpr();
      if first.None? {
        return None;
      }
      var left := first.value;
      while current.TOr?
        invariant OrLoop(left, View()) == ParseOr(old(View())) && Size(View()) <= old(Size(View()))
        decreases Size(View())
      {
        var ok := Deepen();
        if !ok {
          return None;
        }
        TokNext();
        var right := AndExpr();
        if right.None? {
          return None;
        }
        left := Or(left, right.value);
      }
      return Some(left);
    }
  }

  lemma SymbolFits(s: string)
    requires s != "" && Symbol(s).Some?
    ensures Symbol(s).value.1 <= |s| && Front(s, true) == Symbol(s).value == Front(s, false)
    ensures !Symbol(s).value.0.TError?
  {
  }

  // ------------------------------------------------------------------- entry point

  method TrimmedEnd(s: string) returns (end: nat)
    ensures end <= |s| && s[..end] == TrimEnd(s)
  {
    end := |s|;
    assert s[..end] == s;
    while end > 0 && IsSpace(s[end - 1])
      invariant end <= |s| && TrimEnd(s[..end]) == TrimEnd(s)
    {
      assert s[..end][..end - 1] == s[..end - 1];
      end := end - 1;
    }
    if end > 0 { assert s[..end][end - 1] == s[end - 1]; }
  }

  /** expr_parse. */
  method ExprParse(text: string) returns (r: Option<Expr>)
    ensures r == Parse(text)
  {
    hide Lex, ParseOr, TrimEnd, SkipSpace;
    var start := SpaceEnd(text);
    var s := text[start..];
    var end := TrimmedEnd(s);
    s := s[..end];
    if |s| >= 2 && s[0] == '"' && s[|s| - 1] == '"' {
      s := s[1..|s| - 1];
    }
    if s == "" {
      return None;
    }
    var tok := new Tokenizer(s);
    var ast := tok.OrExpr();
    if tok.error || (!tok.current.TEof? && ast.Some?) {
      return None;
    }
    if ast.Some? && IsValue(ast.value) {
      return Some(Cmp(Ne, ast.value, Str("")));
    }
    return ast;
  }

  // -------------------------------------------------------------------- the printer

  /** A text in a buffer that doubles, with room for the closing NUL. */
  class StrBuf {
    var buf: array<char>
    var len: nat

    ghost predicate Valid()
      reads this
    {
      len < buf.Length
    }

    ghost function Text(): string
      reads this, buf
      requires Valid()
    {
      buf[..len]
    }

    constructor ()
      ensures Valid() && fresh(buf) && Text() == ""
    {
      buf := new char[256](_ => '\0');
      len := 0;
    }

    /** esb_ensure: room for `extra` more characters and the NUL. */
    method Ensure(extra: nat)
      requires Valid()
      modifies this`buf
      ensures Valid() && len + extra + 1 <= buf.Length && Text() == old(Text())
      ensures buf == old(buf) || fresh(buf)
    {
      var needed := len + extra + 1;
      if needed > buf.Length {
        var cap := if buf.Length * 2 < needed then needed else buf.Length * 2;
        var bigger := new char[cap](_ => '\0');
        forall i | 0 <= i < len { bigger[i] := buf[i]; }
        assert bigger[..len] == buf[..len];
        buf := bigger;
      }
    }

    method Append(s: string)
      requires Valid()
      modifies this, buf
      ensures Valid() && (buf == old(buf) || fresh(buf))
      ensures Text() == old(Text()) + s
    {
      Ensure(|s|);
      forall i | 0 <= i < |s| { buf[len + i] := s[i]; }
      len := len + |s|;
      buf[len] := '\0';
    }
  }

  /** needs_parens: only an || directly under an && is wrapped. */
  predicate NeedsParens(node: Expr, parent: Option<Expr>) {
    parent.Some? && parent.value.And? && node.Or?
  }

  lemma Assoc(t: string, a: string, b: string, c: string, d: string)
    ensures t + a + b == t + (a + b)
    ensures t + a + b + c == t + (a + b + c)
    ensures t + a + b + c + d == t + (a + b + c + d)
    ensures a + (b + c + d) == a + b + c + d
  {
    assert t + a + b == t + (a + b);
  }

  /** expr_to_string_r. */
  method ToStringR(sb: StrBuf, node: Expr, parent: Option<Expr>)
    requires sb.Valid()
    modifies sb, sb.buf
    ensures sb.Valid() && (sb.buf == old(sb.buf) || fresh(sb.buf))
    ensures sb.Text() == old(sb.Text()) + Print(node, parent.Some? && parent.value.And?)
    decreases node, 1
  {
    hide StrBuf.Text, StrBuf.Valid, OpText, TestText, FuncText;
    ghost var t := sb.Text();
    match node {
      case Str(v) => Quoted(sb, v, "'");
      case Var(v) => sb.Append(v);
      case Regex(v) => Quoted(sb, v, "/");
      case Int(v) => sb.Append(v);
      case Not(x) =>
        if x.And? || x.Or? || x.Cmp? {
          sb.Append("!");
          sb.Append("(");
          ToStringR(sb, x, Some(node));
          sb.Append(")");
          Assoc(t, "!", "(", Print(x, false), ")");
          assert "!" + "(" == "!(";
        } else {
          Prefixed(sb, "!", node);
        }
      case File(test, x) => Prefixed(sb, TestText(test), node);
      case IpUnary(x) => Prefixed(sb, "-ipmatch ", node);
      case Func(lower, x) =>
        Prefixed(sb, FuncText(lower), node);
        sb.Append(")");
        Assoc(t, FuncText(lower), Print(x, false), ")", "");
      case Cmp(op, _, _) => Infix(sb, OpText(op), node);
      case IpBinary(_, _) => Infix(sb, " -ipmatch ", node);
      case And(_, _) => Infix(sb, " && ", node);
      case Or(l, r) =>
        var paren := NeedsParens(node, parent);
        if paren { sb.Append("("); }
        Infix(sb, " || ", node);
        if paren {
          sb.Append(")");
          Assoc(t, "(", Print(l, false) + " || " + Print(r, false), ")", "");
        }
    }
  }

  method Quoted(sb: StrBuf, v: string, quote: string)
    requires sb.Valid()
    modifies sb, sb.buf
    ensures sb.Valid() && (sb.buf == old(sb.buf) || fresh(sb.buf))
    ensures sb.Text() == old(sb.Text()) + (quote + v + quote)
  {
    hide StrBuf.Text, StrBuf.Valid;
    Assoc(sb.Text(), quote, v, quote, "");
    sb.Append(quote);
    sb.Append(v);
    sb.Append(quote);
  }

  /** A text and then the only operand. */
  method Prefixed(sb: StrBuf, text: string, node: Expr)
    requires sb.Valid() && (node.Not? || node.File? || node.IpUnary? || node.Func?)
    modifies sb, sb.buf
    ensures sb.Valid() && (sb.buf == old(sb.buf) || fresh(sb.buf))
    ensures sb.Text() == old(sb.Text()) + (text + Print(node.operand, false))
    decreases node, 0
  {
    hide StrBuf.Text, StrBuf.Valid, Print;
    Assoc(sb.Text(), text, Print(node.operand, false), "", "");
    sb.Append(text);
    ToStringR(sb, node.operand, Some(node));
  }

  /** The left operand, the operator and the right operand. */
  method Infix(sb: StrBuf, op: string, node: Expr)
    requires sb.Valid() && (node.And? || node.Or? || node.Cmp? || node.IpBinary?)
    modifies sb, sb.buf
    ensures sb.Valid() && (sb.buf == old(sb.buf) || fresh(sb.buf))
    ensures sb.Text() == old(sb.Text()) + (Print(node.left, node.And?) + op + Print(node.right, node.And?))
    decreases node, 0
  {
    hide StrBuf.Text, StrBuf.Valid, Print;
    Assoc(sb.Text(), Print(node.left, node.And?), op, Print(node.right, node.And?), "");
    ToStringR(sb, node.left, Some(node));
    sb.Append(op);
    ToStringR(sb, node.right, Some(node));
  }

  /** expr_to_string. */
  method ExprToString(node: Expr) returns (s: string)
    ensures s == Print(node, false)
  {
    hide Print;
    var sb := new StrBuf();
    ToStringR(sb, node, None);
    s := sb.buf[..sb.len];
  }
}
