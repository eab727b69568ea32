/**
 * Printing and parsing an expression gives it back, re-associated, exactly
 * when its printed form fits the depth budget; and re-association does not
 * change what the expression means.
 */
module ExprRoundTrip {
  import opened Text
  import opened Expr
  import opened ExprLex

  // ------------------------------------------------------------- the domain

  predicate PrimaryOK(e: Expr, afterMatch: bool) {
    match e
    case File(_, x) => ValueOK(x, false)
    case IpUnary(x) => ValueOK(x, false)
    case Func(_, x) => PrintOK(x)
    case _ => ValueOK(e, afterMatch)
  }

  /** Comparison operands are values, file tests, unary ipmatch or function calls; texts can be quoted back. */
  predicate PrintOK(e: Expr) {
    match e
    case And(l, r) => PrintOK(l) && PrintOK(r)
    case Or(l, r) => PrintOK(l) && PrintOK(r)
    case Not(x) => PrintOK(x)
    case Cmp(op, l, r) => PrimaryOK(l, false) && PrimaryOK(r, op.Match? || op.NoMatch?)
    case IpBinary(l, r) => PrimaryOK(l, false) && ValueOK(r, false)
    case File(_, x) => ValueOK(x, false)
    case IpUnary(x) => ValueOK(x, false)
    case Func(_, x) => PrintOK(x)
    case _ => ValueOK(e, false)
  }

  // ----------------------------------------------------------- the depth budget

  /** The && and || nodes of an expression: the counter is raised for each and never lowered. */
  function Ops(e: Expr): nat {
    match e
    case And(l, r) => Ops(l) + 1 + Ops(r)
    case Or(l, r) => Ops(l) + 1 + Ops(r)
    case Not(x) => Ops(x)
    case Cmp(_, l, r) => Ops(l) + Ops(r)
    case IpBinary(l, _) => Ops(l)
    case Func(_, x) => Ops(x)
    case _ => 0
  }

  function Max(a: nat, b: nat): nat { if a < b then b else a }

  predicate Wrapped(x: Expr) { x.And? || x.Or? || x.Cmp? }

  /** The highest value of the depth counter while the printed text of `e` is parsed from depth `d`. */
  function Peak(e: Expr, underAnd: bool, d: nat): (p: nat)
    ensures d <= p
  {
    match e
    case And(l, r) => Max(Peak(l, true, d), Max(d + Ops(l) + 1, Peak(r, true, d + Ops(l) + 1)))
    case Or(l, r) =>
      var d' := if underAnd then d + 1 else d;
      Max(Peak(l, false, d'), Max(d' + Ops(l) + 1, Peak(r, false, d' + Ops(l) + 1)))
    case Not(x) => if Wrapped(x) then Peak(x, false, d + 2) else Peak(x, false, d + 1)
    case Cmp(_, l, r) => Max(Peak(l, false, d), Peak(r, false, d + Ops(l)))
    case IpBinary(l, _) => Peak(l, false, d)
    case Func(_, x) => Peak(x, false, d + 1)
    case _ => d
  }

  /** The counter reaches at least what the && and || nodes leave it at. */
  lemma {:induction false} PeakCovers(e: Expr, underAnd: bool, d: nat)
    ensures d + Ops(e) <= Peak(e, underAnd, d)
    decreases e, 1
  {
    match e
    case And(_, _) => ChainCovers(e, underAnd, d);
    case Or(_, _) => ChainCovers(e, underAnd, d);
    case Not(x) => PeakCovers(x, false, if Wrapped(x) then d + 2 else d + 1);
    case Cmp(_, l, r) => PeakCovers(l, false, d); PeakCovers(r, false, d + Ops(l));
    case IpBinary(l, _) => PeakCovers(l, false, d);
    case Func(_, x) => PeakCovers(x, false, d + 1);
    case _ =>
  }

  lemma {:induction false} ChainCovers(e: Expr, underAnd: bool, d: nat)
    requires e.And? || e.Or?
    ensures d + Ops(e) <= Peak(e, underAnd, d)
    decreases e, 0
  {
    var d' := if e.Or? && underAnd then d + 1 else d;
    PeakCovers(e.right, e.And?, d' + Ops(e.left) + 1);
  }

  /** The printed form never drives the parser past its budget. */
  predicate Fits(e: Expr) { Peak(e, false, 0) <= MAX_DEPTH }

  // ------------------------------------------------------------ re-association

  function JoinAnd(a: Expr, b: Expr): Expr {
    if b.And? then And(JoinAnd(a, b.left), b.right) else And(a, b)
  }

  function JoinOr(a: Expr, b: Expr): Expr {
    if b.Or? then Or(JoinOr(a, b.left), b.right) else Or(a, b)
  }

  /** The same expression with && and || chains leaning left, as the parser builds them. */
  function Norm(e: Expr): (n: Expr)
    ensures (n.And? <==> e.And?) && (n.Or? <==> e.Or?) && (IsValue(n) <==> IsValue(e)) && (IsValue(e) ==> n == e)
  {
    match e
    case And(l, r) => JoinAnd(Norm(l), Norm(r))
    case Or(l, r) => JoinOr(Norm(l), Norm(r))
    case Not(x) => Not(Norm(x))
    case Cmp(op, l, r) => Cmp(op, Norm(l), Norm(r))
    case File(test, x) => File(test, Norm(x))
    case IpUnary(x) => IpUnary(Norm(x))
    case IpBinary(l, r) => IpBinary(Norm(l), Norm(r))
    case Func(lower, x) => Func(lower, Norm(x))
    case _ => e
  }

  lemma {:induction false} JoinAndAssoc(a: Expr, b: Expr, c: Expr)
    ensures JoinAnd(JoinAnd(a, b), c) == JoinAnd(a, JoinAnd(b, c))
    decreases c
  {
    if c.And? { JoinAndAssoc(a, b, c.left); }
  }

  lemma {:induction false} JoinOrAssoc(a: Expr, b: Expr, c: Expr)
    ensures JoinOr(JoinOr(a, b), c) == JoinOr(a, JoinOr(b, c))
    decreases c
  {
    if c.Or? { JoinOrAssoc(a, b, c.left); }
  }

  lemma {:induction false} EvalJoin(session: Session, a: Expr, b: Expr)
    ensures Eval(session, JoinAnd(a, b)) == (Eval(session, a) && Eval(session, b))
    ensures Eval(session, JoinOr(a, b)) == (Eval(session, a) || Eval(session, b))
    decreases b
  {
    if b.And? || b.Or? { EvalJoin(session, a, b.left); }
  }

  /** Re-association changes no operand and no truth value, in any session. */
  lemma {:induction false} NormMeansTheSame(session: Session, e: Expr)
    ensures Eval(session, Norm(e)) == Eval(session, e)
    ensures Operand(session, Norm(e)) == Operand(session, e)
    decreases e
  {
    hide Compare, MapChars, InNetwork;
    match e
    case And(l, r) => NormMeansTheSame(session, l); NormMeansTheSame(session, r); EvalJoin(session, Norm(l), Norm(r));
    case Or(l, r) => NormMeansTheSame(session, l); NormMeansTheSame(session, r); EvalJoin(session, Norm(l), Norm(r));
    case Not(x) => NormMeansTheSame(session, x);
    case Cmp(_, l, r) => NormMeansTheSame(session, l); NormMeansTheSame(session, r);
    case File(_, x) => NormMeansTheSame(session, x);
    case IpUnary(x) => NormMeansTheSame(session, x);
    case IpBinary(l, r) => NormMeansTheSame(session, l); NormMeansTheSame(session, r);
    case Func(_, x) => NormMeansTheSame(session, x);
    case _ =>
  }

  // ------------------------------------------------------------ parser states

  /** The parser about to read `text`, at depth `d`. */
  function At(text: string, afterMatch: bool, d: nat): State { Load(text, afterMatch, d, false) }

  lemma AtToken(text: string, afterMatch: bool, d: nat, t: Token, rest: string)
    requires Lex(text, afterMatch) == (t, rest) && !t.TError?
    ensures At(text, afterMatch, d) == State(rest, t, d, false)
    ensures Advance(At(text, afterMatch, d)) == At(rest, AfterMatch(t), d)
  {
    hide Lex;
  }

  lemma AtSpace(x: string, afterMatch: bool, d: nat)
    ensures At(" " + x, afterMatch, d) == At(x, afterMatch, d)
  {
    LexSpace(x, afterMatch);
    hide Lex;
  }

  /** The outcome of parsing a printed piece: the expression and the rest, or an error when it does not fit. */
  predicate Yields(p: Parsed, fits: bool, e: Expr, rest: State) {
    if fits then p == (Some(e), rest) else p.1.error
  }

  /** The tokens that can follow an operand of ! or &&. */
  predicate AfterNot(k: string) {
    Ends(k) && !Lex(k, false).0.TCmp? && !Lex(k, false).0.TIp? && !Lex(k, false).0.TError?
  }

  predicate AfterAnd(k: string) { AfterNot(k) && !Lex(k, false).0.TAnd? }

  predicate AfterOr(k: string) { AfterAnd(k) && !Lex(k, false).0.TOr? }

  lemma Followers(k: string)
    ensures AfterOr(")" + k) && AfterOr("") && AfterNot(" && " + k) && AfterAnd(" || " + k)
  {
    LexSymbols(k, false);
    LexAnd(k, false);
    LexOr(k, false);
    hide Front;
  }

  // ------------------------------------------------------------ errors stick

  lemma ValueSticks(s: State)
    requires s.error
    ensures ParseValue(s).1.error
  {
    hide Lex;
  }

  lemma {:induction false} PrimarySticks(s: State)
    requires s.error
    ensures ParsePrimary(s).1.error
    decreases Size(s), 0
  {
    hide Lex, AndLoop, OrLoop, ParseCmp, ParseNot, ParseAnd, ParseOr, ParseValue;
    match s.cur
    case TLParen => if s.depth + 1 <= MAX_DEPTH { OrSticks(Advance(s.(depth := s.depth + 1))); }
    case TFile(_) => ValueSticks(Advance(s));
    case TIp => ValueSticks(Advance(s));
    case TFunc(_) =>
      if s.depth + 1 <= MAX_DEPTH {
        var t := Advance(s.(depth := s.depth + 1));
        if t.cur.TLParen? { OrSticks(Advance(t)); }
      }
    case _ => ValueSticks(s);
  }

  lemma {:induction false} CmpSticks(s: State)
    requires s.error
    ensures ParseCmp(s).1.error
    decreases Size(s), 1
  {
    hide Lex, ParsePrimary, ParseValue;
    PrimarySticks(s);
    var (left, t) := ParsePrimary(s);
    if left.Some? && t.cur.TIp? { ValueSticks(Advance(t)); }
    if left.Some? && t.cur.TCmp? { PrimarySticks(Advance(t)); }
  }

  lemma {:induction false} NotSticks(s: State)
    requires s.error
    ensures ParseNot(s).1.error
    decreases Size(s), 2
  {
    hide Lex, ParseCmp;
    if s.cur.TNot? {
      if s.depth + 1 <= MAX_DEPTH { NotSticks(Advance(s.(depth := s.depth + 1))); }
    } else {
      CmpSticks(s);
    }
  }

  lemma {:induction false} AndLoopSticks(left: Expr, s: State)
    requires s.error
    ensures AndLoop(left, s).1.error
    decreases Size(s), 3
  {
    hide Lex, ParseNot;
    if s.cur.TAnd? && s.depth + 1 <= MAX_DEPTH {
      var next := Advance(s.(depth := s.depth + 1));
      NotSticks(next);
      var (right, t) := ParseNot(next);
      if right.Some? { AndLoopSticks(And(left, right.value), t); }
    }
  }

  lemma {:induction false} AndSticks(s: State)
    requires s.error
    ensures ParseAnd(s).1.error
    decreases Size(s), 4
  {
    hide Lex, ParseNot, AndLoop;
    NotSticks(s);
    var (left, t) := ParseNot(s);
    if left.Some? { AndLoopSticks(left.value, t); }
  }

  lemma {:induction false} OrLoopSticks(left: Expr, s: State)
    requires s.error
    ensures OrLoop(left, s).1.error
    decreases Size(s), 5
  {
    hide Lex, ParseAnd;
    if s.cur.TOr? && s.depth + 1 <= MAX_DEPTH {
      var next := Advance(s.(depth := s.depth + 1));
      AndSticks(next);
      var (right, t) := ParseAnd(next);
      if right.Some? { OrLoopSticks(Or(left, right.value), t); }
    }
  }

  lemma {:induction false} OrSticks(s: State)
    requires s.error
    ensures ParseOr(s).1.error
    decreases Size(s), 6
  {
    hide Lex, ParseAnd, OrLoop;
    AndSticks(s);
    var (left, t) := ParseAnd(s);
    if left.Some? { OrLoopSticks(left.value, t); }
  }

  // ------------------------------------------------------------------- operands

  lemma ValueParses(e: Expr, underAnd: bool, afterMatch: bool, k: string, d: nat)
    requires ValueOK(e, afterMatch) && Ends(k)
    ensures ParseValue(At(Written(e, underAnd, k), afterMatch, d)) == (Some(e), At(k, false, d))
  {
    LexValue(e, underAnd, k, afterMatch);
    hide Lex, ValueOK, Written;
    AtToken(Written(e, underAnd, k), afterMatch, d, Tok(e), k);
  }

  lemma {:induction false} PrimaryParses(e: Expr, afterMatch: bool, k: string, d: nat)
    requires PrimaryOK(e, afterMatch) && Ends(k) && d <= MAX_DEPTH
    ensures Yields(ParsePrimary(At(Written(e, false, k), afterMatch, d)), Peak(e, false, d) <= MAX_DEPTH, Norm(e),
                   At(k, false, d + Ops(e)))
    decreases e, 1
  {
    hide Lex, ParseValue, ParseOr, ValueOK;
    var text := Written(e, false, k);
    if e.File? {
      var test, x := e.test, e.operand;
      LexTest(test, Written(x, false, k), afterMatch);
      AtToken(text, afterMatch, d, TFile(test), " " + Written(x, false, k));
      AtSpace(Written(x, false, k), false, d);
      ValueParses(x, false, false, k, d);
      ValueNorm(x, false);
    } else if e.IpUnary? {
      var x := e.operand;
      LexIp(Written(x, false, k), afterMatch);
      AtToken(text, afterMatch, d, TIp, " " + Written(x, false, k));
      AtSpace(Written(x, false, k), false, d);
      ValueParses(x, false, false, k, d);
      ValueNorm(x, false);
    } else if e.Func? {
      FuncParses(e, afterMatch, k, d);
    } else {
      ValueNorm(e, afterMatch);
      LexValue(e, false, k, afterMatch);
      AtToken(text, afterMatch, d, Tok(e), k);
      ValueParses(e, false, afterMatch, k, d);
    }
  }

  lemma ValueNorm(e: Expr, afterMatch: bool)
    requires ValueOK(e, afterMatch)
    ensures IsValue(e) && Norm(e) == e && Ops(e) == 0
  {
  }

  lemma {:induction false} FuncParses(e: Expr, afterMatch: bool, k: string, d: nat)
    requires e.Func? && PrintOK(e.operand) && Ends(k) && d <= MAX_DEPTH
    ensures Yields(ParsePrimary(At(Written(e, false, k), afterMatch, d)), Peak(e, false, d) <= MAX_DEPTH, Norm(e),
                   At(k, false, d + Ops(e)))
    decreases e, 0
  {
    hide Lex, ParsePrimary, ParseOr, PrintOK, Written, Peak, Norm, Ops, At, Advance;
    FuncShape(e, k, d);
    var x := e.operand;
    var inner := Written(x, false, ")" + k);
    LexFunc(e.lower, inner, afterMatch);
    LexSymbols(inner, false);
    AtToken(FuncText(e.lower) + inner, afterMatch, d, TFunc(e.lower), "(" + inner);
    var s := At(Written(e, false, k), afterMatch, d);
    if d + 1 <= MAX_DEPTH {
      AtToken(FuncText(e.lower) + inner, afterMatch, d + 1, TFunc(e.lower), "(" + inner);
      AtToken("(" + inner, false, d + 1, TLParen, inner);
      Followers(k);
      OrParses(x, ")" + k, d + 1);
      FuncReads(s, At("(" + inner, false, d + 1), At(inner, false, d + 1));
      CloseParen(k, d + 1 + Ops(x));
    } else {
      PeakCovers(x, false, d + 1);
      Overdrawn(s);
    }
  }

  /** A function call is read as its name, a parenthesis, a whole expression and a closing parenthesis. */
  lemma FuncReads(s: State, t: State, u: State)
    requires s.cur.TFunc? && s.depth + 1 <= MAX_DEPTH && Advance(s.(depth := s.depth + 1)) == t
    requires t.cur.TLParen? && Advance(t) == u
    ensures var (arg, v) := ParseOr(u);
            ParsePrimary(s) == if arg.None? || !v.cur.TRParen? then (None, Failed(v))
            else (Some(Func(s.cur.lower, arg.value)), Advance(v).(depth := Advance(v).depth - 1))
    ensures ParseOr(u).1.error ==> ParsePrimary(s).1.error
  {
    hide Lex, ParseOr;
  }

  /** An opening that needs one level more than the budget has. */
  lemma Overdrawn(s: State)
    requires s.depth + 1 > MAX_DEPTH
    ensures s.cur.TFunc? || s.cur.TLParen? ==> ParsePrimary(s).1.error
    ensures s.cur.TNot? ==> ParseNot(s).1.error
  {
    hide Lex, Advance, ParseOr;
  }

  lemma FuncShape(e: Expr, k: string, d: nat)
    requires e.Func?
    ensures Written(e, false, k) == FuncText(e.lower) + Written(e.operand, false, ")" + k)
    ensures Peak(e, false, d) == Peak(e.operand, false, d + 1)
    ensures Norm(e) == Func(e.lower, Norm(e.operand)) && Ops(e) == Ops(e.operand)
  {
  }

  /** A closing parenthesis is passed and the counter goes back. */
  lemma CloseParen(k: string, d: nat)
    requires d > 0
    ensures At(")" + k, false, d).cur == TRParen && !At(")" + k, false, d).error
    ensures var u := Advance(At(")" + k, false, d)); u.depth == d && u.(depth := d - 1) == At(k, false, d - 1)
  {
    hide Lex;
    LexSymbols(k, false);
    AtToken(")" + k, false, d, TRParen, k);
    AtDepth(k, d);
  }

  lemma AtDepth(k: string, d: nat)
    requires d > 0
    ensures At(k, false, d).depth == d && At(k, false, d).(depth := d - 1) == At(k, false, d - 1)
  {
    hide Lex;
  }

  /** A parenthesis is read as a whole expression and a closing parenthesis. */
  lemma ParenReads(s: State, t: State)
    requires s.cur.TLParen? && s.depth + 1 <= MAX_DEPTH && Advance(s.(depth := s.depth + 1)) == t
    ensures var (inner, v) := ParseOr(t);
            ParsePrimary(s) == if !v.cur.TRParen? then (None, Failed(v))
            else (inner, Advance(v).(depth := Advance(v).depth - 1))
    ensures ParseOr(t).1.error ==> ParsePrimary(s).1.error
  {
    hide Lex, ParseOr;
  }

  lemma {:induction false} ParenParses(x: Expr, k: string, d: nat)
    requires PrintOK(x) && Ends(k) && d <= MAX_DEPTH
    ensures Yields(ParsePrimary(At("(" + Written(x, false, ")" + k), false, d)),
                   d + 1 <= MAX_DEPTH && Peak(x, false, d + 1) <= MAX_DEPTH, Norm(x), At(k, false, d + Ops(x)))
    decreases x, if x.Or? then 3 else 8
  {
    hide Lex, ParsePrimary, ParseOr, PrintOK, Peak, Norm, Written, At, Advance;
    var inner := Written(x, false, ")" + k);
    LexSymbols(inner, false);
    AtToken("(" + inner, false, d, TLParen, inner);
    var s := At("(" + inner, false, d);
    if d + 1 <= MAX_DEPTH {
      AtToken("(" + inner, false, d + 1, TLParen, inner);
      Followers(k);
      OrParses(x, ")" + k, d + 1);
      ParenReads(s, At(inner, false, d + 1));
      CloseParen(k, d + 1 + Ops(x));
    } else {
      Overdrawn(s);
    }
  }

  // ---------------------------------------------------------------- comparisons

  /** Nothing that compares follows, so the comparison level passes its operand on. */
  lemma CmpPasses(s: State, fits: bool, e: Expr, k: string, d: nat)
    requires Yields(ParsePrimary(s), fits, e, At(k, false, d)) && AfterNot(k)
    ensures Yields(ParseCmp(s), fits, e, At(k, false, d))
  {
    hide ParsePrimary, ParseValue, Lex;
    AtToken(k, false, d, Lex(k, false).0, Lex(k, false).1);
    CmpFails(s);
  }

  lemma {:induction false} CmpParses(e: Expr, k: string, d: nat)
    requires e.Cmp? && PrintOK(e) && AfterNot(k) && d <= MAX_DEPTH
    ensures Yields(ParseCmp(At(Written(e, false, k), false, d)), Peak(e, false, d) <= MAX_DEPTH, Norm(e),
                   At(k, false, d + Ops(e)))
    decreases e, 1
  {
    hide Lex, ParseCmp, ParsePrimary, PrimaryOK, Written, Peak, Norm, Ops, OpText, PrintOK, At, Advance;
    CmpShape(e, k, d);
    var right := Written(e.right, false, k);
    var tail := OpText(e.op) + right;
    var s := At(Written(e, false, k), false, d);
    PrimaryParses(e.left, false, tail, d);
    CmpFails(s);
    if Peak(e.left, false, d) <= MAX_DEPTH {
      LexOp(e.op, right, false);
      PeakCovers(e.left, false, d);
      var d' := d + Ops(e.left);
      AtToken(tail, false, d', TCmp(e.op), " " + right);
      var am := AfterMatch(TCmp(e.op));
      AtSpace(right, am, d');
      CmpReads(s, Norm(e.left), At(tail, false, d'), At(right, am, d'));
      PrimaryParses(e.right, am, k, d');
    }
  }

  /** A comparison is read as an operand, the operator and another operand. */
  lemma CmpReads(s: State, left: Expr, t: State, u: State)
    requires ParsePrimary(s) == (Some(left), t) && t.cur.TCmp? && Advance(t) == u
    ensures var (right, v) := ParsePrimary(u);
            v.error ==> ParseCmp(s).1.error
    ensures var (right, v) := ParsePrimary(u);
            right.Some? ==> ParseCmp(s) == (Some(Cmp(t.cur.op, left, right.value)), v)
  {
    hide Lex, Advance, ParsePrimary;
  }

  lemma CmpShape(e: Expr, k: string, d: nat)
    requires e.Cmp? && PrintOK(e)
    ensures Written(e, false, k) == Written(e.left, false, OpText(e.op) + Written(e.right, false, k))
    ensures Ends(OpText(e.op) + Written(e.right, false, k))
    ensures Peak(e, false, d) == Max(Peak(e.left, false, d), Peak(e.right, false, d + Ops(e.left)))
    ensures Norm(e) == Cmp(e.op, Norm(e.left), Norm(e.right)) && Ops(e) == Ops(e.left) + Ops(e.right)
    ensures PrimaryOK(e.left, false) && PrimaryOK(e.right, AfterMatch(TCmp(e.op)))
  {
    hide PrimaryOK;
    OpTextIs(e.op, Written(e.right, false, k));
  }

  /** An error in the left operand is an error of the comparison. */
  lemma CmpFails(s: State)
    ensures ParsePrimary(s).1.error ==> ParseCmp(s).1.error
  {
    hide Lex, ParsePrimary, ParseValue;
    var (l, t) := ParsePrimary(s);
    if t.error && l.Some? {
      if t.cur.TIp? { ValueSticks(Advance(t)); }
      if t.cur.TCmp? { PrimarySticks(Advance(t)); }
    }
  }

  lemma {:induction false} IpParses(e: Expr, k: string, d: nat)
    requires e.IpBinary? && PrintOK(e) && AfterNot(k) && d <= MAX_DEPTH
    ensures Yields(ParseCmp(At(Written(e, false, k), false, d)), Peak(e, false, d) <= MAX_DEPTH, Norm(e),
                   At(k, false, d + Ops(e)))
    decreases e, 1
  {
    hide Lex, ParsePrimary, ParseValue, PrimaryOK, ValueOK;
    var right := Written(e.right, false, k);
    var tail := " -ipmatch " + right;
    PrimaryParses(e.left, false, tail, d);
    CmpFails(At(Written(e, false, k), false, d));
    if Peak(e.left, false, d) <= MAX_DEPTH {
      LexIp(right, false);
      var d' := d + Ops(e.left);
      AtToken(tail, false, d', TIp, " " + right);
      AtSpace(right, false, d');
      ValueParses(e.right, false, false, k, d');
      ValueNorm(e.right, false);
    }
  }

  // ----------------------------------------------------------------- negations

  /** A comparison starts with a token that is not !. */
  lemma NotPasses(s: State, fits: bool, e: Expr, rest: State)
    requires Yields(ParseCmp(s), fits, e, rest) && !s.cur.TNot?
    ensures Yields(ParseNot(s), fits, e, rest)
  {
    hide ParseCmp;
  }

  lemma {:induction false} FirstToken(e: Expr, k: string, d: nat)
    requires PrintOK(e) && Ends(k) && !e.And? && !e.Or? && !e.Not?
    ensures !At(Written(e, false, k), false, d).cur.TNot?
    decreases e
  {
    hide Lex, ValueOK;
    match e
    case Cmp(op, l, r) =>
      OpTextIs(op, Written(r, false, k));
      PrimaryToken(l, OpText(op) + Written(r, false, k), d);
    case IpBinary(l, r) => PrimaryToken(l, " -ipmatch " + Written(r, false, k), d);
    case _ => PrimaryToken(e, k, d);
  }

  lemma PrimaryToken(e: Expr, k: string, d: nat)
    requires PrimaryOK(e, false) && Ends(k)
    ensures !At(Written(e, false, k), false, d).cur.TNot?
  {
    hide Lex, ValueOK;
    match e
    case File(test, x) => LexTest(test, Written(x, false, k), false);
    case IpUnary(x) => LexIp(Written(x, false, k), false);
    case Func(lower, x) => LexFunc(lower, Written(x, false, ")" + k), false);
    case _ => LexValue(e, false, k, false);
  }

  lemma {:induction false} FirstChar(e: Expr, underAnd: bool, k: string)
    requires PrintOK(e)
    ensures var s := Written(e, underAnd, k); s != "" && !IsSpace(s[0]) && s[0] != '=' && s[0] != '~' && s[0] != '"'
    decreases e
  {
    hide ValueOK;
    match e
    case And(l, r) =>
      FirstChar(l, true, " && " + Written(r, true, k));
    case Or(l, r) =>
      FirstChar(l, false, " || " + Written(r, false, if underAnd then ")" + k else k));
    case Cmp(op, l, r) => PrimaryChar(l, OpText(op) + Written(r, false, k));
    case IpBinary(l, r) => PrimaryChar(l, " -ipmatch " + Written(r, false, k));
    case Not(_) =>
    case _ => PrimaryChar(e, k);
  }

  lemma PrimaryChar(e: Expr, k: string)
    requires PrimaryOK(e, false)
    ensures forall underAnd ::
              var s := Written(e, underAnd, k); s != "" && !IsSpace(s[0]) && s[0] != '=' && s[0] != '~' && s[0] != '"'
  {
    if e.Int? { IntChars(e.text); }
    if e.Var? { assert e.text[0] == e.text[..2][0]; }
  }

  lemma {:induction false} NotParses(e: Expr, k: string, d: nat)
    requires PrintOK(e) && !e.And? && !e.Or? && AfterNot(k) && d <= MAX_DEPTH
    ensures Yields(ParseNot(At(Written(e, false, k), false, d)), Peak(e, false, d) <= MAX_DEPTH, Norm(e),
                   At(k, false, d + Ops(e)))
    decreases e, 3
  {
    hide Lex, ParseCmp, ParsePrimary, ParseNot, ValueOK, Written, Peak, Norm, Ops;
    if e.Not? {
      BangParses(e, k, d);
    } else {
      FirstToken(e, k, d);
      if e.Cmp? {
        CmpParses(e, k, d);
      } else if e.IpBinary? {
        IpParses(e, k, d);
      } else {
        PrimaryParses(e, false, k, d);
        CmpPasses(At(Written(e, false, k), false, d), Peak(e, false, d) <= MAX_DEPTH, Norm(e), k, d + Ops(e));
      }
      NotPasses(At(Written(e, false, k), false, d), Peak(e, false, d) <= MAX_DEPTH, Norm(e), At(k, false, d + Ops(e)));
    }
  }

  /** The text after a !: a complex operand is in parentheses. */
  function BangText(x: Expr, k: string): string {
    if Wrapped(x) then "(" + Written(x, false, ")" + k) else Written(x, false, k)
  }

  lemma BangChar(x: Expr, k: string)
    requires PrintOK(x)
    ensures BangText(x, k) != "" && BangText(x, k)[0] != '=' && BangText(x, k)[0] != '~'
  {
    hide PrintOK, Written;
    if !Wrapped(x) { FirstChar(x, false, k); }
  }

  lemma {:induction false} BangOperand(x: Expr, k: string, d: nat)
    requires PrintOK(x) && AfterNot(k) && d <= MAX_DEPTH
    ensures Yields(ParseNot(At(BangText(x, k), false, d)),
                   (if Wrapped(x) then Peak(x, false, d + 1) else Peak(x, false, d)) <= MAX_DEPTH, Norm(x),
                   At(k, false, d + Ops(x)))
    ensures BangText(x, k) != "" && BangText(x, k)[0] != '=' && BangText(x, k)[0] != '~'
    decreases x, 9
  {
    hide Lex, ParseCmp, ParsePrimary, ParseNot, PrintOK, Written, Peak, Norm, Ops;
    if Wrapped(x) {
      var s := At(BangText(x, k), false, d);
      var fits := Peak(x, false, d + 1) <= MAX_DEPTH;
      PeakCovers(x, false, d + 1);
      ParenParses(x, k, d);
      CmpPasses(s, fits, Norm(x), k, d + Ops(x));
      LexSymbols(Written(x, false, ")" + k), false);
      NotPasses(s, fits, Norm(x), At(k, false, d + Ops(x)));
    } else {
      NotParses(x, k, d);
    }
    BangChar(x, k);
  }

  lemma {:induction false} BangParses(e: Expr, k: string, d: nat)
    requires e.Not? && PrintOK(e) && AfterNot(k) && d <= MAX_DEPTH
    ensures Yields(ParseNot(At(Written(e, false, k), false, d)), Peak(e, false, d) <= MAX_DEPTH, Norm(e),
                   At(k, false, d + Ops(e)))
    decreases e, 2
  {
    hide Lex, ParseNot, PrintOK, Written, Peak, Norm, Ops, BangText, At, Advance;
    var x := e.operand;
    NotShape(e, k, d);
    var text := BangText(x, k);
    var s := At("!" + text, false, d);
    if d + 1 <= MAX_DEPTH {
      BangOperand(x, k, d + 1);
      LexSymbols(text, false);
      AtToken("!" + text, false, d, TNot, text);
      AtToken("!" + text, false, d + 1, TNot, text);
      NotReads(s, At(text, false, d + 1));
      AtDepth(k, d + 1 + Ops(x));
    } else {
      BangChar(x, k);
      LexSymbols(text, false);
      AtToken("!" + text, false, d, TNot, text);
      PeakCovers(x, false, d + 1);
      PeakCovers(x, false, d + 2);
      Overdrawn(s);
    }
  }

  lemma NotReads(s: State, t: State)
    requires s.cur.TNot? && s.depth + 1 <= MAX_DEPTH && Advance(s.(depth := s.depth + 1)) == t
    ensures var (inner, v) := ParseNot(t);
            ParseNot(s) == (if inner.Some? then Some(Not(inner.value)) else None, v.(depth := v.depth - 1))
  {
    hide Lex, Advance, ParseCmp;
  }

  lemma NotShape(e: Expr, k: string, d: nat)
    requires e.Not? && PrintOK(e)
    ensures PrintOK(e.operand) && Written(e, false, k) == "!" + BangText(e.operand, k)
    ensures Peak(e, false, d) == if Wrapped(e.operand) then Peak(e.operand, false, d + 2)
        else Peak(e.operand, false, d + 1)
    ensures Norm(e) == Not(Norm(e.operand)) && Ops(e) == Ops(e.operand)
  {
  }

  // ------------------------------------------------------------------ && chains

  lemma {:induction false} AndOperand(e: Expr, k: string, d: nat)
    requires PrintOK(e) && !e.And? && AfterNot(k) && d <= MAX_DEPTH
    ensures Yields(ParseNot(At(Written(e, true, k), false, d)), Peak(e, true, d) <= MAX_DEPTH, Norm(e),
                   At(k, false, d + Ops(e)))
    decreases e, 4
  {
    hide Lex, ParseCmp, ParsePrimary, ParseNot, PrintOK, Norm, Ops;
    if e.Or? {
      var s := At(Written(e, true, k), false, d);
      var fits := Peak(e, true, d) <= MAX_DEPTH;
      assert Written(e, true, k) == "(" + Written(e, false, ")" + k) && Peak(e, true, d) == Peak(e, false, d + 1);
      PeakCovers(e, false, d + 1);
      hide Written, Peak;
      ParenParses(e, k, d);
      CmpPasses(s, fits, Norm(e), k, d + Ops(e));
      LexSymbols(Written(e, false, ")" + k), false);
      NotPasses(s, fits, Norm(e), At(k, false, d + Ops(e)));
    } else {
      assert Written(e, true, k) == Written(e, false, k) && Peak(e, true, d) == Peak(e, false, d);
      NotParses(e, k, d);
    }
  }

  function JoinedAnd(left: Option<Expr>, e: Expr): Expr { if left.Some? then JoinAnd(left.value, e) else e }

  /** The && level with some operands already read, or none. */
  function ContinueAnd(left: Option<Expr>, s: State): Parsed {
    if left.None? then ParseAnd(s)
    else
      var (right, t) := ParseNot(s);
      if right.None? then (None, t) else AndLoop(And(left.value, right.value), t)
  }

  /** Reading a printed operand or chain on top of `left` brings the loop to the text after it. */
  predicate Reaches(p: Parsed, fits: bool, q: Parsed) { if fits then p == q else p.1.error }

  lemma {:induction false} AndTail(left: Option<Expr>, e: Expr, k: string, d: nat)
    requires PrintOK(e) && AfterNot(k) && d <= MAX_DEPTH
    ensures Reaches(ContinueAnd(left, At(Written(e, true, k), false, d)), Peak(e, true, d) <= MAX_DEPTH,
                    AndLoop(JoinedAnd(left, Norm(e)), At(k, false, d + Ops(e))))
    decreases e, 5
  {
    hide Lex, ParseNot, AndLoop, PrintOK;
    if e.And? {
      AndChain(left, e, k, d);
    } else {
      AndOperand(e, k, d);
      var s := At(Written(e, true, k), false, d);
      hide Written, Peak, Norm, Ops;
      var (right, t) := ParseNot(s);
      if t.error && right.Some? {
        AndLoopSticks(if left.Some? then And(left.value, right.value) else right.value, t);
      }
    }
  }

  lemma AndChildren(e: Expr)
    requires (e.And? || e.Or?) && PrintOK(e)
    ensures PrintOK(e.left) && PrintOK(e.right)
  {
  }

  lemma {:induction false} AndChain(left: Option<Expr>, e: Expr, k: string, d: nat)
    requires e.And? && PrintOK(e) && AfterNot(k) && d <= MAX_DEPTH
    ensures Reaches(ContinueAnd(left, At(Written(e, true, k), false, d)), Peak(e, true, d) <= MAX_DEPTH,
                    AndLoop(JoinedAnd(left, Norm(e)), At(k, false, d + Ops(e))))
    decreases e, 1
  {
    hide Lex, ParseNot, AndLoop, PrintOK, ContinueAnd;
    AndChildren(e);
    var l, r := e.left, e.right;
    var right := Written(r, true, k);
    var d' := d + Ops(l);
    Followers(right);
    AndTail(left, l, " && " + right, d);
    var joined := JoinedAnd(left, Norm(l));
    AndLoopTurn(joined, right, d');
    if d' + 1 <= MAX_DEPTH { AndTail(Some(joined), r, k, d' + 1); }
    JoinedAssoc(left, Norm(l), Norm(r));
  }

  lemma JoinedAssoc(left: Option<Expr>, a: Expr, b: Expr)
    ensures JoinedAnd(Some(JoinedAnd(left, a)), b) == JoinedAnd(left, JoinAnd(a, b))
  {
    if left.Some? { JoinAndAssoc(left.value, a, b); }
  }

  /** One turn of the && loop. */
  lemma AndLoopTurn(left: Expr, right: string, d: nat)
    ensures var p := AndLoop(left, At(" && " + right, false, d));
            if d + 1 <= MAX_DEPTH then p == ContinueAnd(Some(left), At(right, false, d + 1)) else p.1.error
  {
    hide Lex, ParseNot;
    LexAnd(right, false);
    AtToken(" && " + right, false, d, TAnd, " " + right);
    AtToken(" && " + right, false, d + 1, TAnd, " " + right);
    AtSpace(right, false, d + 1);
  }

  // ------------------------------------------------------------------ || chains

  function JoinedOr(left: Option<Expr>, e: Expr): Expr { if left.Some? then JoinOr(left.value, e) else e }

  function ContinueOr(left: Option<Expr>, s: State): Parsed {
    if left.None? then ParseOr(s)
    else
      var (right, t) := ParseAnd(s);
      if right.None? then (None, t) else OrLoop(Or(left.value, right.value), t)
  }

  lemma {:induction false} OrTail(left: Option<Expr>, e: Expr, k: string, d: nat)
    requires PrintOK(e) && AfterAnd(k) && d <= MAX_DEPTH
    ensures Reaches(ContinueOr(left, At(Written(e, false, k), false, d)), Peak(e, false, d) <= MAX_DEPTH,
                    OrLoop(JoinedOr(left, Norm(e)), At(k, false, d + Ops(e))))
    decreases e, if e.Or? then 1 else 6
  {
    hide Lex, ParseAnd, OrLoop, PrintOK;
    if e.Or? {
      OrChain(left, e, k, d);
    } else {
      assert Written(e, true, k) == Written(e, false, k) && Peak(e, true, d) == Peak(e, false, d);
      hide Written, Peak, Norm, Ops;
      AndTail(None, e, k, d);
      AndEnds(Norm(e), k, d + Ops(e));
      var (right, t) := ParseAnd(At(Written(e, false, k), false, d));
      if t.error && right.Some? {
        OrLoopSticks(if left.Some? then Or(left.value, right.value) else right.value, t);
      }
    }
  }

  /** The && loop stops at a text that goes on with anything else. */
  lemma AndEnds(e: Expr, k: string, d: nat)
    requires AfterAnd(k)
    ensures AndLoop(e, At(k, false, d)) == (Some(e), At(k, false, d))
  {
    hide Lex, ParseNot;
  }

  lemma {:induction false} OrChain(left: Option<Expr>, e: Expr, k: string, d: nat)
    requires e.Or? && PrintOK(e) && AfterAnd(k) && d <= MAX_DEPTH
    ensures Reaches(ContinueOr(left, At(Written(e, false, k), false, d)), Peak(e, false, d) <= MAX_DEPTH,
                    OrLoop(JoinedOr(left, Norm(e)), At(k, false, d + Ops(e))))
    decreases e, 0
  {
    hide Lex, ParseAnd, OrLoop, PrintOK, ContinueOr;
    AndChildren(e);
    var l, r := e.left, e.right;
    var right := Written(r, false, k);
    var d' := d + Ops(l);
    Followers(right);
    OrTail(left, l, " || " + right, d);
    var joined := JoinedOr(left, Norm(l));
    OrLoopTurn(joined, right, d');
    if d' + 1 <= MAX_DEPTH { OrTail(Some(joined), r, k, d' + 1); }
    JoinedOrAssoc(left, Norm(l), Norm(r));
  }

  lemma JoinedOrAssoc(left: Option<Expr>, a: Expr, b: Expr)
    ensures JoinedOr(Some(JoinedOr(left, a)), b) == JoinedOr(left, JoinOr(a, b))
  {
    if left.Some? { JoinOrAssoc(left.value, a, b); }
  }

  lemma OrLoopTurn(left: Expr, right: string, d: nat)
    ensures var p := OrLoop(left, At(" || " + right, false, d));
            if d + 1 <= MAX_DEPTH then p == ContinueOr(Some(left), At(right, false, d + 1)) else p.1.error
  {
    hide Lex, ParseAnd;
    LexOr(right, false);
    AtToken(" || " + right, false, d, TOr, " " + right);
    AtToken(" || " + right, false, d + 1, TOr, " " + right);
    AtSpace(right, false, d + 1);
  }

  /** The whole expression, up to a closing parenthesis or the end. */
  lemma {:induction false} OrParses(e: Expr, k: string, d: nat)
    requires PrintOK(e) && AfterOr(k) && d <= MAX_DEPTH
    ensures Yields(ParseOr(At(Written(e, false, k), false, d)), Peak(e, false, d) <= MAX_DEPTH, Norm(e),
                   At(k, false, d + Ops(e)))
    decreases e, if e.Or? then 2 else 7
  {
    hide Lex, ParseAnd, ParseOr, PrintOK, Written, Peak, Norm, Ops;
    OrTail(None, e, k, d);
  }

  // --------------------------------------------------------------- the round trip

  lemma {:induction false} LastChar(e: Expr, underAnd: bool)
    requires PrintOK(e)
    ensures var s := Print(e, underAnd); s != "" && !IsSpace(s[|s| - 1])
    decreases e
  {
    hide OpText, ValueOK, PrimaryOK, TestText, FuncText, Print;
    match e
    case And(l, r) => LastChar(r, true); LastOf(e, underAnd, r, true);
    case Or(l, r) => LastChar(r, false); LastOf(e, underAnd, r, false);
    case Not(x) => LastChar(x, false); LastOf(e, underAnd, x, false);
    case Cmp(op, l, r) => LastPrimary(r, op.Match? || op.NoMatch?); LastOf(e, underAnd, r, false);
    case IpBinary(l, r) => LastValue(r, false); LastOf(e, underAnd, r, false);
    case File(_, x) => LastValue(x, false); LastOf(e, underAnd, x, false);
    case IpUnary(x) => LastValue(x, false); LastOf(e, underAnd, x, false);
    case Func(_, _) => FuncEnds(e, underAnd);
    case _ => LastValue(e, false);
  }

  lemma FuncEnds(e: Expr, underAnd: bool)
    requires e.Func?
    ensures var s := Print(e, underAnd); s != "" && s[|s| - 1] == ')'
  {
  }

  /** A printed expression ends as its last part ends, or with a parenthesis. */
  lemma LastOf(e: Expr, underAnd: bool, last: Expr, u: bool)
    requires if e.And? || e.Or? || e.Cmp? || e.IpBinary? then last == e.right
             else (e.Not? || e.File? || e.IpUnary?) && last == e.operand
    requires u == e.And?
    requires var t := Print(last, u); t != "" && !IsSpace(t[|t| - 1])
    ensures var s := Print(e, underAnd); s != "" && !IsSpace(s[|s| - 1])
  {
    hide OpText, TestText;
    var t := Print(last, u);
    hide Print;
    PrintEnds(e, underAnd, last, u);
    var s := Print(e, underAnd);
    if |t| <= |s| && s[|s| - |t|..] == t { assert s[|s| - 1] == t[|t| - 1]; }
  }

  lemma PrintEnds(e: Expr, underAnd: bool, last: Expr, u: bool)
    requires if e.And? || e.Or? || e.Cmp? || e.IpBinary? then last == e.right
             else (e.Not? || e.File? || e.IpUnary?) && last == e.operand
    requires u == e.And?
    ensures var s, t := Print(e, underAnd), Print(last, u);
            (s != "" && s[|s| - 1] == ')') || (|t| <= |s| && s[|s| - |t|..] == t)
  {
    hide OpText, TestText;
    var t := Print(last, u);
    match e
    case And(l, _) => Suffix(Print(l, true) + " && ", t);
    case Or(l, _) => Suffix(Print(l, false) + " || ", t);
    case Not(_) => Suffix("!", t);
    case Cmp(op, l, _) => Suffix(Print(l, false) + OpText(op), t);
    case IpBinary(l, _) => Suffix(Print(l, false) + " -ipmatch ", t);
    case File(test, _) => Suffix(TestText(test), t);
    case _ => Suffix("-ipmatch ", t);
  }

  lemma Suffix(a: string, t: string)
    ensures (a + t)[|a + t| - |t|..] == t
  {
  }

  lemma LastValue(e: Expr, afterMatch: bool)
    requires ValueOK(e, afterMatch)
    ensures var s := Print(e, false); s != "" && !IsSpace(s[|s| - 1]) && Print(e, true) == s
  {
    if e.Int? { IntChars(e.text); }
    if e.Var? { assert e.text[|e.text| - 1..] == "}"; }
  }

  lemma LastPrimary(e: Expr, afterMatch: bool)
    requires PrimaryOK(e, afterMatch)
    ensures var s := Print(e, false); s != "" && !IsSpace(s[|s| - 1])
  {
    match e
    case File(_, x) => LastValue(x, false);
    case IpUnary(x) => LastValue(x, false);
    case Func(_, _) =>
    case _ => LastValue(e, afterMatch);
  }

  /** Nothing is trimmed or unquoted when a printed expression is parsed. */
  lemma ConditionKeeps(e: Expr)
    requires PrintOK(e)
    ensures Condition(Print(e, false)) == Print(e, false) == Written(e, false, "") != ""
  {
    FirstChar(e, false, "");
    LastChar(e, false);
    WrittenIsPrinted(e, false, "");
    var s := Print(e, false);
    hide Print, Written, PrintOK;
    assert s + "" == s;
    SkipNone(s);
    assert TrimEnd(s) == s;
  }

  /** expr_parse turns a bare value into a comparison. */
  function AsCondition(e: Expr): Expr { if IsValue(e) then Cmp(Ne, e, Str("")) else e }

  /**
   * The round trip: a printed expression parses back to itself, with chains
   * leaning left, exactly when it fits the depth budget, and is refused otherwise.
   */
  lemma PrintParses(e: Expr)
    requires PrintOK(e)
    ensures Parse(Print(e, false)) == if Fits(e) then Some(AsCondition(Norm(e))) else None
  {
    hide Print, Written, PrintOK, Norm, Peak, Ops, ParseOr, Condition, Front;
    ConditionKeeps(e);
    Followers("");
    OrParses(e, "", 0);
    assert Lex("", false) == (TEof, "");
    assert At("", false, Ops(e)).cur == TEof && !At("", false, Ops(e)).error;
  }

  /**
   * Printing and parsing preserves the meaning in every session; a bare text
   * changes its truth value when it is "0" or "false", which the comparison
   * with the empty string no longer singles out.
   */
  lemma RoundTripMeansTheSame(e: Expr)
    requires PrintOK(e) && Fits(e)
    ensures Parse(Print(e, false)).Some?
    ensures (forall session: Session :: Eval(session, Parse(Print(e, false)).value) == Eval(session, e))
       <==> !((e.Str? || e.Int?) && (e.text == "0" || e.text == "false"))
  {
    hide Print, PrintOK, Fits, Parse, Norm;
    PrintParses(e);
    var back := AsCondition(Norm(e));
    if IsValue(e) {
      ValueIs(e);
      ValueMeaning(e);
    } else {
      forall session: Session
        ensures Eval(session, back) == Eval(session, e)
      {
        NormMeansTheSame(session, e);
      }
    }
  }

  lemma ValueMeaning(e: Expr)
    requires e.Str? || e.Int? || e.Var?
    ensures (forall session: Session :: Eval(session, AsCondition(e)) == Eval(session, e))
       <==> !((e.Str? || e.Int?) && (e.text == "0" || e.text == "false"))
  {
    hide Compare;
    forall session: Session
      ensures Eval(session, AsCondition(e)) == (Operand(session, e) != "")
    {
      NonEmpty(session, Operand(session, e));
    }
    if (e.Str? || e.Int?) && (e.text == "0" || e.text == "false") {
      var any := Session(_ => "", _ => None, _ => None, (_, _) => Matched, (_, _) => false, "");
      assert Eval(any, AsCondition(e)) != Eval(any, e);
    } else {
      forall session: Session
        ensures Eval(session, AsCondition(e)) == Eval(session, e)
      {
        assert Eval(session, AsCondition(e)) == (Operand(session, e) != "");
      }
    }
  }

  lemma NonEmpty(session: Session, s: string)
    ensures Compare(session, Ne, s, "") == (s != "")
  {
  }

  lemma ValueIs(e: Expr)
    requires PrintOK(e) && IsValue(e)
    ensures !e.Regex?
  {
  }
}
