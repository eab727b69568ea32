/**
 * Whatever text is parsed, the tree that comes back is small: the depth
 * counter, which is never lowered after && and ||, counts those nodes exactly,
 * and every other way to nest costs a level while it lasts.
 */
module ExprBounds {
  import opened Expr
  import opened ExprRoundTrip

  /** How deep the recursion of the evaluator, of cloning and of freeing goes. */
  function Height(e: Expr): nat {
    match e
    case And(l, r) => 1 + Max(Height(l), Height(r))
    case Or(l, r) => 1 + Max(Height(l), Height(r))
    case Not(x) => 1 + Height(x)
    case Cmp(_, l, r) => 1 + Max(Height(l), Height(r))
    case File(_, x) => 1 + Height(x)
    case IpUnary(x) => 1 + Height(x)
    case IpBinary(l, r) => 1 + Max(Height(l), Height(r))
    case Func(_, x) => 1 + Height(x)
    case _ => 1
  }

  /**
   * What a parsing function returned: the counter moved by the && and || nodes,
   * and the height is `spare` below what the levels left and those nodes allow.
   */
  predicate Bounded(s: State, p: Parsed, spare: nat) {
    p.0.Some? ==>
      && p.1.depth == s.depth + Ops(p.0.value) <= MAX_DEPTH
      && Height(p.0.value) + spare <= 2 * (MAX_DEPTH - s.depth) + 3 + Ops(p.0.value)
  }

  lemma ValueBounded(s: State)
    requires s.depth <= MAX_DEPTH
    ensures Bounded(s, ParseValue(s), 2)
    ensures ParseValue(s).0.Some? ==> Height(ParseValue(s).0.value) == 1 && Ops(ParseValue(s).0.value) == 0
    ensures ParseValue(s).1.depth == s.depth
  {
    hide Lex;
  }

  lemma {:induction false} PrimaryBounded(s: State)
    requires s.depth <= MAX_DEPTH
    ensures Bounded(s, ParsePrimary(s), 1)
    decreases Size(s), 0
  {
    hide Lex, ParseOr, ParseValue;
    if s.cur.TLParen? || s.cur.TFunc? {
      if s.depth + 1 <= MAX_DEPTH {
        NestedBounded(s);
      }
    } else if s.cur.TFile? || s.cur.TIp? {
      ValueBounded(Advance(s));
    } else {
      ValueBounded(s);
    }
  }

  lemma {:induction false} NestedBounded(s: State)
    requires s.depth + 1 <= MAX_DEPTH && (s.cur.TLParen? || s.cur.TFunc?)
    ensures Bounded(s, ParsePrimary(s), 1)
    decreases Size(s), 0, 0
  {
    hide Lex, ParseOr, ParseValue;
    var t := Advance(s.(depth := s.depth + 1));
    if s.cur.TLParen? {
      OrBounded(t);
    } else if t.cur.TLParen? {
      OrBounded(Advance(t));
    }
  }

  lemma {:induction false} CmpBounded(s: State)
    requires s.depth <= MAX_DEPTH
    ensures Bounded(s, ParseCmp(s), 0)
    decreases Size(s), 1
  {
    hide Lex, ParsePrimary, ParseValue;
    PrimaryBounded(s);
    var (left, t) := ParsePrimary(s);
    if left.Some? && t.cur.TIp? { ValueBounded(Advance(t)); }
    if left.Some? && t.cur.TCmp? { PrimaryBounded(Advance(t)); }
  }

  lemma {:induction false} NotBounded(s: State)
    requires s.depth <= MAX_DEPTH
    ensures Bounded(s, ParseNot(s), 0)
    decreases Size(s), 2
  {
    hide Lex, ParseCmp;
    if s.cur.TNot? {
      if s.depth + 1 <= MAX_DEPTH { NotBounded(Advance(s.(depth := s.depth + 1))); }
    } else {
      CmpBounded(s);
    }
  }

  /** Where a chain began and what it has read so far. */
  predicate SoFar(start: State, left: Expr, s: State) {
    Bounded(start, (Text.Some(left), s), 0)
  }

  lemma {:induction false} AndLoopBounded(start: State, left: Expr, s: State)
    requires SoFar(start, left, s)
    ensures Bounded(start, AndLoop(left, s), 0)
    decreases Size(s), 3
  {
    hide Lex, ParseNot;
    if s.cur.TAnd? && s.depth + 1 <= MAX_DEPTH {
      var next := Advance(s.(depth := s.depth + 1));
      NotBounded(next);
      var (right, t) := ParseNot(next);
      if right.Some? { AndLoopBounded(start, And(left, right.value), t); }
    }
  }

  lemma {:induction false} AndBounded(s: State)
    requires s.depth <= MAX_DEPTH
    ensures Bounded(s, ParseAnd(s), 0)
    decreases Size(s), 4
  {
    hide Lex, ParseNot, AndLoop;
    NotBounded(s);
    var (left, t) := ParseNot(s);
    if left.Some? { AndLoopBounded(s, left.value, t); }
  }

  lemma {:induction false} OrLoopBounded(start: State, left: Expr, s: State)
    requires SoFar(start, left, s)
    ensures Bounded(start, OrLoop(left, s), 0)
    decreases Size(s), 5
  {
    hide Lex, ParseAnd;
    if s.cur.TOr? && s.depth + 1 <= MAX_DEPTH {
      var next := Advance(s.(depth := s.depth + 1));
      AndBounded(next);
      var (right, t) := ParseAnd(next);
      if right.Some? { OrLoopBounded(start, Or(left, right.value), t); }
    }
  }

  lemma {:induction false} OrBounded(s: State)
    requires s.depth <= MAX_DEPTH
    ensures Bounded(s, ParseOr(s), 0)
    decreases Size(s), 6
  {
    hide Lex, ParseAnd, OrLoop;
    AndBounded(s);
    var (left, t) := ParseAnd(s);
    if left.Some? { OrLoopBounded(s, left.value, t); }
  }

  const MAX_HEIGHT: nat := 3 * MAX_DEPTH + 3

  /** For input of any length: at most 32 && and || nodes, and a height of at most 99. */
  lemma ParsedIsSmall(text: string)
    ensures var r := Parse(text); r.Some? ==> Ops(r.value) <= MAX_DEPTH && Height(r.value) <= MAX_HEIGHT
  {
    hide Lex, ParseOr, Condition;
    OrBounded(Load(Condition(text), false, 0, false));
  }
}
