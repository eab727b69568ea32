/**
 * What the evaluator decides: the laws of the connectives, the orders of texts
 * and integers, and what each test asks of the session, for expressions and for
 * the texts they are parsed from.
 */
module ExprLaws {
  import opened Text
  import opened Expr
  import opened ExprRoundTrip

  // -------------------------------------------------------------------- connectives

  /** Negation, and the two connectives as the greatest lower and the least upper bound of truth values. */
  lemma Connectives(session: Session, a: Expr, b: Expr, c: Expr)
    ensures Eval(session, Not(a)) != Eval(session, a)
    ensures (Eval(session, c) ==> Eval(session, And(a, b)))
       <==> (Eval(session, c) ==> Eval(session, a)) && (Eval(session, c) ==> Eval(session, b))
    ensures (Eval(session, Or(a, b)) ==> Eval(session, c))
       <==> (Eval(session, a) ==> Eval(session, c)) && (Eval(session, b) ==> Eval(session, c))
    ensures Eval(session, Not(And(a, b))) == Eval(session, Or(Not(a), Not(b)))
    ensures Eval(session, Not(Or(a, b))) == Eval(session, And(Not(a), Not(b)))
    ensures !Eval(session, And(a, Not(a))) && Eval(session, Or(a, Not(a)))
  {
    EvalNot(session, a);
    EvalNot(session, b);
    EvalNot(session, And(a, b));
    EvalNot(session, Or(a, b));
    EvalBoth(session, a, b);
    EvalBoth(session, Not(a), Not(b));
    EvalBoth(session, a, Not(a));
    hide Eval;
  }

  lemma EvalNot(session: Session, e: Expr)
    ensures Eval(session, Not(e)) == !Eval(session, e)
  {
    hide Compare, TestFile, InNetwork, Operand;
  }

  lemma EvalBoth(session: Session, a: Expr, b: Expr)
    ensures Eval(session, And(a, b)) == (Eval(session, a) && Eval(session, b))
    ensures Eval(session, Or(a, b)) == (Eval(session, a) || Eval(session, b))
  {
    hide Compare, TestFile, InNetwork, Operand;
  }

  // ------------------------------------------------------------------ the text order

  /** `l` is in front of `r` where they first differ, or ends there. */
  predicate DiffersAt(l: string, r: string, k: nat) {
    && k <= |l| && k < |r| && l[..k] == r[..k]
    && (k == |l| || l[k] < r[k])
  }

  lemma {:induction false} BeforeIs(l: string, r: string)
    ensures Before(l, r) <==> exists k: nat :: DiffersAt(l, r, k)
    decreases |l|
  {
    if l != "" && r != "" && l[0] == r[0] {
      BeforeIs(l[1..], r[1..]);
      if k: nat :| DiffersAt(l[1..], r[1..], k) {
        assert l[..k + 1] == [l[0]] + l[1..][..k] && r[..k + 1] == [r[0]] + r[1..][..k];
        assert DiffersAt(l, r, k + 1);
      }
      if k: nat :| DiffersAt(l, r, k) {
        assert k > 0;
        assert l[1..][..k - 1] == l[..k][1..] && r[1..][..k - 1] == r[..k][1..];
        assert DiffersAt(l[1..], r[1..], k - 1);
      }
    } else {
      if Before(l, r) { assert DiffersAt(l, r, 0); }
      if k: nat :| DiffersAt(l, r, k) {
        if k > 0 { assert l[..k][0] == r[..k][0]; }
      }
    }
  }

  lemma {:induction false} BeforeOrder(a: string, b: string, c: string)
    ensures !Before(a, a)
    ensures a == b || Before(a, b) || Before(b, a)
    ensures Before(a, b) ==> !Before(b, a)
    ensures Before(a, b) && Before(b, c) ==> Before(a, c)
    decreases |a| + |b| + |c|
  {
    if a != "" && b != "" {
      BeforeOrder(a[1..], b[1..], if c == "" then "" else c[1..]);
      if a[0] == b[0] && a[1..] == b[1..] { assert a == [a[0]] + a[1..] == b; }
    } else if a != "" {
      BeforeOrder(a[1..], "", "");
    }
  }

  /** The six comparisons of texts: a strict order and what follows from it. */
  lemma TextComparisons(session: Session, l: Expr, r: Expr)
    ensures var x, y := Operand(session, l), Operand(session, r);
            && (Eval(session, Cmp(Eq, l, r)) <==> x == y)
            && (Eval(session, Cmp(Lt, l, r)) <==> exists k: nat :: DiffersAt(x, y, k))
    ensures Eval(session, Cmp(Ne, l, r)) != Eval(session, Cmp(Eq, l, r))
    ensures Eval(session, Cmp(Gt, l, r)) == Eval(session, Cmp(Lt, r, l))
    ensures Eval(session, Cmp(Le, l, r)) != Eval(session, Cmp(Gt, l, r))
    ensures Eval(session, Cmp(Ge, l, r)) != Eval(session, Cmp(Lt, l, r))
    ensures Eval(session, Cmp(Lt, l, r)) ==> !Eval(session, Cmp(Gt, l, r)) && !Eval(session, Cmp(Eq, l, r))
    ensures !Eval(session, Cmp(Lt, l, r)) && !Eval(session, Cmp(Gt, l, r)) ==> Eval(session, Cmp(Eq, l, r))
  {
    var x, y := Operand(session, l), Operand(session, r);
    hide Operand, DiffersAt;
    BeforeIs(x, y);
    BeforeOrder(x, y, x);
    hide Before;
  }

  lemma TextTransitive(session: Session, a: Expr, b: Expr, c: Expr)
    requires Eval(session, Cmp(Lt, a, b)) && Eval(session, Cmp(Lt, b, c))
    ensures Eval(session, Cmp(Lt, a, c))
  {
    hide Before, Operand;
    BeforeOrder(Operand(session, a), Operand(session, b), Operand(session, c));
  }

  // ------------------------------------------------------------------------ integers

  predicate Long(n: int) { -LONG_MAX - 1 <= n <= LONG_MAX }

  function Digits(n: nat): (s: string)
    ensures s != "" && AllDigits(s)
    decreases n
  {
    if n < 10 then [('0' as int + n) as char] else Digits(n / 10) + [('0' as int + n % 10) as char]
  }

  /** The usual notation of an integer. */
  function Decimal(n: int): string { if n < 0 then "-" + Digits(-n) else Digits(n) }

  lemma {:induction false} DigitsRead(n: nat)
    ensures Numeral(Digits(n)) == n
    decreases n
  {
    var s := Digits(n);
    if n < 10 {
      assert s[..0] == "";
    } else {
      DigitsRead(n / 10);
      assert s[..|s| - 1] == Digits(n / 10);
    }
  }

  lemma DecimalRead(n: int)
    requires Long(n)
    ensures AsInteger(Decimal(n)) == Some(n)
  {
    hide Numeral;
    DigitsRead(if n < 0 then -n else n);
    var d := Digits(if n < 0 then -n else n);
    assert IsDigit(d[0]);
    hide Digits;
    if n < 0 { assert ("-" + d)[1..] == d; }
  }

  predicate IntOp(op: CmpOp) { op.IntEq? || op.IntNe? || op.IntLt? || op.IntLe? || op.IntGt? || op.IntGe? }

  /** The integer comparisons of two written integers are those of the integers. */
  lemma IntegerComparisons(session: Session, l: Expr, r: Expr, a: int, b: int)
    requires Long(a) && Long(b) && Operand(session, l) == Decimal(a) && Operand(session, r) == Decimal(b)
    ensures Eval(session, Cmp(IntEq, l, r)) <==> a == b
    ensures Eval(session, Cmp(IntNe, l, r)) <==> a != b
    ensures Eval(session, Cmp(IntLt, l, r)) <==> a < b
    ensures Eval(session, Cmp(IntLe, l, r)) <==> a <= b
    ensures Eval(session, Cmp(IntGt, l, r)) <==> a > b
    ensures Eval(session, Cmp(IntGe, l, r)) <==> a >= b
  {
    hide AsInteger, Operand, Decimal;
    DecimalRead(a);
    DecimalRead(b);
  }

  /** Any two operands: both read as integers and exactly one of the three holds, or no integer comparison holds. */
  lemma IntegerLaws(session: Session, l: Expr, r: Expr)
    ensures var both := AsInteger(Operand(session, l)).Some? && AsInteger(Operand(session, r)).Some?;
            if !both then forall op :: IntOp(op) ==> !Eval(session, Cmp(op, l, r))
            else
              var less, equal, more :=
                Eval(session, Cmp(IntLt, l, r)), Eval(session, Cmp(IntEq, l, r)), Eval(session, Cmp(IntGt, l, r));
              && (less || equal || more) && !(less && equal) && !(less && more) && !(equal && more)
              && Eval(session, Cmp(IntNe, l, r)) == !equal && more == Eval(session, Cmp(IntLt, r, l))
              && Eval(session, Cmp(IntLe, l, r)) == !more && Eval(session, Cmp(IntGe, l, r)) == !less
  {
    hide AsInteger, Operand;
  }

  /** What is no integer: blanks alone, anything behind the digits, or a number that is too large. */
  lemma NoInteger(s: string, n: nat)
    requires s != ""
    ensures !IsDigit(s[|s| - 1]) ==> AsInteger(s).None?
    ensures n > LONG_MAX ==> AsInteger(Digits(n)).None?
  {
    LastStays(s);
    if n > LONG_MAX {
      DigitsRead(n);
      var d := Digits(n);
      assert IsDigit(d[0]);
      hide Numeral, Digits;
      assert SkipSpace(d) == d;
    }
  }

  lemma {:induction false} LastStays(s: string)
    ensures var p := SkipSpace(s); p != "" ==> p[|p| - 1] == s[|s| - 1]
    decreases |s|
  {
    if s != "" && IsSpace(s[0]) { LastStays(s[1..]); }
  }

  // ---------------------------------------------------------- patterns, addresses, files

  /** A pattern that is matched at all, on a subject that is looked at. */
  predicate Usable(session: Session, subject: string, pattern: string) {
    0 < |pattern| <= MAX_REGEX_LEN && (|subject| <= MAX_SUBJECT_LEN ==> !session.regex(pattern, subject).BadPattern?)
  }

  /** On a usable pattern the two operators never agree, on any other neither holds; the subject is on the left. */
  lemma PatternLaws(session: Session, l: Expr, r: Expr)
    ensures var subject, pattern := Operand(session, l), Operand(session, r);
            var yes, no := Eval(session, Cmp(Match, l, r)), Eval(session, Cmp(NoMatch, l, r));
            if Usable(session, subject, pattern) then yes != no else !yes && !no
    ensures var subject, pattern := Operand(session, l), Operand(session, r);
            Usable(session, subject, pattern) ==>
              (Eval(session, Cmp(Match, l, r)) <==>
               |subject| <= MAX_SUBJECT_LEN && session.regex(pattern, subject).Matched?)
  {
    hide Operand;
  }

  /** The address is on the left and the network on the right; alone, the network is asked about the client. */
  lemma AddressLaws(session: Session, l: Expr, r: Expr)
    ensures var address, network := Operand(session, l), Operand(session, r);
            Eval(session, IpBinary(l, r)) <==> address != "" && network != "" && session.inNetwork(address, network)
    ensures Eval(session, IpUnary(r)) == Eval(session, IpBinary(Str(session.clientIp), r))
  {
  }

  /** What the file tests say together, and that links are looked at, not through, by -L alone. */
  lemma FileLaws(session: Session, x: Expr)
    ensures Eval(session, File(FileS, x)) ==> Eval(session, File(FileF, x))
    ensures Eval(session, File(FileF, x)) ==> Eval(session, File(FileE, x)) && !Eval(session, File(FileD, x))
    ensures Eval(session, File(FileD, x)) ==> Eval(session, File(FileE, x))
    ensures var path := Operand(session, x);
            && (path == "" ==> forall test :: !Eval(session, File(test, x)))
            && (path != "" ==>
                  && (Eval(session, File(FileE, x)) <==> session.stat(path).Some?)
                  && (Eval(session, File(FileF, x)) <==> exists n :: session.stat(path) == Some(FileInfo(Regular, n)))
                  && (Eval(session, File(FileS, x)) <==>
                        exists n :: n > 0 && session.stat(path) == Some(FileInfo(Regular, n)))
                  && (Eval(session, File(FileD, x)) <==> exists n :: session.stat(path) == Some(FileInfo(Directory, n)))
                  && (Eval(session, File(FileL, x)) <==> exists n :: session.lstat(path) == Some(FileInfo(Link, n))))
  {
    hide Operand;
    var path := Operand(session, x);
    if path != "" {
      var i, j := session.stat(path), session.lstat(path);
      if i.Some? { assert i == Some(FileInfo(i.value.kind, i.value.size)); }
      if j.Some? { assert j == Some(FileInfo(j.value.kind, j.value.size)); }
    }
  }

  // ------------------------------------------------------------------- letter case

  predicate SmallOnly(s: string) { forall c :: c in s ==> !('A' <= c <= 'Z') }

  predicate LargeOnly(s: string) { forall c :: c in s ==> !('a' <= c <= 'z') }

  /** A text as the case functions see it: its first 4095 characters. */
  function Buffered(s: string): string { if |s| <= 4095 then s else s[..4095] }

  /** tolower and toupper change nothing but letters, and comparing through either ignores their case. */
  lemma CaseLaws(session: Session, x: Expr)
    ensures var s := Buffered(Operand(session, x));
            var small, large := Operand(session, Func(true, x)), Operand(session, Func(false, x));
            && SmallOnly(small) && LargeOnly(large) && |small| == |large| == |s|
            && (forall i :: 0 <= i < |s| && !IsAlpha(s[i]) ==> small[i] == large[i] == s[i])
            && Operand(session, Func(true, Func(false, x))) == small
            && Operand(session, Func(false, Func(true, x))) == large
            && (SmallOnly(s) ==> small == s) && (LargeOnly(s) ==> large == s)
  {
    hide MapChars, SmallOnly, LargeOnly, Buffered;
    CaseOperand(session, x, true);
    CaseOperand(session, x, false);
    var s := Buffered(Operand(session, x));
    Mapped(s);
    CaseOperand(session, Func(true, x), false);
    CaseOperand(session, Func(false, x), true);
    BufferedStays(MapChars(s, true));
    BufferedStays(MapChars(s, false));
    assert |s| <= 4095 by { BufferedFits(Operand(session, x)); }
    hide Operand;
  }

  lemma BufferedFits(s: string)
    ensures |Buffered(s)| <= 4095
  {
  }

  lemma BufferedStays(s: string)
    ensures |s| <= 4095 ==> Buffered(s) == s
  {
  }

  lemma CaseOperand(session: Session, x: Expr, lower: bool)
    ensures Operand(session, Func(lower, x)) == MapChars(Buffered(Operand(session, x)), lower)
  {
    hide MapChars;
  }

  lemma Mapped(s: string)
    ensures var small, large := MapChars(s, true), MapChars(s, false);
            && SmallOnly(small) && LargeOnly(large) && |small| == |large| == |s|
            && (forall i :: 0 <= i < |s| && !IsAlpha(s[i]) ==> small[i] == large[i] == s[i])
            && MapChars(large, true) == small && MapChars(small, false) == large
            && (SmallOnly(s) ==> small == s) && (LargeOnly(s) ==> large == s)
  {
    var small, large := MapChars(s, true), MapChars(s, false);
    assert MapChars(large, true) == small && MapChars(small, false) == large;
    assert forall i :: 0 <= i < |s| ==> s[i] in s && small[i] == Lower(s[i]) && large[i] == Upper(s[i]);
    if SmallOnly(s) { assert small == s; }
    if LargeOnly(s) { assert large == s; }
  }

  // --------------------------------------------------------------------- parsed texts

  /** An expression whose text reads back with the same meaning. */
  predicate Kept(e: Expr) {
    PrintOK(e) && Fits(e) && !((e.Str? || e.Int?) && (e.text == "0" || e.text == "false"))
  }

  function Read(e: Expr): Expr
    requires Parse(Print(e, false)).Some?
  {
    Parse(Print(e, false)).value
  }

  lemma ReadMeans(session: Session, e: Expr)
    requires Kept(e)
    ensures Parse(Print(e, false)).Some? && Eval(session, Read(e)) == Eval(session, e)
  {
    hide Eval, Parse, Print, PrintOK, Fits;
    RoundTripMeansTheSame(e);
  }

  /** The laws of the connectives hold of the texts. */
  lemma ReadLaws(session: Session, a: Expr, b: Expr)
    requires Kept(a) && Kept(b)
    ensures Kept(Not(a)) ==> Parse(Print(Not(a), false)).Some? && Parse(Print(a, false)).Some?
                             && Eval(session, Read(Not(a))) != Eval(session, Read(a))
    ensures Kept(And(a, b)) && Kept(Or(a, b)) ==>
              && Parse(Print(And(a, b), false)).Some? && Parse(Print(Or(a, b), false)).Some?
              && Parse(Print(a, false)).Some? && Parse(Print(b, false)).Some?
              && Eval(session, Read(And(a, b))) == (Eval(session, Read(a)) && Eval(session, Read(b)))
              && Eval(session, Read(Or(a, b))) == (Eval(session, Read(a)) || Eval(session, Read(b)))
  {
    EvalNot(session, a);
    EvalBoth(session, a, b);
    hide Eval, Parse, Print, Kept, Read;
    ReadMeans(session, a);
    ReadMeans(session, b);
    if Kept(Not(a)) { ReadMeans(session, Not(a)); }
    if Kept(And(a, b)) && Kept(Or(a, b)) {
      ReadMeans(session, And(a, b));
      ReadMeans(session, Or(a, b));
    }
  }

  /** The text !-f 'path' holds exactly where no regular file has that path. */
  lemma NoSuchFile(session: Session, path: string)
    requires path != "" && '\'' !in path
    ensures var r := Parse("!-f '" + path + "'");
            r.Some? && (Eval(session, r.value) <==> forall n :: session.stat(path) != Some(FileInfo(Regular, n)))
  {
    var test := File(FileF, Str(path));
    assert Print(Str(path), false) == "'" + path + "'";
    assert Print(test, false) == "-f '" + path + "'";
    assert Print(Not(test), false) == "!-f '" + path + "'";
    assert Peak(test, false, 0) <= 1 && Peak(test, false, 1) <= 2;
    assert Fits(Not(test)) && PrintOK(Not(test));
    FileLaws(session, Str(path));
    EvalNot(session, test);
    ReadMeans(session, Not(test));
  }
}
