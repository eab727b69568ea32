/**
 * Expiry times: a list of amounts with units is their exact sum, or refused
 * when the sum does not fit a long, and no step on the way overflows.
 */
module Durations {
  import opened Text
  import Expr
  import ExprParser

  const LONG_MAX: nat := 0x7FFF_FFFF_FFFF_FFFF

  // ------------------------------------------------------------------ the meaning

  /** Seconds of a unit, in the singular or the plural, in any case. */
  function Unit(u: string): (r: Option<nat>)
    ensures r.Some? ==> r.value > 0
  {
    if IsUnit(u, "second") then Some(1)
    else if IsUnit(u, "minute") then Some(60)
    else if IsUnit(u, "hour") then Some(3600)
    else if IsUnit(u, "day") then Some(86400)
    else if IsUnit(u, "month") then Some(2592000)
    else if IsUnit(u, "year") then Some(31536000)
    else None
  }

  predicate IsUnit(u: string, name: string) {
    StartsNoCase(u, name) && (|u| == |name| || (|u| == |name| + 1 && Lower(u[|name|]) == 's'))
  }

  datatype Term = Term(amount: nat, unit: nat)

  function DigitsEnd(p: string): (e: nat)
    ensures e <= |p| && forall i :: 0 <= i < e ==> IsDigit(p[i])
    ensures p != "" && IsDigit(p[0]) ==> e > 0
  {
    Expr.Span(p, 0, IsDigit)
  }

  /** The terms of a list, with numbers as large as they are written; None when it is malformed. */
  function Terms(p: string): Option<seq<Term>>
    decreases |p|
  {
    if p == "" then Some([])
    else if !IsDigit(p[0]) then None
    else
      var e := DigitsEnd(p);
      var q := Expr.SkipSpace(p[e..]);
      if q == "" || !IsAlpha(q[0]) then None
      else
        var end := Expr.Span(q, 0, IsAlpha);
        var unit := Unit(q[..end]);
        var rest := Terms(Expr.SkipSpace(q[end..]));
        if unit.None? || rest.None? then None else Some([Term(Numeral(p[..e]), unit.value)] + rest.value)
  }

  function Sum(ts: seq<Term>): nat {
    if ts == [] then 0 else ts[0].amount * ts[0].unit + Sum(ts[1..])
  }

  /** A keyword in any case, followed by a space or the end. */
  function Keyword(p: string, kw: string): Option<string> {
    if StartsNoCase(p, kw) && (|p| == |kw| || IsSpace(p[|kw|])) then Some(p[|kw|..]) else None
  }

  /** "A<seconds>" or "M<seconds>", up to a space. */
  function Compact(p: string): Option<nat> {
    if |p| >= 2 && (Lower(p[0]) == 'a' || Lower(p[0]) == 'm') && IsDigit(p[1]) then
      var e := DigitsEnd(p[1..]);
      if e == |p[1..]| || IsSpace(p[1..][e]) then Some(Numeral(p[1..][..e])) else None
    else None
  }

  /** "access plus ..." or "modification plus ...": the list after the two words. */
  function Listed(p: string): Option<string> {
    var base := if Keyword(p, "access").Some? then Keyword(p, "access") else Keyword(p, "modification");
    if base.None? then None
    else
      var plus := Keyword(Expr.SkipSpace(base.value), "plus");
      if plus.None? then None else Some(Expr.SkipSpace(plus.value))
  }

  /** The number of seconds an expiry text stands for, without any bound. */
  function Meaning(text: string): Option<nat> {
    var p := Expr.SkipSpace(text);
    if Compact(p).Some? then Compact(p)
    else if Listed(p).None? then None
    else
      var ts := Terms(Listed(p).value);
      if ts.None? || ts.value == [] then None else Some(Sum(ts.value))
  }

  /** What parse_expires_duration returns for a meaning. */
  function Bounded(r: Option<nat>): int {
    if r.Some? && r.value <= LONG_MAX then r.value else -1
  }

  // ------------------------------------------------------------------- the parsing

  /** A long: every value computed on the way is one. */
  newtype Long = x: int | -0x8000_0000_0000_0000 <= x <= 0x7FFF_FFFF_FFFF_FFFF

  const MAX: Long := 0x7FFF_FFFF_FFFF_FFFF

  lemma NumeralSnoc(s: string, i: nat)
    requires i < |s| && forall k :: 0 <= k <= i ==> IsDigit(s[k])
    ensures Numeral(s[..i + 1]) == Numeral(s[..i]) * 10 + Digit(s[i])
  {
    assert s[..i + 1][..i] == s[..i];
  }

  lemma {:induction false} NumeralGrows(s: string, i: nat, j: nat)
    requires i <= j <= |s| && forall k :: 0 <= k < j ==> IsDigit(s[k])
    ensures Numeral(s[..i]) <= Numeral(s[..j])
    decreases j - i
  {
    if i < j {
      NumeralGrows(s, i, j - 1);
      NumeralSnoc(s, j - 1);
    }
  }

  /** strtol on a text that starts with a digit; `range` is the error it reports. */
  method Strtol(p: string) returns (n: Long, e: nat, range: bool)
    requires p != "" && IsDigit(p[0])
    ensures e == DigitsEnd(p)
    ensures range <==> Numeral(p[..e]) > LONG_MAX
    ensures n as int == if range then LONG_MAX else Numeral(p[..e])
  {
    n, e, range := 0, 0, false;
    while e < |p| && IsDigit(p[e])
      invariant e <= |p| && (forall k :: 0 <= k < e ==> IsDigit(p[k])) && Expr.Span(p, e, IsDigit) == DigitsEnd(p)
      invariant range <==> Numeral(p[..e]) > LONG_MAX
      invariant n as int == if range then LONG_MAX else Numeral(p[..e])
    {
      NumeralSnoc(p, e);
      NumeralGrows(p, e, e + 1);
      var digit := Digit(p[e]) as Long;
      if range || n > (MAX - digit) / 10 {
        n, range := MAX, true;
      } else {
        n := n * 10 + digit;
      }
      e := e + 1;
    }
  }

  method AlphaEnd(q: string) returns (end: nat)
    ensures end == Expr.Span(q, 0, IsAlpha)
  {
    end := 0;
    while end < |q| && IsAlpha(q[end])
      invariant end <= |q| && Expr.Span(q, end, IsAlpha) == Expr.Span(q, 0, IsAlpha)
    {
      end := end + 1;
    }
  }

  method Skip(p: string) returns (r: string)
    ensures r == Expr.SkipSpace(p)
  {
    var i := ExprParser.SpaceEnd(p);
    r := p[i..];
  }

  /** Whether `n` times `unit` fits, decided by a division. */
  lemma DivisionGuards(n: nat, unit: nat)
    requires unit > 0
    ensures n * unit <= LONG_MAX <==> n <= LONG_MAX / unit
  {
    var q, r := LONG_MAX / unit, LONG_MAX % unit;
    assert LONG_MAX == unit * q + r;
    if n <= q { MulGrows(n, q, unit); } else { MulGrows(q + 1, n, unit); assert (q + 1) * unit == unit * q + unit; }
  }

  lemma {:induction false} MulGrows(a: nat, b: nat, c: nat)
    requires a <= b
    ensures a * c <= b * c
    decreases b - a
  {
    if a < b { MulGrows(a, b - 1, c); assert b * c == (b - 1) * c + c; }
  }

  /** What is known of the answer from the running total and the terms still to come. */
  function Rest(total: nat, ts: Option<seq<Term>>): int {
    if ts.None? then -1 else Bounded(Some(total + Sum(ts.value)))
  }

  lemma Ends(p: string, total: nat)
    ensures p == "" ==> Rest(total, Terms(p)) == Bounded(Some(total)) && Terms(p) == Some([])
    ensures p != "" && Terms(p).Some? ==> Terms(p).value != []
    ensures p != "" && !IsDigit(p[0]) ==> Terms(p).None?
  {
  }

  lemma NoUnit(p: string)
    requires p != "" && IsDigit(p[0])
    requires var q := Expr.SkipSpace(p[DigitsEnd(p)..]); q == "" || !IsAlpha(q[0])
    ensures Terms(p).None?
  {
  }

  /** The loop over the terms. */
  method SumTerms(list: string) returns (total: Long)
    ensures var terms := Terms(list);
            total as int == if terms.Some? && terms.value != [] then Bounded(Some(Sum(terms.value))) else -1
  {
    hide Terms, Sum, Unit, Numeral, Expr.Span, Expr.SkipSpace, DigitsEnd, Bounded, Rest;
    var p := list;
    total := 0;
    var found := false;
    Ends(list, 0);
    Whole(Terms(list));
    while p != ""
      invariant total >= 0 && (found <==> p != list) && |p| <= |list|
      invariant Rest(total as int, Terms(p)) == Rest(0, Terms(list))
      decreases |p|
    {
      Ends(p, total as int);
      Whole(Terms(p));
      if !IsDigit(p[0]) {
        Unread(total as int);
        return -1;
      }
      var n, e, range := Strtol(p);
      ghost var amount := Numeral(p[..e]);
      var q := Skip(p[e..]);
      if q == "" || !IsAlpha(q[0]) {
        NoUnit(p);
        Unread(total as int);
        return -1;
      }
      var end := AlphaEnd(q);
      var unit := Unit(q[..end]);
      var next := Skip(q[end..]);
      OneStep(p, total as int, amount, unit, next);
      Unread(total as int);
      if range || unit.None? {
        return -1;
      }
      UnitFits(q[..end]);
      var multiplier := unit.value as Long;
      DivisionGuards(n as int, unit.value);
      if n > MAX / multiplier {
        return -1;
      }
      var term := n * multiplier;
      if term > MAX - total {
        return -1;
      }
      total := total + term;
      found := true;
      p := next;
    }
    Ends(p, total as int);
    Fits(total as int);
    if !found {
      return -1;
    }
  }

  lemma Whole(ts: Option<seq<Term>>)
    ensures Rest(0, ts) == if ts.Some? then Bounded(Some(Sum(ts.value))) else -1
  {
  }

  lemma Unread(total: nat)
    ensures Rest(total, None) == -1
  {
  }

  lemma Fits(total: nat)
    ensures total <= LONG_MAX ==> Bounded(Some(total)) == total
  {
  }

  lemma UnitFits(u: string)
    ensures Unit(u).Some? ==> Unit(u).value <= 31536000
  {
  }

  /** One turn: what the first term leaves to be added, and when the answer is settled. */
  lemma OneStep(p: string, total: nat, amount: nat, unit: Option<nat>, next: string)
    requires p != "" && IsDigit(p[0]) && amount == Numeral(p[..DigitsEnd(p)])
    requires var q := Expr.SkipSpace(p[DigitsEnd(p)..]);
             q != "" && IsAlpha(q[0]) && unit == Unit(q[..Expr.Span(q, 0, IsAlpha)])
             && next == Expr.SkipSpace(q[Expr.Span(q, 0, IsAlpha)..])
    ensures |next| < |p|
    ensures unit.None? ==> Terms(p).None?
    ensures unit.Some? ==> Rest(total, Terms(p)) == Rest(total + amount * unit.value, Terms(next))
    ensures unit.Some? && total + amount * unit.value > LONG_MAX ==> Rest(total, Terms(p)) == -1
    ensures amount > LONG_MAX ==> Rest(total, Terms(p)) == -1
  {
    hide Unit, Numeral, Expr.SkipSpace;
    if unit.Some? && Terms(next).Some? {
      var ts := Terms(p).value;
      assert ts == [Term(amount, unit.value)] + Terms(next).value;
      assert ts[1..] == Terms(next).value;
      assert amount * unit.value >= amount by { MulGrows(1, unit.value, amount); }
    }
  }

  /** parse_expires_duration: the exact meaning when it fits a long, and -1 otherwise. */
  method ParseExpiresDuration(text: string) returns (r: Long)
    ensures r as int == Bounded(Meaning(text))
  {
    hide Terms, Sum, Unit, Numeral, Keyword, Expr.Span;
    var p := Skip(text);
    if |p| >= 2 && (Lower(p[0]) == 'a' || Lower(p[0]) == 'm') && IsDigit(p[1]) {
      var secs, e, range := Strtol(p[1..]);
      if (e == |p[1..]| || IsSpace(p[1..][e])) && !range {
        return secs;
      }
      NotListed(p);
    }
    var list := Listed(p);
    if list.None? {
      return -1;
    }
    r := SumTerms(list.value);
  }

  /** A text in the compact form does not start with a keyword. */
  lemma NotListed(p: string)
    requires |p| >= 2 && IsDigit(p[1])
    ensures Listed(p).None?
  {
    hide Expr.SkipSpace;
    assert !StartsNoCase(p, "access") && !StartsNoCase(p, "modification");
  }
}
