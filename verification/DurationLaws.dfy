/**
 * What a written expiry time is worth: the units stand to each other as the
 * calendar has them, and a list is worth the sum of its entries.
 */
module DurationLaws {
  import opened Text
  import opened Durations
  import Expr
  import ExprLaws
  import ExprLex

  datatype Scale = Seconds | Minutes | Hours | Days | Months | Years

  function Name(scale: Scale): string {
    match scale
    case Seconds => "second"
    case Minutes => "minute"
    case Hours => "hour"
    case Days => "day"
    case Months => "month"
    case Years => "year"
  }

  const MINUTE: nat := 60
  const HOUR: nat := 60 * MINUTE
  const DAY: nat := 24 * HOUR

  /** A month is 30 days and a year 365. */
  function Worth(scale: Scale): nat {
    match scale
    case Seconds => 1
    case Minutes => MINUTE
    case Hours => HOUR
    case Days => DAY
    case Months => 30 * DAY
    case Years => 365 * DAY
  }

  datatype Entry = Entry(n: nat, scale: Scale, plural: bool)

  function Word(e: Entry): string {
    Name(e.scale) + if e.plural then "s" else ""
  }

  function Show(es: seq<Entry>): string {
    if es == [] then ""
    else ExprLaws.Digits(es[0].n) + " " + Word(es[0]) + if |es| == 1 then "" else " " + Show(es[1..])
  }

  function Total(es: seq<Entry>): nat {
    if es == [] then 0 else es[0].n * Worth(es[0].scale) + Total(es[1..])
  }

  lemma FirstTwo(u: string, name: string)
    requires |name| >= 2 && StartsNoCase(u, name)
    ensures |u| >= 2 && Lower(u[0]) == name[0] && Lower(u[1]) == name[1]
  {
  }

  lemma WordIs(e: Entry)
    ensures Unit(Word(e)) == Some(Worth(e.scale)) && Word(e) != ""
    ensures forall k :: 0 <= k < |Word(e)| ==> IsAlpha(Word(e)[k])
  {
    hide StartsNoCase, Worth;
    var w, name := Word(e), Name(e.scale);
    StartsItself(e);
    forall other | other in ["second", "minute", "hour", "day", "month", "year"] && StartsNoCase(w, other)
      ensures other == name
    {
      FirstTwo(w, other);
      FirstTwo(w, name);
    }
    NamedUnit(w, e.scale);
  }

  lemma StartsItself(e: Entry)
    ensures StartsNoCase(Word(e), Name(e.scale)) && IsUnit(Word(e), Name(e.scale))
    ensures forall k :: 0 <= k < |Word(e)| ==> IsAlpha(Word(e)[k])
  {
    var w, name := Word(e), Name(e.scale);
    assert w[..|name|] == name;
  }

  lemma NamedUnit(w: string, scale: Scale)
    requires IsUnit(w, Name(scale))
    requires forall other :: other in ["second", "minute", "hour", "day", "month", "year"] && StartsNoCase(w, other)
                             ==> other == Name(scale)
    ensures Unit(w) == Some(Worth(scale))
  {
    hide StartsNoCase;
    var all := ["second", "minute", "hour", "day", "month", "year"];
    assert "second" in all && "minute" in all && "hour" in all && "day" in all && "month" in all && "year" in all;
  }

  /** The pieces of a text that starts with an entry. */
  lemma EntryPieces(d: string, w: string, rest: string)
    requires d != "" && forall k :: 0 <= k < |d| ==> IsDigit(d[k])
    requires w != "" && forall k :: 0 <= k < |w| ==> IsAlpha(w[k])
    requires rest == "" || rest[0] == ' '
    ensures var p, q := d + " " + w + rest, w + rest;
            && p[0] == d[0] && DigitsEnd(p) == |d| && p[..|d|] == d && Expr.SkipSpace(p[|d|..]) == q
            && q[0] == w[0] && Expr.Span(q, 0, IsAlpha) == |w| && q[..|w|] == w && q[|w|..] == rest
  {
    hide Expr.Span;
    var p, q := d + " " + w + rest, w + rest;
    ExprLex.SpanIs(p, 0, IsDigit, |d|);
    ExprLex.SpanIs(q, 0, IsAlpha, |w|);
    var space := p[|d|..];
    assert space == " " + q && space[1..] == q;
    assert Expr.SkipSpace(space) == Expr.SkipSpace(q) == q;
  }

  /** One entry at the front of a list. */
  lemma FirstTerm(d: string, w: string, rest: string)
    requires d != "" && forall k :: 0 <= k < |d| ==> IsDigit(d[k])
    requires w != "" && forall k :: 0 <= k < |w| ==> IsAlpha(w[k])
    requires rest == "" || rest[0] == ' '
    requires Unit(w).Some? && Terms(Expr.SkipSpace(rest)).Some?
    ensures Terms(d + " " + w + rest) ==
            Some([Term(Numeral(d), Unit(w).value)] + Terms(Expr.SkipSpace(rest)).value)
  {
    hide Unit, Numeral, Expr.Span, Expr.SkipSpace, DigitsEnd;
    EntryPieces(d, w, rest);
  }

  lemma {:induction false} ShownTerms(es: seq<Entry>)
    ensures Terms(Show(es)).Some? && Sum(Terms(Show(es)).value) == Total(es)
    ensures es != [] ==> Terms(Show(es)).value != [] && Show(es) != "" && IsDigit(Show(es)[0])
  {
    hide Unit, Terms, Numeral, ExprLaws.Digits, Word, Worth;
    if es == [] {
      Ends("", 0);
    } else {
      var e := es[0];
      var d, rest := ExprLaws.Digits(e.n), if |es| == 1 then "" else " " + Show(es[1..]);
      ExprLaws.DigitsRead(e.n);
      WordIs(e);
      ShownTerms(es[1..]);
      if |es| > 1 {
        assert rest[1..] == Show(es[1..]);
      } else {
        assert es[1..] == [];
      }
      assert Expr.SkipSpace(rest) == Show(es[1..]);
      FirstTerm(d, Word(e), rest);
      assert Show(es) == d + " " + Word(e) + rest;
      assert Show(es)[0] == d[0];
      var ts := Terms(Show(es)).value;
      assert ts[1..] == Terms(Show(es[1..])).value;
    }
  }

  lemma KeywordIs(kw: string, rest: string)
    requires forall k :: 0 <= k < |kw| ==> Lower(kw[k]) == kw[k]
    ensures Keyword(kw + " " + rest, kw) == Some(" " + rest) && Expr.SkipSpace(" " + rest) == Expr.SkipSpace(rest)
  {
    var p := kw + " " + rest;
    assert p[|kw|..] == " " + rest && (" " + rest)[1..] == rest;
  }

  lemma AfterPlus(base: string, list: string)
    requires base == "access" || base == "modification"
    requires list != "" && IsDigit(list[0])
    ensures var p := base + " " + ("plus " + list);
            Expr.SkipSpace(p) == p && Compact(p).None? && Listed(p) == Some(list)
  {
    var p := base + " " + ("plus " + list);
    assert p[0] == base[0] && p[1] == base[1];
    if base == "modification" { assert Lower(p[0]) != "access"[0] && !StartsNoCase(p, "access"); }
    hide Keyword, StartsNoCase;
    KeywordIs(base, "plus " + list);
    KeywordIs("plus", list);
    assert "plus" + " " + list == "plus " + list;
    assert Keyword(p, "access").Some? ==> base == "access" by { NotAccess(p); }
  }

  lemma NotAccess(p: string)
    requires p != ""
    ensures Keyword(p, "access").Some? ==> Lower(p[0]) == 'a'
  {
    assert "access"[0] == 'a';
  }

  /** A list is worth the sum of its entries, whichever of the two words it starts with. */
  lemma ListWorth(es: seq<Entry>)
    requires es != []
    ensures Meaning("access plus " + Show(es)) == Some(Total(es))
    ensures Meaning("modification plus " + Show(es)) == Some(Total(es))
  {
    hide Terms, Sum, Show, Total, Compact, Listed;
    ShownTerms(es);
    AfterPlus("access", Show(es));
    AfterPlus("modification", Show(es));
    assert "access" + " " + ("plus " + Show(es)) == "access plus " + Show(es);
    assert "modification" + " " + ("plus " + Show(es)) == "modification plus " + Show(es);
  }

  /** The compact form is worth its number of seconds. */
  lemma CompactWorth(n: nat, letter: char)
    requires letter in "AaMm"
    ensures Meaning([letter] + ExprLaws.Digits(n)) == Some(n)
  {
    hide Numeral, Expr.Span, ExprLaws.Digits;
    var d := ExprLaws.Digits(n);
    var p := [letter] + d;
    ExprLaws.DigitsRead(n);
    assert p[1..] == d && p[1] == d[0];
    ExprLex.SpanIs(d, 0, IsDigit, |d|);
    assert d[..|d|] == d;
    assert Expr.SkipSpace(p) == p;
  }
}
