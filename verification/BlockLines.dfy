/**
 * Files as lines: a parse is a run over the lines that are neither blank nor
 * comments, so a missing last line break, blanks around a line, carriage returns,
 * blank lines and comments change nothing.
 */
module BlockLines {
  import opened Text
  import Expr
  import ExprLex
  import opened Blocks

  // ------------------------------------------------------------------------- lines

  /** The lines of a text; a line break at the end starts no further line. */
  function Lines(text: string): seq<string>
    decreases |text|
  {
    if text == "" then []
    else
      var eol := Find(text, "\n");
      if eol.None? then [text] else [text[..eol.value]] + Lines(text[eol.value + 1..])
  }

  function Joined(lines: seq<string>): string {
    if lines == [] then "" else lines[0] + "\n" + Joined(lines[1..])
  }

  lemma FirstLine(text: string, i: nat)
    requires Find(text, "\n") == Some(i)
    ensures i < |text| && text[i] == '\n' && '\n' !in text[..i]
  {
    IsBreak(text, i);
    forall j | 0 <= j < i
      ensures text[j] != '\n'
    {
      IsBreak(text, j);
    }
    hide Find, OccursAt;
  }

  /** The pieces of a text around a line break, and of the text that goes on. */
  lemma Pieces(text: string, i: nat, post: string)
    requires i < |text| && text[i] == '\n'
    ensures var line, rest := text[..i], text[i + 1..];
            && text == line + ("\n" + rest) && text + post == line + ("\n" + (rest + post))
            && (rest == "" || rest[|rest| - 1] == text[|text| - 1])
  {
  }

  lemma IsBreak(text: string, j: nat)
    requires j < |text|
    ensures text[j] == '\n' <==> OccursAt(text, "\n", j)
  {
    assert text[j..j + 1] == [text[j]];
  }

  /** Splitting loses nothing but the question whether the last line was ended. */
  lemma {:induction false} LinesJoin(text: string)
    ensures Joined(Lines(text)) == if text == "" || text[|text| - 1] == '\n' then text else text + "\n"
    ensures forall line :: line in Lines(text) ==> '\n' !in line
    decreases |text|
  {
    if text != "" {
      var eol := Find(text, "\n");
      if eol.None? {
        FindChar(text, '\n');
        hide Find;
        assert [text][1..] == [] && text + "\n" + "" == text + "\n";
      } else {
        FirstLine(text, eol.value);
        Pieces(text, eol.value, "\n");
        hide Find;
        var line, rest := text[..eol.value], text[eol.value + 1..];
        LinesJoin(rest);
        JoinedFirst(line, Lines(rest));
      }
    }
  }

  lemma JoinedFirst(line: string, lines: seq<string>)
    ensures Joined([line] + lines) == line + ("\n" + Joined(lines))
  {
    assert ([line] + lines)[1..] == lines;
    assert line + "\n" + Joined(lines) == line + ("\n" + Joined(lines));
  }

  /** A line that the parser passes over. */
  predicate Passed(line: string) { Trim(line) == "" || Trim(line)[0] == '#' }

  /** The lines that say something, without the blanks around them. */
  function Essential(lines: seq<string>): seq<string> {
    if lines == [] then []
    else (if Passed(lines[0]) then [] else [Trim(lines[0])]) + Essential(lines[1..])
  }

  function Run(syn: Syntax, s: PState, lines: seq<string>): PState
    decreases |lines|
  {
    if lines == [] then s else Run(syn, Step(syn, s, lines[0]), lines[1..])
  }

  /** The parse of a file is the run over what its lines say. */
  lemma {:induction false} FeedIsRun(syn: Syntax, s: PState, text: string)
    ensures Feed(syn, s, text) == Run(syn, s, Essential(Lines(text)))
    decreases |text|
  {
    hide Step, Trim;
    if text != "" {
      var eol := Find(text, "\n");
      var line := if eol.None? then text else text[..eol.value];
      var rest := if eol.None? then "" else text[eol.value + 1..];
      if eol.None? { assert [text][1..] == []; } else { FirstLine(text, eol.value); }
      assert Lines(text)[0] == line && Lines(text)[1..] == Lines(rest);
      FeedIsRun(syn, Step(syn, s, Trim(line)), rest);
      RunFirst(syn, s, line, Essential(Lines(rest)));
    }
  }

  lemma RunFirst(syn: Syntax, s: PState, line: string, rest: seq<string>)
    ensures Run(syn, s, (if Passed(line) then [] else [Trim(line)]) + rest) == Run(syn, Step(syn, s, Trim(line)), rest)
  {
    if Passed(line) {
      assert [] + rest == rest && Step(syn, s, Trim(line)) == s;
    } else {
      hide Step, Trim;
      assert ([Trim(line)] + rest)[1..] == rest;
    }
  }

  /** Files whose lines say the same are parsed alike. */
  lemma SaidAlike(syn: Syntax, t: string, u: string)
    requires Essential(Lines(CString(t))) == Essential(Lines(CString(u)))
    ensures Parse(syn, t) == Parse(syn, u)
  {
    hide Feed, Run, Essential, Lines, CString;
    FeedIsRun(syn, Start, CString(t));
    FeedIsRun(syn, Start, CString(u));
  }

  // -------------------------------------------------------------------------- places

  predicate LineStart(pre: string) { pre == "" || pre[|pre| - 1] == '\n' }

  predicate LineEnd(post: string) { post == "" || post[0] == '\n' }

  predicate Blank(s: string) { '\n' !in s && '\0' !in s && forall i :: 0 <= i < |s| ==> IsSpace(s[i]) }

  lemma LineBreak(line: string, rest: string)
    requires '\n' !in line
    ensures Find(line + ("\n" + rest), "\n") == Some(|line|)
    ensures Lines(line + ("\n" + rest)) == [line] + Lines(rest)
  {
    var text := line + ("\n" + rest);
    var n := |line|;
    assert text[n..n + 1] == "\n" && text[..n] == line && text[n + 1..] == rest;
    forall j: nat | j < n
      ensures !OccursAt(text, "\n", j)
    {
      assert text[j..j + 1][0] == text[j] == line[j];
    }
    FindIs(text, "\n", 0, n);
    hide Find;
  }

  lemma LastLine(line: string)
    requires '\n' !in line
    ensures Lines(line) == if line == "" then [] else [line]
  {
    FindChar(line, '\n');
  }

  /** A text cut where a line starts. */
  lemma {:induction false} LinesSplit(pre: string, post: string)
    requires LineStart(pre)
    ensures Lines(pre + post) == Lines(pre) + Lines(post)
    decreases |pre|
  {
    hide *;
    if pre == "" {
      LastLine("");
      assert pre + post == post && [] + Lines(post) == Lines(post);
    } else {
      var i := FirstBreak(pre);
      Pieces(pre, i, post);
      var line, rest := pre[..i], pre[i + 1..];
      LineBreak(line, rest);
      LineBreak(line, rest + post);
      LinesSplit(rest, post);
      assert [line] + (Lines(rest) + Lines(post)) == [line] + Lines(rest) + Lines(post);
    }
  }

  lemma FirstBreak(pre: string) returns (i: nat)
    requires LineStart(pre) && pre != ""
    ensures i < |pre| && pre[i] == '\n' && '\n' !in pre[..i]
    ensures LineStart(pre[i + 1..])
  {
    hide Find, OccursAt;
    FindChar(pre, '\n');
    i := Find(pre, "\n").value;
    FirstLine(pre, i);
  }

  lemma {:induction false} EssentialSplit(a: seq<string>, b: seq<string>)
    ensures Essential(a + b) == Essential(a) + Essential(b)
    decreases |a|
  {
    hide Passed, Trim;
    if a == [] {
      assert a + b == b && [] + Essential(b) == Essential(b);
    } else {
      assert (a + b)[1..] == a[1..] + b;
      EssentialSplit(a[1..], b);
    }
  }

  lemma EssentialOne(line: string)
    ensures Essential([line]) == if Passed(line) then [] else [Trim(line)]
  {
    hide Passed, Trim;
    assert [line][1..] == [];
  }

  // --------------------------------------------------------------------------- blanks

  lemma {:induction false} EndBehind(a: string, x: string)
    requires Expr.TrimEnd(x) != ""
    ensures Expr.TrimEnd(a + x) == a + Expr.TrimEnd(x)
    decreases |x|
  {
    assert (a + x)[|a + x| - 1] == x[|x| - 1];
    if IsSpace(x[|x| - 1]) {
      assert (a + x)[..|a + x| - 1] == a + x[..|x| - 1];
      EndBehind(a, x[..|x| - 1]);
    }
  }

  lemma {:induction false} AllBlank(a: string, x: string)
    requires Blank(a) && Expr.TrimEnd(x) == ""
    ensures Expr.TrimEnd(a + x) == ""
    decreases |x|
  {
    if x == "" {
      ExprLex.TrimBlanks("", a);
      assert "" + a == a == a + x;
    } else {
      assert (a + x)[..|a + x| - 1] == a + x[..|x| - 1] && (a + x)[|a + x| - 1] == x[|x| - 1];
      AllBlank(a, x[..|x| - 1]);
    }
  }

  lemma TrimPadded(a: string, line: string, b: string)
    requires Blank(a) && Blank(b)
    ensures Trim(a + line + b) == Trim(line)
  {
    hide Expr.TrimEnd, Expr.SkipSpace;
    ExprLex.TrimBlanks(a + line, b);
    if Expr.TrimEnd(line) == "" {
      AllBlank(a, line);
    } else {
      EndBehind(a, line);
      ExprLex.SkipBlanks(a, Expr.TrimEnd(line));
    }
  }

  // ----------------------------------------------------------------------------- laws

  lemma {:induction false} CStringSplit(x: string, y: string)
    ensures CString(x + y) == if '\0' in x then CString(x) else x + CString(y)
    decreases |x|
  {
    if x == "" {
      assert x + y == y && x + CString(y) == CString(y);
    } else {
      CStringFirst(x, y);
      CStringSplit(x[1..], y);
      hide CString;
      FirstApart(x, CString(y));
    }
  }

  lemma FirstApart(x: string, z: string)
    requires x != ""
    ensures [x[0]] + (x[1..] + z) == x + z && ('\0' in x <==> x[0] == '\0' || '\0' in x[1..])
  {
    assert x == [x[0]] + x[1..];
  }

  lemma CStringFirst(x: string, y: string)
    requires x != ""
    ensures CString(x + y) == if x[0] == '\0' then "" else [x[0]] + CString(x[1..] + y)
    ensures CString(x) == if x[0] == '\0' then "" else [x[0]] + CString(x[1..])
  {
    assert (x + y)[1..] == x[1..] + y && (x + y)[0] == x[0];
  }

  /** What a text says where a line is given with blanks around it. */
  lemma SaysPadded(pre: string, a: string, line: string, b: string, post: string)
    requires LineStart(pre) && LineEnd(post) && Blank(a) && Blank(b) && '\n' !in line
    ensures Essential(Lines(pre + (a + line + b + post))) == Essential(Lines(pre + (line + post)))
  {
    hide Lines, Essential, Trim;
    LinesSplit(pre, a + line + b + post);
    LinesSplit(pre, line + post);
    SaysAlone(a, line, b, post);
    EssentialSplit(Lines(pre), Lines(a + line + b + post));
    EssentialSplit(Lines(pre), Lines(line + post));
  }

  lemma SaysNothing()
    ensures Essential([""]) == [] && Essential([]) == [] && Trim("") == ""
  {
    assert [""][1..] == [];
    assert Trim("") == "";
  }

  lemma SaysAlone(a: string, line: string, b: string, post: string)
    requires LineEnd(post) && Blank(a) && Blank(b) && '\n' !in line
    ensures Essential(Lines(a + line + b + post)) == Essential(Lines(line + post))
  {
    hide Trim, Essential, Lines, Find, OccursAt;
    var padded := a + line + b;
    TrimPadded(a, line, b);
    EssentialOne(padded);
    EssentialOne(line);
    if post == "" {
      assert padded + post == padded && line + post == line;
      LastLine(padded);
      LastLine(line);
      SaysNothing();
    } else {
      var rest := post[1..];
      assert post == "\n" + rest;
      assert padded + post == padded + ("\n" + rest) && line + post == line + ("\n" + rest);
      LineBreak(padded, rest);
      LineBreak(line, rest);
      EssentialSplit([padded], Lines(rest));
      EssentialSplit([line], Lines(rest));
    }
  }

  /** Blanks before or behind a line, carriage returns among them, change nothing. */
  lemma PaddedLine(syn: Syntax, pre: string, a: string, line: string, b: string, post: string)
    requires LineStart(pre) && LineEnd(post) && Blank(a) && Blank(b) && '\n' !in line
    ensures Parse(syn, pre + (a + line + b + post)) == Parse(syn, pre + (line + post))
  {
    hide Parse, Lines, Essential, CString;
    CStringSplit(pre, a + line + b + post);
    CStringSplit(pre, line + post);
    if '\0' !in pre {
      if '\0' in line {
        PaddedCut(a, line, b, post);
        var cut := CString(line);
        SaysPadded(pre, a, cut, "", "");
        assert a + cut + "" + "" == a + cut && cut + "" == cut;
      } else {
        PaddedWhole(a, line, b, post);
        CStringEnd(post);
        SaysPadded(pre, a, line, b, CString(post));
      }
    }
    SaidAlike(syn, pre + (a + line + b + post), pre + (line + post));
  }

  lemma PaddedCut(a: string, line: string, b: string, post: string)
    requires Blank(a) && '\0' in line
    ensures CString(a + line + b + post) == a + CString(line) && CString(line + post) == CString(line)
  {
    hide CString;
    assert '\0' !in a;
    Regrouped(a, line, b, post);
    CStringSplit(a, line + (b + post));
    CStringSplit(line, b + post);
    CStringSplit(line, post);
  }

  lemma Regrouped(a: string, line: string, b: string, post: string)
    ensures a + line + b + post == a + (line + (b + post))
  {
  }

  lemma PaddedWhole(a: string, line: string, b: string, post: string)
    requires Blank(a) && Blank(b) && '\0' !in line
    ensures CString(a + line + b + post) == a + line + b + CString(post) && CString(line + post) == line + CString(post)
  {
    hide CString;
    CStringSplit(a + line + b, post);
    CStringSplit(line, post);
  }

  lemma CStringEnd(post: string)
    requires LineEnd(post)
    ensures LineEnd(CString(post))
  {
  }

  /** A line break at the end of the last line changes nothing. */
  lemma FinalBreak(syn: Syntax, t: string)
    ensures Parse(syn, t) == Parse(syn, t + "\n")
  {
    hide Parse, Lines, Essential, CString;
    CStringSplit(t, "\n");
    CStringSplit(t, "");
    assert t + "" == t && CString("\n") == "\n" && CString("") == "" by { BreakAlone(); }
    if '\0' !in t { SaysBroken(t); }
    SaidAlike(syn, t, t + "\n");
  }

  lemma BreakAlone()
    ensures CString("\n") == "\n" && CString("") == ""
  {
  }

  lemma {:induction false} SaysBroken(t: string)
    ensures Essential(Lines(t + "\n")) == Essential(Lines(t))
    decreases |t|
  {
    hide Trim;
    var eol := Find(t, "\n");
    if eol.None? {
      FindChar(t, '\n');
      LastLine(t);
      assert t + "\n" == t + ("\n" + "");
      LineBreak(t, "");
      assert [t] + [] == [t];
      EssentialOne(t);
      if t == "" { SaysNothing(); }
    } else {
      FirstLine(t, eol.value);
      var line, rest := t[..eol.value], t[eol.value + 1..];
      hide Lines, Find, Essential;
      assert t == line + ("\n" + rest) && t + "\n" == line + ("\n" + (rest + "\n"));
      LineBreak(line, rest);
      LineBreak(line, rest + "\n");
      SaysBroken(rest);
      EssentialSplit([line], Lines(rest));
      EssentialSplit([line], Lines(rest + "\n"));
    }
  }

  /** A blank line or a comment can stand anywhere between lines. */
  lemma InsertedLine(syn: Syntax, pre: string, line: string, post: string)
    requires LineStart(pre) && Passed(line) && '\n' !in line && '\0' !in line
    ensures Parse(syn, pre + (line + ("\n" + post))) == Parse(syn, pre + post)
  {
    hide Parse, Lines, Essential, CString, Trim;
    var x := line + ("\n" + post);
    CStringSplit(pre, x);
    CStringSplit(pre, post);
    CStringSplit(line, "\n" + post);
    CStringSplit("\n", post);
    if '\0' !in pre {
      var cut := CString(post);
      LineBreak(line, cut);
      LinesSplit(pre, line + ("\n" + cut));
      LinesSplit(pre, cut);
      EssentialOne(line);
      EssentialSplit([line], Lines(cut));
      EssentialSplit(Lines(pre), [line] + Lines(cut));
      EssentialSplit(Lines(pre), Lines(cut));
      assert [] + Essential(Lines(cut)) == Essential(Lines(cut));
    }
    SaidAlike(syn, pre + x, pre + post);
  }
}
