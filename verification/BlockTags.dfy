/**
 * The printed tag lines and what the recognisers make of them.
 */
module BlockTags {
  import opened Text
  import Expr
  import ExprLex
  import opened Blocks

  // ------------------------------------------------------------------------ names

  predicate OneLine(s: string) { '\n' !in s && '\0' !in s }

  /** A name that prints quoted must not hold a quote; one that prints bare must be one bare word. */
  predicate NameOK(name: string) {
    && OneLine(name)
    && if ' ' in name then '"' !in name
       else name != "" && name[0] != '"' && forall i :: 0 <= i < |name| ==> NameChar(name[i])
  }

  /** The '!' of a negated module is only seen outside quotes. */
  predicate ModuleOK(name: string, negated: bool) {
    && NameOK(name)
    && (negated ==> ' ' !in name && |name| > 1 && name[0] == '!' && name[1] != '"')
    && (!negated && ' ' !in name ==> name[0] != '!')
  }

  predicate MethodsOK(m: string) {
    OneLine(m) && m != "" && '>' !in m && !IsSpace(m[0]) && !IsSpace(m[|m| - 1])
  }

  // ---------------------------------------------------------------------- helpers

  lemma BlanksEnd(b: string)
    requires ExprLex.Blanks(b)
    ensures EndsTag(b + ">")
  {
    ExprLex.SkipBlanks(b, ">");
    ExprLex.SkipNone(">");
  }

  /** A tag with an argument, cut up. */
  lemma TagArg(tag: string, kw: string, x: string)
    requires |tag| == |kw| && StartsNoCase(tag, kw) && tag != "" && !IsSpace(tag[0]) && x != "" && !IsSpace(x[0])
    ensures var line := "<" + tag + " " + x;
            && Tag(line) == Some(tag + " " + x)
            && Expr.SkipSpace(tag + " " + x) == tag + " " + x
            && StartsNoCase(tag + " " + x, kw)
            && MatchKw(tag + " " + x, kw) == Some(" " + x)
            && Expr.SkipSpace(" " + x) == x
  {
    var line := "<" + tag + " " + x;
    ExprLex.SkipNone(line);
    assert line[1..] == tag + " " + x;
    var t := tag + " " + x;
    assert t[0] == tag[0] && t[|kw|] == ' ' && t[|kw|..] == " " + x;
    assert forall i :: 0 <= i < |kw| ==> t[i] == tag[i];
    ExprLex.SkipNone(t);
    assert (" " + x)[1..] == x;
    ExprLex.SkipNone(x);
  }

  /** A name in quotes or as one bare word. */
  predicate Names(arg: string, name: string) {
    if arg == name then name != "" && name[0] != '"' && forall i :: 0 <= i < |name| ==> NameChar(name[i])
    else arg == "\"" + name + "\"" && '"' !in name
  }

  lemma AnyArg(arg: string, name: string, c: string)
    requires Names(arg, name) && ExprLex.Blanks(c)
    ensures NameArg(arg + (c + ">")) == Some(name) && arg != "" && !IsSpace(arg[0])
  {
    hide EndsTag;
    BlanksEnd(c);
    var k := c + ">";
    var p := arg + k;
    if arg == name {
      assert !NameChar(k[0]);
      ExprLex.SpanIs(p, 0, NameChar, |name|);
      assert p[..|name|] == name && p[|name|..] == k;
    } else {
      var n := |name| + 1;
      assert p[n..n + 1] == "\"" && p[1..n] == name && p[n + 1..] == k;
      forall j: nat | 1 <= j < n
        ensures !OccursAt(p, "\"", j)
      {
        assert p[j..j + 1][0] == name[j - 1];
      }
      FindIs(p, "\"", 1, n);
    }
  }

  lemma NameArgQuoted(name: string)
    requires '"' !in name
    ensures NameArg("\"" + name + "\">") == Some(name)
  {
    hide NameArg;
    AnyArg("\"" + name + "\"", name, "");
    assert "\"" + name + "\"" + ("" + ">") == "\"" + name + "\">";
  }

  lemma NameArgText(name: string)
    requires NameOK(name)
    ensures NameArg(NameText(name) + ">") == Some(name)
    ensures NameText(name) != "" && !IsSpace(NameText(name)[0])
  {
    hide NameArg;
    if ' ' in name {
      NameArgQuoted(name);
      assert NameText(name) + ">" == "\"" + name + "\">";
    } else {
      AnyArg(name, name, "");
      assert "" + ">" == ">";
    }
  }

  // ------------------------------------------------------------------- open lines

  lemma NamedLine(tag: string, kw: string, arg: string, name: string)
    requires |tag| == |kw| && StartsNoCase(tag, kw) && tag != "" && !IsSpace(tag[0])
    requires arg != "" && !IsSpace(arg[0]) && NameArg(arg + ">") == Some(name)
    ensures OpensNamed("<" + tag + " " + arg + ">", kw) == Some(name)
  {
    hide NameArg, MatchKw, Tag;
    TagArg(tag, kw, arg + ">");
    assert "<" + tag + " " + arg + ">" == "<" + tag + " " + (arg + ">");
  }

  lemma MatchLine(pattern: string)
    requires '"' !in pattern
    ensures OpensNamed("<FilesMatch \"" + pattern + "\">", "filesmatch") == Some(pattern)
  {
    hide OpensNamed, NameArg;
    NameArgQuoted(pattern);
    var arg := "\"" + pattern + "\"";
    assert arg + ">" == "\"" + pattern + "\">";
    NamedLine("FilesMatch", "filesmatch", arg, pattern);
    assert "<" + "FilesMatch" + " " + arg + ">" == "<FilesMatch \"" + pattern + "\">";
  }

  lemma FilesLine(name: string)
    requires NameOK(name)
    ensures OpensNamed("<Files " + NameText(name) + ">", "files") == Some(name)
  {
    hide OpensNamed, NameArg, NameText;
    NameArgText(name);
    NamedLine("Files", "files", NameText(name), name);
    assert "<" + "Files" + " " + NameText(name) + ">" == "<Files " + NameText(name) + ">";
  }

  lemma ModuleLine(name: string, negated: bool)
    requires ModuleOK(name, negated)
    ensures OpensIfModule("<IfModule " + NameText(name) + ">") == Some((name, negated))
  {
    hide NameArg, MatchKw, Tag, NameText, NameOK, Expr.SkipSpace;
    NameArgText(name);
    var p := NameText(name) + ">";
    TagArg("IfModule", "ifmodule", p);
    assert "<IfModule " + NameText(name) + ">" == "<" + "IfModule" + " " + p;
    assert p[0] == NameText(name)[0];
    if negated { NegatedArg(name); } else { PlainArg(name); }
  }

  lemma PlainArg(name: string)
    requires ModuleOK(name, false)
    ensures NameText(name) != "" && NameText(name)[0] != '!'
  {
  }

  lemma NegatedArg(name: string)
    requires ModuleOK(name, true)
    ensures NameText(name) == name && name[0] == '!'
    ensures var p := name + ">"; NameArg(Expr.SkipSpace(p[1..])) == Some(name[1..]) && "!" + name[1..] == name
  {
    hide NameArg;
    var p, bare := name + ">", name[1..];
    assert forall i :: 0 <= i < |bare| ==> bare[i] == name[i + 1];
    AnyArg(bare, bare, "");
    assert "" + ">" == ">";
    assert p[1..] == bare + ">" && "!" + bare == name;
    ExprLex.SkipNone(p[1..]);
  }

  /** A negated module whose name holds a space is printed in quotes and reads back as not negated. */
  lemma NegationIsLost(name: string)
    requires NameOK(name) && ' ' in name
    ensures OpensIfModule("<IfModule " + NameText(name) + ">") == Some((name, false))
  {
    ModuleLine(name, false);
  }

  /** What a name argument can be, and how much shorter than the text it is. */
  lemma NameArgShape(p: string)
    requires NameArg(p).Some?
    ensures var n := NameArg(p).value;
            if p != "" && p[0] == '"' then |n| + 2 < |p| && p[1..|n| + 1] == n && '"' !in n
            else 0 < |n| < |p| && p[..|n|] == n && forall i :: 0 <= i < |n| ==> NameChar(p[i])
  {
    var n := NameArg(p).value;
    if p != "" && p[0] == '"' {
      forall i | 0 <= i < |n|
        ensures n[i] != '"'
      {
        assert p[i + 1..i + 2] == [n[i]] && !OccursAt(p, "\"", i + 1);
      }
    }
  }

  lemma SkipLonger(p: string)
    requires p != "" && IsSpace(p[0])
    ensures |Expr.SkipSpace(p)| < |p|
  {
  }

  /** The header of an IfModule block reads back as it was exactly for these names. */
  lemma ModuleLineExact(name: string, negated: bool)
    requires OneLine(name)
    ensures OpensIfModule("<IfModule " + NameText(name) + ">") == Some((name, negated)) <==> ModuleOK(name, negated)
  {
    hide NameArg, Expr.SkipSpace;
    var line := "<IfModule " + NameText(name) + ">";
    if ModuleOK(name, negated) { ModuleLine(name, negated); }
    if OpensIfModule(line) == Some((name, negated)) {
      var p0 := NameText(name) + ">";
      ModuleArg(line, p0);
      var p := Expr.SkipSpace(p0);
      if IsSpace(p0[0]) { SkipLonger(p0); } else { ExprLex.SkipNone(p0); }
      assert p != "";
      if p[0] == '!' {
        var q := Expr.SkipSpace(p[1..]);
        NameArgShape(q);
        if p[1..] != "" && IsSpace(p[1..][0]) { SkipLonger(p[1..]); } else { ExprLex.SkipNone(p[1..]); }
        assert "!" + NameArg(q).value == name && p == p0 && q == p0[1..];
        assert forall i :: 1 <= i < |name| ==> name[i] == q[i - 1];
        assert ' ' !in name;
      } else {
        NameArgShape(p);
        assert NameArg(p).value == name && p == p0;
      }
    }
  }

  lemma ModuleArg(line: string, p0: string)
    requires line == "<IfModule " + p0 && p0 != "" && OpensIfModule(line).Some?
    ensures var p := Expr.SkipSpace(p0);
            p != "" && var negated := p[0] == '!';
            && NameArg(if negated then Expr.SkipSpace(p[1..]) else p).Some?
            && OpensIfModule(line).value
               == ((if negated then "!" + NameArg(Expr.SkipSpace(p[1..])).value else NameArg(p).value), negated)
  {
    hide NameArg;
    ExprLex.SkipNone(line);
    assert line[1..] == "IfModule " + p0 && ("IfModule " + p0)[8..] == " " + p0 && (" " + p0)[1..] == p0;
    assert Expr.SkipSpace(" " + p0) == Expr.SkipSpace(p0);
    if Expr.SkipSpace(p0) == "" { NameArgShape(""); }
  }

  lemma {:induction false} LastAtIs(p: string, c: char, i: nat)
    requires i < |p| && p[i] == c && forall j :: i < j < |p| ==> p[j] != c
    ensures LastAt(p, c) == Some(i)
    decreases |p|
  {
    if i < |p| - 1 { LastAtIs(p[..|p| - 1], c, i); }
  }

  lemma CondLine(tag: string, kw: string, text: string)
    requires |tag| == |kw| && StartsNoCase(tag, kw) && tag != "" && !IsSpace(tag[0])
    ensures OpensCondition("<" + tag + " \"" + text + "\">", kw) == Some(text)
  {
    hide MatchKw, Tag;
    var x := "\"" + text + "\">";
    TagArg(tag, kw, x);
    assert "<" + tag + " \"" + text + "\">" == "<" + tag + " " + x;
    LastAtIs(x, '>', |x| - 1);
    var quoted := x[..|x| - 1];
    assert quoted == "\"" + text + "\"" && quoted[1..|quoted| - 1] == text;
    assert Expr.TrimEnd(quoted) == quoted;
  }

  lemma LimitLine(tag: string, kw: string, methods: string)
    requires |tag| == |kw| && StartsNoCase(tag, kw) && tag != "" && !IsSpace(tag[0]) && MethodsOK(methods)
    ensures OpensLimit("<" + tag + " " + methods + ">", kw) == Some(methods)
  {
    hide MatchKw, Tag;
    var m := methods + ">";
    TagArg(tag, kw, m);
    assert "<" + tag + " " + methods + ">" == "<" + tag + " " + m;
    var p := tag + " " + m;
    assert p[|kw|] == ' ' && p[|kw|..] == " " + m;
    forall j: nat | j < |methods|
      ensures !OccursAt(m, ">", j)
    {
      assert m[j..j + 1][0] == methods[j];
    }
    assert m[|methods|..|methods| + 1] == ">";
    FindIs(m, ">", 0, |methods|);
    assert m[..|methods|] == methods && Expr.TrimEnd(methods) == methods;
  }

  /** The text after the keyword of a tag, when it starts with the keyword in any letter case. */
  lemma AfterKw(w: string, kw: string, x: string)
    requires |w| == |kw| && StartsNoCase(w, kw) && w != "" && !IsSpace(w[0])
    ensures StartsNoCase(w + x, kw) && (w + x)[|kw|..] == x && Expr.SkipSpace(w + x) == w + x
  {
    var t := w + x;
    assert t[..|kw|] == w && t[|kw|..] == x;
    assert forall i :: 0 <= i < |kw| ==> t[i] == w[i];
    ExprLex.SkipNone(t);
  }

  /** A tag without an argument, in any letter case and with blanks where they may stand. */
  lemma AnyTag(w: string, kw: string, a: string, b: string)
    requires |w| == |kw| && StartsNoCase(w, kw) && w != "" && !IsSpace(w[0])
    requires ExprLex.Blanks(a) && ExprLex.Blanks(b)
    ensures OpensBare("<" + (w + (b + ">")), kw) && Closes("</" + (w + (b + ">")), kw)
    ensures OpensRequire("<" + (a + (w + (b + ">"))), kw)
  {
    hide EndsTag, StartsNoCase, ExprLex.Blanks;
    var x := w + (b + ">");
    AfterKw(w, kw, b + ">");
    BlanksEnd(b);
    ExprLex.SkipNone("<" + x);
    assert ("<" + x)[1..] == x;
    ExprLex.SkipNone("</" + x);
    assert ("</" + x)[1..] == "/" + x && ("/" + x)[1..] == x;
    ExprLex.SkipNone("<" + (a + x));
    assert ("<" + (a + x))[1..] == a + x;
    ExprLex.SkipBlanks(a, x);
  }

  lemma BareLine(tag: string, kw: string)
    requires |tag| == |kw| && StartsNoCase(tag, kw) && tag != "" && !IsSpace(tag[0])
    ensures OpensBare("<" + tag + ">", kw) && OpensRequire("<" + tag + ">", kw)
    ensures Closes("</" + tag + ">", kw)
  {
    hide OpensBare, OpensRequire, Closes, StartsNoCase;
    AnyTag(tag, kw, "", "");
    assert "" + ">" == ">" && "" + (tag + ">") == tag + ">";
    assert "<" + (tag + ">") == "<" + tag + ">" && "</" + (tag + ">") == "</" + tag + ">";
  }

  /** A tag with a name, in any letter case, with either kind of name and any blanks around it. */
  lemma AnyNamed(w: string, kw: string, b: string, arg: string, name: string, c: string)
    requires |w| == |kw| && StartsNoCase(w, kw) && w != "" && !IsSpace(w[0]) && Names(arg, name)
    requires b != "" && ExprLex.Blanks(b) && ExprLex.Blanks(c)
    ensures OpensNamed("<" + (w + (b + (arg + (c + ">")))), kw) == Some(name)
  {
    hide NameArg, StartsNoCase, Names;
    AnyArg(arg, name, c);
    var p := arg + (c + ">");
    AfterKw(w, kw, b + p);
    assert (w + (b + p))[|kw|] == b[0];
    ExprLex.SkipBlanks(b, p);
    ExprLex.SkipNone(p);
    var t := w + (b + p);
    ExprLex.SkipNone("<" + t);
    assert ("<" + t)[1..] == t;
  }

  // ------------------------------------------------------------- what does not match

  /** A line that starts with '<' and a letter, or with "</" and a letter. */
  predicate TagShape(line: string) {
    && |line| >= 3 && line[0] == '<' && !IsSpace(line[1])
    && (line[1] == '/' || IsAlpha(line[1])) && (line[1] == '/' ==> IsAlpha(line[2]))
  }

  function Initial(line: string): char
    requires TagShape(line)
  {
    if line[1] == '/' then Lower(line[2]) else Lower(line[1])
  }

  /** A letter of the keyword that the tag does not have. */
  lemma DiffersAt(line: string, kw: string, i: nat)
    requires TagShape(line) && i < |kw| && (1 + i >= |line| || Lower(line[1 + i]) != kw[i])
    ensures OpensNamed(line, kw) == None == OpensCondition(line, kw) == OpensLimit(line, kw)
    ensures !OpensBare(line, kw) && !OpensRequire(line, kw)
    ensures kw == "ifmodule" ==> OpensIfModule(line) == None
  {
    hide NameArg, LastAt, Find, Expr.TrimEnd;
    ExprLex.SkipNone(line);
    ExprLex.SkipNone(line[1..]);
    assert line[1..][0] == line[1];
    if 1 + i < |line| { assert line[1..][i] == line[1 + i]; }
    assert !StartsNoCase(line[1..], kw);
  }

  lemma Differs(line: string, kw: string)
    requires TagShape(line) && kw != "" && IsAlpha(kw[0]) && (line[1] == '/' || Initial(line) != kw[0])
    ensures OpensNamed(line, kw) == None == OpensCondition(line, kw) == OpensLimit(line, kw)
    ensures !OpensBare(line, kw) && !OpensRequire(line, kw)
    ensures kw == "ifmodule" ==> OpensIfModule(line) == None
  {
    hide OpensNamed, OpensCondition, OpensLimit, OpensBare, OpensRequire, OpensIfModule;
    DiffersAt(line, kw, 0);
  }

  lemma NotClosingAt(line: string, kw: string, i: nat)
    requires TagShape(line) && i < |kw| && (line[1] != '/' || 2 + i >= |line| || Lower(line[2 + i]) != kw[i])
    ensures !Closes(line, kw)
  {
    ExprLex.SkipNone(line);
    assert line[1..][0] == line[1];
    if line[1] == '/' && 2 + i < |line| { assert line[1..][1..][i] == line[2 + i]; }
  }

  lemma NotClosing(line: string, kw: string)
    requires TagShape(line) && kw != "" && (line[1] != '/' || Initial(line) != kw[0])
    ensures !Closes(line, kw)
  {
    NotClosingAt(line, kw, 0);
  }

  lemma NoModuleTags(s: PState, line: string)
    requires TagShape(line) && Initial(line) != 'i'
    ensures ModuleTags(s, line) == None
  {
    hide Closes, OpensIfModule;
    Differs(line, "ifmodule");
    NotClosing(line, "ifmodule");
  }

  lemma NoIfTags(s: PState, line: string)
    requires TagShape(line) && Initial(line) != 'i' && Initial(line) != 'e'
    ensures IfTags(s, line) == None
  {
    hide Closes, OpensCondition, OpensBare;
    Differs(line, "if");
    Differs(line, "elseif");
    Differs(line, "else");
    NotClosing(line, "if");
    NotClosing(line, "elseif");
    NotClosing(line, "else");
  }

  lemma NoFilesTags(s: PState, line: string)
    requires TagShape(line) && Initial(line) != 'f'
    ensures FilesTags(s, line) == None
  {
    hide Closes, OpensNamed;
    Differs(line, "filesmatch");
    Differs(line, "files");
    NotClosing(line, "filesmatch");
    NotClosing(line, "files");
  }

  lemma NoRequireTags(s: PState, line: string)
    requires TagShape(line) && Initial(line) != 'r'
    ensures RequireTags(s, line) == None
  {
    hide Closes, OpensRequire;
    Differs(line, "requireany");
    Differs(line, "requireall");
    NotClosing(line, "requireany");
    NotClosing(line, "requireall");
  }

  /** A line that is not a tag at all. */
  lemma NoTags(s: PState, line: string)
    requires line != "" && line[0] != '<' && !IsSpace(line[0])
    ensures Tags(s, line) == None
  {
    hide CloseModule, CloseIf, CloseMatch, CloseFiles, CloseAny, CloseAll, CloseLimit, MatchKw, EndsTag, NameArg, Find;
    ExprLex.SkipNone(line);
    assert Tag(line).None?;
  }
}
