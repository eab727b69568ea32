/**
 * The recognisers of the container tags as the code runs them: a pointer moved
 * over the line byte by byte, forwards and from the end, each proved to find
 * what the specification of the tag says.
 */
module BlockScan {
  import opened Text
  import Expr
  import ExprParser
  import opened Blocks

  // ------------------------------------------------------------- moving the pointer

  method SkipWs(p: string) returns (q: string)
    ensures q == Expr.SkipSpace(p)
  {
    var i := ExprParser.SpaceEnd(p);
    q := p[i..];
  }

  /** strncasecmp(p, kw, strlen(kw)) == 0. */
  method HasKeyword(p: string, kw: string) returns (ok: bool)
    ensures ok == StartsNoCase(p, kw)
  {
    var i := 0;
    while i < |kw|
      invariant 0 <= i <= |kw| && i <= |p| && forall j :: 0 <= j < i ==> Lower(p[j]) == kw[j]
    {
      if i >= |p| || Lower(p[i]) != kw[i] {
        return false;
      }
      i := i + 1;
    }
    return true;
  }

  /** match_kw. */
  method AfterKeyword(p: string, kw: string) returns (after: Option<string>)
    ensures after == MatchKw(p, kw)
  {
    var ok := HasKeyword(p, kw);
    if !ok {
      return None;
    }
    if |kw| < |p| && !IsSpace(p[|kw|]) {
      return None;
    }
    return Some(p[|kw|..]);
  }

  method AfterOpen(line: string) returns (t: Option<string>)
    ensures t == Tag(line)
  {
    var p := SkipWs(line);
    if p == "" || p[0] != '<' {
      return None;
    }
    return Some(p[1..]);
  }

  method AtEnd(p: string) returns (ok: bool)
    ensures ok == EndsTag(p)
  {
    var q := SkipWs(p);
    ok := q != "" && q[0] == '>';
  }

  /** The keyword and the end of the tag. */
  method WholeKeyword(p: string, kw: string) returns (ok: bool)
    ensures ok == (StartsNoCase(p, kw) && EndsTag(p[|kw|..]))
  {
    ok := HasKeyword(p, kw);
    if ok { ok := AtEnd(p[|kw|..]); }
  }

  // ------------------------------------------------------------- tags without argument

  /** The is_*_close functions. */
  method IsClose(line: string, kw: string) returns (ok: bool)
    ensures ok == Closes(line, kw)
  {
    hide EndsTag, Tag;
    var t := AfterOpen(line);
    if t.None? || t.value == "" || t.value[0] != '/' {
      return false;
    }
    ok := WholeKeyword(t.value[1..], kw);
  }

  /** is_if_close, is_elseif_close and is_else_close in turn. */
  method IsIfClose(line: string) returns (ok: bool)
    ensures ok == ClosesIf(line)
  {
    hide Closes;
    ok := IsClose(line, "if");
    if !ok { ok := IsClose(line, "elseif"); }
    if !ok { ok := IsClose(line, "else"); }
  }

  /** is_else_open. */
  method IsBareOpen(line: string, kw: string) returns (ok: bool)
    ensures ok == OpensBare(line, kw)
  {
    hide EndsTag, Tag;
    var t := AfterOpen(line);
    if t.None? {
      return false;
    }
    ok := WholeKeyword(t.value, kw);
  }

  /** is_require_any_open and is_require_all_open. */
  method IsRequireOpen(line: string, kw: string) returns (ok: bool)
    ensures ok == OpensRequire(line, kw)
  {
    hide EndsTag, Tag;
    var t := AfterOpen(line);
    if t.None? {
      return false;
    }
    var p := SkipWs(t.value);
    ok := WholeKeyword(p, kw);
  }

  // ------------------------------------------------------------- names and patterns

  method NameEnd(p: string) returns (j: nat)
    ensures j == Expr.Span(p, 0, NameChar)
  {
    j := 0;
    while j < |p| && p[j] != '>' && !IsSpace(p[j])
      invariant 0 <= j <= |p| && Expr.Span(p, j, NameChar) == Expr.Span(p, 0, NameChar)
    {
      j := j + 1;
    }
  }

  /** A quoted or unquoted argument up to the '>'. */
  method ReadName(p: string) returns (name: Option<string>)
    ensures name == NameArg(p)
  {
    hide EndsTag, Find;
    if p != "" && p[0] == '"' {
      var close := ExprParser.MemChr(p, '"', 1);
      assert ['"'] == "\"";
      if close.None? {
        return None;
      }
      var quoted := AtEnd(p[close.value + 1..]);
      return if quoted then Some(p[1..close.value]) else None;
    }
    var end := NameEnd(p);
    if end == 0 {
      return None;
    }
    var ok := AtEnd(p[end..]);
    return if ok then Some(p[..end]) else None;
  }

  /** is_files_match_open and is_files_open. */
  method NamedOpen(line: string, kw: string) returns (name: Option<string>)
    ensures name == OpensNamed(line, kw)
  {
    hide NameArg, MatchKw, Tag;
    var t := AfterOpen(line);
    if t.None? {
      return None;
    }
    var after := AfterKeyword(t.value, kw);
    if after.None? {
      return None;
    }
    var p := SkipWs(after.value);
    name := ReadName(p);
  }

  /** is_ifmodule_open. */
  method ModuleOpen(line: string) returns (open: Option<(string, bool)>)
    ensures open == OpensIfModule(line)
  {
    hide NameArg, MatchKw, Tag;
    var t := AfterOpen(line);
    if t.None? {
      return None;
    }
    var after := AfterKeyword(t.value, "ifmodule");
    if after.None? {
      return None;
    }
    var p := SkipWs(after.value);
    var negated := p != "" && p[0] == '!';
    if negated { p := SkipWs(p[1..]); }
    var name := ReadName(p);
    if name.None? {
      return None;
    }
    return Some((if negated then "!" + name.value else name.value, negated));
  }

  // ------------------------------------------------------------- conditions and methods

  /** strrchr. */
  method LastChar(p: string, c: char) returns (r: Option<nat>)
    ensures r == LastAt(p, c)
  {
    var n := |p|;
    assert p[..n] == p;
    while n > 0
      invariant 0 <= n <= |p| && LastAt(p[..n], c) == LastAt(p, c)
    {
      if p[n - 1] == c {
        return Some(n - 1);
      }
      assert p[..n][..n - 1] == p[..n - 1];
      n := n - 1;
    }
    return None;
  }

  /** is_if_open and is_elseif_open. */
  method ConditionOpen(line: string, kw: string) returns (text: Option<string>)
    ensures text == OpensCondition(line, kw)
  {
    hide MatchKw, Tag, LastAt;
    var t := AfterOpen(line);
    if t.None? {
      return None;
    }
    var after := AfterKeyword(t.value, kw);
    if after.None? {
      return None;
    }
    var p := SkipWs(after.value);
    var end := LastChar(p, '>');
    if end.None? || end.value == 0 {
      return None;
    }
    var n := ExprParser.TrimmedEnd(p[..end.value]);
    var trimmed := p[..end.value][..n];
    if |trimmed| >= 2 && trimmed[0] == '"' && trimmed[|trimmed| - 1] == '"' {
      return Some(trimmed[1..|trimmed| - 1]);
    }
    return Some(trimmed);
  }

  /** is_limit_open and is_limit_except_open. */
  method LimitOpen(line: string, kw: string) returns (methods: Option<string>)
    ensures methods == OpensLimit(line, kw)
  {
    hide Tag, Find;
    var t := AfterOpen(line);
    if t.None? {
      return None;
    }
    var p := SkipWs(t.value);
    var ok := HasKeyword(p, kw);
    if !ok || |p| == |kw| || !IsSpace(p[|kw|]) {
      return None;
    }
    var m := SkipWs(p[|kw|..]);
    var end := ExprParser.MemChr(m, '>', 0);
    assert ['>'] == ">";
    if end.None? {
      return None;
    }
    var n := ExprParser.TrimmedEnd(m[..end.value]);
    var trimmed := m[..end.value][..n];
    return if trimmed == "" then None else Some(trimmed);
  }

  // ------------------------------------------------------------- all tags of one family

  method FilesTag(line: string)
    returns (matchClose: bool, pattern: Option<string>, filesClose: bool, name: Option<string>)
    ensures matchClose == Closes(line, "filesmatch") && pattern == OpensNamed(line, "filesmatch")
    ensures filesClose == Closes(line, "files") && name == OpensNamed(line, "files")
  {
    hide Closes, OpensNamed;
    matchClose := IsClose(line, "filesmatch");
    pattern := NamedOpen(line, "filesmatch");
    filesClose := IsClose(line, "files");
    name := NamedOpen(line, "files");
  }

  method RequireTag(line: string) returns (anyClose: bool, anyOpen: bool, allClose: bool, allOpen: bool)
    ensures anyClose == Closes(line, "requireany") && anyOpen == OpensRequire(line, "requireany")
    ensures allClose == Closes(line, "requireall") && allOpen == OpensRequire(line, "requireall")
  {
    hide Closes, OpensRequire;
    anyClose := IsClose(line, "requireany");
    anyOpen := IsRequireOpen(line, "requireany");
    allClose := IsClose(line, "requireall");
    allOpen := IsRequireOpen(line, "requireall");
  }
}
