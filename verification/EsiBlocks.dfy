/**
 * What each tag does to a page: remove and comment blocks go with all they hold,
 * vars blocks leave what they hold, an include becomes its file or a placeholder,
 * and any other tag stays. Stated of the rendered page, of the page with its
 * fragments, and of a streamed body.
 */
module EsiBlocks {
  import opened Text
  import opened Esi
  import opened EsiJoin
  import EsiStream

  /** An opening tag: any letter case, any bytes up to the '>'. */
  function Tagged(name: string): string { PREFIX + name + ">" }

  predicate StripName(name: string) {
    '>' !in name && (StartsNoCase(name, "remove") || StartsNoCase(name, "comment"))
  }

  predicate VarsName(name: string) { '>' !in name && StartsNoCase(name, "vars") }

  predicate IncludeName(name: string) { '>' !in name && StartsNoCase(name, "include") }

  /** The name of no known tag. */
  predicate OtherName(name: string) {
    && !StartsNoCase(name, "remove") && !StartsNoCase(name, "comment")
    && !StartsNoCase(name, "include") && !StartsNoCase(name, "vars")
  }

  predicate NoTagIn(p: string) { Find(p, PREFIX).None? }

  predicate NoStripClose(x: string) { Find(x, REMOVE_CLOSE).None? && Find(x, COMMENT_CLOSE).None? }

  predicate NoVarsClose(x: string) { Find(x, VARS_CLOSE).None? }

  // ------------------------------------------------------------- finding the boundaries

  /** A text that holds no `c` can only hold a `c` from where another '<' starts. */
  lemma NotBefore(p: string, rest: string, c: string, j: nat)
    requires c == PREFIX || c == REMOVE_CLOSE || c == COMMENT_CLOSE || c == VARS_CLOSE
    requires Find(p, c).None? && rest != "" && rest[0] == '<' && j < |p|
    ensures !OccursAt(p + rest, c, j)
  {
    var whole := p + rest;
    if j + |c| <= |p| {
      OccursExtend(p, rest, c, j);
    } else if j + |c| <= |whole| {
      EsiStream.NoInnerAngle(c, |p| - j);
      assert whole[j..j + |c|][|p| - j] == whole[|p|] == '<';
    }
  }

  lemma FirstHere(p: string, c: string, rest: string)
    requires c == PREFIX || c == REMOVE_CLOSE || c == COMMENT_CLOSE || c == VARS_CLOSE
    requires Find(p, c).None?
    ensures Find(p + (c + rest), c) == Some(|p|)
  {
    var whole := p + (c + rest);
    assert whole[|p|..|p| + |c|] == c;
    forall j: nat | j < |p|
      ensures !OccursAt(whole, c, j)
    {
      NotBefore(p, c + rest, c, j);
    }
    FindIs(whole, c, 0, |p|);
  }

  /** The other close tag of a block is not found earlier. */
  lemma OtherLater(x: string, c: string, d: string, rest: string)
    requires (c == REMOVE_CLOSE && d == COMMENT_CLOSE) || (c == COMMENT_CLOSE && d == REMOVE_CLOSE)
    requires Find(x, d).None?
    ensures var r := Find(x + (c + rest), d); r.None? || r.value > |x|
  {
    var whole := x + (c + rest);
    var r := Find(whole, d);
    if r.Some? && r.value < |x| { NotBefore(x, c + rest, d, r.value); }
    assert c[6] != d[6] && whole[|x| + 6] == c[6];
    if |x| + |d| <= |whole| { assert whole[|x|..|x| + |d|][6] == whole[|x| + 6]; }
  }

  lemma StripScan(x: string, close: string, q: string)
    requires NoStripClose(x) && (close == REMOVE_CLOSE || close == COMMENT_CLOSE)
    ensures ScanOf(Strip, x + (close + q)) == Closed(|x|, |close|)
  {
    FirstHere(x, close, q);
    OtherLater(x, close, if close == REMOVE_CLOSE then COMMENT_CLOSE else REMOVE_CLOSE, q);
  }

  lemma VarsScan(x: string, q: string)
    requires NoVarsClose(x)
    ensures ScanOf(Vars, x + (VARS_CLOSE + q)) == Closed(|x|, |VARS_CLOSE|)
  {
    FirstHere(x, VARS_CLOSE, q);
  }

  lemma TagEnd(name: string, rest: string)
    requires '>' !in name
    ensures Find(Tagged(name) + rest, ">") == Some(5 + |name|)
  {
    var tail := Tagged(name) + rest;
    var gt := 5 + |name|;
    assert tail[gt..gt + 1] == ">";
    forall j: nat | j < gt
      ensures !OccursAt(tail, ">", j)
    {
      assert tail[j..j + 1][0] == tail[j] == if j < 5 then PREFIX[j] else name[j - 5];
    }
    FindIs(tail, ">", 0, gt);
  }

  lemma TagScan(p: string, name: string, rest: string)
    requires NoTagIn(p) && '>' !in name
    ensures ScanOf(Passthrough, p + (Tagged(name) + rest)) == FullTag(|p|, |p| + 5 + |name|)
  {
    var tail := Tagged(name) + rest;
    assert tail == PREFIX + (name + ">" + rest);
    FirstHere(p, PREFIX, name + ">" + rest);
    TagEnd(name, rest);
    hide Find, Tagged;
    FindSkip(p, tail, ">", 0, |p|);
  }

  /** What is left of the text around a tag. */
  lemma TagPieces(p: string, name: string, rest: string)
    ensures var data := p + (Tagged(name) + rest);
            var at, gt := |p|, |p| + 5 + |name|;
            && data[..at] == p && data[gt + 1..] == rest && data[at..gt + 1] == Tagged(name)
            && data[at + 5..] == name + ">" + rest
  {
  }

  /** The bytes after the '>' do not change what a tag is. */
  lemma NameIs(name: string, rest: string, kw: string)
    requires '>' !in name && '>' !in kw
    ensures StartsNoCase(name + ">" + rest, kw) <==> StartsNoCase(name, kw)
  {
    var whole := name + ">" + rest;
    if |name| < |kw| { assert whole[|name|] == '>' && Lower('>') != kw[|name|]; }
  }

  lemma NoneOfThem(s: string)
    ensures StartsNoCase(s, "remove") ==> s[0] in "rR"
    ensures StartsNoCase(s, "comment") ==> s[0] in "cC"
    ensures StartsNoCase(s, "include") ==> s[0] in "iI"
    ensures StartsNoCase(s, "vars") ==> s[0] in "vV"
  {
    var r, c, i, v := "remove", "comment", "include", "vars";
    assert r[0] == 'r' && c[0] == 'c' && i[0] == 'i' && v[0] == 'v';
  }

  lemma StripTagged(name: string, rest: string)
    requires StripName(name)
    ensures TagOf(name + ">" + rest) == StripTag
  {
    NameIs(name, rest, "remove");
    NameIs(name, rest, "comment");
  }

  lemma VarsTagged(name: string, rest: string)
    requires VarsName(name)
    ensures TagOf(name + ">" + rest) == VarsTag
  {
    NameIs(name, rest, "vars");
    NoneOfThem(name + ">" + rest);
  }

  lemma IncludeTagged(name: string, rest: string)
    requires IncludeName(name)
    ensures TagOf(name + ">" + rest) == IncludeTag
  {
    NameIs(name, rest, "include");
    NoneOfThem(name + ">" + rest);
  }

  // ------------------------------------------------------------------ the rendered page

  lemma TagRender(cfg: Config, uris: seq<string>, p: string, name: string, rest: string)
    requires NoTagIn(p) && '>' !in name && !TagOf(name + ">" + rest).UnknownTag?
    ensures var tag := TagOf(name + ">" + rest);
            var ins := if tag.IncludeTag? then Resolve(cfg, |uris|, Tagged(name)) else Nothing;
            var mode := if tag.StripTag? then Strip else if tag.VarsTag? then Vars else Passthrough;
            Render(cfg, Passthrough, uris, p + (Tagged(name) + rest))
            == Before(p + Written(ins, uris), Render(cfg, mode, Recorded(ins, uris), rest))
  {
    hide Render, ScanOf, TagOf, Resolve, Placeholder, Tagged;
    var data := p + (Tagged(name) + rest);
    TagScan(p, name, rest);
    TagPieces(p, name, rest);
    EsiStream.RenderStep(cfg, Passthrough, uris, data, FullTag(|p|, |p| + 5 + |name|));
  }

  lemma CloseRender(cfg: Config, mode: Mode, uris: seq<string>, x: string, close: string, q: string)
    requires !mode.Passthrough? && close != "" && ScanOf(mode, x + (close + q)) == Closed(|x|, |close|)
    ensures Render(cfg, mode, uris, x + (close + q))
         == Before(if mode.Vars? then x else "", Render(cfg, Passthrough, uris, q))
  {
    hide Render, ScanOf;
    var data := x + (close + q);
    assert data[..|x|] == x && data[|x| + |close|..] == q;
    EsiStream.RenderStep(cfg, mode, uris, data, Closed(|x|, |close|));
  }

  // -------------------------------------------------------- the page with its fragments

  lemma MeaningStep(cfg: Config, bodies: seq<string>, mode: Mode, uris: seq<string>, data: string, scan: Scan)
    requires scan == ScanOf(mode, data) && Complete(data, scan)
    ensures Meaning(cfg, bodies, mode, uris, data)
         == HeadMeaning(cfg, bodies, mode, uris, data, scan)
            + Meaning(cfg, bodies, NextMode(data, scan), NextUris(cfg, uris, data, scan), Rest(data, scan))
  {
    hide HeadMeaning, NextMode, NextUris, Rest;
  }

  lemma TagMeaning(cfg: Config, bodies: seq<string>, uris: seq<string>, p: string, name: string, rest: string)
    requires NoTagIn(p) && '>' !in name && !TagOf(name + ">" + rest).UnknownTag?
    ensures var tag := TagOf(name + ">" + rest);
            var ins := if tag.IncludeTag? then Resolve(cfg, |uris|, Tagged(name)) else Nothing;
            var mode := if tag.StripTag? then Strip else if tag.VarsTag? then Vars else Passthrough;
            Meaning(cfg, bodies, Passthrough, uris, p + (Tagged(name) + rest))
            == p + Body(ins, |uris|, bodies) + Meaning(cfg, bodies, mode, Recorded(ins, uris), rest)
  {
    hide Meaning, ScanOf, TagOf, Resolve, Tagged;
    var data := p + (Tagged(name) + rest);
    TagScan(p, name, rest);
    TagPieces(p, name, rest);
    MeaningStep(cfg, bodies, Passthrough, uris, data, FullTag(|p|, |p| + 5 + |name|));
  }

  lemma CloseMeaning(
      cfg: Config, bodies: seq<string>, mode: Mode, uris: seq<string>, x: string, close: string, q: string)
    requires !mode.Passthrough? && close != "" && ScanOf(mode, x + (close + q)) == Closed(|x|, |close|)
    ensures Meaning(cfg, bodies, mode, uris, x + (close + q))
         == (if mode.Vars? then x else "") + Meaning(cfg, bodies, Passthrough, uris, q)
  {
    hide Meaning, ScanOf;
    var data := x + (close + q);
    assert data[..|x|] == x && data[|x| + |close|..] == q;
    MeaningStep(cfg, bodies, mode, uris, data, Closed(|x|, |close|));
  }

  // ----------------------------------------------------------------------------- laws

  /** A remove or comment block goes with all it holds, and either close tag ends either block. */
  lemma StripBlock(cfg: Config, bodies: seq<string>, uris: seq<string>, p: string, name: string, x: string,
                   close: string, q: string)
    requires NoTagIn(p) && StripName(name) && NoStripClose(x) && (close == REMOVE_CLOSE || close == COMMENT_CLOSE)
    ensures var data := p + (Tagged(name) + (x + (close + q)));
            && Render(cfg, Passthrough, uris, data) == Before(p, Render(cfg, Passthrough, uris, q))
            && Meaning(cfg, bodies, Passthrough, uris, data) == p + Meaning(cfg, bodies, Passthrough, uris, q)
  {
    hide Render, Meaning, ScanOf, TagOf, Tagged, NoStripClose;
    var rest := x + (close + q);
    StripTagged(name, rest);
    StripScan(x, close, q);
    TagRender(cfg, uris, p, name, rest);
    CloseRender(cfg, Strip, uris, x, close, q);
    TagMeaning(cfg, bodies, uris, p, name, rest);
    CloseMeaning(cfg, bodies, Strip, uris, x, close, q);
    Empty(p, Render(cfg, Passthrough, uris, q).text);
    Empty(p, Meaning(cfg, bodies, Passthrough, uris, q));
  }

  lemma Empty(p: string, s: string)
    ensures p + "" == p && "" + s == s && p + "" + s == p + s
  {
  }

  /** A vars block leaves what it holds as it is, other tags included. */
  lemma VarsBlock(cfg: Config, bodies: seq<string>, uris: seq<string>, p: string, name: string, x: string, q: string)
    requires NoTagIn(p) && VarsName(name) && NoVarsClose(x)
    ensures var data := p + (Tagged(name) + (x + (VARS_CLOSE + q)));
            && Render(cfg, Passthrough, uris, data) == Before(p + x, Render(cfg, Passthrough, uris, q))
            && Meaning(cfg, bodies, Passthrough, uris, data) == p + x + Meaning(cfg, bodies, Passthrough, uris, q)
  {
    hide Render, Meaning, ScanOf, TagOf, Tagged, NoVarsClose;
    var rest := x + (VARS_CLOSE + q);
    VarsTagged(name, rest);
    VarsScan(x, q);
    TagRender(cfg, uris, p, name, rest);
    CloseRender(cfg, Vars, uris, x, VARS_CLOSE, q);
    TagMeaning(cfg, bodies, uris, p, name, rest);
    CloseMeaning(cfg, bodies, Vars, uris, x, VARS_CLOSE, q);
    var text, whole := Render(cfg, Passthrough, uris, q).text, Meaning(cfg, bodies, Passthrough, uris, q);
    assert p + "" == p && p + (x + text) == p + x + text && p + (x + whole) == p + x + whole;
  }

  /** A block that is never closed reaches to the end. */
  lemma UnclosedBlock(cfg: Config, bodies: seq<string>, uris: seq<string>, p: string, name: string, x: string)
    requires NoTagIn(p)
    ensures var data := p + (Tagged(name) + x);
            && (StripName(name) && NoStripClose(x) ==>
                  && Render(cfg, Passthrough, uris, data) == Page(p, uris)
                  && Meaning(cfg, bodies, Passthrough, uris, data) == p)
            && (VarsName(name) && NoVarsClose(x) ==>
                  && Render(cfg, Passthrough, uris, data) == Page(p + x, uris)
                  && Meaning(cfg, bodies, Passthrough, uris, data) == p + x)
  {
    hide TagOf, Tagged, Find, NoTagIn, Resolve;
    if StripName(name) && NoStripClose(x) {
      StripTagged(name, x);
      TagRender(cfg, uris, p, name, x);
      TagMeaning(cfg, bodies, uris, p, name, x);
    }
    if VarsName(name) && NoVarsClose(x) {
      VarsTagged(name, x);
      TagRender(cfg, uris, p, name, x);
      TagMeaning(cfg, bodies, uris, p, name, x);
    }
  }

  /** An include is replaced where it stands, and the page goes on behind it. */
  lemma IncludeLaw(cfg: Config, bodies: seq<string>, uris: seq<string>, p: string, name: string, q: string)
    requires NoTagIn(p) && IncludeName(name)
    ensures var ins := Resolve(cfg, |uris|, Tagged(name));
            var data := p + (Tagged(name) + q);
            && Render(cfg, Passthrough, uris, data)
               == Before(p + Written(ins, uris), Render(cfg, Passthrough, Recorded(ins, uris), q))
            && Meaning(cfg, bodies, Passthrough, uris, data)
               == p + Body(ins, |uris|, bodies) + Meaning(cfg, bodies, Passthrough, Recorded(ins, uris), q)
  {
    hide Render, Meaning, TagOf, Tagged, Find, NoTagIn, Resolve, Placeholder;
    IncludeTagged(name, q);
    TagRender(cfg, uris, p, name, q);
    TagMeaning(cfg, bodies, uris, p, name, q);
  }

  /** A tag of another name loses nothing: its prefix is passed, and the page goes on behind the prefix. */
  lemma OtherTag(cfg: Config, uris: seq<string>, p: string, rest: string)
    requires NoTagIn(p) && OtherName(rest) && '>' in rest
    ensures Render(cfg, Passthrough, uris, p + (PREFIX + rest))
         == Before(p + PREFIX, Render(cfg, Passthrough, uris, rest))
  {
    hide Render, StartsNoCase, Find;
    var data := p + (PREFIX + rest);
    FirstHere(p, PREFIX, rest);
    GtBehind(p, rest);
    assert data[..|p|] == p && data[|p| + 5..] == rest;
    assert TagOf(rest) == UnknownTag;
    hide TagOf;
    var scan := ScanOf(Passthrough, data);
    assert scan.FullTag? && scan.at == |p|;
    hide ScanOf;
    EsiStream.RenderStep(cfg, Passthrough, uris, data, scan);
    assert Head(cfg, Passthrough, uris, data, scan) == p + PREFIX;
  }

  lemma PrefixPlain()
    ensures '>' !in PREFIX
  {
  }

  lemma GtBehind(p: string, rest: string)
    ensures Find(p + (PREFIX + rest), ">", |p|).Some? <==> '>' in rest
  {
    hide Find;
    var tail := PREFIX + rest;
    FindSkip(p, tail, ">", 0, |p|);
    FindChar(tail, '>');
    PrefixPlain();
    hide OccursAt;
    assert ['>'] == ">";
  }

  /** A tag that never ends is passed as it is. */
  lemma EndlessTag(cfg: Config, uris: seq<string>, p: string, rest: string)
    requires NoTagIn(p) && '>' !in rest
    ensures Render(cfg, Passthrough, uris, p + (PREFIX + rest)) == Page(p + (PREFIX + rest), uris)
  {
    FirstHere(p, PREFIX, rest);
    GtBehind(p, rest);
    hide Find;
  }

  // ---------------------------------------------------------------- what an include is

  const HEAD: string := "include src=\""

  /** The source of <esi:include src="..."/>. */
  function Include(path: string): string { HEAD + path + "\"/" }

  predicate PlainPath(path: string) {
    0 < |path| < 4096 && '"' !in path && '>' !in path && '\0' !in path
  }

  lemma HeadChars(i: nat)
    requires i < 8
    ensures Lower(HEAD[i]) != 's' || Lower(HEAD[i + 1]) != 'r'
    ensures HEAD[8] == 's' && HEAD[9] == 'r' && HEAD[10] == 'c' && HEAD[11] == '=' && HEAD[12] == '"' && |HEAD| == 13
    ensures HEAD[0] == 'i'
  {
  }

  lemma NotQuotedBefore(tag: string, i: nat)
    requires i < 13 && |tag| > 18 && tag[..18] == PREFIX + HEAD
    ensures Quoted(tag, i).None?
  {
    hide Find;
    var whole := PREFIX + HEAD;
    assert tag[i] == tag[..18][i] && tag[i + 1] == tag[..18][i + 1];
    if i >= 5 { HeadChars(i - 5); } else { HeadChars(0); }
    assert i < 4 ==> whole[i] == PREFIX[i] && whole[i + 1] == PREFIX[i + 1];
    assert tag[i..][0] == tag[i] && tag[i..][1] == tag[i + 1];
    var src := "src=";
    assert src[0] == 's' && src[1] == 'r';
  }

  lemma {:induction false} NothingBefore(tag: string, i: nat)
    requires i <= 13 && |tag| > 18 && tag[..18] == PREFIX + HEAD
    ensures ExtractSrc(tag, i) == ExtractSrc(tag, 13)
    decreases 13 - i
  {
    hide Quoted;
    if i < 13 {
      NotQuotedBefore(tag, i);
      NothingBefore(tag, i + 1);
    }
  }

  lemma QuotedPath(path: string)
    requires PlainPath(path)
    ensures Quoted(Tagged(Include(path)), 13) == Some(path)
  {
    var tag := Tagged(Include(path));
    var end := 18 + |path|;
    HeadChars(0);
    assert tag == PREFIX + HEAD + path + "\"/>";
    assert tag[end..end + 1] == "\"";
    forall j: nat | 18 <= j < end
      ensures !OccursAt(tag, "\"", j)
    {
      assert tag[j..j + 1][0] == tag[j] == path[j - 18];
    }
    FindIs(tag, "\"", 18, end);
    hide Find;
    var rest, src := tag[13..], "src=";
    forall k | 0 <= k < 4
      ensures Lower(rest[k]) == src[k]
    {
      assert rest[k] == HEAD[8 + k];
    }
    assert tag[17] == '"' && [tag[17]] == "\"" && tag[18..end] == path;
  }

  lemma IncludeSource(path: string)
    requires PlainPath(path)
    ensures IncludeName(Include(path)) && ExtractSrc(Tagged(Include(path))) == Some(path)
  {
    var tag := Tagged(Include(path));
    HeadChars(0);
    assert tag == PREFIX + HEAD + path + "\"/>";
    assert tag[..18] == PREFIX + HEAD;
    QuotedPath(path);
    NothingBefore(tag, 0);
    hide Quoted;
    IncludeStarts(path);
  }

  lemma IncludeStarts(path: string)
    requires '>' !in path
    ensures IncludeName(Include(path))
  {
    var name, kw := Include(path), "include";
    forall k | 0 <= k < 7
      ensures Lower(name[k]) == kw[k]
    {
      assert name[k] == HEAD[k];
    }
  }

  /** A readable file that is no script stands where it was included. */
  lemma StaticInclude(cfg: Config, uris: seq<string>, p: string, path: string, q: string)
    requires NoTagIn(p) && PlainPath(path) && path[0] == '/' && '?' !in path && Find(path, "..").None?
    requires !IsHandler(path) && cfg.readFile(path) != ""
    ensures Render(cfg, Passthrough, uris, p + (Tagged(Include(path)) + q))
         == Before(p + cfg.readFile(path), Render(cfg, Passthrough, uris, q))
  {
    hide Render, IsHandler, ExtractSrc;
    IncludeSource(path);
    NoQuery(path);
    hide Tagged, Include;
    IncludeLaw(cfg, [], uris, p, Include(path), q);
  }

  lemma NoQuery(path: string)
    requires '?' !in path
    ensures Find(path, "?").None?
  {
    FindChar(path, '?');
  }

  /** A script with a valid address becomes a request of its own, unless the page is a fragment or has too many. */
  lemma ScriptInclude(cfg: Config, uris: seq<string>, p: string, path: string, q: string)
    requires NoTagIn(p) && PlainPath(path) && '?' !in path && IsHandler(path) && UriValid(path)
    ensures Render(cfg, Passthrough, uris, p + (Tagged(Include(path)) + q))
         == if cfg.subrequest || |uris| >= DYN_MAX then Before(p, Render(cfg, Passthrough, uris, q))
            else Before(p + Placeholder(|uris|), Render(cfg, Passthrough, uris + [path], q))
  {
    hide Render, IsHandler, ExtractSrc, UriValid, Placeholder;
    IncludeSource(path);
    NoQuery(path);
    hide Tagged, Include;
    IncludeLaw(cfg, [], uris, p, Include(path), q);
    assert p + "" == p;
  }

  // ------------------------------------------------------------------ streamed bodies

  /** The same of a body that arrives in harmless chunks. */
  lemma StreamedBlocks(cfg: Config, chunks: seq<string>, p: string, name: string, x: string, close: string, q: string)
    requires EsiStream.Smooth(cfg, EsiStream.START, chunks)
    requires EsiStream.Join(chunks) == p + (Tagged(name) + (x + (close + q))) && NoTagIn(p)
    ensures StripName(name) && NoStripClose(x) && (close == REMOVE_CLOSE || close == COMMENT_CLOSE) ==>
              EsiStream.Streamed(cfg, EsiStream.START, chunks) == Before(p, Render(cfg, Passthrough, [], q))
    ensures VarsName(name) && NoVarsClose(x) && close == VARS_CLOSE ==>
              EsiStream.Streamed(cfg, EsiStream.START, chunks) == Before(p + x, Render(cfg, Passthrough, [], q))
  {
    hide Render, EsiStream.Smooth, EsiStream.Streamed, Find, StripName, VarsName, Tagged;
    var data := EsiStream.Join(chunks);
    assert "" + data == data;
    EsiStream.StreamingIsRendering(cfg, EsiStream.START, chunks);
    if StripName(name) && NoStripClose(x) && (close == REMOVE_CLOSE || close == COMMENT_CLOSE) {
      StripBlock(cfg, [], [], p, name, x, close, q);
    }
    if VarsName(name) && NoVarsClose(x) && close == VARS_CLOSE { VarsBlock(cfg, [], [], p, name, x, q); }
  }
}
