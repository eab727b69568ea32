/**
 * Printing a tree that is nested in the canonical order and parsing the text
 * gives the tree back: containers, their order, the conditions attached to
 * each rule and the ElseIf/Else chains. Branches that follow no branch go.
 */
module BlockRoundTrip {
  import opened Text
  import Expr
  import ExprLex
  import ExprRoundTrip
  import opened Blocks
  import opened BlockTags

  // ------------------------------------------------------------------- the domain

  /** Where a directive stands: what is open around it. */
  datatype Place = Place(modules: nat, limit: bool, any: bool, all: bool, innermost: nat, files: bool, ifs: nat)

  const TopPlace := Place(0, false, false, false, 0, false, 0)

  /** Directly inside a RequireAll that is itself inside a RequireAny. */
  predicate AllInAny(p: Place) { p.any && p.all && p.innermost == 2 && !p.files && p.ifs == 0 }

  /** Directly inside a Require block. */
  predicate InRequire(p: Place) { (p.any || p.all) && !p.files && p.ifs == 0 }

  /** Only IfModule blocks around. */
  predicate InModules(p: Place) { !p.limit && !p.any && !p.all && !p.files && p.ifs == 0 }

  /** Which containers may stand where: IfModule, Limit, Require, Files or FilesMatch, If. */
  predicate MayOpen(p: Place, d: Directive)
    requires !d.Plain?
  {
    match d
    case IfModule(_, _, _) => InModules(p) && p.modules < MAX_IFMODULE_DEPTH
    case Limit(_, _, _) => InModules(p)
    case RequireBlock(any, _) => !p.files && p.ifs == 0 && (if any then !p.any else !p.all)
    case FilesMatch(_, _) => !p.files && p.ifs == 0 && !AllInAny(p)
    case Files(_, _) => !p.files && p.ifs == 0 && !AllInAny(p)
    case Cond(_, _, _) => p.ifs < MAX_IF_DEPTH && !AllInAny(p)
  }

  function Within(p: Place, d: Directive): Place
    requires !d.Plain?
  {
    match d
    case IfModule(_, _, _) => p.(modules := p.modules + 1)
    case Limit(_, _, _) => p.(limit := true)
    case RequireBlock(any, _) => if any then p.(any := true, innermost := 1) else p.(all := true, innermost := 2)
    case FilesMatch(_, _) => p.(files := true)
    case Files(_, _) => p.(files := true)
    case Cond(_, _, _) => p.(ifs := p.ifs + 1)
  }

  /** A condition that prints on one line and fits the parser's depth budget. */
  predicate ConditionOK(e: Expr.Expr) {
    ExprRoundTrip.PrintOK(e) && ExprRoundTrip.Fits(e) && OneLine(Expr.Print(e, false))
  }

  /** The texts in a container's tag can be read back. */
  predicate HeaderOK(d: Directive)
    requires !d.Plain?
  {
    match d
    case IfModule(name, negated, _) => ModuleOK(name, negated)
    case Limit(_, methods, _) => MethodsOK(methods)
    case RequireBlock(_, _) => true
    case FilesMatch(pattern, _) => OneLine(pattern) && '"' !in pattern
    case Files(name, _) => NameOK(name)
    case Cond(branch, condition, _) =>
      if branch.OnElse? then condition.None? else condition.Some? && ConditionOK(condition.value)
  }

  /** A leaf whose line is read back, and is neither blank, a comment nor a tag. */
  predicate LeafOK(syn: Syntax, leaf: Leaf) {
    var line := syn.write(leaf);
    && OneLine(line) && line != "" && line[0] != '#' && line[0] != '<'
    && !IsSpace(line[0]) && !IsSpace(line[|line| - 1])
    && syn.read(line) == Some(leaf)
  }

  predicate PlainOK(syn: Syntax, leaf: Leaf, conditions: seq<Leaf>, p: Place) {
    && LeafOK(syn, leaf) && !leaf.kind.RewriteCond?
    && (conditions != [] ==> leaf.kind.RewriteRule?)
    && (forall i :: 0 <= i < |conditions| ==> conditions[i].kind.RewriteCond? && LeafOK(syn, conditions[i]))
    && (InRequire(p) ==> leaf.kind.Require?)
  }

  /** The branches may stand in any order. */
  predicate TreeOK(syn: Syntax, d: Directive, p: Place)
    decreases d
  {
    if d.Plain? then PlainOK(syn, d.leaf, d.conditions, p)
    else MayOpen(p, d) && HeaderOK(d) && TreesOK(syn, d.children, Within(p, d))
  }

  predicate TreesOK(syn: Syntax, ds: seq<Directive>, p: Place)
    decreases ds
  {
    ds == [] || (TreeOK(syn, ds[0], p) && TreesOK(syn, ds[1..], p))
  }

  /** An ElseIf or Else with no branch before it that it could belong to. */
  predicate Orphan(d: Directive, open: bool) { d.Cond? && !d.branch.OnIf? && !open }

  /** Every ElseIf and Else, at any depth, comes right after an If or ElseIf. */
  predicate Chained(open: bool, ds: seq<Directive>)
    decreases ds
  {
    ds == [] || (!Orphan(ds[0], open) && ChainedIn(ds[0]) && Chained(OpenEnded(ds[0]), ds[1..]))
  }

  predicate ChainedIn(d: Directive)
    decreases d
  {
    d.Plain? || Chained(false, d.children)
  }

  /** The trees without their orphans, at any depth; an orphan goes with all it holds. */
  function Adopted(open: bool, ds: seq<Directive>): seq<Directive>
    decreases ds
  {
    if ds == [] then []
    else if Orphan(ds[0], open) then Adopted(open, ds[1..])
    else [AdoptedIn(ds[0])] + Adopted(OpenEnded(ds[0]), ds[1..])
  }

  function AdoptedIn(d: Directive): (r: Directive)
    ensures OpenEnded(r) == OpenEnded(d)
    decreases d
  {
    if d.Plain? then d else d.(children := Adopted(false, d.children))
  }

  /** A container read back with other children. */
  function Rebuilt(d: Directive, kids: seq<Directive>): Directive
    requires !d.Plain?
  {
    match d
    case FilesMatch(pattern, _) => FilesMatch(pattern, kids)
    case Files(name, _) => Files(name, kids)
    case IfModule(name, negated, _) => IfModule(name, negated, kids)
    case Cond(branch, c, _) =>
      Cond(branch, if c.Some? then Some(ExprRoundTrip.AsCondition(ExprRoundTrip.Norm(c.value))) else None, kids)
    case RequireBlock(any, _) => RequireBlock(any, kids)
    case Limit(except, methods, _) => Limit(except, methods, kids)
  }

  /** The tree with every condition as the expression parser rebuilds it. */
  function Canon(d: Directive): Directive
    decreases d
  {
    if d.Plain? then d else Rebuilt(d, CanonAll(d.children))
  }

  function CanonAll(ds: seq<Directive>): seq<Directive>
    decreases ds
  {
    if ds == [] then [] else [Canon(ds[0])] + CanonAll(ds[1..])
  }

  // ------------------------------------------------------------------ parser states

  function PlaceOf(s: PState): Place {
    Place(|s.modules|, s.limit.Some?, s.any.Some?, s.all.Some?, s.innermost,
          s.filesMatch.Some? || s.files.Some?, |s.ifs|)
  }

  /** Between two directives of a canonical text. */
  predicate Ready(s: PState) {
    && s.skip == 0 && s.pending == []
    && !(s.filesMatch.Some? && s.files.Some?)
    && s.innermost == (if s.any.Some? && s.all.Some? then s.innermost
                       else if s.any.Some? then 1 else if s.all.Some? then 2 else 0)
    && s.innermost <= 2 && (s.any.Some? && s.all.Some? ==> s.innermost != 0)
  }

  /** The list the next directive goes to. */
  function Grown(s: PState, ds: seq<Directive>): PState { Extend(s, LeafSlot(s), ds) }

  function Here(s: PState): seq<Directive> { Kids(s, LeafSlot(s)) }

  predicate EndsOpen(ds: seq<Directive>) { ds != [] && OpenEnded(ds[|ds| - 1]) }

  lemma GrownStays(s: PState, ds: seq<Directive>)
    ensures var t := Grown(s, ds);
            LeafSlot(t) == LeafSlot(s) && PlaceOf(t) == PlaceOf(s) && Here(t) == Here(s) + ds
    ensures Ready(s) ==> Ready(Grown(s, ds))
  {
  }

  lemma GrownNone(s: PState)
    ensures Grown(s, []) == s
  {
    assert Here(s) + [] == Here(s);
  }

  lemma GrownTwice(s: PState, a: seq<Directive>, b: seq<Directive>)
    ensures Grown(Grown(s, a), b) == Grown(s, a + b)
  {
    GrownStays(s, a);
    assert Here(s) + a + b == Here(s) + (a + b);
  }

  // ------------------------------------------------------------------------- lines

  lemma FeedLine(syn: Syntax, s: PState, line: string, rest: string)
    requires '\n' !in line
    ensures Feed(syn, s, line + "\n" + rest) == Feed(syn, Step(syn, s, Trim(line)), rest)
  {
    hide Step, Trim;
    var text := line + "\n" + rest;
    var n := |line|;
    assert text[n..n + 1] == "\n" && text[..n] == line && text[n + 1..] == rest;
    forall j: nat | j < n
      ensures !OccursAt(text, "\n", j)
    {
      assert text[j..j + 1][0] == line[j];
    }
    FindIs(text, "\n", 0, n);
  }

  lemma TrimNone(line: string)
    requires line != "" && !IsSpace(line[0]) && !IsSpace(line[|line| - 1])
    ensures Trim(line) == line
  {
    assert Expr.TrimEnd(line) == line;
  }

  // -------------------------------------------------------------------- leaf lines

  lemma LeafStep(syn: Syntax, s: PState, leaf: Leaf)
    requires LeafOK(syn, leaf) && s.skip == 0
    ensures Step(syn, s, Trim(syn.write(leaf))) == AddLeaf(s, leaf)
  {
    hide Tags, AddLeaf, Trim;
    var line := syn.write(leaf);
    TrimNone(line);
    NoTags(s, line);
  }

  /** The conditions of a rule wait in order. */
  lemma {:induction false} FeedConditions(syn: Syntax, s: PState, cs: seq<Leaf>, rest: string)
    requires s.skip == 0 && forall i :: 0 <= i < |cs| ==> cs[i].kind.RewriteCond? && LeafOK(syn, cs[i])
    ensures Feed(syn, s, PrintLines(syn, cs) + rest) == Feed(syn, s.(pending := s.pending + cs), rest)
    decreases |cs|
  {
    hide Step, Trim, Feed, LeafOK;
    if cs == [] {
      assert s.pending + cs == s.pending && PrintLines(syn, cs) + rest == rest;
    } else {
      var line := syn.write(cs[0]);
      var more := PrintLines(syn, cs[1..]) + rest;
      assert PrintLines(syn, cs) + rest == line + "\n" + more;
      LeafLine(syn, cs[0]);
      FeedLine(syn, s, line, more);
      LeafStep(syn, s, cs[0]);
      var t := s.(pending := s.pending + [cs[0]]);
      FeedConditions(syn, t, cs[1..], rest);
      assert s.pending + [cs[0]] + cs[1..] == s.pending + cs;
    }
  }

  lemma LeafLine(syn: Syntax, leaf: Leaf)
    requires LeafOK(syn, leaf)
    ensures '\n' !in syn.write(leaf)
  {
  }

  lemma PlainAdds(syn: Syntax, s: PState, leaf: Leaf, conditions: seq<Leaf>)
    requires Ready(s) && PlainOK(syn, leaf, conditions, PlaceOf(s))
    ensures var rule := leaf.kind.RewriteRule?;
            AddLeaf(if rule then s.(pending := conditions) else s, leaf) == Grown(s, [Plain(leaf, conditions)])
  {
    hide LeafOK;
    var t := if leaf.kind.RewriteRule? then s.(pending := conditions) else s;
    assert leaf.kind.RewriteRule? ==> t.(pending := []) == s;
    assert LeafSlot(s).SAny? || LeafSlot(s).SAll? ==> InRequire(PlaceOf(s));
  }

  lemma FeedPlain(syn: Syntax, s: PState, d: Directive, rest: string)
    requires d.Plain? && Ready(s) && TreeOK(syn, d, PlaceOf(s))
    ensures Feed(syn, s, Print(syn, d) + "\n" + rest) == Feed(syn, Grown(s, [Canon(d)]), rest)
  {
    hide Step, Trim, Feed, LeafOK, Extend, PrintLines, AddLeaf;
    var line := syn.write(d.leaf);
    PlainAdds(syn, s, d.leaf, d.conditions);
    LeafLine(syn, d.leaf);
    if d.leaf.kind.RewriteRule? {
      var t := s.(pending := d.conditions);
      assert Print(syn, d) + "\n" + rest == PrintLines(syn, d.conditions) + (line + "\n" + rest);
      FeedConditions(syn, s, d.conditions, line + "\n" + rest);
      assert s.pending + d.conditions == d.conditions;
      FeedLine(syn, t, line, rest);
      LeafStep(syn, t, d.leaf);
    } else {
      assert Print(syn, d) + "\n" + rest == line + "\n" + rest;
      FeedLine(syn, s, line, rest);
      LeafStep(syn, s, d.leaf);
    }
  }

  // -------------------------------------------------------------------- containers

  /** The state inside a container that has read `kids`. */
  function Inside(s: PState, d: Directive, kids: seq<Directive>): PState
    requires !d.Plain?
  {
    match d
    case IfModule(name, negated, _) =>
      s.(modules := s.modules + [ModuleFrame(name, negated, kids, 0, false, false, false, false, false)])
    case Limit(except, methods, _) => s.(limit := Some(LimitBlock(except, methods, kids)))
    case RequireBlock(any, _) =>
      if any then s.(any := Some(kids), innermost := 1) else s.(all := Some(kids), innermost := 2)
    case FilesMatch(pattern, _) => s.(filesMatch := Some(Named(pattern, kids)))
    case Files(name, _) => s.(files := Some(Named(name, kids)))
    case Cond(branch, c, _) =>
      s.(ifs := s.ifs + [IfFrame(branch, if c.Some? then Expr.Print(c.value, false) else "", kids)])
  }

  lemma InsideIs(s: PState, d: Directive, kids: seq<Directive>)
    requires !d.Plain? && Ready(s) && MayOpen(PlaceOf(s), d)
    ensures var t := Inside(s, d, []);
            Ready(t) && PlaceOf(t) == Within(PlaceOf(s), d) && Here(t) == [] && Grown(t, kids) == Inside(s, d, kids)
  {
    assert [] + kids == kids;
  }

  lemma TagLine(tag: string, middle: string)
    requires |tag| >= 2 && OneLine(tag) && OneLine(middle) && IsAlpha(tag[0])
    ensures var line := "<" + tag + middle + ">";
            OneLine(line) && TagShape(line) && Initial(line) == Lower(tag[0]) && line[1] != '/' && Trim(line) == line
    ensures var line := "</" + tag + ">";
            OneLine(line) && TagShape(line) && Initial(line) == Lower(tag[0]) && line[1] == '/' && Trim(line) == line
  {
    hide Trim;
    var line := "<" + tag + middle + ">";
    assert line[1] == tag[0];
    TrimNone(line);
    var closing := "</" + tag + ">";
    assert closing[2] == tag[0];
    TrimNone(closing);
  }

  lemma MiddleOneLine(d: Directive)
    requires !d.Plain? && HeaderOK(d)
    ensures OneLine(Middle(d)) && OneLine(Keyword(d)) && |Keyword(d)| >= 2 && IsAlpha(Keyword(d)[0])
  {
    hide Expr.Print, ExprRoundTrip.PrintOK, ExprRoundTrip.Fits, Middle;
    MiddleIs(d);
  }

  lemma MiddleIs(d: Directive)
    requires !d.Plain? && HeaderOK(d)
    ensures OneLine(Middle(d))
  {
    hide Expr.Print, ExprRoundTrip.PrintOK, ExprRoundTrip.Fits, Keyword;
  }

  /** The tags of a canonical container fit the shape the recognisers look at. */
  lemma LineShape(d: Directive)
    requires !d.Plain? && HeaderOK(d)
    ensures OneLine(OpenLine(d)) && TagShape(OpenLine(d)) && OpenLine(d)[1] != '/' && Trim(OpenLine(d)) == OpenLine(d)
    ensures OneLine(CloseLine(d)) && TagShape(CloseLine(d)) && CloseLine(d)[1] == '/'
        && Trim(CloseLine(d)) == CloseLine(d)
    ensures Initial(OpenLine(d)) == Initial(CloseLine(d)) == Lower(Keyword(d)[0])
  {
    hide Trim, HeaderOK, Middle, Keyword, TagShape, OneLine;
    MiddleOneLine(d);
    TagLine(Keyword(d), Middle(d));
  }

  /** A tag line does what its group makes of it. */
  lemma TagStep(syn: Syntax, s: PState, line: string)
    requires s.skip == 0 && TagShape(line) && Tags(s, line).Some?
    ensures Step(syn, s, line) == Tags(s, line).value
  {
    hide Tags;
  }

  // ------------------------------------------------------- what the open lines say

  lemma ReadsModule(d: Directive)
    requires d.IfModule? && HeaderOK(d)
    ensures OpensIfModule(OpenLine(d)) == Some((d.name, d.negated))
  {
    hide OpensIfModule, NameText, ModuleOK;
    ModuleLine(d.name, d.negated);
    assert OpenLine(d) == "<IfModule " + NameText(d.name) + ">";
  }

  lemma ReadsMatch(d: Directive)
    requires d.FilesMatch? && HeaderOK(d)
    ensures OpensNamed(OpenLine(d), "filesmatch") == Some(d.pattern)
  {
    hide OpensNamed;
    MatchLine(d.pattern);
    assert OpenLine(d) == "<FilesMatch \"" + d.pattern + "\">";
  }

  lemma ReadsFiles(d: Directive)
    requires d.Files? && HeaderOK(d)
    ensures OpensNamed(OpenLine(d), "filesmatch") == None && OpensNamed(OpenLine(d), "files") == Some(d.name)
  {
    hide OpensNamed, NameText, NameOK, TagShape, Trim, OneLine;
    LineShape(d);
    FilesLine(d.name);
    var line := OpenLine(d);
    assert line == "<Files " + NameText(d.name) + ">";
    assert line[6] == ' ';
    DiffersAt(line, "filesmatch", 5);
  }

  lemma ReadsCondition(d: Directive)
    requires d.Cond? && !d.branch.OnElse? && HeaderOK(d)
    ensures OpensIfModule(OpenLine(d)) == None
    ensures OpensCondition(OpenLine(d), if d.branch.OnIf? then "if" else "elseif")
         == Some(Expr.Print(d.condition.value, false))
    ensures d.branch.OnElseIf? ==> OpensCondition(OpenLine(d), "if") == None
  {
    hide OpensCondition, OpensIfModule, Expr.Print, TagShape, ConditionOK, Trim, OneLine;
    LineShape(d);
    var line := OpenLine(d);
    var text := Expr.Print(d.condition.value, false);
    assert line == "<" + IfTag(d.branch) + " \"" + text + "\">";
    CondLine(IfTag(d.branch), if d.branch.OnIf? then "if" else "elseif", text);
    if d.branch.OnIf? {
      assert line[3] == ' ';
      DiffersAt(line, "ifmodule", 2);
    } else {
      Differs(line, "if");
      Differs(line, "ifmodule");
    }
  }

  lemma ReadsElse(d: Directive)
    requires d.Cond? && d.branch.OnElse? && HeaderOK(d)
    ensures OpensIfModule(OpenLine(d)).None? && OpensCondition(OpenLine(d), "if").None?
    ensures OpensCondition(OpenLine(d), "elseif") == None && OpensBare(OpenLine(d), "else")
  {
    hide OpensCondition, OpensIfModule, OpensBare, TagShape, HeaderOK, Trim, OneLine;
    LineShape(d);
    var line := OpenLine(d);
    BareLine("Else", "else");
    assert line == "<" + "Else" + ">";
    DiffersAt(line, "elseif", 4);
    Differs(line, "if");
    Differs(line, "ifmodule");
  }

  lemma ReadsRequire(d: Directive)
    requires d.RequireBlock?
    ensures OpensRequire(OpenLine(d), if d.any then "requireany" else "requireall")
    ensures !d.any ==> !OpensRequire(OpenLine(d), "requireany")
  {
    hide OpensRequire, TagShape, Trim;
    LineShape(d);
    BareLine(RequireTag(d.any), if d.any then "requireany" else "requireall");
    var line := OpenLine(d);
    assert line == "<" + RequireTag(d.any) + ">";
    if !d.any { DiffersAt(line, "requireany", 8); }
  }

  lemma ReadsLimit(d: Directive)
    requires d.Limit? && HeaderOK(d)
    ensures OpensLimit(OpenLine(d), if d.except then "limitexcept" else "limit") == Some(d.methods)
    ensures !d.except ==> OpensLimit(OpenLine(d), "limitexcept") == None
  {
    hide OpensLimit, TagShape, MethodsOK, Trim;
    LineShape(d);
    LimitLine(LimitTag(d.except), if d.except then "limitexcept" else "limit", d.methods);
    var line := OpenLine(d);
    assert line == "<" + LimitTag(d.except) + " " + d.methods + ">";
    if !d.except { DiffersAt(line, "limitexcept", 5); }
  }

  /** The closing tag that fits a container, and those that could be taken for it. */
  function CloseKw(d: Directive): string
    requires !d.Plain?
  {
    match d
    case IfModule(_, _, _) => "ifmodule"
    case Limit(except, _, _) => if except then "limitexcept" else "limit"
    case RequireBlock(any, _) => if any then "requireany" else "requireall"
    case FilesMatch(_, _) => "filesmatch"
    case Files(_, _) => "files"
    case Cond(branch, _, _) => if branch.OnIf? then "if" else if branch.OnElseIf? then "elseif" else "else"
  }

  lemma KeywordFits(d: Directive)
    requires !d.Plain?
    ensures |Keyword(d)| == |CloseKw(d)| >= 2 && StartsNoCase(Keyword(d), CloseKw(d)) && !IsSpace(Keyword(d)[0])
  {
    hide StartsNoCase, Keyword, CloseKw;
    if d.IfModule? || d.Limit? || d.RequireBlock? { AccessKeyword(d); } else { BranchKeyword(d); }
  }

  lemma AccessKeyword(d: Directive)
    requires d.IfModule? || d.Limit? || d.RequireBlock?
    ensures |Keyword(d)| == |CloseKw(d)| >= 2 && StartsNoCase(Keyword(d), CloseKw(d)) && !IsSpace(Keyword(d)[0])
  {
  }

  lemma BranchKeyword(d: Directive)
    requires d.FilesMatch? || d.Files? || d.Cond?
    ensures |Keyword(d)| == |CloseKw(d)| >= 2 && StartsNoCase(Keyword(d), CloseKw(d)) && !IsSpace(Keyword(d)[0])
  {
  }

  lemma ReadsClose(d: Directive)
    requires !d.Plain? && HeaderOK(d)
    ensures Closes(CloseLine(d), CloseKw(d))
  {
    hide Closes, StartsNoCase, Keyword, CloseKw, HeaderOK;
    KeywordFits(d);
    BareLine(Keyword(d), CloseKw(d));
  }

  // ------------------------------------------------------------------- opening steps

  lemma OpenModuleStep(s: PState, d: Directive)
    requires d.IfModule? && Ready(s) && MayOpen(PlaceOf(s), d) && HeaderOK(d)
    ensures Tags(s, OpenLine(d)) == Some(Inside(s, d, []))
  {
    hide OpensIfModule, OpenLine, IfTags, FilesTags, RequireTags, LimitTags, TagShape, Trim, Initial, HeaderOK, Closes;
    LineShape(d);
    ReadsModule(d);
    NotClosing(OpenLine(d), "ifmodule");
  }

  lemma Sibling(s: PState)
    requires Ready(s) && !AllInAny(PlaceOf(s))
    ensures IfSlot(s) == LeafSlot(s)
  {
  }

  lemma OpenIfStep(s: PState, d: Directive)
    requires d.Cond? && Ready(s) && MayOpen(PlaceOf(s), d) && HeaderOK(d)
    requires !d.branch.OnIf? ==> EndsOpen(Here(s))
    ensures Tags(s, OpenLine(d)) == Some(Inside(s, d, []))
  {
    hide OpensCondition, OpensIfModule, OpenLine, FilesTags, RequireTags, LimitTags, TagShape, Trim, Initial,
      OpensBare, Closes, Expr.Print, ConditionOK;
    LineShape(d);
    if d.branch.OnElse? { ReadsElse(d); } else { ReadsCondition(d); }
    Sibling(s);
    var line := OpenLine(d);
    NotClosing(line, "ifmodule");
    NotClosing(line, "if");
    NotClosing(line, "elseif");
    NotClosing(line, "else");
  }

  lemma OpenFilesStep(s: PState, d: Directive)
    requires (d.Files? || d.FilesMatch?) && Ready(s) && MayOpen(PlaceOf(s), d) && HeaderOK(d)
    ensures Tags(s, OpenLine(d)) == Some(Inside(s, d, []))
  {
    hide OpensNamed, OpenLine, ModuleTags, IfTags, RequireTags, LimitTags, TagShape, Trim, HeaderOK, Closes;
    LineShape(d);
    if d.Files? { ReadsFiles(d); } else { ReadsMatch(d); }
    NoModuleTags(s, OpenLine(d));
    NoIfTags(s, OpenLine(d));
  }

  lemma OpenRequireStep(s: PState, d: Directive)
    requires d.RequireBlock? && Ready(s) && MayOpen(PlaceOf(s), d)
    ensures Tags(s, OpenLine(d)) == Some(Inside(s, d, []))
  {
    hide OpensRequire, OpenLine, ModuleTags, IfTags, FilesTags, LimitTags, TagShape, Trim, Closes;
    LineShape(d);
    ReadsRequire(d);
    var line := OpenLine(d);
    NoModuleTags(s, line);
    NoIfTags(s, line);
    NoFilesTags(s, line);
    NotClosingAt(line, "requireany", 0);
  }

  lemma OpenLimitStep(s: PState, d: Directive)
    requires d.Limit? && Ready(s) && MayOpen(PlaceOf(s), d) && HeaderOK(d)
    ensures Tags(s, OpenLine(d)) == Some(Inside(s, d, []))
  {
    hide OpensLimit, OpenLine, ModuleTags, IfTags, FilesTags, RequireTags, TagShape, Trim, HeaderOK;
    LineShape(d);
    ReadsLimit(d);
    var line := OpenLine(d);
    NoModuleTags(s, line);
    NoIfTags(s, line);
    NoFilesTags(s, line);
    NoRequireTags(s, line);
  }

  // ------------------------------------------------------------------- closing steps

  lemma CloseModuleStep(s: PState, d: Directive, kids: seq<Directive>)
    requires d.IfModule? && Ready(s) && MayOpen(PlaceOf(s), d) && HeaderOK(d)
    ensures Tags(Inside(s, d, kids), CloseLine(d)) == Some(Grown(s, [Rebuilt(d, kids)]))
  {
    hide Closes, CloseLine, IfTags, FilesTags, RequireTags, LimitTags, OpensIfModule, HeaderOK;
    ReadsClose(d);
    var t := Inside(s, d, kids);
    assert t.modules[..|t.modules| - 1] == s.modules;
    assert s.ifs == [];
    assert Swept(t, t.modules[|t.modules| - 1]).(modules := s.modules) == s;
  }

  lemma NotModule(s: PState, d: Directive)
    requires d.Cond? && HeaderOK(d)
    ensures ModuleTags(s, CloseLine(d)) == None
  {
    hide Closes, OpensIfModule, TagShape, HeaderOK, Trim, OneLine;
    LineShape(d);
    var line := CloseLine(d);
    Differs(line, "ifmodule");
    NotClosingAt(line, "ifmodule", 2);
  }

  lemma NotOtherBranch(d: Directive)
    requires d.Cond? && HeaderOK(d)
    ensures !Mismatched(CloseLine(d), d.branch) && ClosesIf(CloseLine(d))
  {
    hide Closes, TagShape, HeaderOK, Trim, OneLine;
    LineShape(d);
    ReadsClose(d);
    var line := CloseLine(d);
    if !d.branch.OnIf? { NotClosingAt(line, "if", 0); }
    if d.branch.OnElse? { NotClosingAt(line, "elseif", 4); }
  }

  lemma CloseIfStep(s: PState, d: Directive, kids: seq<Directive>)
    requires d.Cond? && Ready(s) && MayOpen(PlaceOf(s), d) && HeaderOK(d)
    ensures Tags(Inside(s, d, kids), CloseLine(d)) == Some(Grown(s, [Rebuilt(d, kids)]))
  {
    hide CloseLine, Mismatched, ClosesIf, ModuleTags, FilesTags, RequireTags, LimitTags, Expr.Parse, Expr.Print, Extend,
      ExprRoundTrip.PrintOK, ExprRoundTrip.Norm, ExprRoundTrip.Fits, ExprRoundTrip.AsCondition;
    var t := Inside(s, d, kids);
    NotModule(t, d);
    NotOtherBranch(d);
    assert t.ifs[..|t.ifs| - 1] == s.ifs && t.(ifs := s.ifs) == s;
    Sibling(s);
    GrownStays(s, [Rebuilt(d, kids)]);
    if !d.branch.OnElse? { ExprRoundTrip.PrintParses(d.condition.value); }
  }

  lemma CloseFilesStep(s: PState, d: Directive, kids: seq<Directive>)
    requires (d.Files? || d.FilesMatch?) && Ready(s) && MayOpen(PlaceOf(s), d) && HeaderOK(d)
    ensures Tags(Inside(s, d, kids), CloseLine(d)) == Some(Grown(s, [Rebuilt(d, kids)]))
  {
    hide Closes, CloseLine, ModuleTags, IfTags, RequireTags, LimitTags, TagShape, HeaderOK, Trim, OpensNamed, Extend;
    LineShape(d);
    ReadsClose(d);
    var t := Inside(s, d, kids);
    NoModuleTags(t, CloseLine(d));
    NoIfTags(t, CloseLine(d));
    GrownStays(s, [Rebuilt(d, kids)]);
    assert if d.Files? then t.(files := None) == s else t.(filesMatch := None) == s;
  }

  lemma CloseRequireStep(s: PState, d: Directive, kids: seq<Directive>)
    requires d.RequireBlock? && Ready(s) && MayOpen(PlaceOf(s), d)
    ensures Tags(Inside(s, d, kids), CloseLine(d)) == Some(Grown(s, [Rebuilt(d, kids)]))
  {
    hide Closes, CloseLine, ModuleTags, IfTags, FilesTags, LimitTags, TagShape, Trim, OpensRequire, Extend;
    LineShape(d);
    ReadsClose(d);
    var line := CloseLine(d);
    var t := Inside(s, d, kids);
    NoModuleTags(t, line);
    NoIfTags(t, line);
    NoFilesTags(t, line);
    Differs(line, "requireany");
    NotAny(d);
    GrownStays(s, [Rebuilt(d, kids)]);
    assert if d.any then t.(any := None, innermost := if t.all.Some? then 2 else 0) == s
           else t.(all := None, innermost := if t.any.Some? then 1 else 0) == s;
  }

  lemma NotAny(d: Directive)
    requires d.RequireBlock?
    ensures !d.any ==> !Closes(CloseLine(d), "requireany")
  {
    hide Closes, TagShape, Trim;
    LineShape(d);
    if !d.any { NotClosingAt(CloseLine(d), "requireany", 8); }
  }

  lemma CloseLimitStep(s: PState, d: Directive, kids: seq<Directive>)
    requires d.Limit? && Ready(s) && MayOpen(PlaceOf(s), d) && HeaderOK(d)
    ensures Tags(Inside(s, d, kids), CloseLine(d)) == Some(Grown(s, [Rebuilt(d, kids)]))
  {
    hide Closes, CloseLine, ModuleTags, IfTags, FilesTags, RequireTags, TagShape, HeaderOK, Trim, OpensLimit, Extend;
    LineShape(d);
    ReadsClose(d);
    var line := CloseLine(d);
    var t := Inside(s, d, kids);
    NoModuleTags(t, line);
    NoIfTags(t, line);
    NoFilesTags(t, line);
    NoRequireTags(t, line);
    GrownStays(s, [Rebuilt(d, kids)]);
    assert t.(limit := None) == s;
  }

  // --------------------------------------------------------------------- whole trees

  lemma OpenStep(syn: Syntax, s: PState, d: Directive)
    requires !d.Plain? && Ready(s) && MayOpen(PlaceOf(s), d) && HeaderOK(d)
    requires d.Cond? && !d.branch.OnIf? ==> EndsOpen(Here(s))
    ensures Step(syn, s, Trim(OpenLine(d))) == Inside(s, d, []) && '\n' !in OpenLine(d)
  {
    hide Step, Tags, OpenLine, CloseLine, Trim, TagShape, Inside, HeaderOK, MayOpen, PlaceOf, Here, Initial, Keyword;
    LineShape(d);
    match d {
      case IfModule(_, _, _) => OpenModuleStep(s, d);
      case Limit(_, _, _) => OpenLimitStep(s, d);
      case RequireBlock(_, _) => OpenRequireStep(s, d);
      case FilesMatch(_, _) => OpenFilesStep(s, d);
      case Files(_, _) => OpenFilesStep(s, d);
      case Cond(_, _, _) => OpenIfStep(s, d);
    }
    TagStep(syn, s, OpenLine(d));
  }

  lemma CloseTags(s: PState, d: Directive, kids: seq<Directive>)
    requires !d.Plain? && Ready(s) && MayOpen(PlaceOf(s), d) && HeaderOK(d)
    ensures Tags(Inside(s, d, kids), CloseLine(d)) == Some(Grown(s, [Rebuilt(d, kids)]))
  {
    hide Tags, CloseLine, TagShape, HeaderOK, MayOpen, PlaceOf, Initial, Grown, Rebuilt, Keyword;
    match d {
      case IfModule(_, _, _) => CloseModuleStep(s, d, kids);
      case Limit(_, _, _) => CloseLimitStep(s, d, kids);
      case RequireBlock(_, _) => CloseRequireStep(s, d, kids);
      case FilesMatch(_, _) => CloseFilesStep(s, d, kids);
      case Files(_, _) => CloseFilesStep(s, d, kids);
      case Cond(_, _, _) => CloseIfStep(s, d, kids);
    }
  }

  lemma CloseStep(syn: Syntax, s: PState, d: Directive, kids: seq<Directive>)
    requires !d.Plain? && Ready(s) && MayOpen(PlaceOf(s), d) && HeaderOK(d)
    ensures Step(syn, Inside(s, d, kids), Trim(CloseLine(d))) == Grown(s, [Rebuilt(d, kids)]) && '\n' !in CloseLine(d)
  {
    hide Step, Tags, OpenLine, CloseLine, Trim, TagShape, HeaderOK, MayOpen, PlaceOf, Initial, Grown, Rebuilt, Keyword;
    LineShape(d);
    CloseTags(s, d, kids);
    TagStep(syn, Inside(s, d, kids), CloseLine(d));
  }

  // -------------------------------------------------------------------- skipped blocks

  lemma SkipsLeaf(syn: Syntax, s: PState, leaf: Leaf)
    requires s.skip > 0 && LeafOK(syn, leaf)
    ensures Step(syn, s, Trim(syn.write(leaf))) == s
  {
    hide MatchKw, EndsTag, LastAt, Expr.TrimEnd, Expr.SkipSpace;
    var line := syn.write(leaf);
    TrimNone(line);
    ExprLex.SkipNone(line);
    assert Tag(line).None?;
  }

  /** "<IfModule" is not taken for "<If", nor are their closing tags. */
  lemma ModuleIsNoIf(x: string)
    ensures !OpensCondition("<IfModule" + x, "if").Some? && !Closes("</IfModule>", "if")
  {
    var line := "<IfModule" + x;
    ExprLex.SkipNone(line);
    assert line[1..][2] == 'M';
    var closing := "</IfModule>";
    ExprLex.SkipNone(closing);
    assert closing[1..][1..][2..] == "Module>";
    ExprLex.SkipNone("Module>");
  }

  lemma SkipsModule(d: Directive)
    requires d.IfModule? && HeaderOK(d)
    ensures OpensCondition(OpenLine(d), "if").None? && !ClosesIf(CloseLine(d))
  {
    hide OpensCondition, Closes, HeaderOK, NameText, TagShape, Trim, OneLine;
    LineShape(d);
    ModuleIsNoIf(" " + NameText(d.name) + ">");
    assert OpenLine(d) == "<IfModule" + (" " + NameText(d.name) + ">") && CloseLine(d) == "</IfModule>";
    NotClosing(CloseLine(d), "elseif");
    NotClosing(CloseLine(d), "else");
  }

  predicate OpensBranch(line: string) {
    OpensCondition(line, "if").Some? || OpensCondition(line, "elseif").Some? || OpensBare(line, "else")
  }

  /** Which tags open and which close a branch. */
  lemma BranchTags(d: Directive)
    requires !d.Plain? && HeaderOK(d)
    ensures OpensBranch(OpenLine(d)) == d.Cond? == ClosesIf(CloseLine(d))
    ensures !OpensBranch(CloseLine(d)) && !ClosesIf(OpenLine(d))
  {
    hide OpensCondition, OpensBare, Closes, HeaderOK, TagShape, Trim, OneLine, OpenLine, CloseLine;
    LineShape(d);
    var open, close := OpenLine(d), CloseLine(d);
    NotClosing(open, "if");
    NotClosing(open, "elseif");
    NotClosing(open, "else");
    Differs(close, "if");
    Differs(close, "elseif");
    Differs(close, "else");
    if d.Cond? {
      if d.branch.OnElse? { ReadsElse(d); } else { ReadsCondition(d); }
      NotOtherBranch(d);
    } else {
      Differs(open, "elseif");
      Differs(open, "else");
      if d.IfModule? {
        SkipsModule(d);
      } else {
        Differs(open, "if");
        NotClosing(close, "if");
        NotClosing(close, "elseif");
        NotClosing(close, "else");
      }
    }
  }

  lemma SkipsTags(syn: Syntax, s: PState, d: Directive)
    requires s.skip > 0 && !d.Plain? && HeaderOK(d)
    ensures Step(syn, s, Trim(OpenLine(d))) == if d.Cond? then s.(skip := s.skip + 1) else s
    ensures Step(syn, s, Trim(CloseLine(d))) == if d.Cond? then s.(skip := s.skip - 1) else s
    ensures '\n' !in OpenLine(d) && '\n' !in CloseLine(d)
  {
    hide OpensCondition, OpensBare, ClosesIf, HeaderOK, OpenLine, CloseLine, Trim;
    LineShape(d);
    BranchTags(d);
  }

  lemma {:induction false} SkipConditions(syn: Syntax, s: PState, cs: seq<Leaf>, rest: string)
    requires s.skip > 0 && forall i :: 0 <= i < |cs| ==> LeafOK(syn, cs[i])
    ensures Feed(syn, s, PrintLines(syn, cs) + rest) == Feed(syn, s, rest)
    decreases |cs|
  {
    hide Step, Trim, Feed, LeafOK;
    if cs == [] {
      assert PrintLines(syn, cs) + rest == rest;
    } else {
      var more := PrintLines(syn, cs[1..]) + rest;
      assert PrintLines(syn, cs) + rest == syn.write(cs[0]) + "\n" + more;
      LeafLine(syn, cs[0]);
      FeedLine(syn, s, syn.write(cs[0]), more);
      SkipsLeaf(syn, s, cs[0]);
      SkipConditions(syn, s, cs[1..], rest);
    }
  }

  lemma {:induction false} SkipOne(syn: Syntax, s: PState, d: Directive, p: Place, rest: string)
    requires s.skip > 0 && TreeOK(syn, d, p)
    ensures Feed(syn, s, Print(syn, d) + "\n" + rest) == Feed(syn, s, rest)
    decreases d
  {
    hide Step, Feed, OpenLine, CloseLine, Trim, HeaderOK, MayOpen, Within, LeafOK, PrintLines;
    if d.Plain? {
      var line := syn.write(d.leaf);
      LeafLine(syn, d.leaf);
      FeedLine(syn, s, line, rest);
      SkipsLeaf(syn, s, d.leaf);
      if d.leaf.kind.RewriteRule? {
        assert Print(syn, d) + "\n" + rest == PrintLines(syn, d.conditions) + (line + "\n" + rest);
        SkipConditions(syn, s, d.conditions, line + "\n" + rest);
      } else {
        assert Print(syn, d) + "\n" + rest == line + "\n" + rest;
      }
    } else {
      var body := PrintAll(syn, d.children);
      var tail := CloseLine(d) + "\n" + rest;
      assert Print(syn, d) + "\n" + rest == OpenLine(d) + "\n" + (body + tail);
      SkipsTags(syn, s, d);
      FeedLine(syn, s, OpenLine(d), body + tail);
      var t := if d.Cond? then s.(skip := s.skip + 1) else s;
      SkipAll(syn, t, d.children, Within(p, d), tail);
      SkipsTags(syn, t, d);
      FeedLine(syn, t, CloseLine(d), rest);
    }
  }

  /** While a block is skipped, whatever is properly closed in it leaves no trace. */
  lemma {:induction false} SkipAll(syn: Syntax, s: PState, ds: seq<Directive>, p: Place, rest: string)
    requires s.skip > 0 && TreesOK(syn, ds, p)
    ensures Feed(syn, s, PrintAll(syn, ds) + rest) == Feed(syn, s, rest)
    decreases ds
  {
    hide Step, Feed, Print, TreeOK;
    if ds == [] {
      assert PrintAll(syn, ds) + rest == rest;
    } else {
      var more := PrintAll(syn, ds[1..]) + rest;
      assert PrintAll(syn, ds) + rest == Print(syn, ds[0]) + "\n" + more;
      SkipOne(syn, s, ds[0], p, more);
      SkipAll(syn, s, ds[1..], p, rest);
    }
  }

  // -------------------------------------------------------------------------- orphans

  lemma OrphanStep(s: PState, d: Directive)
    requires Ready(s) && Orphan(d, EndsOpen(Here(s))) && MayOpen(PlaceOf(s), d) && HeaderOK(d)
    ensures Tags(s, OpenLine(d)) == Some(s.(skip := 1))
  {
    hide OpensCondition, OpensIfModule, OpenLine, FilesTags, RequireTags, LimitTags, TagShape, Trim, Initial,
      OpensBare, Closes, Expr.Print, ConditionOK;
    LineShape(d);
    if d.branch.OnElse? { ReadsElse(d); } else { ReadsCondition(d); }
    Sibling(s);
    var line := OpenLine(d);
    NotClosing(line, "ifmodule");
    NotClosing(line, "if");
    NotClosing(line, "elseif");
    NotClosing(line, "else");
  }

  /** An orphan leaves no trace, whatever it holds. */
  lemma FeedOrphan(syn: Syntax, s: PState, d: Directive, rest: string)
    requires Ready(s) && Orphan(d, EndsOpen(Here(s))) && TreeOK(syn, d, PlaceOf(s))
    ensures Feed(syn, s, Print(syn, d) + "\n" + rest) == Feed(syn, s, rest)
  {
    hide Step, Feed, OpenLine, CloseLine, Trim, HeaderOK, MayOpen, PlaceOf, Here, Ready, Within, Tags, TagShape;
    var body := PrintAll(syn, d.children);
    var tail := CloseLine(d) + "\n" + rest;
    assert Print(syn, d) + "\n" + rest == OpenLine(d) + "\n" + (body + tail);
    LineShape(d);
    OrphanStep(s, d);
    assert s.skip == 0 by { ReadySkip(s); }
    TagStep(syn, s, OpenLine(d));
    FeedLine(syn, s, OpenLine(d), body + tail);
    var t := s.(skip := 1);
    SkipAll(syn, t, d.children, Within(PlaceOf(s), d), tail);
    SkipsTags(syn, t, d);
    FeedLine(syn, t, CloseLine(d), rest);
    assert t.(skip := 0) == s;
  }

  lemma ReadySkip(s: PState)
    requires Ready(s)
    ensures s.skip == 0
  {
  }

  lemma {:induction false} FeedOne(syn: Syntax, s: PState, d: Directive, rest: string)
    requires Ready(s) && TreeOK(syn, d, PlaceOf(s)) && !Orphan(d, EndsOpen(Here(s)))
    ensures Feed(syn, s, Print(syn, d) + "\n" + rest) == Feed(syn, Grown(s, [Canon(AdoptedIn(d))]), rest)
    decreases d
  {
    hide Step, Feed, OpenLine, CloseLine, Trim, HeaderOK, MayOpen, PlaceOf, Here, Grown, Rebuilt, Inside, Within, Ready,
      EndsOpen;
    if d.Plain? {
      FeedPlain(syn, s, d, rest);
    } else {
      var body := PrintAll(syn, d.children);
      var tail := CloseLine(d) + "\n" + rest;
      assert Print(syn, d) + "\n" + rest == OpenLine(d) + "\n" + (body + tail);
      OpenStep(syn, s, d);
      FeedLine(syn, s, OpenLine(d), body + tail);
      var t := Inside(s, d, []);
      var kids := CanonAll(Adopted(false, d.children));
      InsideIs(s, d, kids);
      NothingOpen();
      FeedAll(syn, t, d.children, tail);
      CloseStep(syn, s, d, kids);
      FeedLine(syn, Inside(s, d, kids), CloseLine(d), rest);
      CanonAdopted(d);
    }
  }

  lemma NothingOpen()
    ensures !EndsOpen([])
  {
  }

  lemma CanonAdopted(d: Directive)
    requires !d.Plain?
    ensures Canon(AdoptedIn(d)) == Rebuilt(d, CanonAll(Adopted(false, d.children)))
  {
  }

  lemma {:induction false} FeedAll(syn: Syntax, s: PState, ds: seq<Directive>, rest: string)
    requires Ready(s) && TreesOK(syn, ds, PlaceOf(s))
    ensures Feed(syn, s, PrintAll(syn, ds) + rest)
         == Feed(syn, Grown(s, CanonAll(Adopted(EndsOpen(Here(s)), ds))), rest)
    decreases ds
  {
    hide Step, Feed, Print, TreeOK, PlaceOf, Here, Grown, Ready, Rebuilt, EndsOpen, Canon, AdoptedIn;
    if ds == [] {
      GrownNone(s);
      assert PrintAll(syn, ds) + rest == rest;
    } else {
      var d := ds[0];
      var more := PrintAll(syn, ds[1..]) + rest;
      assert PrintAll(syn, ds) + rest == Print(syn, d) + "\n" + more;
      if Orphan(d, EndsOpen(Here(s))) {
        FeedOrphan(syn, s, d, more);
        FeedAll(syn, s, ds[1..], rest);
      } else {
        FeedOne(syn, s, d, more);
        var one := Canon(AdoptedIn(d));
        GrownStays(s, [one]);
        CanonStays(AdoptedIn(d));
        var t := Grown(s, [one]);
        EndsWith(Here(s), one);
        FeedAll(syn, t, ds[1..], rest);
        var kept := Adopted(OpenEnded(d), ds[1..]);
        GrownTwice(s, [one], CanonAll(kept));
        CanonFirst(AdoptedIn(d), kept);
      }
    }
  }

  lemma EndsWith(ds: seq<Directive>, d: Directive)
    ensures EndsOpen(ds + [d]) == OpenEnded(d)
  {
  }

  lemma CanonFirst(d: Directive, ds: seq<Directive>)
    ensures CanonAll([d] + ds) == [Canon(d)] + CanonAll(ds)
  {
    assert ([d] + ds)[1..] == ds;
  }

  lemma CanonStays(d: Directive)
    ensures OpenEnded(Canon(d)) == OpenEnded(d)
  {
  }

  // ---------------------------------------------------------------------- no NUL bytes

  lemma {:induction false} ConditionsNoNul(syn: Syntax, cs: seq<Leaf>)
    requires forall i :: 0 <= i < |cs| ==> LeafOK(syn, cs[i])
    ensures '\0' !in PrintLines(syn, cs)
    decreases |cs|
  {
    if cs != [] { ConditionsNoNul(syn, cs[1..]); }
  }

  lemma {:induction false} NoNul(syn: Syntax, ds: seq<Directive>, p: Place)
    requires TreesOK(syn, ds, p)
    ensures '\0' !in PrintAll(syn, ds)
    decreases ds
  {
    hide OpenLine, CloseLine, MayOpen, HeaderOK, Within, LeafOK, TagShape;
    if ds != [] {
      var d := ds[0];
      NoNul(syn, ds[1..], p);
      if d.Plain? {
        ConditionsNoNul(syn, d.conditions);
        LeafNoNul(syn, d.leaf);
      } else {
        NoNul(syn, d.children, Within(p, d));
        LineShape(d);
      }
      assert '\0' !in Print(syn, d);
    }
  }

  lemma LeafNoNul(syn: Syntax, leaf: Leaf)
    requires LeafOK(syn, leaf)
    ensures '\0' !in syn.write(leaf)
  {
  }

  /**
   * Whole files: every canonically nested tree, of any size, comes back from its
   * printed text without its orphans, conditions re-associated.
   */
  lemma ParseAdopted(syn: Syntax, ds: seq<Directive>)
    requires TreesOK(syn, ds, TopPlace)
    ensures Parse(syn, PrintAll(syn, ds)) == CanonAll(Adopted(false, ds))
  {
    hide Print, PrintAll, TreesOK, TreeOK, Step;
    NoNul(syn, ds, TopPlace);
    FeedAll(syn, Start, ds, "");
    assert PrintAll(syn, ds) + "" == PrintAll(syn, ds);
    var kept := CanonAll(Adopted(false, ds));
    assert [] + kept == kept;
  }

  // ----------------------------------------------------------------- the round trip

  /** How many directives there are at all depths. */
  function Size(ds: seq<Directive>): nat
    decreases ds
  {
    if ds == [] then 0 else SizeIn(ds[0]) + Size(ds[1..])
  }

  function SizeIn(d: Directive): nat
    decreases d
  {
    if d.Plain? then 1 else 1 + Size(d.children)
  }

  lemma {:induction false} CanonSize(ds: seq<Directive>)
    ensures Size(CanonAll(ds)) == Size(ds)
    decreases ds
  {
    if ds != [] {
      var d := ds[0];
      if !d.Plain? {
        CanonSize(d.children);
        assert SizeIn(Canon(d)) == SizeIn(d);
      }
      CanonSize(ds[1..]);
      assert CanonAll(ds)[1..] == CanonAll(ds[1..]);
    }
  }

  /** What is taken out are orphans, and nothing is when there are none. */
  lemma {:induction false} AdoptedSize(open: bool, ds: seq<Directive>)
    ensures if Chained(open, ds) then Adopted(open, ds) == ds else Size(Adopted(open, ds)) < Size(ds)
    decreases ds
  {
    hide AdoptedIn, ChainedIn, SizeIn, OpenEnded;
    if ds != [] {
      AdoptedInSize(ds[0]);
      if Orphan(ds[0], open) {
        AdoptedSize(open, ds[1..]);
      } else {
        AdoptedSize(OpenEnded(ds[0]), ds[1..]);
        AdoptedFirst(open, ds);
      }
    }
  }

  lemma AdoptedFirst(open: bool, ds: seq<Directive>)
    requires ds != [] && !Orphan(ds[0], open)
    ensures var kept := Adopted(open, ds);
            kept != [] && kept[0] == AdoptedIn(ds[0]) && kept[1..] == Adopted(OpenEnded(ds[0]), ds[1..])
  {
    hide AdoptedIn, OpenEnded;
  }

  lemma {:induction false} AdoptedInSize(d: Directive)
    ensures SizeIn(d) > 0 && if ChainedIn(d) then AdoptedIn(d) == d else SizeIn(AdoptedIn(d)) < SizeIn(d)
    decreases d, 0
  {
    if !d.Plain? { AdoptedSize(false, d.children); }
  }

  /** The round trip holds exactly for the trees that hold no orphan. */
  lemma ParsePrint(syn: Syntax, ds: seq<Directive>)
    requires TreesOK(syn, ds, TopPlace)
    ensures Parse(syn, PrintAll(syn, ds)) == CanonAll(ds) <==> Chained(false, ds)
  {
    hide Parse, PrintAll, Chained, Adopted, CanonAll;
    ParseAdopted(syn, ds);
    AdoptedSize(false, ds);
    CanonSize(ds);
    CanonSize(Adopted(false, ds));
  }
}
