/**
 * Files that are not nested as they should be, and what of them is kept: containers
 * left open in an IfModule or at the end, branches closed by the wrong tag, blocks
 * beyond the nesting limits, conditions without a rule, and directives that do not
 * belong in a Require block.
 */
module BlockRecovery {
  import opened Text
  import Expr
  import ExprLex
  import opened Blocks
  import opened BlockTags
  import opened BlockRoundTrip

  /** What a list of trees is read as. */
  function ReadAs(ds: seq<Directive>): seq<Directive> { CanonAll(Adopted(false, ds)) }

  // ------------------------------------------------------------- containers left open

  /** Containers opened one inside the other, each with the trees before the next, none of them closed. */
  function Unclosed(syn: Syntax, cs: seq<Directive>): string
    requires forall c :: c in cs ==> !c.Plain?
  {
    if cs == [] then "" else OpenLine(cs[0]) + "\n" + PrintAll(syn, cs[0].children) + Unclosed(syn, cs[1..])
  }

  predicate Nested(syn: Syntax, cs: seq<Directive>, p: Place, open: bool) {
    cs == [] || (!cs[0].Plain? && !Orphan(cs[0], open) && TreeOK(syn, cs[0], p)
                 && Nested(syn, cs[1..], Within(p, cs[0]), EndsOpen(ReadAs(cs[0].children))))
  }

  lemma {:induction false} NestedAll(syn: Syntax, cs: seq<Directive>, p: Place, open: bool)
    requires Nested(syn, cs, p, open)
    ensures forall c :: c in cs ==> !c.Plain?
  {
    hide TreeOK, Within, Adopted, CanonAll;
    if cs != [] { NestedAll(syn, cs[1..], Within(p, cs[0]), EndsOpen(ReadAs(cs[0].children))); }
  }

  /** The state inside all of them. */
  function Deep(s: PState, cs: seq<Directive>): PState
    requires forall c :: c in cs ==> !c.Plain?
    decreases |cs|
  {
    if cs == [] then s else Deep(Inside(s, cs[0], ReadAs(cs[0].children)), cs[1..])
  }

  /** A container that is opened, up to its closing tag. */
  lemma FeedOpen(syn: Syntax, s: PState, d: Directive, rest: string)
    requires Ready(s) && !d.Plain? && TreeOK(syn, d, PlaceOf(s)) && !Orphan(d, EndsOpen(Here(s)))
    ensures var t := Inside(s, d, ReadAs(d.children));
            && Feed(syn, s, OpenLine(d) + "\n" + PrintAll(syn, d.children) + rest) == Feed(syn, t, rest)
            && Ready(t) && PlaceOf(t) == Within(PlaceOf(s), d) && Here(t) == ReadAs(d.children)
  {
    hide Step, Feed, OpenLine, Trim, HeaderOK, MayOpen, PlaceOf, Here, Grown, Inside, Within, Ready, EndsOpen, PrintAll,
      CanonAll, Adopted;
    var body := PrintAll(syn, d.children);
    assert OpenLine(d) + "\n" + body + rest == OpenLine(d) + "\n" + (body + rest);
    OpenStep(syn, s, d);
    FeedLine(syn, s, OpenLine(d), body + rest);
    var kids := ReadAs(d.children);
    InsideIs(s, d, kids);
    NothingOpen();
    var t := Inside(s, d, []);
    FeedAll(syn, t, d.children, rest);
    GrownStays(t, kids);
    assert [] + kids == kids;
  }

  lemma {:induction false} FeedUnclosed(syn: Syntax, s: PState, cs: seq<Directive>, rest: string)
    requires Ready(s) && Nested(syn, cs, PlaceOf(s), EndsOpen(Here(s)))
    ensures forall c :: c in cs ==> !c.Plain?
    ensures Feed(syn, s, Unclosed(syn, cs) + rest) == Feed(syn, Deep(s, cs), rest)
    decreases |cs|
  {
    hide Feed, OpenLine, TreeOK, PlaceOf, Here, Inside, Within, Ready, PrintAll, CanonAll, Adopted, EndsOpen;
    NestedAll(syn, cs, PlaceOf(s), EndsOpen(Here(s)));
    if cs == [] {
      assert Unclosed(syn, cs) + rest == rest;
    } else {
      var d := cs[0];
      var more := Unclosed(syn, cs[1..]) + rest;
      assert Unclosed(syn, cs) + rest == OpenLine(d) + "\n" + PrintAll(syn, d.children) + more;
      FeedOpen(syn, s, d, more);
      FeedUnclosed(syn, Inside(s, d, ReadAs(d.children)), cs[1..], rest);
    }
  }

  /** Opening containers touches no list that is open already. */
  lemma {:induction false} DeepKeeps(s: PState, cs: seq<Directive>)
    requires forall c :: c in cs ==> !c.Plain?
    ensures var u := Deep(s, cs);
            && u.top == s.top && u.skip == s.skip && u.pending == s.pending
            && ((forall c :: c in cs ==> !c.IfModule?) ==> u.modules == s.modules)
    decreases |cs|
  {
    hide CanonAll, Adopted;
    if cs != [] { DeepKeeps(Inside(s, cs[0], ReadAs(cs[0].children)), cs[1..]); }
  }

  /** What is still open at the end of the file is thrown away, with all that is in it. */
  lemma OpenAtEnd(syn: Syntax, ds: seq<Directive>, cs: seq<Directive>)
    requires TreesOK(syn, ds, TopPlace) && Nested(syn, cs, TopPlace, EndsOpen(ReadAs(ds)))
    ensures forall c :: c in cs ==> !c.Plain?
    ensures Parse(syn, PrintAll(syn, ds) + Unclosed(syn, cs)) == ReadAs(ds)
  {
    hide Print, PrintAll, TreesOK, TreeOK, Step, Nested, EndsOpen, CanonAll, Adopted, Deep, CString;
    NestedAll(syn, cs, TopPlace, EndsOpen(ReadAs(ds)));
    NoNul(syn, ds, TopPlace);
    UnclosedNoNul(syn, cs, TopPlace, EndsOpen(ReadAs(ds)));
    var text := PrintAll(syn, ds) + Unclosed(syn, cs);
    WholeText(text);
    NothingOpen();
    FeedAll(syn, Start, ds, Unclosed(syn, cs));
    var s := Grown(Start, ReadAs(ds));
    GrownStays(Start, ReadAs(ds));
    assert [] + ReadAs(ds) == ReadAs(ds);
    FeedUnclosed(syn, s, cs, "");
    assert Unclosed(syn, cs) + "" == Unclosed(syn, cs);
    DeepKeeps(s, cs);
  }

  lemma WholeText(text: string)
    requires '\0' !in text
    ensures CString(text) == text
  {
  }

  lemma {:induction false} UnclosedNoNul(syn: Syntax, cs: seq<Directive>, p: Place, open: bool)
    requires Nested(syn, cs, p, open)
    ensures forall c :: c in cs ==> !c.Plain?
    ensures '\0' !in Unclosed(syn, cs)
    decreases |cs|
  {
    hide OpenLine, CloseLine, MayOpen, HeaderOK, Within, TagShape, PrintAll, CanonAll, Adopted, Trim;
    NestedAll(syn, cs, p, open);
    if cs != [] {
      var d := cs[0];
      NoNul(syn, d.children, Within(p, d));
      LineShape(d);
      UnclosedNoNul(syn, cs[1..], Within(p, d), EndsOpen(ReadAs(d.children)));
    }
  }

  // -------------------------------------------------------- left open in an IfModule

  /** With no RequireAny open, the marker of the innermost Require block says nothing. */
  predicate Unmarked(s: PState) { s.any.None? }

  /** Two states that differ in a marker that says nothing. */
  predicate Alike(s: PState, t: PState) { t == s || (Unmarked(s) && t == s.(innermost := t.innermost)) }

  predicate BothAlike(a: Option<PState>, b: Option<PState>) {
    a.Some? == b.Some? && (a.Some? ==> Alike(a.value, b.value))
  }

  /** Adding to a list reads neither the marker nor the conditions that wait. */
  lemma ExtendApart(s: PState, k: nat, cs: seq<Leaf>, slot: Slot, ds: seq<Directive>)
    requires Open(s, slot)
    ensures Extend(s.(innermost := k), slot, ds) == Extend(s, slot, ds).(innermost := k)
    ensures Extend(s.(pending := cs), slot, ds) == Extend(s, slot, ds).(pending := cs)
    ensures Unmarked(s) ==> Unmarked(Extend(s, slot, ds)) || slot.SAny?
  {
  }

  lemma AlikeClose(s: PState, k: nat)
    requires Unmarked(s) && s.modules != []
    ensures Alike(CloseModule(s), CloseModule(s.(innermost := k)))
  {
    hide Extend;
    var f := s.modules[|s.modules| - 1];
    var t := Swept(s, f).(modules := s.modules[..|s.modules| - 1]);
    ExtendApart(t, k, [], IfSlot(t), [IfModule(f.name, f.negated, f.children)]);
  }

  lemma AlikeModuleTags(s: PState, k: nat, line: string)
    requires Unmarked(s)
    ensures BothAlike(ModuleTags(s, line), ModuleTags(s.(innermost := k), line))
  {
    hide Closes, OpensIfModule, CloseModule;
    if s.modules != [] { AlikeClose(s, k); }
  }

  lemma SameSibling(s: PState, k: nat, cs: seq<Leaf>)
    ensures AfterBranch(s.(innermost := k)) == AfterBranch(s) == AfterBranch(s.(pending := cs))
  {
  }

  lemma AlikeIf(s: PState, k: nat, line: string)
    requires Unmarked(s) && s.ifs != []
    ensures Alike(CloseIf(s, line), CloseIf(s.(innermost := k), line))
  {
    hide Extend, Expr.Parse, Mismatched;
    var f := s.ifs[|s.ifs| - 1];
    var t := s.(ifs := s.ifs[..|s.ifs| - 1]);
    var condition := if f.branch.OnElse? then None else Expr.Parse(f.text);
    ExtendApart(t, k, [], IfSlot(t), [Cond(f.branch, condition, f.children)]);
  }

  lemma AlikeIfTags(s: PState, k: nat, line: string)
    requires Unmarked(s)
    ensures BothAlike(IfTags(s, line), IfTags(s.(innermost := k), line))
  {
    hide ClosesIf, OpensCondition, OpensBare, CloseIf, AfterBranch;
    SameSibling(s, k, []);
    if s.ifs != [] && ClosesIf(line) { AlikeIf(s, k, line); }
  }

  lemma AlikeFilesTags(s: PState, k: nat, line: string)
    requires Unmarked(s)
    ensures BothAlike(FilesTags(s, line), FilesTags(s.(innermost := k), line))
  {
    hide Closes, OpensIfModule, OpensCondition, OpensBare, OpensNamed, OpensRequire, OpensLimit, Expr.Parse;
  }

  lemma AlikeRequireTags(s: PState, k: nat, line: string)
    requires Unmarked(s)
    ensures BothAlike(RequireTags(s, line), RequireTags(s.(innermost := k), line))
  {
    hide Closes, OpensIfModule, OpensCondition, OpensBare, OpensNamed, OpensRequire, OpensLimit, Expr.Parse;
  }

  lemma AlikeLimitTags(s: PState, k: nat, line: string)
    requires Unmarked(s)
    ensures BothAlike(LimitTags(s, line), LimitTags(s.(innermost := k), line))
  {
    hide Closes, OpensIfModule, OpensCondition, OpensBare, OpensNamed, OpensRequire, OpensLimit, Expr.Parse;
  }

  lemma AlikeTags(s: PState, k: nat, line: string)
    requires Unmarked(s)
    ensures BothAlike(Tags(s, line), Tags(s.(innermost := k), line))
  {
    hide Alike, ModuleTags, IfTags, FilesTags, RequireTags, LimitTags;
    AlikeModuleTags(s, k, line);
    AlikeIfTags(s, k, line);
    AlikeFilesTags(s, k, line);
    AlikeRequireTags(s, k, line);
    AlikeLimitTags(s, k, line);
  }

  lemma AlikeStep(syn: Syntax, s: PState, t: PState, line: string)
    requires Alike(s, t)
    ensures Alike(Step(syn, s, line), Step(syn, t, line))
  {
    hide Tags, OpensCondition, OpensBare, ClosesIf;
    if t != s { AlikeTags(s, t.innermost, line); }
  }

  lemma {:induction false} AlikeFeed(syn: Syntax, s: PState, t: PState, text: string)
    requires Alike(s, t)
    ensures Feed(syn, s, text).top == Feed(syn, t, text).top
    decreases |text|
  {
    hide Step, Trim;
    if text != "" {
      var eol := Find(text, "\n");
      var line := Trim(if eol.None? then text else text[..eol.value]);
      AlikeStep(syn, s, t, line);
      if eol.Some? { AlikeFeed(syn, Step(syn, s, line), Step(syn, t, line), text[eol.value + 1..]); }
    }
  }

  /** The state behind the opening line of an IfModule, wherever it stands. */
  function InModule(s: PState, d: Directive): PState
    requires d.IfModule?
  {
    s.(modules := s.modules + [ModuleFrame(d.name, d.negated, [], |s.ifs|, s.files.Some?, s.filesMatch.Some?,
                                           s.any.Some?, s.all.Some?, s.limit.Some?)])
  }

  lemma InModuleIs(s: PState, d: Directive)
    requires d.IfModule? && Ready(s)
    ensures Ready(InModule(s, d)) && PlaceOf(InModule(s, d)) == PlaceOf(s).(modules := |s.modules| + 1)
  {
  }

  lemma OpenModuleAnywhere(s: PState, d: Directive)
    requires d.IfModule? && HeaderOK(d) && |s.modules| < 16
    ensures Tags(s, OpenLine(d)) == Some(InModule(s, d))
  {
    hide OpensIfModule, OpenLine, IfTags, FilesTags, RequireTags, LimitTags, TagShape, Trim, HeaderOK, Closes;
    LineShape(d);
    ReadsModule(d);
    NotClosing(OpenLine(d), "ifmodule");
  }

  /** What is read in it goes to the container around it, if there is one other than an IfModule. */
  function ReadIn(s: PState, d: Directive): seq<Directive>
    requires d.IfModule?
  {
    CanonAll(Adopted(EndsOpen(Here(InModule(s, d))), d.children))
  }

  lemma FeedModule(syn: Syntax, s: PState, d: Directive, rest: string)
    requires d.IfModule? && HeaderOK(d) && Ready(s) && |s.modules| < 16
    requires TreesOK(syn, d.children, PlaceOf(s).(modules := |s.modules| + 1))
    ensures Feed(syn, s, OpenLine(d) + "\n" + PrintAll(syn, d.children) + rest)
         == Feed(syn, Grown(InModule(s, d), ReadIn(s, d)), rest)
  {
    hide Step, Feed, OpenLine, Trim, HeaderOK, PlaceOf, Here, Grown, InModule, Ready, EndsOpen, PrintAll, CanonAll,
      Adopted, TreesOK, Tags, TagShape;
    var body := PrintAll(syn, d.children);
    assert OpenLine(d) + "\n" + body + rest == OpenLine(d) + "\n" + (body + rest);
    LineShape(d);
    OpenModuleAnywhere(s, d);
    ReadySkip(s);
    TagStep(syn, s, OpenLine(d));
    FeedLine(syn, s, OpenLine(d), body + rest);
    InModuleIs(s, d);
    FeedAll(syn, InModule(s, d), d.children, rest);
  }

  /** Containers are never opened over one of their kind. */
  predicate Over(g: PState, u: PState) {
    && u.top == g.top && u.modules == g.modules && u.skip == g.skip && u.pending == g.pending
    && (g.limit.Some? ==> u.limit == g.limit) && (g.any.Some? ==> u.any == g.any) && (g.all.Some? ==> u.all == g.all)
    && (g.files.Some? ==> u.files == g.files) && (g.filesMatch.Some? ==> u.filesMatch == g.filesMatch)
    && |g.ifs| <= |u.ifs| && u.ifs[..|g.ifs|] == g.ifs
  }

  /** Whether a RequireAll is among containers left open. */
  predicate HasAll(cs: seq<Directive>) { exists c :: c in cs && c.RequireBlock? && !c.any }

  lemma OverOne(s: PState, d: Directive, kids: seq<Directive>)
    requires !d.Plain? && !d.IfModule? && Ready(s) && MayOpen(PlaceOf(s), d)
    ensures Over(s, Inside(s, d, kids)) && Ready(Inside(s, d, kids))
        && PlaceOf(Inside(s, d, kids)) == Within(PlaceOf(s), d)
  {
    InsideIs(s, d, kids);
    GrownStays(Inside(s, d, []), kids);
  }

  lemma {:induction false} DeepOver(syn: Syntax, s: PState, cs: seq<Directive>, open: bool)
    requires Ready(s) && Nested(syn, cs, PlaceOf(s), open) && forall c :: c in cs ==> !c.IfModule?
    ensures forall c :: c in cs ==> !c.Plain?
    ensures Over(s, Deep(s, cs))
    ensures s.any.Some? ==> Deep(s, cs).innermost == if HasAll(cs) then 2 else s.innermost
    ensures s.any.Some? && HasAll(cs) ==> s.all.None? && LeafSlot(s) == SAny
    decreases |cs|
  {
    hide PlaceOf, Inside, Within, Ready, CanonAll, Adopted, EndsOpen, HasAll, LeafSlot, Over, PrintAll;
    NestedAll(syn, cs, PlaceOf(s), open);
    if cs == [] {
      OverSelf(s);
    } else {
      var d := cs[0];
      var kids := ReadAs(d.children);
      var t := Inside(s, d, kids);
      OverOne(s, d, kids);
      DeepOver(syn, t, cs[1..], EndsOpen(kids));
      OverTwice(s, t, Deep(t, cs[1..]));
      MarkerStep(s, d, kids, cs);
    }
  }

  lemma OverSelf(s: PState)
    ensures Over(s, s) && !HasAll([])
  {
    assert s.ifs[..|s.ifs|] == s.ifs;
  }

  lemma OverTwice(s: PState, t: PState, u: PState)
    requires Over(s, t) && Over(t, u)
    ensures Over(s, u)
  {
    assert u.ifs[..|s.ifs|] == t.ifs[..|s.ifs|];
  }

  lemma MarkerStep(s: PState, d: Directive, kids: seq<Directive>, cs: seq<Directive>)
    requires !d.Plain? && !d.IfModule? && Ready(s) && MayOpen(PlaceOf(s), d) && cs != [] && cs[0] == d
    ensures HasAll(cs) <==> (d.RequireBlock? && !d.any) || HasAll(cs[1..])
    ensures var t := Inside(s, d, kids);
            s.any.Some? ==>
              && t.any.Some? && t.innermost == (if d.RequireBlock? then 2 else s.innermost)
              && (d.RequireBlock? ==> !d.any && s.all.None? && LeafSlot(s) == SAny && t.all.Some?)
              && (t.all.None? ==> s.all.None?) && (LeafSlot(t) == SAny ==> LeafSlot(s) == SAny)
  {
    assert cs == [d] + cs[1..];
  }

  /** Closing an IfModule: what was opened in it and left open goes, and so does the IfModule's place in the stack. */
  lemma SweepStep(s: PState, d: Directive, kids: seq<Directive>, u: PState)
    requires d.IfModule? && HeaderOK(d) && Ready(s) && Over(Grown(InModule(s, d), kids), u)
    ensures u.skip == 0
    ensures Tags(u, CloseLine(d)) == Some(Closed(s, d, kids).(innermost := u.innermost))
  {
    hide Closes, CloseLine, IfTags, FilesTags, RequireTags, LimitTags, OpensIfModule, HeaderOK, Extend, CloseModule;
    ReadsClose(d);
    SweepClose(s, d, kids, u);
  }

  /** The state behind an IfModule: alone in other containers it comes empty, and after what it holds. */
  function Closed(s: PState, d: Directive, kids: seq<Directive>): PState
    requires d.IfModule?
  {
    if InModules(PlaceOf(s)) then Grown(s, [IfModule(d.name, d.negated, kids)])
    else var g := Grown(s, kids); Extend(g, IfSlot(g), [IfModule(d.name, d.negated, [])])
  }

  /** The lists the IfModule's directives went to: its own, or those of the container around it. */
  lemma Frames(s: PState, d: Directive, kids: seq<Directive>)
    requires d.IfModule? && Ready(s)
    ensures var g := if InModules(PlaceOf(s)) then s else Grown(s, kids);
            var f := InModule(s, d).modules[|s.modules|].(children := if InModules(PlaceOf(s)) then kids else []);
            && Grown(InModule(s, d), kids) == g.(modules := s.modules + [f])
            && g.modules == s.modules && g.pending == [] && g.skip == 0 && PlaceOf(g) == PlaceOf(s)
            && g.filesMatch.Some? == s.filesMatch.Some? && g.files.Some? == s.files.Some?
  {
    var t := InModule(s, d);
    assert InModules(PlaceOf(s)) ==> LeafSlot(t) == SModule;
    assert !InModules(PlaceOf(s)) ==> LeafSlot(t) == LeafSlot(s) != SModule && LeafSlot(s) != STop;
    assert [] + kids == kids;
    var f := t.modules[|s.modules|].(children := kids);
    assert t.modules[|s.modules| := f] == s.modules + [f];
  }

  lemma SweptIs(s: PState, d: Directive, kids: seq<Directive>, u: PState)
    requires d.IfModule? && Ready(s) && Over(Grown(InModule(s, d), kids), u)
    ensures u.skip == 0 && u.modules != []
    ensures var g := if InModules(PlaceOf(s)) then s else Grown(s, kids);
            var f := u.modules[|u.modules| - 1];
            && f.name == d.name && f.negated == d.negated && f.children == (if InModules(PlaceOf(s)) then kids else [])
            && Swept(u, f).(modules := u.modules[..|u.modules| - 1]) == g.(innermost := u.innermost)
  {
    hide Grown;
    Frames(s, d, kids);
    var g := if InModules(PlaceOf(s)) then s else Grown(s, kids);
    assert u.modules[..|u.modules| - 1] == s.modules;
    assert |g.ifs| == |s.ifs| && (if |s.ifs| < |u.ifs| then u.ifs[..|s.ifs|] else u.ifs) == g.ifs;
  }

  lemma SweepClose(s: PState, d: Directive, kids: seq<Directive>, u: PState)
    requires d.IfModule? && Ready(s) && Over(Grown(InModule(s, d), kids), u)
    ensures u.skip == 0 && u.modules != [] && CloseModule(u) == Closed(s, d, kids).(innermost := u.innermost)
  {
    hide Extend, Swept, Over;
    SweptIs(s, d, kids, u);
    var g := if InModules(PlaceOf(s)) then s else Grown(s, kids);
    var m := u.modules[|u.modules| - 1];
    ExtendApart(g, u.innermost, [], IfSlot(g), [IfModule(m.name, m.negated, m.children)]);
  }

  /** An IfModule in which containers were left open, up to its closing tag. */
  lemma FeedSwept(syn: Syntax, s: PState, d: Directive, cs: seq<Directive>, rest: string)
    requires d.IfModule? && HeaderOK(d) && Ready(s) && |s.modules| < 16
    requires TreesOK(syn, d.children, PlaceOf(s).(modules := |s.modules| + 1))
    requires LeftOpen(syn, s, d, cs)
    ensures forall c :: c in cs ==> !c.Plain?
    ensures var u := Deep(Grown(InModule(s, d), ReadIn(s, d)), cs);
            && Over(Grown(InModule(s, d), ReadIn(s, d)), u)
            && (s.any.Some? ==> u.innermost == if HasAll(cs) then 2 else s.innermost)
            && (s.any.Some? && HasAll(cs) ==> s.all.None? && LeafSlot(s) == SAny)
            && Feed(syn, s, OpenLine(d) + "\n" + PrintAll(syn, d.children)
                            + (Unclosed(syn, cs) + (CloseLine(d) + "\n" + rest)))
               == Feed(syn, Closed(s, d, ReadIn(s, d)).(innermost := u.innermost), rest)
  {
    hide Step, Feed, OpenLine, CloseLine, Trim, HeaderOK, MayOpen, PlaceOf, Here, Grown, InModule, Ready, EndsOpen,
      PrintAll, CanonAll, Adopted, Tags, TagShape, Deep, Nested, Over, HasAll, Closed, TreesOK;
    var tail := CloseLine(d) + "\n" + rest;
    var kids := ReadIn(s, d);
    var g := Grown(InModule(s, d), kids);
    NestedAll(syn, cs, PlaceOf(g), EndsOpen(Here(g)));
    FeedModule(syn, s, d, Unclosed(syn, cs) + tail);
    InModuleIs(s, d);
    GrownStays(InModule(s, d), kids);
    FeedUnclosed(syn, g, cs, tail);
    DeepOver(syn, g, cs, EndsOpen(Here(g)));
    var u := Deep(g, cs);
    LineShape(d);
    SweepStep(s, d, kids, u);
    TagStep(syn, u, CloseLine(d));
    FeedLine(syn, u, CloseLine(d), rest);
    SameMarker(s, d, kids);
  }

  /** Containers left open one inside the other behind what an IfModule holds, no IfModule among them. */
  predicate LeftOpen(syn: Syntax, s: PState, d: Directive, cs: seq<Directive>)
    requires d.IfModule?
  {
    var g := Grown(InModule(s, d), ReadIn(s, d));
    Nested(syn, cs, PlaceOf(g), EndsOpen(Here(g))) && forall c :: c in cs ==> !c.IfModule?
  }

  lemma SameMarker(s: PState, d: Directive, kids: seq<Directive>)
    requires d.IfModule? && Ready(s)
    ensures var g := Grown(InModule(s, d), kids);
            g.any.Some? == s.any.Some? && g.all.Some? == s.all.Some? && g.innermost == s.innermost
    ensures s.any.Some? ==> LeafSlot(Grown(InModule(s, d), kids)) == LeafSlot(s)
    ensures Closed(s, d, kids).any.Some? == s.any.Some? && Closed(s, d, kids).innermost == s.innermost
  {
  }

  /**
   * An IfModule is read as if the containers left open in it were not there, unless
   * it stands in a RequireAny and a RequireAll is one of them.
   */
  lemma OpenInModule(syn: Syntax, s: PState, d: Directive, cs: seq<Directive>, rest: string)
    requires d.IfModule? && HeaderOK(d) && Ready(s) && |s.modules| < 16
    requires TreesOK(syn, d.children, PlaceOf(s).(modules := |s.modules| + 1))
    requires LeftOpen(syn, s, d, cs) && !(s.any.Some? && HasAll(cs))
    ensures forall c :: c in cs ==> !c.Plain?
    ensures Feed(syn, s, OpenLine(d) + "\n" + PrintAll(syn, d.children)
                         + (Unclosed(syn, cs) + (CloseLine(d) + "\n" + rest))).top
         == Feed(syn, Closed(s, d, ReadIn(s, d)), rest).top
  {
    hide Feed, OpenLine, CloseLine, HeaderOK, PlaceOf, Grown, InModule, Ready, PrintAll, CanonAll, Adopted, Deep, Over,
      HasAll, TreesOK, Closed, LeftOpen;
    FeedSwept(syn, s, d, cs, rest);
    var v := Closed(s, d, ReadIn(s, d));
    SameMarker(s, d, ReadIn(s, d));
    var u := Deep(Grown(InModule(s, d), ReadIn(s, d)), cs);
    AlikeFeed(syn, v, v.(innermost := u.innermost), rest);
  }

  /** In a RequireAny, a RequireAll left open in an IfModule sends what follows out of the RequireAny. */
  lemma MarkerLost(syn: Syntax, s: PState, d: Directive, cs: seq<Directive>, rest: string)
    requires d.IfModule? && HeaderOK(d) && Ready(s) && |s.modules| < 16
    requires TreesOK(syn, d.children, PlaceOf(s).(modules := |s.modules| + 1))
    requires LeftOpen(syn, s, d, cs) && s.any.Some? && HasAll(cs)
    ensures forall c :: c in cs ==> !c.Plain?
    ensures var v := Closed(s, d, ReadIn(s, d));
            var w := v.(innermost := 2);
            && Feed(syn, s, OpenLine(d) + "\n" + PrintAll(syn, d.children)
                            + (Unclosed(syn, cs) + (CloseLine(d) + "\n" + rest))) == Feed(syn, w, rest)
            && LeafSlot(v) == SAny && (LeafSlot(w) == SLimit || LeafSlot(w) == SModule || LeafSlot(w) == STop)
  {
    hide Feed, OpenLine, CloseLine, HeaderOK, PrintAll, CanonAll, Adopted, Deep, Over, HasAll, TreesOK, LeftOpen;
    FeedSwept(syn, s, d, cs, rest);
    LostSlots(s, d, ReadIn(s, d));
  }

  lemma LostSlots(s: PState, d: Directive, kids: seq<Directive>)
    requires d.IfModule? && s.any.Some? && s.all.None? && LeafSlot(s) == SAny
    ensures var v := Closed(s, d, kids);
            var w := v.(innermost := 2);
            LeafSlot(v) == SAny && (LeafSlot(w) == SLimit || LeafSlot(w) == SModule || LeafSlot(w) == STop)
  {
  }

  // ------------------------------------------------------------------- the wrong close

  lemma ClosesBranch(d: Directive)
    requires d.Cond? && HeaderOK(d)
    ensures var line := CloseLine(d);
            && (Closes(line, "if") <==> d.branch.OnIf?) && (Closes(line, "elseif") <==> d.branch.OnElseIf?)
            && (Closes(line, "else") <==> d.branch.OnElse?)
  {
    hide Closes, TagShape, HeaderOK, Trim, OneLine;
    LineShape(d);
    ReadsClose(d);
    var line := CloseLine(d);
    if !d.branch.OnIf? { NotClosingAt(line, "if", 0); }
    if d.branch.OnIf? {
      NotClosingAt(line, "elseif", 0);
      NotClosingAt(line, "else", 0);
    } else if d.branch.OnElse? {
      NotClosingAt(line, "elseif", 4);
    } else {
      LongerTag();
      assert line == "</ElseIf>";
    }
  }

  lemma LongerTag()
    ensures !Closes("</ElseIf>", "else")
  {
    var closing := "</ElseIf>";
    ExprLex.SkipNone(closing);
    assert closing[1..][1..][4..] == "If>";
    ExprLex.SkipNone("If>");
  }

  /** A branch closed by the tag of another kind of branch goes, with all that is in it. */
  lemma WrongClose(syn: Syntax, s: PState, d: Directive, other: Directive, rest: string)
    requires Ready(s) && d.Cond? && TreeOK(syn, d, PlaceOf(s)) && !Orphan(d, EndsOpen(Here(s)))
    requires other.Cond? && HeaderOK(other) && other.branch != d.branch
    ensures Feed(syn, s, OpenLine(d) + "\n" + PrintAll(syn, d.children) + (CloseLine(other) + "\n" + rest))
         == Feed(syn, s, rest)
  {
    hide Step, Feed, OpenLine, CloseLine, Trim, HeaderOK, MayOpen, PlaceOf, Here, Within, Ready, EndsOpen,
      PrintAll, CanonAll, Adopted, Tags, TagShape;
    FeedOpen(syn, s, d, CloseLine(other) + "\n" + rest);
    var t := Inside(s, d, ReadAs(d.children));
    LineShape(other);
    DropStep(s, d, other, ReadAs(d.children));
    TagStep(syn, t, CloseLine(other));
    FeedLine(syn, t, CloseLine(other), rest);
  }

  lemma DropStep(s: PState, d: Directive, other: Directive, kids: seq<Directive>)
    requires Ready(s) && d.Cond? && other.Cond? && HeaderOK(other) && other.branch != d.branch
    ensures var t := Inside(s, d, kids); t.skip == 0 && Tags(t, CloseLine(other)) == Some(s)
  {
    hide CloseLine, Closes, ModuleTags, FilesTags, RequireTags, LimitTags, Expr.Parse, Expr.Print, HeaderOK;
    var t := Inside(s, d, kids);
    NotModule(t, other);
    ClosesBranch(other);
    assert t.ifs[..|t.ifs| - 1] == s.ifs && t.(ifs := s.ifs) == s;
  }

  // ------------------------------------------------------------------ too deeply nested

  /** The line that opens a 17th IfModule or a 17th branch is not seen. */
  lemma TooDeep(syn: Syntax, s: PState, d: Directive, rest: string)
    requires Ready(s) && (d.IfModule? || d.Cond?) && HeaderOK(d)
    requires d.IfModule? ==> |s.modules| == 16
    requires d.Cond? ==> |s.ifs| == 16 && !Orphan(d, EndsOpen(Here(s)))
    ensures Feed(syn, s, OpenLine(d) + "\n" + rest) == Feed(syn, s, rest)
  {
    hide Step, Feed, OpenLine, CloseLine, Trim, HeaderOK, Here, EndsOpen, Tags, TagShape;
    LineShape(d);
    if d.IfModule? { DeepModule(s, d); } else { DeepBranch(s, d); }
    TagStep(syn, s, OpenLine(d));
    FeedLine(syn, s, OpenLine(d), rest);
  }

  lemma DeepModule(s: PState, d: Directive)
    requires d.IfModule? && HeaderOK(d) && |s.modules| == 16
    ensures Tags(s, OpenLine(d)) == Some(s)
  {
    hide OpensIfModule, OpenLine, IfTags, FilesTags, RequireTags, LimitTags, TagShape, Trim, HeaderOK, Closes;
    LineShape(d);
    ReadsModule(d);
    NotClosing(OpenLine(d), "ifmodule");
  }

  lemma DeepBranch(s: PState, d: Directive)
    requires d.Cond? && HeaderOK(d) && |s.ifs| == 16 && !Orphan(d, EndsOpen(Here(s)))
    ensures Tags(s, OpenLine(d)) == Some(s)
  {
    hide OpensCondition, OpensIfModule, OpenLine, FilesTags, RequireTags, LimitTags, TagShape, Trim, Initial,
      OpensBare, Closes, Expr.Print, ConditionOK;
    LineShape(d);
    if d.branch.OnElse? { ReadsElse(d); } else { ReadsCondition(d); }
    var line := OpenLine(d);
    NotClosing(line, "ifmodule");
    NotClosing(line, "if");
    NotClosing(line, "elseif");
    NotClosing(line, "else");
  }

  // -------------------------------------------------------------- leaves that go nowhere

  /** In a Require block only Require lines stay; a rule goes with its conditions. */
  lemma NotARequire(syn: Syntax, s: PState, cs: seq<Leaf>, leaf: Leaf, rest: string)
    requires Ready(s) && InRequire(PlaceOf(s)) && LeafOK(syn, leaf) && (leaf.kind.Other? || leaf.kind.RewriteRule?)
    requires leaf.kind.Other? ==> cs == []
    requires forall i :: 0 <= i < |cs| ==> cs[i].kind.RewriteCond? && LeafOK(syn, cs[i])
    ensures Feed(syn, s, PrintLines(syn, cs) + (syn.write(leaf) + "\n" + rest)) == Feed(syn, s, rest)
  {
    hide Step, Feed, LeafOK, Trim, PrintLines;
    var line := syn.write(leaf);
    FeedConditions(syn, s, cs, line + "\n" + rest);
    assert s.pending + cs == cs;
    var t := s.(pending := cs);
    LeafLine(syn, leaf);
    FeedLine(syn, t, line, rest);
    LeafStep(syn, t, leaf);
    assert t.(pending := []) == s;
  }

  function OpenCount(s: PState): nat {
    var p := PlaceOf(s);
    p.modules + p.ifs + (if p.limit then 1 else 0) + (if p.any then 1 else 0) + (if p.all then 1 else 0)
    + (if p.files then 1 else 0)
  }

  /** Two results of a tag on one state, of which the second comes with conditions that wait. */
  predicate Forgotten(s: PState, a: Option<PState>, b: Option<PState>) {
    a.Some? == b.Some? && (a.Some? && OpenCount(a.value) < OpenCount(s) ==> a == b)
  }

  lemma ForgetsModuleTags(s: PState, cs: seq<Leaf>, line: string)
    ensures Forgotten(s, ModuleTags(s, line), ModuleTags(s.(pending := cs), line))
  {
    hide Closes, OpensIfModule, OpensCondition, OpensBare, OpensNamed, OpensRequire, OpensLimit, Expr.Parse, Mismatched,
      ClosesIf;
  }

  lemma ForgetsIf(s: PState, cs: seq<Leaf>, line: string)
    requires s.ifs != [] && !Mismatched(line, s.ifs[|s.ifs| - 1].branch)
    ensures CloseIf(s.(pending := cs), line) == CloseIf(s, line)
  {
    hide Extend, Expr.Parse, Mismatched;
    var f := s.ifs[|s.ifs| - 1];
    var t := s.(ifs := s.ifs[..|s.ifs| - 1]);
    var condition := if f.branch.OnElse? then None else Expr.Parse(f.text);
    ExtendApart(t, 0, cs, IfSlot(t), [Cond(f.branch, condition, f.children)]);
  }

  lemma ForgetsIfTags(s: PState, cs: seq<Leaf>, line: string)
    requires s.ifs != [] && ClosesIf(line) ==> !Mismatched(line, s.ifs[|s.ifs| - 1].branch)
    ensures Forgotten(s, IfTags(s, line), IfTags(s.(pending := cs), line))
  {
    hide ClosesIf, OpensCondition, OpensBare, Mismatched, CloseIf, AfterBranch;
    SameSibling(s, 0, cs);
    if s.ifs != [] && ClosesIf(line) { ForgetsIf(s, cs, line); }
  }

  lemma ForgetsFiles(s: PState, cs: seq<Leaf>)
    ensures s.files.Some? ==> CloseFiles(s.(pending := cs)) == CloseFiles(s)
    ensures s.filesMatch.Some? ==> CloseMatch(s.(pending := cs)) == CloseMatch(s)
  {
    hide Extend;
    if s.files.Some? {
      var t, f := s.(files := None), s.files.value;
      ExtendApart(t, 0, cs, FilesSlot(t), [Files(f.name, f.children)]);
    }
    if s.filesMatch.Some? {
      var t, f := s.(filesMatch := None), s.filesMatch.value;
      ExtendApart(t, 0, cs, FilesSlot(t), [FilesMatch(f.name, f.children)]);
    }
  }

  lemma ForgetsFilesTags(s: PState, cs: seq<Leaf>, line: string)
    ensures Forgotten(s, FilesTags(s, line), FilesTags(s.(pending := cs), line))
  {
    hide Closes, OpensNamed, CloseFiles, CloseMatch;
    ForgetsFiles(s, cs);
  }

  lemma ForgetsRequireTags(s: PState, cs: seq<Leaf>, line: string)
    ensures Forgotten(s, RequireTags(s, line), RequireTags(s.(pending := cs), line))
  {
    hide Closes, OpensIfModule, OpensCondition, OpensBare, OpensNamed, OpensRequire, OpensLimit, Expr.Parse, Mismatched,
      ClosesIf;
  }

  lemma ForgetsLimitTags(s: PState, cs: seq<Leaf>, line: string)
    ensures Forgotten(s, LimitTags(s, line), LimitTags(s.(pending := cs), line))
  {
    hide Closes, OpensIfModule, OpensCondition, OpensBare, OpensNamed, OpensRequire, OpensLimit, Expr.Parse, Mismatched,
      ClosesIf;
  }

  /** A tag that closes and files a container forgets the conditions that wait. */
  lemma CloseForgets(s: PState, cs: seq<Leaf>, line: string)
    requires s.ifs != [] && ClosesIf(line) ==> !Mismatched(line, s.ifs[|s.ifs| - 1].branch)
    ensures Forgotten(s, Tags(s, line), Tags(s.(pending := cs), line))
  {
    hide OpenCount, ModuleTags, IfTags, FilesTags, RequireTags, LimitTags, Mismatched, ClosesIf;
    ForgetsModuleTags(s, cs, line);
    ForgetsIfTags(s, cs, line);
    ForgetsFilesTags(s, cs, line);
    ForgetsRequireTags(s, cs, line);
    ForgetsLimitTags(s, cs, line);
  }

  lemma NothingWaits(s: PState)
    requires Ready(s)
    ensures s.skip == 0 && s.pending == []
  {
  }

  /** Conditions with no rule after them before the container is closed are lost. */
  lemma ConditionsLost(syn: Syntax, s: PState, d: Directive, cs: seq<Leaf>, rest: string)
    requires !d.Plain? && Ready(s) && TreeOK(syn, d, PlaceOf(s)) && !Orphan(d, EndsOpen(Here(s)))
    requires forall i :: 0 <= i < |cs| ==> cs[i].kind.RewriteCond? && LeafOK(syn, cs[i])
    ensures Feed(syn, s, OpenLine(d) + "\n" + PrintAll(syn, d.children)
                         + (PrintLines(syn, cs) + (CloseLine(d) + "\n" + rest)))
         == Feed(syn, s, Print(syn, d) + "\n" + rest)
  {
    hide Step, Feed, OpenLine, CloseLine, Trim, HeaderOK, MayOpen, PlaceOf, Here, Grown, Within, Ready, EndsOpen,
      PrintAll, PrintLines, CanonAll, Adopted, Tags, TagShape, Rebuilt, LeafOK, Inside;
    var tail := CloseLine(d) + "\n" + rest;
    var kids := ReadAs(d.children);
    FeedOpen(syn, s, d, PrintLines(syn, cs) + tail);
    var t := Inside(s, d, kids);
    NothingWaits(t);
    FeedConditions(syn, t, cs, tail);
    assert t.pending + cs == cs;
    LineShape(d);
    CloseWaiting(syn, s, d, kids, cs);
    FeedLine(syn, t.(pending := cs), CloseLine(d), rest);
    FeedOne(syn, s, d, rest);
    CanonAdopted(d);
  }

  lemma CloseWaiting(syn: Syntax, s: PState, d: Directive, kids: seq<Directive>, cs: seq<Leaf>)
    requires !d.Plain? && Ready(s) && MayOpen(PlaceOf(s), d) && HeaderOK(d)
    ensures Step(syn, Inside(s, d, kids).(pending := cs), Trim(CloseLine(d))) == Grown(s, [Rebuilt(d, kids)])
  {
    hide Step, Tags, CloseLine, Trim, TagShape, HeaderOK, Grown, Rebuilt, Mismatched, ClosesIf, OpenLine;
    var t := Inside(s, d, kids);
    LineShape(d);
    CloseTags(s, d, kids);
    Fewer(s, d, kids);
    BranchTags(d);
    if d.Cond? { NotOtherBranch(d); }
    CloseForgets(t, cs, CloseLine(d));
    TagStep(syn, t.(pending := cs), CloseLine(d));
  }

  lemma Fewer(s: PState, d: Directive, kids: seq<Directive>)
    requires !d.Plain? && Ready(s) && MayOpen(PlaceOf(s), d)
    ensures OpenCount(Grown(s, [Rebuilt(d, kids)])) == OpenCount(s) < OpenCount(Inside(s, d, kids))
    ensures !d.Cond? ==> Inside(s, d, kids).ifs == []
  {
    hide Grown, Rebuilt, Ready;
    GrownStays(s, [Rebuilt(d, kids)]);
  }
}
