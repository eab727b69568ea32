/**
 * What every parsed file has, however its tags are nested, unclosed or
 * misplaced: only Require lines stand in Require blocks, conditions are found
 * only on rules, and neither stack outgrows its frames.
 */
module BlockSound {
  import opened Text
  import opened Blocks
  import Expr

  predicate SoundRule(leaf: Leaf, conditions: seq<Leaf>) {
    && !leaf.kind.RewriteCond?
    && (conditions != [] ==> leaf.kind.RewriteRule?)
    && forall i :: 0 <= i < |conditions| ==> conditions[i].kind.RewriteCond?
  }

  predicate SoundOne(d: Directive, inRequire: bool)
    decreases d
  {
    if d.Plain? then SoundRule(d.leaf, d.conditions) && (inRequire ==> d.leaf.kind.Require?)
    else Sound(d.children, d.RequireBlock?)
  }

  /** Every directive at every depth, and the leaves of a Require block in particular. */
  predicate Sound(ds: seq<Directive>, inRequire: bool)
    decreases ds
  {
    ds == [] || (SoundOne(ds[0], inRequire) && Sound(ds[1..], inRequire))
  }

  lemma {:induction false} SoundAppend(a: seq<Directive>, b: seq<Directive>, inRequire: bool)
    ensures Sound(a + b, inRequire) <==> Sound(a, inRequire) && Sound(b, inRequire)
    decreases |a|
  {
    hide SoundOne;
    if a == [] {
      assert a + b == b;
    } else {
      assert (a + b)[1..] == a[1..] + b;
      SoundAppend(a[1..], b, inRequire);
    }
  }

  lemma SoundSingle(d: Directive, inRequire: bool)
    ensures Sound([d], inRequire) <==> SoundOne(d, inRequire)
  {
    hide SoundOne;
    assert [d][1..] == [];
  }

  /** Whether a list is that of a Require block. */
  predicate IsRequireSlot(slot: Slot) { slot.SAny? || slot.SAll? }

  /** Every list under construction is sound, and the stacks are within their frames. */
  ghost predicate SoundState(s: PState) {
    && Sound(s.top, false)
    && |s.modules| <= MAX_IFMODULE_DEPTH && (forall i :: 0 <= i < |s.modules| ==> Sound(s.modules[i].children, false))
    && |s.ifs| <= MAX_IF_DEPTH && (forall i :: 0 <= i < |s.ifs| ==> Sound(s.ifs[i].children, false))
    && (s.limit.Some? ==> Sound(s.limit.value.children, false))
    && (s.filesMatch.Some? ==> Sound(s.filesMatch.value.children, false))
    && (s.files.Some? ==> Sound(s.files.value.children, false))
    && (s.any.Some? ==> Sound(s.any.value, true))
    && (s.all.Some? ==> Sound(s.all.value, true))
    && (forall i :: 0 <= i < |s.pending| ==> s.pending[i].kind.RewriteCond?)
  }

  lemma ExtendSound(s: PState, slot: Slot, d: Directive)
    requires SoundState(s) && Open(s, slot) && SoundOne(d, IsRequireSlot(slot))
    ensures SoundState(Extend(s, slot, [d]))
  {
    hide SoundOne, Sound;
    SoundSingle(d, IsRequireSlot(slot));
    SoundAppend(Kids(s, slot), [d], IsRequireSlot(slot));
  }

  /** A container is sound in any list. */
  lemma Contained(d: Directive)
    requires !d.Plain? && Sound(d.children, d.RequireBlock?)
    ensures SoundOne(d, false) && SoundOne(d, true)
  {
  }

  lemma CloseModuleSound(s: PState)
    requires SoundState(s) && s.modules != []
    ensures SoundState(CloseModule(s))
  {
    hide Sound, SoundOne, Extend, IfSlot;
    var f := s.modules[|s.modules| - 1];
    var t := Swept(s, f).(modules := s.modules[..|s.modules| - 1]);
    Contained(IfModule(f.name, f.negated, f.children));
    ExtendSound(t, IfSlot(t), IfModule(f.name, f.negated, f.children));
  }

  lemma CloseIfSound(s: PState, line: string)
    requires SoundState(s) && s.ifs != []
    ensures SoundState(CloseIf(s, line))
  {
    hide Sound, SoundOne, Extend, IfSlot, Mismatched, Expr.Parse;
    var f := s.ifs[|s.ifs| - 1];
    var t := s.(ifs := s.ifs[..|s.ifs| - 1]);
    var d := Cond(f.branch, if f.branch.OnElse? then None else Expr.Parse(f.text), f.children);
    Contained(d);
    ExtendSound(t, IfSlot(t), d);
  }

  lemma CloseFilesSound(s: PState)
    requires SoundState(s)
    ensures s.filesMatch.Some? ==> SoundState(CloseMatch(s))
    ensures s.files.Some? ==> SoundState(CloseFiles(s))
  {
    hide Sound, SoundOne, Extend, FilesSlot;
    if s.filesMatch.Some? {
      var t, d := s.(filesMatch := None), FilesMatch(s.filesMatch.value.name, s.filesMatch.value.children);
      Contained(d);
      ExtendSound(t, FilesSlot(t), d);
    }
    if s.files.Some? {
      var t, d := s.(files := None), Files(s.files.value.name, s.files.value.children);
      Contained(d);
      ExtendSound(t, FilesSlot(t), d);
    }
  }

  lemma CloseRequireSound(s: PState)
    requires SoundState(s)
    ensures s.any.Some? ==> SoundState(CloseAny(s))
    ensures s.all.Some? ==> SoundState(CloseAll(s))
  {
    hide Sound, SoundOne, Extend, RequireSlot;
    if s.any.Some? {
      var t := s.(any := None, innermost := if s.all.Some? then 2 else 0);
      Contained(RequireBlock(true, s.any.value));
      ExtendSound(t, RequireSlot(t, true), RequireBlock(true, s.any.value));
    }
    if s.all.Some? {
      var t := s.(all := None, innermost := if s.any.Some? then 1 else 0);
      Contained(RequireBlock(false, s.all.value));
      ExtendSound(t, RequireSlot(t, false), RequireBlock(false, s.all.value));
    }
  }

  lemma CloseLimitSound(s: PState)
    requires SoundState(s) && s.limit.Some?
    ensures SoundState(CloseLimit(s))
  {
    hide Sound, SoundOne, Extend, LimitSlot;
    var b := s.limit.value;
    var t, d := s.(limit := None), Limit(b.except, b.methods, b.children);
    Contained(d);
    ExtendSound(t, LimitSlot(t), d);
  }

  lemma AddLeafSound(s: PState, leaf: Leaf)
    requires SoundState(s)
    ensures SoundState(AddLeaf(s, leaf))
  {
    hide Sound, Extend, LeafSlot;
    if !leaf.kind.RewriteCond? {
      var rule := leaf.kind.RewriteRule?;
      var d := Plain(leaf, if rule then s.pending else []);
      var t := if rule then s.(pending := []) else s;
      var slot := LeafSlot(t);
      if !IsRequireSlot(slot) || leaf.kind.Require? { ExtendSound(t, slot, d); }
    }
  }

  lemma NothingYet()
    ensures Sound([], false) && Sound([], true)
  {
  }

  lemma OpenSound(s: PState, name: string, negated: bool, branch: Branch, text: string)
    requires SoundState(s)
    ensures SoundState(OpenModule(s, name, negated)) && SoundState(PushIf(s, branch, text))
        && SoundState(PushElse(s, branch, text))
  {
    hide Sound, IfSlot, Kids, AfterBranch;
    NothingYet();
  }

  lemma TagsSound(s: PState, line: string)
    requires SoundState(s) && Tags(s, line).Some?
    ensures SoundState(Tags(s, line).value)
  {
    hide SoundState, Closes, OpensIfModule, OpensCondition, OpensBare, OpensNamed, OpensRequire, OpensLimit,
      ClosesIf, CloseModule, CloseIf, CloseMatch, CloseFiles, CloseAny, CloseAll, CloseLimit, OpenModule, PushIf,
      PushElse;
    if s.modules != [] { CloseModuleSound(s); }
    if s.ifs != [] { CloseIfSound(s, line); }
    CloseFilesSound(s);
    CloseRequireSound(s);
    if s.limit.Some? { CloseLimitSound(s); }
    var open := OpensIfModule(line);
    if open.Some? { OpenSound(s, open.value.0, open.value.1, OnElse, ""); }
    OpenSound(s, "", false, OnElse, "");
    var cond, other := OpensCondition(line, "if"), OpensCondition(line, "elseif");
    if cond.Some? { OpenSound(s, "", false, OnIf, cond.value); }
    if other.Some? { OpenSound(s, "", false, OnElseIf, other.value); }
    FreshSound(s);
  }

  /** A container that has just been opened holds nothing. */
  lemma FreshSound(s: PState)
    requires SoundState(s)
    ensures forall b: LimitBlock :: b.children == [] ==> SoundState(s.(limit := Some(b)))
    ensures forall n: Named :: n.children == [] ==>
              SoundState(s.(filesMatch := Some(n))) && SoundState(s.(files := Some(n)))
    ensures SoundState(s.(any := Some([]), innermost := 1)) && SoundState(s.(all := Some([]), innermost := 2))
  {
    hide Sound;
    NothingYet();
  }

  lemma SkippedSound(s: PState, line: string)
    requires SoundState(s) && s.skip > 0
    ensures SoundState(Skipped(s, line))
  {
    hide Sound, OpensCondition, OpensBare, ClosesIf;
  }

  lemma StepSound(syn: Syntax, s: PState, line: string)
    requires SoundState(s)
    ensures SoundState(Step(syn, s, line))
  {
    hide Tags, AddLeaf, SoundState, Skipped;
    if s.skip > 0 { SkippedSound(s, line); }
    if Tags(s, line).Some? { TagsSound(s, line); }
    var leaf := syn.read(line);
    if leaf.Some? { AddLeafSound(s, leaf.value); }
  }

  lemma {:induction false} FeedSound(syn: Syntax, s: PState, text: string)
    requires SoundState(s)
    ensures SoundState(Feed(syn, s, text))
    decreases |text|
  {
    hide SoundState, Step, Trim, Find;
    if text != "" {
      var eol := Find(text, "\n");
      if eol.None? {
        StepSound(syn, s, Trim(text));
      } else {
        StepSound(syn, s, Trim(text[..eol.value]));
        FeedSound(syn, Step(syn, s, Trim(text[..eol.value])), text[eol.value + 1..]);
      }
    }
  }

  /** Every text, under every leaf syntax, parses to a sound tree. */
  lemma ParsedIsSound(syn: Syntax, content: string)
    ensures Sound(Parse(syn, content), false)
  {
    hide Feed;
    NothingYet();
    FeedSound(syn, Start, CString(content));
  }
}
