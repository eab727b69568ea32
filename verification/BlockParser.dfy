/**
 * The parser and the printer as the code runs them: flags, child lists and two
 * stacks of sixteen frames changed line by line, and a buffer that is appended
 * to while the tree is walked.
 */
module BlockParser {
  import opened Text
  import Expr
  import ExprParser
  import opened Blocks
  import BlockScan

  class Parser {
    const syn: Syntax
    var top: seq<Directive>

    var inFilesMatch: bool
    var fmPattern: string
    var fmChildren: seq<Directive>

    var inFiles: bool
    var filesName: string
    var filesChildren: seq<Directive>

    var inRequireAny: bool
    var anyChildren: seq<Directive>
    var inRequireAll: bool
    var allChildren: seq<Directive>
    var requireInnermost: nat

    var inLimit: bool
    var limitExcept: bool
    var limitMethods: string
    var limitChildren: seq<Directive>

    const modules: array<ModuleFrame>
    var moduleDepth: nat
    const ifs: array<IfFrame>
    var ifDepth: nat

    var pendingConds: seq<Leaf>
    var skipIfDepth: nat

    ghost predicate Valid()
      reads this
    {
      && modules.Length == MAX_IFMODULE_DEPTH && moduleDepth <= MAX_IFMODULE_DEPTH
      && ifs.Length == MAX_IF_DEPTH && ifDepth <= MAX_IF_DEPTH
    }

    ghost function View(): PState
      reads this, modules, ifs
      requires Valid()
    {
      PState(
        top, modules[..moduleDepth],
        if inLimit then Some(LimitBlock(limitExcept, limitMethods, limitChildren)) else None,
        if inRequireAny then Some(anyChildren) else None,
        if inRequireAll then Some(allChildren) else None,
        requireInnermost,
        if inFilesMatch then Some(Named(fmPattern, fmChildren)) else None,
        if inFiles then Some(Named(filesName, filesChildren)) else None,
        ifs[..ifDepth], pendingConds, skipIfDepth)
    }

    constructor (syn: Syntax)
      ensures Valid() && View() == Start && this.syn == syn && fresh(modules) && fresh(ifs)
    {
      this.syn := syn;
      top, pendingConds, skipIfDepth := [], [], 0;
      inFilesMatch, fmPattern, fmChildren := false, "", [];
      inFiles, filesName, filesChildren := false, "", [];
      inRequireAny, anyChildren, inRequireAll, allChildren, requireInnermost := false, [], false, [], 0;
      inLimit, limitExcept, limitMethods, limitChildren := false, false, "", [];
      var unused := ModuleFrame("", false, [], 0, false, false, false, false, false);
      modules := new ModuleFrame[MAX_IFMODULE_DEPTH](_ => unused);
      ifs := new IfFrame[MAX_IF_DEPTH](_ => IfFrame(OnIf, "", []));
      moduleDepth, ifDepth := 0, 0;
    }

    // ---------------------------------------------------------------- appending

    method AppendToIf(d: Directive)
      requires Valid() && ifDepth > 0
      modifies ifs
      ensures View() == Extend(old(View()), SIf, [d])
    {
      ghost var before := ifs[..ifDepth];
      var f := ifs[ifDepth - 1];
      ifs[ifDepth - 1] := f.(children := f.children + [d]);
      assert ifs[..ifDepth] == before[ifDepth - 1 := f.(children := f.children + [d])];
    }

    method AppendToModuleOrTop(d: Directive)
      requires Valid()
      modifies this`top, modules
      ensures View() == Extend(old(View()), ModuleOrTop(old(View())), [d])
    {
      if moduleDepth > 0 {
        ghost var before := modules[..moduleDepth];
        var f := modules[moduleDepth - 1];
        modules[moduleDepth - 1] := f.(children := f.children + [d]);
        assert modules[..moduleDepth] == before[moduleDepth - 1 := f.(children := f.children + [d])];
      } else {
        top := top + [d];
      }
    }

    method AppendToLimitOrOuter(d: Directive)
      requires Valid()
      modifies this`limitChildren, this`top, modules
      ensures View() == Extend(old(View()), LimitOrOuter(old(View())), [d])
    {
      if inLimit {
        limitChildren := limitChildren + [d];
      } else {
        AppendToModuleOrTop(d);
      }
    }

    method AppendToRequireOrOuter(d: Directive)
      requires Valid()
      modifies this`anyChildren, this`allChildren, this`limitChildren, this`top, modules
      ensures View() == Extend(old(View()), RequireOrOuter(old(View())), [d])
    {
      hide LimitOrOuter;
      if inRequireAny {
        anyChildren := anyChildren + [d];
      } else if inRequireAll {
        allChildren := allChildren + [d];
      } else {
        AppendToLimitOrOuter(d);
      }
    }

    /** The chain for a closed If or IfModule. */
    method AppendBlock(d: Directive)
      requires Valid()
      modifies this`fmChildren, this`filesChildren, this`anyChildren, this`allChildren, this`limitChildren,
          this`top, modules, ifs
      ensures View() == Extend(old(View()), IfSlot(old(View())), [d])
    {
      hide RequireOrOuter;
      if ifDepth > 0 {
        AppendToIf(d);
      } else if inFilesMatch {
        fmChildren := fmChildren + [d];
      } else if inFiles {
        filesChildren := filesChildren + [d];
      } else {
        AppendToRequireOrOuter(d);
      }
    }

    // ----------------------------------------------------------------- IfModule

    /** Containers that the closing IfModule did not find open are dropped. */
    method Sweep(f: ModuleFrame)
      requires Valid()
      modifies this`inFilesMatch, this`inFiles, this`pendingConds, this`inRequireAny, this`inRequireAll, this`inLimit,
        this`ifDepth
      ensures Valid() && View() == Swept(old(View()), f)
    {
      ghost var s := View();
      SweepFlags(f);
      PopIfs(f.savedIfs);
      assert ifs[..ifDepth] == s.ifs[..ifDepth] && s.ifs[..|s.ifs|] == s.ifs;
    }

    method SweepFlags(f: ModuleFrame)
      modifies this`inFilesMatch, this`inFiles, this`pendingConds, this`inRequireAny, this`inRequireAll, this`inLimit
      ensures inFilesMatch == (old(inFilesMatch) && f.savedMatch)
      ensures inFiles == (old(inFiles) && f.savedFiles)
      ensures inRequireAny == (old(inRequireAny) && f.savedAny)
      ensures inRequireAll == (old(inRequireAll) && f.savedAll)
      ensures inLimit == (old(inLimit) && f.savedLimit)
      ensures pendingConds == []
    {
      if inFilesMatch && !f.savedMatch { inFilesMatch := false; }
      if inFiles && !f.savedFiles { inFiles := false; }
      pendingConds := [];
      if inRequireAny && !f.savedAny { inRequireAny := false; }
      if inRequireAll && !f.savedAll { inRequireAll := false; }
      if inLimit && !f.savedLimit { inLimit := false; }
    }

    method PopIfs(saved: nat)
      requires Valid()
      modifies this`ifDepth
      ensures ifDepth == if saved < old(ifDepth) then saved else old(ifDepth)
    {
      while ifDepth > saved
        invariant ifDepth == old(ifDepth) || saved <= ifDepth < old(ifDepth)
      {
        ifDepth := ifDepth - 1;
      }
    }

    method ModuleClose()
      requires Valid() && moduleDepth > 0
      modifies this, modules, ifs
      ensures Valid() && View() == CloseModule(old(View()))
    {
      hide IfSlot, Extend, Swept;
      var f := modules[moduleDepth - 1];
      ghost var s := View();
      Sweep(f);
      SweptKeeps(s, f);
      ghost var swept := View();
      moduleDepth := moduleDepth - 1;
      ghost var t := View();
      assert t == swept.(modules := s.modules[..|s.modules| - 1]);
      assert f == s.modules[|s.modules| - 1];
      AppendBlock(IfModule(f.name, f.negated, f.children));
      assert View() == Extend(t, IfSlot(t), [IfModule(f.name, f.negated, f.children)]);
    }

    method ModuleOpen(name: string, negated: bool)
      requires Valid()
      modifies this`moduleDepth, modules
      ensures Valid() && View() == OpenModule(old(View()), name, negated)
    {
      if moduleDepth < MAX_IFMODULE_DEPTH {
        ghost var before := modules[..moduleDepth];
        modules[moduleDepth] :=
          ModuleFrame(name, negated, [], ifDepth, inFiles, inFilesMatch, inRequireAny, inRequireAll, inLimit);
        moduleDepth := moduleDepth + 1;
        assert modules[..moduleDepth] == before + [modules[moduleDepth - 1]];
      }
    }

    // --------------------------------------------------------- If, ElseIf, Else

    static method Mismatch(line: string, branch: Branch) returns (mismatch: bool)
      ensures mismatch == Mismatched(line, branch)
    {
      hide Closes;
      mismatch := false;
      var close := BlockScan.IsClose(line, "if");
      if close {
        if !branch.OnIf? { mismatch := true; }
        return;
      }
      close := BlockScan.IsClose(line, "elseif");
      if close {
        if !branch.OnElseIf? { mismatch := true; }
      } else {
        if !branch.OnElse? { mismatch := true; }
      }
    }

    method IfClose(line: string)
      requires Valid() && ifDepth > 0
      modifies this, modules, ifs
      ensures Valid() && View() == Blocks.CloseIf(old(View()), line)
    {
      hide IfSlot, Extend, Mismatched, Expr.Parse;
      var f := ifs[ifDepth - 1];
      ghost var s := View();
      assert f == s.ifs[|s.ifs| - 1];
      var mismatch := Mismatch(line, f.branch);
      var condition := None;
      if !f.branch.OnElse? {
        condition := ExprParser.ExprParse(f.text);
      }
      ifDepth := ifDepth - 1;
      ghost var t := View();
      assert t == s.(ifs := s.ifs[..|s.ifs| - 1]);
      if mismatch {
        return;
      }
      BranchDone(Cond(f.branch, condition, f.children));
    }

    method BranchDone(d: Directive)
      requires Valid()
      modifies this`fmChildren, this`filesChildren, this`anyChildren, this`allChildren, this`limitChildren, this`top,
        this`pendingConds, modules, ifs
      ensures View() == Extend(old(View()), IfSlot(old(View())), [d]).(pending := [])
    {
      hide IfSlot, Extend;
      AppendBlock(d);
      pendingConds := [];
    }

    method IfOpen(branch: Branch, text: string)
      requires Valid()
      modifies this`ifDepth, ifs
      ensures Valid() && View() == PushIf(old(View()), branch, text)
    {
      if ifDepth < MAX_IF_DEPTH {
        ghost var before := ifs[..ifDepth];
        ifs[ifDepth] := IfFrame(branch, text, []);
        ifDepth := ifDepth + 1;
        assert ifs[..ifDepth] == before + [ifs[ifDepth - 1]];
      }
    }

    /** The last directive of the list that a block would be appended to. */
    method PreviousSibling() returns (kids: seq<Directive>)
      requires Valid()
      ensures kids == Kids(View(), IfSlot(View()))
    {
      if ifDepth > 0 {
        kids := ifs[ifDepth - 1].children;
      } else if inFilesMatch {
        kids := fmChildren;
      } else if inFiles {
        kids := filesChildren;
      } else if inRequireAny {
        kids := anyChildren;
      } else if inRequireAll {
        kids := allChildren;
      } else if inLimit {
        kids := limitChildren;
      } else if moduleDepth > 0 {
        kids := modules[moduleDepth - 1].children;
      } else {
        kids := top;
      }
    }

    method ElseOpen(branch: Branch, text: string)
      requires Valid()
      modifies this`ifDepth, this`skipIfDepth, ifs
      ensures Valid() && View() == PushElse(old(View()), branch, text)
    {
      hide IfSlot, Kids, PushIf;
      var kids := PreviousSibling();
      if kids == [] || !OpenEnded(kids[|kids| - 1]) {
        skipIfDepth := skipIfDepth + 1;
      } else {
        IfOpen(branch, text);
      }
    }

    // ------------------------------------------------------------ other containers

    method FilesBlockClose(d: Directive)
      requires Valid()
      modifies this`pendingConds, this`anyChildren, this`allChildren, this`limitChildren, this`top, modules, ifs
      ensures Valid() && View() == Extend(old(View()), FilesSlot(old(View())), [d]).(pending := [])
    {
      hide RequireOrOuter;
      if ifDepth > 0 {
        AppendToIf(d);
      } else {
        AppendToRequireOrOuter(d);
      }
      pendingConds := [];
    }

    method RequireClose(d: Directive, any: bool)
      requires Valid()
      modifies this`pendingConds, this`fmChildren, this`filesChildren, this`anyChildren, this`allChildren,
        this`limitChildren, this`top, modules, ifs
      ensures Valid() && View() == Extend(old(View()), RequireSlot(old(View()), any), [d]).(pending := [])
    {
      hide Extend, RequireSlot;
      AppendRequire(d, any);
      pendingConds := [];
    }

    method AppendRequire(d: Directive, any: bool)
      requires Valid()
      modifies this`fmChildren, this`filesChildren, this`anyChildren, this`allChildren, this`limitChildren, this`top,
        modules, ifs
      ensures View() == Extend(old(View()), RequireSlot(old(View()), any), [d])
    {
      hide LimitOrOuter;
      if ifDepth > 0 {
        AppendToIf(d);
      } else if any && inRequireAll {
        allChildren := allChildren + [d];
      } else if !any && inRequireAny {
        anyChildren := anyChildren + [d];
      } else if inFiles {
        filesChildren := filesChildren + [d];
      } else if inFilesMatch {
        fmChildren := fmChildren + [d];
      } else {
        AppendToLimitOrOuter(d);
      }
    }

    method LimitClose(d: Directive)
      requires Valid()
      modifies this`pendingConds, this`fmChildren, this`filesChildren, this`top, modules, ifs
      ensures Valid() && View() == Extend(old(View()), LimitSlot(old(View())), [d]).(pending := [])
    {
      hide ModuleOrTop;
      if ifDepth > 0 {
        AppendToIf(d);
      } else if inFilesMatch {
        fmChildren := fmChildren + [d];
      } else if inFiles {
        filesChildren := filesChildren + [d];
      } else {
        AppendToModuleOrTop(d);
      }
      pendingConds := [];
    }

    // -------------------------------------------------------------------- tag lines

    method ModuleTag(line: string) returns (done: bool)
      requires Valid()
      modifies this, modules, ifs
      ensures Valid()
      ensures var t := ModuleTags(old(View()), line); done == t.Some? && View() == if done then t.value else old(View())
    {
      hide CloseModule, OpenModule, Closes, OpensIfModule;
      var close := BlockScan.IsClose(line, "ifmodule");
      if moduleDepth > 0 && close {
        ModuleClose();
        return true;
      }
      var open := BlockScan.ModuleOpen(line);
      if open.Some? { ModuleOpen(open.value.0, open.value.1); }
      return open.Some?;
    }

    method IfTag(line: string) returns (done: bool)
      requires Valid()
      modifies this, modules, ifs
      ensures Valid()
      ensures var t := IfTags(old(View()), line); done == t.Some? && View() == if done then t.value else old(View())
    {
      hide CloseIf, PushIf, PushElse, ClosesIf, OpensCondition, OpensBare;
      var close := BlockScan.IsIfClose(line);
      if ifDepth > 0 && close {
        IfClose(line);
        return true;
      }
      var cond := BlockScan.ConditionOpen(line, "if");
      if cond.Some? {
        IfOpen(OnIf, cond.value);
        return true;
      }
      var other := BlockScan.ConditionOpen(line, "elseif");
      if other.Some? {
        ElseOpen(OnElseIf, other.value);
        return true;
      }
      var bare := BlockScan.IsBareOpen(line, "else");
      if bare { ElseOpen(OnElse, ""); }
      return bare;
    }

    method MatchClose()
      requires Valid() && inFilesMatch
      modifies this, modules, ifs
      ensures Valid() && View() == CloseMatch(old(View()))
    {
      hide Extend, FilesSlot;
      inFilesMatch := false;
      FilesBlockClose(FilesMatch(fmPattern, fmChildren));
    }

    method FilesClose()
      requires Valid() && inFiles
      modifies this, modules, ifs
      ensures Valid() && View() == CloseFiles(old(View()))
    {
      hide Extend, FilesSlot;
      inFiles := false;
      FilesBlockClose(Files(filesName, filesChildren));
    }

    method FilesTag(line: string) returns (done: bool)
      requires Valid()
      modifies this, modules, ifs
      ensures Valid()
      ensures var t := FilesTags(old(View()), line); done == t.Some? && View() == if done then t.value else old(View())
    {
      hide FilesTags, Closes, OpensNamed;
      var matchClose, pattern, filesClose, name := BlockScan.FilesTag(line);
      done := ActOnFiles(line, matchClose, pattern, filesClose, name);
    }

    method ActOnFiles(
        ghost line: string, matchClose: bool, pattern: Option<string>, filesClose: bool, name: Option<string>)
      returns (done: bool)
      requires Valid()
      requires matchClose == Closes(line, "filesmatch") && pattern == OpensNamed(line, "filesmatch")
      requires filesClose == Closes(line, "files") && name == OpensNamed(line, "files")
      modifies this, modules, ifs
      ensures Valid()
      ensures var t := FilesTags(old(View()), line); done == t.Some? && View() == if done then t.value else old(View())
    {
      hide Closes, OpensNamed, CloseMatch, CloseFiles;
      if inFilesMatch && matchClose {
        MatchClose();
        return true;
      }
      if !inFilesMatch && !inFiles && pattern.Some? {
        inFilesMatch, fmPattern, fmChildren := true, pattern.value, [];
        return true;
      }
      if inFiles && filesClose {
        FilesClose();
        return true;
      }
      if !inFilesMatch && !inFiles && name.Some? {
        inFiles, filesName, filesChildren := true, name.value, [];
        return true;
      }
      return false;
    }

    method AnyClose()
      requires Valid() && inRequireAny
      modifies this, modules, ifs
      ensures Valid() && View() == CloseAny(old(View()))
    {
      hide Extend, RequireSlot;
      ghost var s := View();
      inRequireAny, requireInnermost := false, if inRequireAll then 2 else 0;
      assert View() == s.(any := None, innermost := if s.all.Some? then 2 else 0);
      RequireClose(RequireBlock(true, anyChildren), true);
    }

    method AllClose()
      requires Valid() && inRequireAll
      modifies this, modules, ifs
      ensures Valid() && View() == CloseAll(old(View()))
    {
      hide Extend, RequireSlot;
      ghost var s := View();
      inRequireAll, requireInnermost := false, if inRequireAny then 1 else 0;
      assert View() == s.(all := None, innermost := if s.any.Some? then 1 else 0);
      RequireClose(RequireBlock(false, allChildren), false);
    }

    method RequireTag(line: string) returns (done: bool)
      requires Valid()
      modifies this, modules, ifs
      ensures Valid()
      ensures var t := RequireTags(old(View()), line);
              done == t.Some? && View() == if done then t.value else old(View())
    {
      hide Closes, OpensRequire, CloseAny, CloseAll;
      var anyClose, anyOpen, allClose, allOpen := BlockScan.RequireTag(line);
      if inRequireAny && anyClose {
        AnyClose();
        return true;
      }
      if !inRequireAny && anyOpen {
        inRequireAny, requireInnermost, anyChildren := true, 1, [];
        return true;
      }
      if inRequireAll && allClose {
        AllClose();
        return true;
      }
      if !inRequireAll && allOpen {
        inRequireAll, requireInnermost, allChildren := true, 2, [];
        return true;
      }
      return false;
    }

    method LimitTag(line: string) returns (done: bool)
      requires Valid()
      modifies this, modules, ifs
      ensures Valid()
      ensures var t := LimitTags(old(View()), line); done == t.Some? && View() == if done then t.value else old(View())
    {
      hide Closes, OpensLimit, Extend, LimitSlot;
      if inLimit && !inRequireAny && !inRequireAll {
        var close := BlockScan.IsClose(line, if limitExcept then "limitexcept" else "limit");
        if close {
          inLimit := false;
          LimitClose(Limit(limitExcept, limitMethods, limitChildren));
          return true;
        }
      }
      if !inLimit && !inRequireAny && !inRequireAll {
        var methods := BlockScan.LimitOpen(line, "limitexcept");
        if methods.Some? {
          inLimit, limitExcept, limitMethods, limitChildren := true, true, methods.value, [];
          return true;
        }
        methods := BlockScan.LimitOpen(line, "limit");
        if methods.Some? {
          inLimit, limitExcept, limitMethods, limitChildren := true, false, methods.value, [];
          return true;
        }
      }
      return false;
    }

    // ------------------------------------------------------------------------ leaves

    method AppendLeaf(d: Directive)
      requires Valid() && d.Plain?
      modifies this`fmChildren, this`filesChildren, this`anyChildren, this`allChildren, this`limitChildren,
          this`top, modules, ifs
      ensures var slot := LeafSlot(old(View()));
              View() == if (slot.SAny? || slot.SAll?) && !d.leaf.kind.Require? then old(View())
                        else Extend(old(View()), slot, [d])
    {
      hide LimitOrOuter, ModuleOrTop;
      LimitSlots(View());
      if ifDepth > 0 {
        AppendToIf(d);
      } else if inFilesMatch {
        fmChildren := fmChildren + [d];
      } else if inFiles {
        filesChildren := filesChildren + [d];
      } else if inRequireAny && requireInnermost == 1 {
        if d.leaf.kind.Require? { anyChildren := anyChildren + [d]; }
      } else if inRequireAll {
        if d.leaf.kind.Require? { allChildren := allChildren + [d]; }
      } else {
        AppendToLimitOrOuter(d);
      }
    }

    method AddLine(leaf: Leaf)
      requires Valid()
      modifies this, modules, ifs
      ensures Valid() && View() == AddLeaf(old(View()), leaf)
    {
      hide LeafSlot, Extend;
      if leaf.kind.RewriteCond? {
        pendingConds := pendingConds + [leaf];
        return;
      }
      var d := Plain(leaf, []);
      if leaf.kind.RewriteRule? {
        d := Plain(leaf, pendingConds);
        pendingConds := [];
      }
      AppendLeaf(d);
    }

    // ------------------------------------------------------------------------- lines

    method AnyTag(line: string) returns (done: bool)
      requires Valid()
      modifies this, modules, ifs
      ensures Valid()
      ensures var t := Tags(old(View()), line); done == t.Some? && View() == if done then t.value else old(View())
    {
      hide ModuleTags, IfTags, FilesTags, RequireTags, LimitTags;
      done := ModuleTag(line);
      if done {
        return;
      }
      done := IfTag(line);
      if done {
        return;
      }
      done := FilesTag(line);
      if done {
        return;
      }
      done := RequireTag(line);
      if done {
        return;
      }
      done := LimitTag(line);
    }

    /** A line of an If block that is skipped as a whole. */
    method SkippedLine(line: string)
      requires Valid() && skipIfDepth > 0
      modifies this`skipIfDepth
      ensures Valid() && View() == Skipped(old(View()), line)
    {
      hide ClosesIf, OpensCondition, OpensBare;
      var cond := BlockScan.ConditionOpen(line, "if");
      var other := BlockScan.ConditionOpen(line, "elseif");
      var bare := BlockScan.IsBareOpen(line, "else");
      var close := BlockScan.IsIfClose(line);
      if cond.Some? || other.Some? || bare {
        skipIfDepth := skipIfDepth + 1;
      } else if close {
        skipIfDepth := skipIfDepth - 1;
      }
    }

    method Line(line: string)
      requires Valid()
      modifies this, modules, ifs
      ensures Valid() && View() == Step(syn, old(View()), line)
    {
      hide Tags, ClosesIf, OpensCondition, OpensBare, AddLeaf;
      if line == "" || line[0] == '#' {
        return;
      }
      if skipIfDepth > 0 {
        SkippedLine(line);
        return;
      }
      var done := AnyTag(line);
      if done {
        return;
      }
      var leaf := syn.read(line);
      if leaf.Some? { AddLine(leaf.value); }
    }
  }

  lemma LimitSlots(s: PState)
    ensures var slot := LimitOrOuter(s); slot.SLimit? || slot.SModule? || slot.STop?
  {
  }

  lemma SweptKeeps(s: PState, f: ModuleFrame)
    ensures Swept(s, f).modules == s.modules
  {
  }

  method Trimmed(line: string) returns (r: string)
    ensures r == Trim(line)
  {
    var end := ExprParser.TrimmedEnd(line);
    var start := ExprParser.SpaceEnd(line[..end]);
    r := line[..end][start..];
  }

  /** htaccess_parse. */
  method HtaccessParse(syn: Syntax, content: string) returns (head: seq<Directive>)
    ensures head == Parse(syn, content)
  {
    hide Step, Trim;
    var parser := new Parser(syn);
    var cur := CString(content);
    while cur != ""
      invariant parser.Valid() && parser.syn == syn && fresh(parser) && fresh(parser.modules) && fresh(parser.ifs)
      invariant Feed(syn, parser.View(), cur) == Feed(syn, Start, CString(content))
      decreases |cur|
    {
      var eol := ExprParser.MemChr(cur, '\n', 0);
      var line := Trimmed(if eol.Some? then cur[..eol.value] else cur);
      parser.Line(line);
      cur := if eol.Some? then cur[eol.value + 1..] else "";
    }
    head := parser.top;
  }

  // --------------------------------------------------------------------- the printer

  lemma {:induction false} PrintSnoc(syn: Syntax, ds: seq<Directive>, i: nat)
    requires i < |ds|
    ensures PrintAll(syn, ds[..i + 1]) == PrintAll(syn, ds[..i]) + (Print(syn, ds[i]) + "\n")
    decreases i
  {
    hide Print;
    if i == 0 {
      assert ds[..1] == [ds[0]];
      assert PrintAll(syn, [ds[0]]) == Print(syn, ds[0]) + "\n" + PrintAll(syn, []);
    } else {
      PrintSnoc(syn, ds[1..], i - 1);
      assert ds[..i + 1][1..] == ds[1..][..i] && ds[..i][1..] == ds[1..][..i - 1];
      assert ds[..i + 1][0] == ds[0] == ds[..i][0];
    }
  }

  lemma {:induction false} LinesSnoc(syn: Syntax, cs: seq<Leaf>, i: nat)
    requires i < |cs|
    ensures PrintLines(syn, cs[..i + 1]) == PrintLines(syn, cs[..i]) + (syn.write(cs[i]) + "\n")
    decreases i
  {
    if i == 0 {
      assert cs[..1] == [cs[0]];
    } else {
      LinesSnoc(syn, cs[1..], i - 1);
      assert cs[..i + 1][1..] == cs[1..][..i] && cs[..i][1..] == cs[1..][..i - 1];
    }
  }

  /** print_directive. */
  method PrintDirective(syn: Syntax, sb: ExprParser.StrBuf, d: Directive)
    requires sb.Valid()
    modifies sb, sb.buf
    ensures sb.Valid() && (sb.buf == old(sb.buf) || fresh(sb.buf))
    ensures sb.Text() == old(sb.Text()) + Print(syn, d)
    decreases d, 1
  {
    hide ExprParser.StrBuf.Text, ExprParser.StrBuf.Valid, OpenLine, CloseLine, PrintAll, PrintLines;
    if d.Plain? {
      if d.leaf.kind.RewriteRule? { PrintConditions(syn, sb, d.conditions); }
      sb.Append(syn.write(d.leaf));
    } else {
      PrintTag(sb, d);
      sb.Append("\n");
      PrintChildren(syn, sb, d.children);
      sb.Append(CloseLine(d));
    }
  }

  method PrintConditions(syn: Syntax, sb: ExprParser.StrBuf, cs: seq<Leaf>)
    requires sb.Valid()
    modifies sb, sb.buf
    ensures sb.Valid() && (sb.buf == old(sb.buf) || fresh(sb.buf))
    ensures sb.Text() == old(sb.Text()) + PrintLines(syn, cs)
  {
    hide ExprParser.StrBuf.Text, ExprParser.StrBuf.Valid;
    var i := 0;
    while i < |cs|
      invariant i <= |cs| && sb.Valid() && (sb.buf == old(sb.buf) || fresh(sb.buf))
      invariant sb.Text() == old(sb.Text()) + PrintLines(syn, cs[..i])
    {
      sb.Append(syn.write(cs[i]));
      sb.Append("\n");
      LinesSnoc(syn, cs, i);
      i := i + 1;
    }
    assert cs[..i] == cs;
  }

  /** Each child on its own line. */
  method PrintChildren(syn: Syntax, sb: ExprParser.StrBuf, ds: seq<Directive>)
    requires sb.Valid()
    modifies sb, sb.buf
    ensures sb.Valid() && (sb.buf == old(sb.buf) || fresh(sb.buf))
    ensures sb.Text() == old(sb.Text()) + PrintAll(syn, ds)
    decreases ds
  {
    hide ExprParser.StrBuf.Text, ExprParser.StrBuf.Valid, Print;
    var i := 0;
    while i < |ds|
      invariant i <= |ds| && sb.Valid() && (sb.buf == old(sb.buf) || fresh(sb.buf))
      invariant sb.Text() == old(sb.Text()) + PrintAll(syn, ds[..i])
    {
      PrintDirective(syn, sb, ds[i]);
      sb.Append("\n");
      PrintSnoc(syn, ds, i);
      i := i + 1;
    }
    assert ds[..i] == ds;
  }

  method PrintTag(sb: ExprParser.StrBuf, d: Directive)
    requires sb.Valid() && !d.Plain?
    modifies sb, sb.buf
    ensures sb.Valid() && (sb.buf == old(sb.buf) || fresh(sb.buf))
    ensures sb.Text() == old(sb.Text()) + OpenLine(d)
  {
    hide ExprParser.StrBuf.Text, ExprParser.StrBuf.Valid, Keyword, Middle;
    ExprParser.Assoc(sb.Text(), "<", Keyword(d), Middle(d), ">");
    sb.Append("<");
    sb.Append(Keyword(d));
    PrintMiddle(sb, d);
    sb.Append(">");
  }

  method PrintMiddle(sb: ExprParser.StrBuf, d: Directive)
    requires sb.Valid() && !d.Plain?
    modifies sb, sb.buf
    ensures sb.Valid() && (sb.buf == old(sb.buf) || fresh(sb.buf))
    ensures sb.Text() == old(sb.Text()) + Middle(d)
  {
    hide ExprParser.StrBuf.Text, ExprParser.StrBuf.Valid, NameText, Expr.Print;
    match d {
      case IfModule(name, _, _) => PrintName(sb, name);
      case Files(name, _) => PrintName(sb, name);
      case Limit(_, methods, _) =>
        ExprParser.Assoc(sb.Text(), " ", methods, "", "");
        sb.Append(" ");
        sb.Append(methods);
      case RequireBlock(_, _) =>
      case FilesMatch(pattern, _) => PrintQuoted(sb, pattern);
      case Cond(branch, condition, _) =>
        if !branch.OnElse? && condition.Some? {
          var text := ExprParser.ExprToString(condition.value);
          PrintQuoted(sb, text);
        }
    }
  }

  method PrintQuoted(sb: ExprParser.StrBuf, text: string)
    requires sb.Valid()
    modifies sb, sb.buf
    ensures sb.Valid() && (sb.buf == old(sb.buf) || fresh(sb.buf))
    ensures sb.Text() == old(sb.Text()) + (" \"" + text + "\"")
  {
    hide ExprParser.StrBuf.Text, ExprParser.StrBuf.Valid;
    ExprParser.Assoc(sb.Text(), " \"", text, "\"", "");
    sb.Append(" \"");
    sb.Append(text);
    sb.Append("\"");
  }

  /** A name in quotes when it holds a space. */
  method PrintName(sb: ExprParser.StrBuf, name: string)
    requires sb.Valid()
    modifies sb, sb.buf
    ensures sb.Valid() && (sb.buf == old(sb.buf) || fresh(sb.buf))
    ensures sb.Text() == old(sb.Text()) + (" " + NameText(name))
  {
    hide ExprParser.StrBuf.Text, ExprParser.StrBuf.Valid, Find, NameText;
    ghost var was := sb.Text();
    var space := ExprParser.MemChr(name, ' ', 0);
    FindChar(name, ' ');
    sb.Append(" ");
    if space.Some? { sb.Append("\""); }
    sb.Append(name);
    if space.Some? { sb.Append("\""); }
    NamePieces(was, name);
  }

  lemma NamePieces(was: string, name: string)
    ensures was + (" " + NameText(name))
         == if ' ' in name then was + " " + "\"" + name + "\"" else was + " " + name
  {
  }

  /** htaccess_print: a line break between directives and one at the end; nothing for an empty list. */
  method HtaccessPrint(syn: Syntax, ds: seq<Directive>) returns (text: Option<string>)
    ensures text == if ds == [] then None else Some(PrintAll(syn, ds))
  {
    hide Print;
    if ds == [] {
      return None;
    }
    var sb := new ExprParser.StrBuf();
    var i := 0;
    while i < |ds|
      invariant i <= |ds| && sb.Valid() && fresh(sb) && fresh(sb.buf)
      invariant if i == 0 then sb.Text() == "" else sb.Text() + "\n" == PrintAll(syn, ds[..i])
    {
      ghost var before := sb.Text();
      if i > 0 { sb.Append("\n"); }
      PrintDirective(syn, sb, ds[i]);
      PrintSnoc(syn, ds, i);
      i := i + 1;
    }
    assert ds[..i] == ds;
    sb.Append("\n");
    return Some(sb.buf[..sb.len]);
  }
}
