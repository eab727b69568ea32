/**
 * The block parser: recognisers of the container tags, the flags and small
 * stacks that stand for the nesting, and the fixed priority by which a finished
 * directive finds the list it belongs to. Leaf lines are an abstract syntax.
 */
module Blocks {
  import opened Text
  import Expr

  // ------------------------------------------------------------------ directives

  datatype LeafKind = RewriteCond | RewriteRule | Require | Other

  /** A directive without a body; `body` stands for all that its own line format holds. */
  datatype Leaf = Leaf(kind: LeafKind, body: string)

  /** The line formats: parse_line and the leaf cases of print_directive. */
  datatype Syntax = Syntax(read: string -> Option<Leaf>, write: Leaf -> string)

  datatype Branch = OnIf | OnElseIf | OnElse

  datatype Directive =
    | Plain(leaf: Leaf, conditions: seq<Leaf>)
    | FilesMatch(pattern: string, children: seq<Directive>)
    | Files(name: string, children: seq<Directive>)
    | IfModule(name: string, negated: bool, children: seq<Directive>)
    | Cond(branch: Branch, condition: Option<Expr.Expr>, children: seq<Directive>)
    | RequireBlock(any: bool, children: seq<Directive>)
    | Limit(except: bool, methods: string, children: seq<Directive>)

  /** What an ElseIf or Else may follow. */
  predicate OpenEnded(d: Directive) { d.Cond? && !d.branch.OnElse? }

  // ----------------------------------------------------------------- recognisers

  /** The text after '<'. */
  function Tag(line: string): (r: Option<string>)
    ensures r.Some? ==> |r.value| < |line|
  {
    var p := Expr.SkipSpace(line);
    if p != "" && p[0] == '<' then Some(p[1..]) else None
  }

  /** match_kw: a keyword, then a space or the end. */
  function MatchKw(p: string, kw: string): Option<string> {
    if StartsNoCase(p, kw) && (|p| == |kw| || IsSpace(p[|kw|])) then Some(p[|kw|..]) else None
  }

  /** Optional spaces and the '>' of a tag. */
  predicate EndsTag(p: string) {
    var q := Expr.SkipSpace(p);
    q != "" && q[0] == '>'
  }

  /** "</keyword>"; a longer keyword does not match, since its next letter is not '>'. */
  predicate Closes(line: string, kw: string) {
    var t := Tag(line);
    t.Some? && t.value != "" && t.value[0] == '/' && StartsNoCase(t.value[1..], kw) && EndsTag(t.value[1..][|kw|..])
  }

  /** "<keyword>". */
  predicate OpensBare(line: string, kw: string) {
    var t := Tag(line);
    t.Some? && StartsNoCase(t.value, kw) && EndsTag(t.value[|kw|..])
  }

  /** RequireAny and RequireAll also take spaces before the keyword. */
  predicate OpensRequire(line: string, kw: string) {
    var t := Tag(line);
    t.Some? && StartsNoCase(Expr.SkipSpace(t.value), kw) && EndsTag(Expr.SkipSpace(t.value)[|kw|..])
  }

  predicate NameChar(c: char) { c != '>' && !IsSpace(c) }

  /** A quoted or unquoted argument up to the '>'. */
  function NameArg(p: string): Option<string> {
    if p != "" && p[0] == '"' then
      var close := Find(p, "\"", 1);
      if close.Some? && EndsTag(p[close.value + 1..]) then Some(p[1..close.value]) else None
    else
      var end := Expr.Span(p, 0, NameChar);
      if end > 0 && EndsTag(p[end..]) then Some(p[..end]) else None
  }

  function OpensNamed(line: string, kw: string): Option<string> {
    var t := Tag(line);
    if t.None? then None
    else
      var after := MatchKw(t.value, kw);
      if after.None? then None else NameArg(Expr.SkipSpace(after.value))
  }

  /** The module name keeps its '!' prefix. */
  function OpensIfModule(line: string): Option<(string, bool)> {
    var t := Tag(line);
    if t.None? then None
    else
      var after := MatchKw(t.value, "ifmodule");
      if after.None? then None
      else
        var p := Expr.SkipSpace(after.value);
        var negated := p != "" && p[0] == '!';
        var name := NameArg(if negated then Expr.SkipSpace(p[1..]) else p);
        if name.None? then None
        else Some((if negated then "!" + name.value else name.value, negated))
  }

  /** strrchr. */
  function LastAt(p: string, c: char): (r: Option<nat>)
    ensures r.Some? ==> r.value < |p|
  {
    if p == "" then None else if p[|p| - 1] == c then Some(|p| - 1) else LastAt(p[..|p| - 1], c)
  }

  /** The condition of <If> and <ElseIf>: up to the last '>', without its outer quotes. */
  function OpensCondition(line: string, kw: string): Option<string> {
    var t := Tag(line);
    if t.None? then None
    else
      var after := MatchKw(t.value, kw);
      if after.None? then None
      else
        var p := Expr.SkipSpace(after.value);
        var end := LastAt(p, '>');
        if end.None? || end.value == 0 then None else Some(Expr.Unquoted(Expr.TrimEnd(p[..end.value])))
  }

  /** The methods of <Limit> and <LimitExcept>: up to the first '>'. */
  function OpensLimit(line: string, kw: string): Option<string> {
    var t := Tag(line);
    if t.None? then None
    else
      var p := Expr.SkipSpace(t.value);
      if StartsNoCase(p, kw) && |kw| < |p| && IsSpace(p[|kw|]) then
        var m := Expr.SkipSpace(p[|kw|..]);
        var end := Find(m, ">");
        if end.None? || Expr.TrimEnd(m[..end.value]) == "" then None else Some(Expr.TrimEnd(m[..end.value]))
      else None
  }

  // ------------------------------------------------------------------------ state

  const MAX_IFMODULE_DEPTH: nat := 16
  const MAX_IF_DEPTH: nat := 16

  /** An open <IfModule> with the containers that were open around it. */
  datatype ModuleFrame = ModuleFrame(
    name: string, negated: bool, children: seq<Directive>,
    savedIfs: nat, savedFiles: bool, savedMatch: bool, savedAny: bool, savedAll: bool, savedLimit: bool)

  datatype IfFrame = IfFrame(branch: Branch, text: string, children: seq<Directive>)

  datatype Named = Named(name: string, children: seq<Directive>)

  datatype LimitBlock = LimitBlock(except: bool, methods: string, children: seq<Directive>)

  datatype PState = PState(
    top: seq<Directive>,
    modules: seq<ModuleFrame>,
    limit: Option<LimitBlock>,
    any: Option<seq<Directive>>,
    all: Option<seq<Directive>>,
    innermost: nat,
    filesMatch: Option<Named>,
    files: Option<Named>,
    ifs: seq<IfFrame>,
    pending: seq<Leaf>,
    skip: nat)

  const Start := PState([], [], None, None, None, 0, None, None, [], [], 0)

  /** The lists a directive can go to. */
  datatype Slot = SIf | SMatch | SFiles | SAny | SAll | SLimit | SModule | STop

  predicate Open(s: PState, slot: Slot) {
    match slot
    case SIf => s.ifs != []
    case SMatch => s.filesMatch.Some?
    case SFiles => s.files.Some?
    case SAny => s.any.Some?
    case SAll => s.all.Some?
    case SLimit => s.limit.Some?
    case SModule => s.modules != []
    case STop => true
  }

  function Kids(s: PState, slot: Slot): seq<Directive>
    requires Open(s, slot)
  {
    match slot
    case SIf => s.ifs[|s.ifs| - 1].children
    case SMatch => s.filesMatch.value.children
    case SFiles => s.files.value.children
    case SAny => s.any.value
    case SAll => s.all.value
    case SLimit => s.limit.value.children
    case SModule => s.modules[|s.modules| - 1].children
    case STop => s.top
  }

  /** append_directive, for a run of directives at once. */
  function Extend(s: PState, slot: Slot, ds: seq<Directive>): (t: PState)
    requires Open(s, slot)
    ensures Open(t, slot)
  {
    var kids := Kids(s, slot) + ds;
    match slot
    case SIf => s.(ifs := s.ifs[|s.ifs| - 1 := s.ifs[|s.ifs| - 1].(children := kids)])
    case SMatch => s.(filesMatch := Some(s.filesMatch.value.(children := kids)))
    case SFiles => s.(files := Some(s.files.value.(children := kids)))
    case SAny => s.(any := Some(kids))
    case SAll => s.(all := Some(kids))
    case SLimit => s.(limit := Some(s.limit.value.(children := kids)))
    case SModule => s.(modules := s.modules[|s.modules| - 1 := s.modules[|s.modules| - 1].(children := kids)])
    case STop => s.(top := kids)
  }

  function ModuleOrTop(s: PState): (slot: Slot)
    ensures Open(s, slot)
  {
    if s.modules != [] then SModule else STop
  }

  function LimitOrOuter(s: PState): (slot: Slot)
    ensures Open(s, slot)
  {
    if s.limit.Some? then SLimit else ModuleOrTop(s)
  }

  function RequireOrOuter(s: PState): (slot: Slot)
    ensures Open(s, slot)
  {
    if s.any.Some? then SAny else if s.all.Some? then SAll else LimitOrOuter(s)
  }

  /** Where a closed If, ElseIf, Else or IfModule goes, and where a preceding sibling is looked for. */
  function IfSlot(s: PState): (slot: Slot)
    ensures Open(s, slot)
  {
    if s.ifs != [] then SIf
    else if s.filesMatch.Some? then SMatch
    else if s.files.Some? then SFiles
    else RequireOrOuter(s)
  }

  /** Where a closed FilesMatch or Files goes. */
  function FilesSlot(s: PState): (slot: Slot)
    ensures Open(s, slot)
  {
    if s.ifs != [] then SIf else RequireOrOuter(s)
  }

  /** Where a closed RequireAny or RequireAll goes; the other kind comes before the files blocks. */
  function RequireSlot(s: PState, any: bool): (slot: Slot)
    ensures Open(s, slot)
  {
    if s.ifs != [] then SIf
    else if any && s.all.Some? then SAll
    else if !any && s.any.Some? then SAny
    else if s.files.Some? then SFiles
    else if s.filesMatch.Some? then SMatch
    else LimitOrOuter(s)
  }

  function LimitSlot(s: PState): (slot: Slot)
    ensures Open(s, slot)
  {
    if s.ifs != [] then SIf
    else if s.filesMatch.Some? then SMatch
    else if s.files.Some? then SFiles
    else ModuleOrTop(s)
  }

  /** Where a leaf goes: of the two Require blocks the innermost. */
  function LeafSlot(s: PState): (slot: Slot)
    ensures Open(s, slot)
  {
    if s.ifs != [] then SIf
    else if s.filesMatch.Some? then SMatch
    else if s.files.Some? then SFiles
    else if s.any.Some? && s.innermost == 1 then SAny
    else if s.all.Some? then SAll
    else LimitOrOuter(s)
  }

  // ------------------------------------------------------------------ one line

  /** Containers opened inside the <IfModule> being closed and still open are thrown away. */
  function Swept(s: PState, f: ModuleFrame): PState {
    s.(filesMatch := if f.savedMatch then s.filesMatch else None,
       files := if f.savedFiles then s.files else None,
       pending := [],
       any := if f.savedAny then s.any else None,
       all := if f.savedAll then s.all else None,
       limit := if f.savedLimit then s.limit else None,
       ifs := if f.savedIfs < |s.ifs| then s.ifs[..f.savedIfs] else s.ifs)
  }

  function CloseModule(s: PState): PState
    requires s.modules != []
  {
    var f := s.modules[|s.modules| - 1];
    var t := Swept(s, f).(modules := s.modules[..|s.modules| - 1]);
    Extend(t, IfSlot(t), [IfModule(f.name, f.negated, f.children)])
  }

  function OpenModule(s: PState, name: string, negated: bool): PState {
    if |s.modules| >= MAX_IFMODULE_DEPTH then s
    else
      s.(modules := s.modules + [ModuleFrame(name, negated, [], |s.ifs|, s.files.Some?, s.filesMatch.Some?,
                                             s.any.Some?, s.all.Some?, s.limit.Some?)])
  }

  function ModuleTags(s: PState, line: string): Option<PState> {
    if s.modules != [] && Closes(line, "ifmodule") then Some(CloseModule(s))
    else
      var open := OpensIfModule(line);
      if open.Some? then Some(OpenModule(s, open.value.0, open.value.1)) else None
  }

  predicate ClosesIf(line: string) { Closes(line, "if") || Closes(line, "elseif") || Closes(line, "else") }

  predicate Mismatched(line: string, branch: Branch) {
    if Closes(line, "if") then !branch.OnIf?
    else if Closes(line, "elseif") then !branch.OnElseIf?
    else !branch.OnElse?
  }

  function CloseIf(s: PState, line: string): PState
    requires s.ifs != []
  {
    var f := s.ifs[|s.ifs| - 1];
    var t := s.(ifs := s.ifs[..|s.ifs| - 1]);
    if Mismatched(line, f.branch) then t
    else
      var condition := if f.branch.OnElse? then None else Expr.Parse(f.text);
      Extend(t, IfSlot(t), [Cond(f.branch, condition, f.children)]).(pending := [])
  }

  function PushIf(s: PState, branch: Branch, text: string): PState {
    if |s.ifs| >= MAX_IF_DEPTH then s else s.(ifs := s.ifs + [IfFrame(branch, text, [])])
  }

  /** An If or ElseIf that was just closed in the current list. */
  predicate AfterBranch(s: PState) {
    var kids := Kids(s, IfSlot(s));
    kids != [] && OpenEnded(kids[|kids| - 1])
  }

  /** ElseIf and Else need a branch before them; without one, the block is skipped. */
  function PushElse(s: PState, branch: Branch, text: string): PState {
    if AfterBranch(s) then PushIf(s, branch, text) else s.(skip := s.skip + 1)
  }

  function IfTags(s: PState, line: string): Option<PState> {
    if s.ifs != [] && ClosesIf(line) then Some(CloseIf(s, line))
    else
      var cond := OpensCondition(line, "if");
      if cond.Some? then Some(PushIf(s, OnIf, cond.value))
      else
        var other := OpensCondition(line, "elseif");
        if other.Some? then Some(PushElse(s, OnElseIf, other.value))
        else if OpensBare(line, "else") then Some(PushElse(s, OnElse, ""))
        else None
  }

  function CloseMatch(s: PState): PState
    requires s.filesMatch.Some?
  {
    var t := s.(filesMatch := None);
    Extend(t, FilesSlot(t), [FilesMatch(s.filesMatch.value.name, s.filesMatch.value.children)]).(pending := [])
  }

  function CloseFiles(s: PState): PState
    requires s.files.Some?
  {
    var t := s.(files := None);
    Extend(t, FilesSlot(t), [Files(s.files.value.name, s.files.value.children)]).(pending := [])
  }

  function FilesTags(s: PState, line: string): Option<PState> {
    var free := s.filesMatch.None? && s.files.None?;
    if s.filesMatch.Some? && Closes(line, "filesmatch") then Some(CloseMatch(s))
    else if free && OpensNamed(line, "filesmatch").Some? then
      Some(s.(filesMatch := Some(Named(OpensNamed(line, "filesmatch").value, []))))
    else if s.files.Some? && Closes(line, "files") then Some(CloseFiles(s))
    else if free && OpensNamed(line, "files").Some? then
      Some(s.(files := Some(Named(OpensNamed(line, "files").value, []))))
    else None
  }

  function CloseAny(s: PState): PState
    requires s.any.Some?
  {
    var t := s.(any := None, innermost := if s.all.Some? then 2 else 0);
    Extend(t, RequireSlot(t, true), [RequireBlock(true, s.any.value)]).(pending := [])
  }

  function CloseAll(s: PState): PState
    requires s.all.Some?
  {
    var t := s.(all := None, innermost := if s.any.Some? then 1 else 0);
    Extend(t, RequireSlot(t, false), [RequireBlock(false, s.all.value)]).(pending := [])
  }

  function RequireTags(s: PState, line: string): Option<PState> {
    if s.any.Some? && Closes(line, "requireany") then Some(CloseAny(s))
    else if s.any.None? && OpensRequire(line, "requireany") then Some(s.(any := Some([]), innermost := 1))
    else if s.all.Some? && Closes(line, "requireall") then Some(CloseAll(s))
    else if s.all.None? && OpensRequire(line, "requireall") then Some(s.(all := Some([]), innermost := 2))
    else None
  }

  function CloseLimit(s: PState): PState
    requires s.limit.Some?
  {
    var b := s.limit.value;
    var t := s.(limit := None);
    Extend(t, LimitSlot(t), [Limit(b.except, b.methods, b.children)]).(pending := [])
  }

  function LimitTags(s: PState, line: string): Option<PState> {
    if s.any.Some? || s.all.Some? then None
    else if s.limit.Some? then
      if Closes(line, if s.limit.value.except then "limitexcept" else "limit") then Some(CloseLimit(s)) else None
    else if OpensLimit(line, "limitexcept").Some? then
      Some(s.(limit := Some(LimitBlock(true, OpensLimit(line, "limitexcept").value, []))))
    else if OpensLimit(line, "limit").Some? then
      Some(s.(limit := Some(LimitBlock(false, OpensLimit(line, "limit").value, []))))
    else None
  }

  /** RewriteCond lines wait for their RewriteRule; only Require lines stay in a Require block. */
  function AddLeaf(s: PState, leaf: Leaf): PState {
    if leaf.kind.RewriteCond? then s.(pending := s.pending + [leaf])
    else
      var rule := leaf.kind.RewriteRule?;
      var d := Plain(leaf, if rule then s.pending else []);
      var t := if rule then s.(pending := []) else s;
      var slot := LeafSlot(t);
      if (slot.SAny? || slot.SAll?) && !leaf.kind.Require? then t else Extend(t, slot, [d])
  }

  /** Inside an orphaned ElseIf or Else block only the tags are counted. */
  function Skipped(s: PState, line: string): PState
    requires s.skip > 0
  {
    if OpensCondition(line, "if").Some? || OpensCondition(line, "elseif").Some? || OpensBare(line, "else") then
      s.(skip := s.skip + 1)
    else if ClosesIf(line) then s.(skip := s.skip - 1)
    else s
  }

  function Tags(s: PState, line: string): Option<PState> {
    if ModuleTags(s, line).Some? then ModuleTags(s, line)
    else if IfTags(s, line).Some? then IfTags(s, line)
    else if FilesTags(s, line).Some? then FilesTags(s, line)
    else if RequireTags(s, line).Some? then RequireTags(s, line)
    else LimitTags(s, line)
  }

  function Step(syn: Syntax, s: PState, line: string): PState {
    if line == "" || line[0] == '#' then s
    else if s.skip > 0 then Skipped(s, line)
    else if Tags(s, line).Some? then Tags(s, line).value
    else
      var leaf := syn.read(line);
      if leaf.None? then s else AddLeaf(s, leaf.value)
  }

  function Trim(line: string): string { Expr.SkipSpace(Expr.TrimEnd(line)) }

  /** The loop over the lines of a text. */
  function Feed(syn: Syntax, s: PState, text: string): PState
    decreases |text|
  {
    if text == "" then s
    else
      var eol := Find(text, "\n");
      if eol.None? then Step(syn, s, Trim(text))
      else Feed(syn, Step(syn, s, Trim(text[..eol.value])), text[eol.value + 1..])
  }

  /** htaccess_parse: what is still open at the end is thrown away. */
  function Parse(syn: Syntax, content: string): seq<Directive> {
    Feed(syn, Start, CString(content)).top
  }

  // --------------------------------------------------------------------- printing

  /** IfModule and Files quote a name that holds a space. */
  function NameText(name: string): string { if ' ' in name then "\"" + name + "\"" else name }

  function IfTag(branch: Branch): string {
    if branch.OnIf? then "If" else if branch.OnElseIf? then "ElseIf" else "Else"
  }

  function LimitTag(except: bool): string { if except then "LimitExcept" else "Limit" }

  function RequireTag(any: bool): string { if any then "RequireAny" else "RequireAll" }

  /** The keyword of a container's tags, and what stands between it and the '>'. */
  function Keyword(d: Directive): string
    requires !d.Plain?
  {
    match d
    case IfModule(_, _, _) => "IfModule"
    case Limit(except, _, _) => LimitTag(except)
    case RequireBlock(any, _) => RequireTag(any)
    case FilesMatch(_, _) => "FilesMatch"
    case Files(_, _) => "Files"
    case Cond(branch, _, _) => IfTag(branch)
  }

  function Middle(d: Directive): string
    requires !d.Plain?
  {
    match d
    case IfModule(name, _, _) => " " + NameText(name)
    case Limit(_, methods, _) => " " + methods
    case RequireBlock(_, _) => ""
    case FilesMatch(pattern, _) => " \"" + pattern + "\""
    case Files(name, _) => " " + NameText(name)
    case Cond(branch, c, _) =>
      if branch.OnElse? || c.None? then "" else " \"" + Expr.Print(c.value, false) + "\""
  }

  /** The first and the last line of a container. */
  function OpenLine(d: Directive): string
    requires !d.Plain?
  {
    "<" + Keyword(d) + Middle(d) + ">"
  }

  function CloseLine(d: Directive): string
    requires !d.Plain?
  {
    "</" + Keyword(d) + ">"
  }

  function PrintLines(syn: Syntax, leaves: seq<Leaf>): string {
    if leaves == [] then "" else syn.write(leaves[0]) + "\n" + PrintLines(syn, leaves[1..])
  }

  /** print_directive: a rule's conditions first, a container's children between its tags. */
  function Print(syn: Syntax, d: Directive): string
    decreases d
  {
    if d.Plain? then (if d.leaf.kind.RewriteRule? then PrintLines(syn, d.conditions) else "") + syn.write(d.leaf)
    else OpenLine(d) + "\n" + PrintAll(syn, d.children) + CloseLine(d)
  }

  /** A line break after every directive, as inside a container and as htaccess_print ends up with. */
  function PrintAll(syn: Syntax, ds: seq<Directive>): string
    decreases ds
  {
    if ds == [] then "" else Print(syn, ds[0]) + "\n" + PrintAll(syn, ds[1..])
  }
}
