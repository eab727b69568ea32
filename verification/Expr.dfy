/**
 * The ap_expr engine: tokens, the recursive-descent parser with its depth
 * budget, the printer and the short-circuit evaluator.
 */
module Expr {
  import opened Text

  const MAX_DEPTH: nat := 32

  datatype CmpOp =
    | Eq | Ne | Lt | Gt | Le | Ge | Match | NoMatch
    | IntEq | IntNe | IntLt | IntLe | IntGt | IntGe

  datatype FileOp = FileF | FileD | FileS | FileL | FileE

  datatype Expr =
    | Str(text: string)
    | Var(text: string)
    | Regex(text: string)
    | Int(text: string)
    | Cmp(op: CmpOp, left: Expr, right: Expr)
    | And(left: Expr, right: Expr)
    | Or(left: Expr, right: Expr)
    | Not(operand: Expr)
    | File(test: FileOp, operand: Expr)
    | IpUnary(operand: Expr)
    | IpBinary(left: Expr, right: Expr)
    | Func(lower: bool, operand: Expr)

  predicate IsValue(e: Expr) { e.Str? || e.Var? || e.Regex? || e.Int? }

  // ------------------------------------------------------------------- tokens

  datatype Token =
    | TEof | TError
    | TStr(text: string) | TVar(text: string) | TRegex(text: string) | TInt(text: string)
    | TAnd | TOr | TNot | TCmp(op: CmpOp) | TFile(test: FileOp) | TIp
    | TLParen | TRParen | TFunc(lower: bool)

  predicate IsWordChar(c: char) {
    c != '\0' && !IsSpace(c) && c != '(' && c != ')' && c != '!' && c != '=' && c != '<' && c != '>'
    && c != '&' && c != '|' && c != '\'' && c != '"'
  }

  function SkipSpace(s: string): (r: string)
    ensures |r| <= |s|
    ensures r != "" ==> !IsSpace(r[0])
  {
    if s != "" && IsSpace(s[0]) then SkipSpace(s[1..]) else s
  }

  /** How many characters from `i` on satisfy the class. */
  function Span(s: string, i: nat, p: char -> bool): (j: nat)
    requires i <= |s|
    ensures i <= j <= |s|
    ensures forall k :: i <= k < j ==> p(s[k])
    ensures j < |s| ==> !p(s[j])
    decreases |s| - i
  {
    if i < |s| && p(s[i]) then Span(s, i + 1, p) else i
  }

  /** The end of a regex body: the first '/' that is first or follows anything but a backslash. */
  function RegexEnd(s: string, q: nat): (r: Option<nat>)
    requires 1 <= q
    ensures r.Some? ==> q <= r.value < |s|
    decreases |s| - q
  {
    if q >= |s| then None
    else if s[q] == '/' && (q == 1 || s[q - 1] != '\\') then Some(q)
    else RegexEnd(s, q + 1)
  }

  function Symbol(s: string): Option<(Token, nat)>
    requires s != ""
  {
    var c := s[0];
    var d := if 1 < |s| then s[1] else '\0';
    if c == '(' then Some((TLParen, 1))
    else if c == ')' then Some((TRParen, 1))
    else if c == '&' && d == '&' then Some((TAnd, 2))
    else if c == '|' && d == '|' then Some((TOr, 2))
    else if c == '=' && d == '=' then Some((TCmp(Eq), 2))
    else if c == '=' && d == '~' then Some((TCmp(Match), 2))
    else if c == '!' && d == '=' then Some((TCmp(Ne), 2))
    else if c == '!' && d == '~' then Some((TCmp(NoMatch), 2))
    else if c == '<' && d == '=' then Some((TCmp(Le), 2))
    else if c == '>' && d == '=' then Some((TCmp(Ge), 2))
    else if c == '!' then Some((TNot, 1))
    else if c == '<' then Some((TCmp(Lt), 1))
    else if c == '>' then Some((TCmp(Gt), 1))
    else None
  }

  function DashKeyword(kw: string): Option<Token> {
    if kw == "f" then Some(TFile(FileF))
    else if kw == "d" then Some(TFile(FileD))
    else if kw == "s" then Some(TFile(FileS))
    else if kw == "l" then Some(TFile(FileL))
    else if kw == "e" then Some(TFile(FileE))
    else if kw == "R" then Some(TIp)
    else if kw == "eq" then Some(TCmp(IntEq))
    else if kw == "ne" then Some(TCmp(IntNe))
    else if kw == "lt" then Some(TCmp(IntLt))
    else if kw == "le" then Some(TCmp(IntLe))
    else if kw == "gt" then Some(TCmp(IntGt))
    else if kw == "ge" then Some(TCmp(IntGe))
    else if kw == "ipmatch" then Some(TIp)
    else None
  }

  predicate KeywordChar(c: char) { IsAlpha(c) || c == '_' }

  /** A dash keyword and where it ends; a keyword must not run into a word character other than '-'. */
  function Dashed(s: string): (r: Option<(Token, nat)>)
    requires s != ""
    ensures r.Some? ==> 1 <= r.value.1 <= |s| && !r.value.0.TError?
  {
    if s[0] == '-' && 1 < |s| && IsAlpha(s[1]) then
      var end := Span(s, 1, KeywordChar);
      if end < |s| && IsWordChar(s[end]) && s[end] != '-' then None
      else
        match DashKeyword(s[1..end])
        case None => None
        case Some(t) => Some((t, end))
    else None
  }

  predicate IsIntText(w: string) {
    var d := if w != "" && (w[0] == '-' || w[0] == '+') then w[1..] else w;
    d != "" && AllDigits(d)
  }

  predicate NamedWord(s: string, name: string) {
    StartsWith(s, name) && (|name| == |s| || !IsAlpha(s[|name|]))
  }

  /** An unquoted word, after the function names and the two constants. */
  function Word(s: string): (r: (Token, nat))
    requires s != "" && IsWordChar(s[0])
    ensures 1 <= r.1 <= |s| && r.0 != TEof && !r.0.TError?
  {
    if NamedWord(s, "tolower") then (TFunc(true), 7)
    else if NamedWord(s, "toupper") then (TFunc(false), 7)
    else if NamedWord(s, "true") then (TStr("true"), 4)
    else if NamedWord(s, "false") then (TStr("false"), 5)
    else
      var end := Span(s, 0, IsWordChar);
      (if IsIntText(s[..end]) then TInt(s[..end]) else TStr(s[..end]), end)
  }

  /** The token at the front of a text that does not start with a space. */
  function Front(s: string, afterMatch: bool): (r: (Token, nat))
    requires s != ""
    ensures 1 <= r.1 <= |s| && r.0 != TEof
  {
    var symbol := Symbol(s);
    if symbol.Some? then symbol.value
    else if s[0] == '%' && 1 < |s| && s[1] == '{' && Find(s, "}", 2).Some? then
      var close := Find(s, "}", 2).value;
      (TVar(s[..close + 1]), close + 1)
    else if s[0] == '\'' || s[0] == '"' then
      var close := Find(s, [s[0]], 1);
      if close.Some? then (TStr(s[1..close.value]), close.value + 1) else (TStr(s[1..]), |s|)
    else if s[0] == '/' && afterMatch && RegexEnd(s, 1).Some? then
      var q := RegexEnd(s, 1).value;
      (TRegex(s[1..q]), if q + 1 < |s| && s[q + 1] == 'i' then q + 2 else q + 1)
    else if Dashed(s).Some? then Dashed(s).value
    else if IsWordChar(s[0]) then Word(s)
    else (TError, 1)
  }

  /** The next token and the text after it. A '/' opens a regex only after =~ or !~. */
  function Lex(input: string, afterMatch: bool): (r: (Token, string))
    ensures if r.0.TEof? then r.1 == "" else |r.1| < |input|
  {
    var s := SkipSpace(input);
    if s == "" then (TEof, "")
    else
      var (t, n) := Front(s, afterMatch);
      (t, s[n..])
  }

  // ------------------------------------------------------------------ the parser

  /** The tokenizer: the text after the current token, the token, the depth counter, the error flag. */
  datatype State = State(input: string, cur: Token, depth: nat, error: bool)

  predicate AfterMatch(t: Token) { t == TCmp(Match) || t == TCmp(NoMatch) }

  function Load(input: string, afterMatch: bool, depth: nat, error: bool): State {
    var (t, rest) := Lex(input, afterMatch);
    State(rest, t, depth, error || t.TError?)
  }

  function Advance(s: State): State { Load(s.input, AfterMatch(s.cur), s.depth, s.error) }

  function Size(s: State): nat { if s.cur.TEof? then |s.input| else |s.input| + 1 }

  function Failed(s: State): State { s.(error := true) }

  type Parsed = (Option<Expr>, State)

  function ParseValue(s: State): (r: Parsed)
    ensures Size(r.1) <= Size(s) && r.1.depth == s.depth
  {
    match s.cur
    case TStr(t) => (Some(Str(t)), Advance(s))
    case TVar(t) => (Some(Var(t)), Advance(s))
    case TRegex(t) => (Some(Regex(t)), Advance(s))
    case TInt(t) => (Some(Int(t)), Advance(s))
    case _ => (None, s)
  }

  function ParsePrimary(s: State): (r: Parsed)
    ensures Size(r.1) <= Size(s) && r.1.depth >= s.depth
    decreases Size(s), 0
  {
    match s.cur
    case TLParen =>
      if s.depth + 1 > MAX_DEPTH then (None, State(s.input, s.cur, s.depth + 1, true))
      else
        var (inner, t) := ParseOr(Advance(s.(depth := s.depth + 1)));
        if t.cur.TRParen? then
          var u := Advance(t);
          (inner, u.(depth := u.depth - 1))
        else (None, Failed(t))
    case TFile(test) =>
      var (v, t) := ParseValue(Advance(s));
      if v.Some? then (Some(File(test, v.value)), t) else (None, Failed(t))
    case TIp =>
      var (v, t) := ParseValue(Advance(s));
      if v.Some? then (Some(IpUnary(v.value)), t) else (None, Failed(t))
    case TFunc(lower) =>
      if s.depth + 1 > MAX_DEPTH then (None, State(s.input, s.cur, s.depth + 1, true))
      else
        var t := Advance(s.(depth := s.depth + 1));
        if !t.cur.TLParen? then (None, Failed(t))
        else
          var (arg, u) := ParseOr(Advance(t));
          if arg.None? || !u.cur.TRParen? then (None, Failed(u))
          else
            var w := Advance(u);
            (Some(Func(lower, arg.value)), w.(depth := w.depth - 1))
    case _ => ParseValue(s)
  }

  function ParseCmp(s: State): (r: Parsed)
    ensures Size(r.1) <= Size(s) && r.1.depth >= s.depth
    decreases Size(s), 1
  {
    var (left, t) := ParsePrimary(s);
    if left.None? then (None, t)
    else if t.cur.TIp? then
      var (right, u) := ParseValue(Advance(t));
      if right.Some? then (Some(IpBinary(left.value, right.value)), u) else (None, Failed(u))
    else if t.cur.TCmp? then
      var (right, u) := ParsePrimary(Advance(t));
      if right.Some? then (Some(Cmp(t.cur.op, left.value, right.value)), u) else (None, Failed(u))
    else (left, t)
  }

  function ParseNot(s: State): (r: Parsed)
    ensures Size(r.1) <= Size(s) && r.1.depth >= s.depth
    decreases Size(s), 2
  {
    if s.cur.TNot? then
      if s.depth + 1 > MAX_DEPTH then (None, State(s.input, s.cur, s.depth + 1, true))
      else
        var (inner, t) := ParseNot(Advance(s.(depth := s.depth + 1)));
        var u := t.(depth := t.depth - 1);
        if inner.Some? then (Some(Not(inner.value)), u) else (None, u)
    else ParseCmp(s)
  }

  /** The rest of an && chain whose first operands make `left`; the counter is raised and never lowered. */
  function AndLoop(left: Expr, s: State): (r: Parsed)
    ensures Size(r.1) <= Size(s) && r.1.depth >= s.depth
    decreases Size(s), 3
  {
    if !s.cur.TAnd? then (Some(left), s)
    else if s.depth + 1 > MAX_DEPTH then (None, State(s.input, s.cur, s.depth + 1, true))
    else
      var (right, t) := ParseNot(Advance(s.(depth := s.depth + 1)));
      if right.None? then (None, t) else AndLoop(And(left, right.value), t)
  }

  function ParseAnd(s: State): (r: Parsed)
    ensures Size(r.1) <= Size(s) && r.1.depth >= s.depth
    decreases Size(s), 4
  {
    var (left, t) := ParseNot(s);
    if left.None? then (None, t) else AndLoop(left.value, t)
  }

  function OrLoop(left: Expr, s: State): (r: Parsed)
    ensures Size(r.1) <= Size(s) && r.1.depth >= s.depth
    decreases Size(s), 5
  {
    if !s.cur.TOr? then (Some(left), s)
    else if s.depth + 1 > MAX_DEPTH then (None, State(s.input, s.cur, s.depth + 1, true))
    else
      var (right, t) := ParseAnd(Advance(s.(depth := s.depth + 1)));
      if right.None? then (None, t) else OrLoop(Or(left, right.value), t)
  }

  function ParseOr(s: State): (r: Parsed)
    ensures Size(r.1) <= Size(s) && r.1.depth >= s.depth
    decreases Size(s), 6
  {
    var (left, t) := ParseAnd(s);
    if left.None? then (None, t) else OrLoop(left.value, t)
  }

  function TrimEnd(s: string): (r: string)
    ensures r <= s
    ensures r != "" ==> !IsSpace(r[|r| - 1])
  {
    if s != "" && IsSpace(s[|s| - 1]) then TrimEnd(s[..|s| - 1]) else s
  }

  /** The outer quotes around a condition are dropped. */
  function Unquoted(s: string): string {
    if |s| >= 2 && s[0] == '"' && s[|s| - 1] == '"' then s[1..|s| - 1] else s
  }

  function Condition(text: string): string { Unquoted(TrimEnd(SkipSpace(text))) }

  /** expr_parse: a bare value becomes a comparison with the empty string. */
  function Parse(text: string): Option<Expr> {
    var s := Condition(text);
    if s == "" then None
    else
      var (ast, t) := ParseOr(Load(s, false, 0, false));
      if t.error || (!t.cur.TEof? && ast.Some?) || ast.None? then None
      else if IsValue(ast.value) then Some(Cmp(Ne, ast.value, Str("")))
      else ast
  }

  // ------------------------------------------------------------------ the printer

  function OpText(op: CmpOp): string {
    match op
    case Eq => " == " case Ne => " != " case Lt => " < " case Gt => " > "
    case Le => " <= " case Ge => " >= " case Match => " =~ " case NoMatch => " !~ "
    case IntEq => " -eq " case IntNe => " -ne " case IntLt => " -lt "
    case IntLe => " -le " case IntGt => " -gt " case IntGe => " -ge "
  }

  function TestText(test: FileOp): string {
    match test
    case FileF => "-f " case FileD => "-d " case FileS => "-s " case FileL => "-l " case FileE => "-e "
  }

  function FuncText(lower: bool): string { if lower then "tolower(" else "toupper(" }

  /** expr_to_string_r: the only parentheses are around || under &&, and around a complex operand of !. */
  function Print(e: Expr, underAnd: bool): string {
    match e
    case Str(t) => "'" + t + "'"
    case Var(t) => t
    case Regex(t) => "/" + t + "/"
    case Int(t) => t
    case Not(x) => if x.And? || x.Or? || x.Cmp? then "!(" + Print(x, false) + ")" else "!" + Print(x, false)
    case And(l, r) => Print(l, true) + " && " + Print(r, true)
    case Or(l, r) =>
      var s := Print(l, false) + " || " + Print(r, false);
      if underAnd then "(" + s + ")" else s
    case Cmp(op, l, r) => Print(l, false) + OpText(op) + Print(r, false)
    case File(test, x) => TestText(test) + Print(x, false)
    case IpUnary(x) => "-ipmatch " + Print(x, false)
    case IpBinary(l, r) => Print(l, false) + " -ipmatch " + Print(r, false)
    case Func(lower, x) => FuncText(lower) + Print(x, false) + ")"
  }

  // ---------------------------------------------------------------- the evaluator

  datatype Outcome = Matched | Unmatched | Limited | BadPattern

  datatype FileKind = Regular | Directory | Link | Special

  datatype FileInfo = FileInfo(kind: FileKind, size: nat)

  /** What a request and the system supply: variables, files, regex matching, address matching. */
  datatype Session = Session(
    expand: string -> string,
    stat: string -> Option<FileInfo>,
    lstat: string -> Option<FileInfo>,
    regex: (string, string) -> Outcome,
    inNetwork: (string, string) -> bool,
    clientIp: string)

  const VAR_BUF: nat := 4096
  const MAX_REGEX_LEN: nat := 512
  const MAX_SUBJECT_LEN: nat := 8192

  function MapChars(s: string, lower: bool): string {
    seq(|s|, i requires 0 <= i < |s| => if lower then Lower(s[i]) else Upper(s[i]))
  }

  /** eval_node_str: the text of an operand; anything that is not a value or a function call is empty. */
  function Operand(session: Session, e: Expr): string {
    match e
    case Str(t) => t
    case Int(t) => t
    case Regex(t) => t
    case Var(t) => session.expand(t)
    case Func(lower, x) =>
      var inner := Operand(session, x);
      MapChars(if |inner| >= VAR_BUF then inner[..VAR_BUF - 1] else inner, lower)
    case _ => ""
  }

  function RegexMatches(session: Session, subject: string, pattern: string, negate: bool): bool {
    if pattern == "" || |pattern| > MAX_REGEX_LEN then false
    else if |subject| > MAX_SUBJECT_LEN then negate
    else
      match session.regex(pattern, subject)
      case BadPattern => false
      case Limited => negate
      case Matched => !negate
      case Unmatched => negate
  }

  /** strcmp(l, r) < 0. */
  predicate Before(l: string, r: string)
    decreases |l|
  {
    r != "" && (l == "" || l[0] < r[0] || (l[0] == r[0] && Before(l[1..], r[1..])))
  }

  const LONG_MAX: int := 0x7FFF_FFFF_FFFF_FFFF

  predicate AllDigits(s: string) { forall i :: 0 <= i < |s| ==> IsDigit(s[i]) }

  /** A whole text read by strtol without an error; nothing at all reads as zero. */
  function AsInteger(s: string): Option<int> {
    var p := SkipSpace(s);
    var negative := p != "" && p[0] == '-';
    var digits := if p != "" && (p[0] == '-' || p[0] == '+') then p[1..] else p;
    if s == "" then Some(0)
    else if digits == "" || !AllDigits(digits) then None
    else
      var size: int := Numeral(digits);
      var n := if negative then -size else size;
      if -LONG_MAX - 1 <= n <= LONG_MAX then Some(n) else None
  }

  function Compare(session: Session, op: CmpOp, l: string, r: string): bool {
    match op
    case Eq => l == r
    case Ne => l != r
    case Lt => Before(l, r)
    case Gt => Before(r, l)
    case Le => l == r || Before(l, r)
    case Ge => l == r || Before(r, l)
    case Match => RegexMatches(session, l, r, false)
    case NoMatch => RegexMatches(session, l, r, true)
    case _ =>
      var a, b := AsInteger(l), AsInteger(r);
      a.Some? && b.Some? && IntCompare(op, a.value, b.value)
  }

  predicate IntCompare(op: CmpOp, a: int, b: int) {
    match op
    case IntEq => a == b
    case IntNe => a != b
    case IntLt => a < b
    case IntLe => a <= b
    case IntGt => a > b
    case _ => a >= b
  }

  function InNetwork(session: Session, ip: string, net: string): bool {
    net != "" && ip != "" && session.inNetwork(ip, net)
  }

  /** eval_file_test. */
  predicate TestFile(session: Session, test: FileOp, path: string) {
    path != "" &&
    var info := if test.FileL? then session.lstat(path) else session.stat(path);
    info.Some? &&
    match test
    case FileF => info.value.kind.Regular?
    case FileD => info.value.kind.Directory?
    case FileS => info.value.kind.Regular? && info.value.size > 0
    case FileL => info.value.kind.Link?
    case FileE => true
  }

  /** expr_eval. */
  function Eval(session: Session, e: Expr): bool {
    match e
    case And(l, r) => Eval(session, l) && Eval(session, r)
    case Or(l, r) => Eval(session, l) || Eval(session, r)
    case Not(x) => !Eval(session, x)
    case File(test, x) => TestFile(session, test, Operand(session, x))
    case IpUnary(x) => InNetwork(session, session.clientIp, Operand(session, x))
    case IpBinary(l, r) => InNetwork(session, Operand(session, l), Operand(session, r))
    case Cmp(op, l, r) => Compare(session, op, Operand(session, l), Operand(session, r))
    case Str(t) => t != "" && t != "0" && t != "false"
    case Int(t) => t != "" && t != "0" && t != "false"
    case Var(t) => session.expand(t) != ""
    case Func(_, _) => Operand(session, e) != ""
    case Regex(_) => false
  }
}
