/**
 * The ESI filter as a transducer. `ScanOf` finds the next tag boundary,
 * `StepOf` is one turn of the streaming loop, `Run` is one call on one chunk,
 * and `Render` is the meaning of a complete body, which knows nothing of
 * chunks, hold-back or limits.
 */
module Esi {
  import opened Text

  const PREFIX: string := "<esi:"
  const REMOVE_CLOSE: string := "</esi:remove>"
  const COMMENT_CLOSE: string := "</esi:comment>"
  const VARS_CLOSE: string := "</esi:vars>"
  const HOLD_MAX: nat := 8192
  const MAX_BUFFER: nat := 1048576
  const DYN_MAX: nat := 16

  datatype Mode = Passthrough | Strip | Vars

  datatype Tag = StripTag | IncludeTag | VarsTag | UnknownTag

  /** What the server supplies: readable files, and whether this request is itself a fragment. */
  datatype Config = Config(readFile: string -> string, subrequest: bool)

  // ---------------------------------------------------------------- tags

  /** The tag named by the bytes that follow "<esi:". */
  function TagOf(name: string): Tag {
    if StartsNoCase(name, "remove") || StartsNoCase(name, "comment") then StripTag
    else if StartsNoCase(name, "include") then IncludeTag
    else if StartsNoCase(name, "vars") then VarsTag
    else UnknownTag
  }

  function Closers(mode: Mode): (cs: seq<string>)
    ensures forall c :: c in cs ==> |c| > 0 && c[0] == '<'
  {
    match mode
    case Passthrough => []
    case Strip => [REMOVE_CLOSE, COMMENT_CLOSE]
    case Vars => [VARS_CLOSE]
  }

  datatype Scan =
    | NoTag                        // no "<esi:" in the text
    | OpenTag(at: nat)             // a "<esi:" with no '>' after it
    | FullTag(at: nat, gt: nat)    // a "<esi:" with its '>'
    | NoClose                      // inside a block, no close tag
    | Closed(at: nat, len: nat)    // inside a block, its close tag

  function ScanOf(mode: Mode, data: string): (s: Scan)
    ensures s.OpenTag? ==> s.at + 5 <= |data|
    ensures s.FullTag? || s.Closed? ==> Complete(data, s)
    ensures mode.Passthrough? <==> s.NoTag? || s.OpenTag? || s.FullTag?
  {
    match mode
    case Passthrough =>
      var tag := Find(data, PREFIX);
      if tag.None? then NoTag
      else
        var gt := Find(data, ">", tag.value);
        if gt.None? then OpenTag(tag.value)
        else
          assert tag.value + 5 <= gt.value by {
            assert data[gt.value] == data[gt.value..gt.value + 1][0] == '>';
            assert data[tag.value..tag.value + 5] == PREFIX;
            assert forall i :: tag.value <= i < tag.value + 5 ==> data[i] == PREFIX[i - tag.value];
          }
          FullTag(tag.value, gt.value)
    case Strip =>
      var cr, cc := Find(data, REMOVE_CLOSE), Find(data, COMMENT_CLOSE);
      if cr.Some? && (cc.None? || cr.value < cc.value) then Closed(cr.value, |REMOVE_CLOSE|)
      else if cc.Some? then Closed(cc.value, |COMMENT_CLOSE|)
      else NoClose
    case Vars =>
      var close := Find(data, VARS_CLOSE);
      if close.Some? then Closed(close.value, |VARS_CLOSE|) else NoClose
  }

  /** A tag with its '>', or a block with its close tag, inside `data`. */
  predicate Complete(data: string, scan: Scan) {
    match scan
    case FullTag(at, gt) => at + 5 <= gt < |data|
    case Closed(at, len) => len > 0 && at + len <= |data|
    case _ => false
  }

  /** The block the text after a boundary is in. */
  function NextMode(data: string, scan: Scan): Mode
    requires Complete(data, scan)
  {
    if scan.Closed? then Passthrough
    else
      match TagOf(data[scan.at + 5..])
      case StripTag => Strip
      case VarsTag => Vars
      case _ => Passthrough
  }

  /** The text after a boundary; an unknown tag loses only its "<esi:". */
  function Rest(data: string, scan: Scan): (r: string)
    requires Complete(data, scan)
    ensures |r| < |data|
  {
    match scan
    case FullTag(at, gt) => data[if TagOf(data[at + 5..]).UnknownTag? then at + 5 else gt + 1..]
    case Closed(at, len) => data[at + len..]
  }

  // ------------------------------------------------------------ includes

  function Quoted(tag: string, i: nat): (r: Option<string>)
    requires i + 5 < |tag|
    ensures r.Some? ==> 0 < |r.value| < 4096
  {
    var quote := tag[i + 4];
    if StartsNoCase(tag[i..], "src=") && (quote == '"' || quote == '\'') then
      var close := Find(tag, [quote], i + 5);
      var end := if close.Some? then close.value else |tag|;
      if i + 5 < end && end - (i + 5) < 4096 then Some(tag[i + 5..end]) else None
    else None
  }

  /** The first usable src="..." (or src='...') of an include tag. */
  function ExtractSrc(tag: string, i: nat := 0): (r: Option<string>)
    ensures r.Some? ==> 0 < |r.value| < 4096
    decreases |tag| - i
  {
    if i + 5 >= |tag| then None
    else if Quoted(tag, i).Some? then Quoted(tag, i)
    else ExtractSrc(tag, i + 1)
  }

  const HANDLER_SUFFIXES: seq<string> :=
    [".php", ".php3", ".php4", ".php5", ".php7", ".php8", ".phtml", ".phar", ".cgi", ".pl", ".py", ".rb", ".jsp",
     ".asp", ".aspx"]

  predicate IsHandler(path: string) {
    exists i :: 0 <= i < |HANDLER_SUFFIXES| &&
      var ext := HANDLER_SUFFIXES[i];
      |ext| <= |path| && StartsNoCase(path[|path| - |ext|..], ext)
  }

  predicate UriValid(uri: string) {
    && 0 < |uri| <= 2048
    && uri[0] == '/'
    && (1 < |uri| ==> uri[1] != '/')
    && forall i :: 0 <= i < |uri| ==> uri[i] > ' ' && uri[i] != '\U{7f}'
  }

  function IncludeRead(cfg: Config, path: string): string {
    if path == "" || path[0] != '/' || Find(path, "..").Some? then "" else cfg.readFile(path)
  }

  function StaticBody(cfg: Config, src: string): string {
    var query := Find(src, "?");
    var path := if query.Some? then src[..query.value] else src;
    if IsHandler(path) then "" else IncludeRead(cfg, path)
  }

  /** \x01LHE, the index in three little-endian bytes, \x02. */
  function Placeholder(index: nat): (p: string)
    ensures |p| == 8
  {
    "\U{01}LHE" + [(index % 256) as char, (index / 256 % 256) as char, (index / 65536 % 256) as char] + "\U{02}"
  }

  datatype Insert = Nothing | Static(body: string) | Dynamic(uri: string)

  /** What an include tag stands for, given how many dynamic includes came before it. */
  function Resolve(cfg: Config, dynCount: nat, tag: string): Insert {
    match ExtractSrc(tag)
    case None => Nothing
    case Some(raw) =>
      var src := CString(raw);
      var body := StaticBody(cfg, src);
      if body != "" then Static(body)
      else if !cfg.subrequest && dynCount < DYN_MAX && UriValid(src) then Dynamic(src)
      else Nothing
  }

  /** The text written for an insert, and the list of dynamic URIs after it. */
  function Written(ins: Insert, uris: seq<string>): string {
    match ins
    case Nothing => ""
    case Static(body) => body
    case Dynamic(_) => Placeholder(|uris|)
  }

  function Recorded(ins: Insert, uris: seq<string>): seq<string> {
    if ins.Dynamic? then uris + [ins.uri] else uris
  }

  function InsertOf(cfg: Config, uris: seq<string>, data: string, scan: Scan): Insert
    requires Complete(data, scan)
  {
    if scan.FullTag? && TagOf(data[scan.at + 5..]).IncludeTag?
    then Resolve(cfg, |uris|, data[scan.at..scan.gt + 1]) else Nothing
  }

  function NextUris(cfg: Config, uris: seq<string>, data: string, scan: Scan): seq<string>
    requires Complete(data, scan)
  {
    Recorded(InsertOf(cfg, uris, data, scan), uris)
  }

  /** The text a complete tag leaves in the output: an unknown tag keeps its prefix. */
  function Emitted(cfg: Config, uris: seq<string>, data: string, scan: Scan): string
    requires Complete(data, scan) && scan.FullTag?
  {
    if TagOf(data[scan.at + 5..]).UnknownTag? then PREFIX else Written(InsertOf(cfg, uris, data, scan), uris)
  }

  /** The output for the text up to and including a boundary. */
  function Head(cfg: Config, mode: Mode, uris: seq<string>, data: string, scan: Scan): string
    requires Complete(data, scan)
  {
    if scan.FullTag? then data[..scan.at] + Emitted(cfg, uris, data, scan)
    else if mode.Vars? then data[..scan.at]
    else ""
  }

  // ---------------------------------------------- meaning of a whole body

  datatype Page = Page(text: string, uris: seq<string>)

  function Before(pre: string, p: Page): Page { p.(text := pre + p.text) }

  /** The transformed body, with a placeholder for every dynamic include. */
  function Render(cfg: Config, mode: Mode, uris: seq<string>, data: string): Page
    decreases |data|
  {
    var scan := ScanOf(mode, data);
    if Complete(data, scan) then
      Before(Head(cfg, mode, uris, data, scan),
             Render(cfg, NextMode(data, scan), NextUris(cfg, uris, data, scan), Rest(data, scan)))
    else Page(if mode.Strip? then "" else data, uris)
  }

  // ------------------------------------------------------ one chunk at a time

  predicate PartialAt(data: string, k: nat) {
    k <= |data| && k <= 4 && forall i :: 0 <= i < k ==> data[|data| - k + i] == PREFIX[i]
  }

  /** The longest tail of at most `k` bytes that is a proper prefix of "<esi:". */
  function LongestPartial(data: string, k: nat): (r: nat)
    requires k <= 4 && k <= |data|
    ensures r <= k && PartialAt(data, r)
    ensures forall j: nat :: r < j <= k ==> !PartialAt(data, j)
  {
    if k == 0 || PartialAt(data, k) then k else LongestPartial(data, k - 1)
  }

  /** The longest k in 1..4 such that the last k bytes are a proper prefix of "<esi:", else 0. */
  function PartialTail(data: string): (r: nat)
    ensures r <= 4 && r <= |data| && PartialAt(data, r)
    ensures forall j: nat :: r < j <= 4 && j <= |data| ==> !PartialAt(data, j)
  {
    LongestPartial(data, if |data| < 4 then |data| else 4)
  }

  datatype Step = Step(mode: Mode, uris: seq<string>, pieces: seq<string>, hold: string, rest: string)

  /** One turn of the loop: the pieces appended to the output, the bytes held back, the bytes left. */
  function StepOf(cfg: Config, mode: Mode, uris: seq<string>, data: string): (s: Step)
    ensures data != "" ==> |s.rest| < |data|
    ensures s.hold != "" ==> s.rest == "" && s.mode.Passthrough?
    ensures |s.hold| <= HOLD_MAX
  {
    var scan := ScanOf(mode, data);
    match scan
    case NoTag =>
      var k := PartialTail(data);
      Step(mode, uris, [data[..|data| - k]], data[|data| - k..], "")
    case OpenTag(at) =>
      if |data| - at <= HOLD_MAX then Step(mode, uris, [data[..at]], data[at..], "")
      else Step(mode, uris, [data[..at], data[at..]], "", "")
    case FullTag(at, gt) =>
      Step(NextMode(data, scan), NextUris(cfg, uris, data, scan), [data[..at], Emitted(cfg, uris, data, scan)], "",
           Rest(data, scan))
    case NoClose => Step(mode, uris, if mode.Vars? then [data] else [], "", "")
    case Closed(at, len) =>
      Step(Passthrough, uris, if mode.Vars? then [data[..at]] else [], "", Rest(data, scan))
  }

  function Flat(pieces: seq<string>): string {
    if pieces == [] then "" else pieces[0] + Flat(pieces[1..])
  }

  datatype Result = Result(mode: Mode, uris: seq<string>, text: string, hold: string)

  /** One call of the filter on the held bytes followed by a chunk, with no limit on its output. */
  function Run(cfg: Config, mode: Mode, uris: seq<string>, data: string): (r: Result)
    ensures r.hold != "" ==> r.mode.Passthrough?
    ensures |r.hold| <= HOLD_MAX
    decreases |data|
  {
    if data == "" then Result(mode, uris, "", "")
    else
      var s := StepOf(cfg, mode, uris, data);
      var r := if s.rest == "" then Result(s.mode, s.uris, "", s.hold) else Run(cfg, s.mode, s.uris, s.rest);
      r.(text := Flat(s.pieces) + r.text)
  }

  // ------------------------------------------------------- the output limit

  /** buf_append: all of the piece, or none of it when the buffer would pass 1 MB. */
  function Put(acc: string, piece: string): string {
    if |acc| + |piece| <= MAX_BUFFER then acc + piece else acc
  }

  function PutAll(acc: string, pieces: seq<string>): string
    decreases |pieces|
  {
    if pieces == [] then acc else PutAll(Put(acc, pieces[0]), pieces[1..])
  }

  /** `Run` with the output buffer's limit, continuing from what the buffer already holds. */
  function BoundedRun(cfg: Config, mode: Mode, uris: seq<string>, data: string, acc: string): (r: Result)
    ensures r.hold != "" ==> r.mode.Passthrough?
    ensures |r.hold| <= HOLD_MAX
    decreases |data|
  {
    if data == "" then Result(mode, uris, acc, "")
    else
      var s := StepOf(cfg, mode, uris, data);
      if s.rest == "" then Result(s.mode, s.uris, PutAll(acc, s.pieces), s.hold)
      else BoundedRun(cfg, s.mode, s.uris, s.rest, PutAll(acc, s.pieces))
  }

  lemma {:induction false} PutAllFits(acc: string, pieces: seq<string>)
    requires |acc| + |Flat(pieces)| <= MAX_BUFFER
    ensures PutAll(acc, pieces) == acc + Flat(pieces)
    decreases |pieces|
  {
    if pieces == [] {
      assert acc + "" == acc;
    } else {
      PutAllFits(acc + pieces[0], pieces[1..]);
      assert acc + pieces[0] + Flat(pieces[1..]) == acc + Flat(pieces);
    }
  }

  /** A call whose whole output fits the buffer is not affected by the limit. */
  lemma {:induction false} BoundedIsRun(cfg: Config, mode: Mode, uris: seq<string>, data: string, acc: string)
    requires |acc| + |Run(cfg, mode, uris, data).text| <= MAX_BUFFER
    ensures var r := Run(cfg, mode, uris, data);
            BoundedRun(cfg, mode, uris, data, acc) == r.(text := acc + r.text)
    decreases |data|
  {
    hide StepOf;
    if data == "" {
      assert acc + "" == acc;
    } else {
      var s := StepOf(cfg, mode, uris, data);
      PutAllFits(acc, s.pieces);
      if s.rest == "" {
        assert Run(cfg, mode, uris, data).text == Flat(s.pieces);
      } else {
        var r := Run(cfg, s.mode, s.uris, s.rest);
        BoundedIsRun(cfg, s.mode, s.uris, s.rest, acc + Flat(s.pieces));
        assert acc + Flat(s.pieces) + r.text == acc + (Flat(s.pieces) + r.text);
      }
    }
  }
}
