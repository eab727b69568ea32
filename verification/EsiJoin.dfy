/**
 * From a body to the page the client sees: streaming, then joining the fetched
 * fragments, equals substituting every include directly.
 */
module EsiJoin {
  import opened Text
  import opened Esi
  import opened EsiSplice
  import EsiStream

  // ------------------------------------------------- the meaning of a page

  /** What an include stands for once the fragments are known, in order of the recorded URIs. */
  function Body(ins: Insert, n: nat, bodies: seq<string>): string {
    match ins
    case Nothing => ""
    case Static(body) => body
    case Dynamic(_) => if n < |bodies| then bodies[n] else ""
  }

  function HeadMeaning(cfg: Config, bodies: seq<string>, mode: Mode, uris: seq<string>, data: string,
      scan: Scan): string
    requires Complete(data, scan)
  {
    if scan.FullTag? then
      data[..scan.at]
      + (if TagOf(data[scan.at + 5..]).UnknownTag? then PREFIX
         else Body(InsertOf(cfg, uris, data, scan), |uris|, bodies))
    else if mode.Vars? then data[..scan.at]
    else ""
  }

  /** The page: blocks stripped, every include replaced by its static file or its fragment. */
  function Meaning(cfg: Config, bodies: seq<string>, mode: Mode, uris: seq<string>, data: string): string
    decreases |data|
  {
    var scan := ScanOf(mode, data);
    if Complete(data, scan) then
      HeadMeaning(cfg, bodies, mode, uris, data, scan)
      + Meaning(cfg, bodies, NextMode(data, scan), NextUris(cfg, uris, data, scan), Rest(data, scan))
    else if mode.Strip? then ""
    else data
  }

  // ------------------------------------------- the rendered text has this shape

  function HeadSegs(cfg: Config, mode: Mode, uris: seq<string>, data: string, scan: Scan): seq<Seg>
    requires Complete(data, scan)
  {
    if scan.FullTag? && InsertOf(cfg, uris, data, scan).Dynamic? then [Chars(data[..scan.at]), Hole(|uris|)]
    else [Chars(Head(cfg, mode, uris, data, scan))]
  }

  function Segments(cfg: Config, mode: Mode, uris: seq<string>, data: string): seq<Seg>
    decreases |data|
  {
    var scan := ScanOf(mode, data);
    if Complete(data, scan) then
      HeadSegs(cfg, mode, uris, data, scan)
      + Segments(cfg, NextMode(data, scan), NextUris(cfg, uris, data, scan), Rest(data, scan))
    else [Chars(if mode.Strip? then "" else data)]
  }

  /** The files an include may read hold no placeholder byte. */
  ghost predicate CleanFiles(cfg: Config) {
    forall p: string :: Clean(cfg.readFile(p))
  }

  lemma EncodeTwo(x: Seg, y: Seg, segs: seq<Seg>)
    ensures Encode([x] + segs) == SegText(x) + Encode(segs)
    ensures Encode([x, y] + segs) == SegText(x) + SegText(y) + Encode(segs)
  {
    assert ([x] + segs)[1..] == segs && ([x, y] + segs)[1..] == [y] + segs && ([y] + segs)[1..] == segs;
    assert SegText(x) + (SegText(y) + Encode(segs)) == SegText(x) + SegText(y) + Encode(segs);
  }

  lemma FilledTwo(x: Seg, y: Seg, segs: seq<Seg>, bodies: seq<string>)
    ensures Filled([x] + segs, bodies) == Value(x, bodies) + Filled(segs, bodies)
    ensures Filled([x, y] + segs, bodies) == Value(x, bodies) + Value(y, bodies) + Filled(segs, bodies)
  {
    hide Value;
    assert ([x] + segs)[1..] == segs && ([x, y] + segs)[1..] == [y] + segs && ([y] + segs)[1..] == segs;
    var p, q, r := Value(x, bodies), Value(y, bodies), Filled(segs, bodies);
    assert p + (q + r) == p + q + r;
  }

  lemma HeadOf(cfg: Config, bodies: seq<string>, mode: Mode, uris: seq<string>, data: string, scan: Scan,
      segs: seq<Seg>)
    requires Complete(data, scan)
    ensures Encode(HeadSegs(cfg, mode, uris, data, scan) + segs)
         == Head(cfg, mode, uris, data, scan) + Encode(segs)
    ensures Filled(HeadSegs(cfg, mode, uris, data, scan) + segs, bodies)
         == HeadMeaning(cfg, bodies, mode, uris, data, scan) + Filled(segs, bodies)
  {
    hide Resolve, TagOf, Placeholder, Encode;
    var x := if scan.FullTag? && InsertOf(cfg, uris, data, scan).Dynamic? then Chars(data[..scan.at])
             else Chars(Head(cfg, mode, uris, data, scan));
    EncodeTwo(x, Hole(|uris|), segs);
    FilledTwo(x, Hole(|uris|), segs, bodies);
  }

  /** The rendered text is its segments, and with the fragments filled in they are the page. */
  lemma {:induction false} RenderHasSegments(cfg: Config, bodies: seq<string>, mode: Mode, uris: seq<string>,
      data: string)
    ensures Render(cfg, mode, uris, data).text == Encode(Segments(cfg, mode, uris, data))
    ensures Filled(Segments(cfg, mode, uris, data), bodies) == Meaning(cfg, bodies, mode, uris, data)
    decreases |data|
  {
    hide ScanOf, NextMode, NextUris, Rest, Head, HeadSegs, HeadMeaning, Placeholder;
    var scan := ScanOf(mode, data);
    if Complete(data, scan) {
      RenderHasSegments(cfg, bodies, NextMode(data, scan), NextUris(cfg, uris, data, scan), Rest(data, scan));
      HeadOf(cfg, bodies, mode, uris, data, scan,
             Segments(cfg, NextMode(data, scan), NextUris(cfg, uris, data, scan), Rest(data, scan)));
    } else {
      var t := if mode.Strip? then "" else data;
      EncodeTwo(Chars(t), Chars(t), []);
      FilledTwo(Chars(t), Chars(t), [], bodies);
      assert [Chars(t)] + [] == [Chars(t)] && t + "" == t;
    }
  }

  /** Holes are numbered from `from` to just below `to`, each once and in order. */
  predicate Numbered(segs: seq<Seg>, from: nat, to: nat) {
    && |Holes(segs)| == to - from
    && forall k :: 0 <= k < |Holes(segs)| ==> Holes(segs)[k] == from + k
  }

  lemma {:induction false} HolesAppend(a: seq<Seg>, b: seq<Seg>)
    ensures Holes(a + b) == Holes(a) + Holes(b)
    decreases |a|
  {
    if a == [] {
      assert a + b == b && [] + Holes(b) == Holes(b);
    } else {
      var head := if a[0].Hole? then [a[0].index] else [];
      assert (a + b)[1..] == a[1..] + b && (a + b)[0] == a[0];
      HolesAppend(a[1..], b);
      assert head + (Holes(a[1..]) + Holes(b)) == head + Holes(a[1..]) + Holes(b);
    }
  }

  lemma HeadHoles(cfg: Config, mode: Mode, uris: seq<string>, data: string, scan: Scan)
    requires Complete(data, scan) && |uris| <= DYN_MAX
    ensures Holes(HeadSegs(cfg, mode, uris, data, scan))
         == if |NextUris(cfg, uris, data, scan)| == |uris| then [] else [|uris|]
    ensures |uris| <= |NextUris(cfg, uris, data, scan)| <= |uris| + 1 && |NextUris(cfg, uris, data, scan)| <= DYN_MAX
  {
    hide TagOf, ExtractSrc, StaticBody, UriValid, Head;
    var x, y := Chars(data[..scan.at]), Hole(|uris|);
    assert [x, y][1..] == [y] && [y][1..] == [];
    TextHasNoHole(Head(cfg, mode, uris, data, scan));
  }

  /** Each dynamic include has exactly one placeholder, numbered in the order its URI was recorded. */
  lemma {:induction false} PlaceholdersNumbered(cfg: Config, mode: Mode, uris: seq<string>, data: string)
    requires |uris| <= DYN_MAX
    ensures var page := Render(cfg, mode, uris, data);
            |uris| <= |page.uris| <= DYN_MAX && Numbered(Segments(cfg, mode, uris, data), |uris|, |page.uris|)
    decreases |data|
  {
    hide ScanOf, NextMode, NextUris, Rest, Head, HeadSegs, Placeholder;
    var scan := ScanOf(mode, data);
    if Complete(data, scan) {
      var uris' := NextUris(cfg, uris, data, scan);
      HeadHoles(cfg, mode, uris, data, scan);
      PlaceholdersNumbered(cfg, NextMode(data, scan), uris', Rest(data, scan));
      var rest := Segments(cfg, NextMode(data, scan), uris', Rest(data, scan));
      HolesAppend(HeadSegs(cfg, mode, uris, data, scan), rest);
      assert [] + Holes(rest) == Holes(rest);
    } else {
      TextHasNoHole(if mode.Strip? then "" else data);
    }
  }

  lemma TextHasNoHole(t: string)
    ensures Holes([Chars(t)]) == []
  {
    assert [Chars(t)][1..] == [];
  }

  /** Distinct holes read off a list of numbers in increasing order. */
  lemma {:induction false} NumberedOnce(segs: seq<Seg>, from: nat, to: nat)
    requires Numbered(segs, from, to)
    ensures Once(segs) && forall k :: 0 <= k < |segs| && segs[k].Hole? ==> from <= segs[k].index < to
    decreases |segs|
  {
    if segs != [] {
      var rest := segs[1..];
      assert forall k :: 0 <= k < |rest| ==> rest[k] == segs[k + 1];
      if segs[0].Hole? {
        assert Holes(segs) == [segs[0].index] + Holes(rest);
        assert Holes(segs)[0] == from;
        assert forall k :: 0 <= k < |Holes(rest)| ==> Holes(rest)[k] == Holes(segs)[k + 1];
        NumberedOnce(rest, from + 1, to);
      } else {
        assert [] + Holes(rest) == Holes(rest);
        NumberedOnce(rest, from, to);
      }
    }
  }

  lemma {:induction false} SegmentsClean(cfg: Config, mode: Mode, uris: seq<string>, data: string)
    requires CleanFiles(cfg) && Clean(data) && |uris| <= DYN_MAX
    ensures CleanSegs(Segments(cfg, mode, uris, data))
    decreases |data|
  {
    hide ScanOf, NextMode, NextUris, Rest, Head, HeadSegs, Placeholder, CleanFiles, Clean;
    var scan := ScanOf(mode, data);
    if Complete(data, scan) {
      HeadHoles(cfg, mode, uris, data, scan);
      RestClean(data, scan);
      SegmentsClean(cfg, NextMode(data, scan), NextUris(cfg, uris, data, scan), Rest(data, scan));
      HeadClean(cfg, mode, uris, data, scan);
    } else {
      EmptyClean();
    }
  }

  lemma EmptyClean()
    ensures Clean("") && Clean(PREFIX)
  {
  }

  lemma RestClean(data: string, scan: Scan)
    requires Complete(data, scan) && Clean(data)
    ensures Clean(Rest(data, scan))
  {
    hide TagOf;
  }

  lemma HeadClean(cfg: Config, mode: Mode, uris: seq<string>, data: string, scan: Scan)
    requires Complete(data, scan) && Clean(data) && CleanFiles(cfg) && |uris| <= DYN_MAX
    ensures CleanSegs(HeadSegs(cfg, mode, uris, data, scan))
  {
    hide TagOf, ExtractSrc, UriValid, IsHandler, CString;
    assert Clean(data[..scan.at]);
    EmptyClean();
  }

  /**
   * The whole filter: a body streamed in harmless chunks and joined with its
   * fetched fragments is the page in which every include has been replaced, and
   * no splice on the way needs more room than its buffer has.
   */
  lemma StreamedPageJoins(cfg: Config, chunks: seq<string>, bodies: seq<string>)
    requires EsiStream.Smooth(cfg, EsiStream.START, chunks)
    requires CleanFiles(cfg) && Clean(EsiStream.Join(chunks)) && forall b :: b in bodies ==> Clean(b)
    requires |EsiStream.Streamed(cfg, EsiStream.START, chunks).text| + Total(bodies) <= MAX_BUFFER
    ensures Joined(EsiStream.Streamed(cfg, EsiStream.START, chunks).text, bodies)
         == Meaning(cfg, bodies, Passthrough, [], EsiStream.Join(chunks))
    ensures RoomyAll(EsiStream.Streamed(cfg, EsiStream.START, chunks).text, bodies, 0)
  {
    hide Render, Segments, Meaning, CleanFiles, Clean, EsiStream.Smooth, EsiStream.Streamed, EsiStream.Join;
    hide Numbered, Once, CleanSegs, Encode, Filled, Total, Joined, RoomyAll;
    var data := EsiStream.Join(chunks);
    assert "" + data == data;
    EsiStream.StreamingIsRendering(cfg, EsiStream.START, chunks);
    RenderHasSegments(cfg, bodies, Passthrough, [], data);
    PlaceholdersNumbered(cfg, Passthrough, [], data);
    var segs := Segments(cfg, Passthrough, [], data);
    NumberedOnce(segs, 0, |Render(cfg, Passthrough, [], data).uris|);
    SegmentsClean(cfg, Passthrough, [], data);
    JoinedIsFilled(segs, bodies);
    assert bodies[0..] == bodies;
    JoinFits(segs, bodies, 0);
  }

  // ------------------------------------------- a page with a placeholder of its own

  const INCLUDE: string := "<esi:include src=\"/a.php\"/>"

  lemma IncludeScan()
    ensures ScanOf(Passthrough, Placeholder(0) + INCLUDE) == FullTag(8, 34)
  {
    hide Placeholder;
    IncludeStart();
    IncludeEnd();
    NoAngle();
    var own := Placeholder(0);
    var page := own + INCLUDE;
    forall j: nat | j < 8
      ensures !OccursAt(page, PREFIX, j)
    {
      assert page[j..j + 5][0] == page[j] == own[j];
    }
    FindSkip(own, INCLUDE, PREFIX, 0, 0);
    FindSkip(own, INCLUDE, ">", 0, 8);
  }

  lemma NoAngle()
    ensures forall j :: 0 <= j < 8 ==> Placeholder(0)[j] != '<'
  {
  }

  lemma IncludeStart()
    ensures |INCLUDE| == 27 && Find(INCLUDE, PREFIX) == Some(0)
  {
    assert INCLUDE[0..5] == PREFIX;
    FindIs(INCLUDE, PREFIX, 0, 0);
  }

  lemma IncludeEnd()
    ensures Find(INCLUDE, ">") == Some(26)
  {
    hide Find;
    assert INCLUDE[26..27] == ">";
    forall j: nat | j < 26
      ensures !OccursAt(INCLUDE, ">", j)
    {
      assert INCLUDE[j..j + 1][0] == INCLUDE[j] != '>';
    }
    FindIs(INCLUDE, ">", 0, 26);
  }

  lemma IncludeSrc()
    ensures ExtractSrc(INCLUDE) == Some("/a.php")
  {
    SrcQuoted();
    NoSrcBefore(0);
    hide Quoted;
  }

  lemma SrcEnd()
    ensures Find(INCLUDE, "\"", 18) == Some(24)
  {
    assert INCLUDE[24..25] == "\"";
    forall j: nat | 18 <= j < 24
      ensures !OccursAt(INCLUDE, "\"", j)
    {
      assert INCLUDE[j..j + 1][0] == INCLUDE[j] != '"';
    }
    FindIs(INCLUDE, "\"", 18, 24);
  }

  lemma SrcQuoted()
    ensures Quoted(INCLUDE, 13) == Some("/a.php")
  {
    SrcEnd();
    hide Find;
    var src, rest := "src=", INCLUDE[13..];
    forall k | 0 <= k < 4
      ensures Lower(rest[k]) == src[k]
    {
      assert rest[k] == INCLUDE[13 + k];
    }
    assert INCLUDE[17] == '"' && [INCLUDE[17]] == "\"";
    assert INCLUDE[18..24] == "/a.php";
  }

  lemma SrcLetters(i: nat)
    requires i < 13
    ensures Lower(INCLUDE[i]) != 's' || Lower(INCLUDE[i + 1]) != 'r'
  {
  }

  lemma NotQuoted(i: nat)
    requires i < 13
    ensures Quoted(INCLUDE, i).None?
  {
    SrcLetters(i);
    hide Find;
    var src := "src=";
    assert INCLUDE[i..][0] == INCLUDE[i] && INCLUDE[i..][1] == INCLUDE[i + 1] && src[0] == 's' && src[1] == 'r';
  }

  lemma {:induction false} NoSrcBefore(i: nat)
    requires i <= 13
    ensures ExtractSrc(INCLUDE, i) == ExtractSrc(INCLUDE, 13)
    decreases 13 - i
  {
    hide Quoted;
    if i < 13 {
      NotQuoted(i);
      NoSrcBefore(i + 1);
    }
  }

  /** A script is not read from disk, so its include becomes a placeholder. */
  lemma IncludeIsDynamic(cfg: Config)
    requires !cfg.subrequest
    ensures Resolve(cfg, 0, INCLUDE) == Dynamic("/a.php")
  {
    IncludeSrc();
    ScriptNotRead(cfg);
    ScriptUri();
    hide ExtractSrc, StaticBody, UriValid;
    assert CString("/a.php") == "/a.php";
  }

  lemma ScriptUri()
    ensures UriValid("/a.php")
  {
  }

  lemma ScriptNotRead(cfg: Config)
    ensures StaticBody(cfg, "/a.php") == ""
  {
    var src := "/a.php";
    forall j: nat
      ensures !OccursAt(src, "?", j)
    {
      if j < |src| { assert src[j..j + 1][0] == src[j] != '?'; }
    }
    assert Find(src, "?").None?;
    hide Find;
    assert HANDLER_SUFFIXES[0] == ".php" && src[2..] == ".php";
    assert StartsNoCase(src[|src| - 4..], ".php");
    assert IsHandler(src);
  }

  lemma IncludeName()
    ensures TagOf(INCLUDE[5..]).IncludeTag?
  {
    var name, tag, remove, comment := INCLUDE[5..], "include", "remove", "comment";
    assert name[0] == 'i' && remove[0] == 'r' && comment[0] == 'c';
    forall k | 0 <= k < 7
      ensures Lower(name[k]) == tag[k]
    {
      assert name[k] == INCLUDE[5 + k];
    }
  }

  /** A text that is clear of tags before its one include. */
  lemma OneInclude(cfg: Config, own: string, tag: string, uri: string)
    requires |own| == 8 && |tag| == 27 && ScanOf(Passthrough, own + tag) == FullTag(8, 34)
    requires TagOf(tag[5..]).IncludeTag? && Resolve(cfg, 0, tag) == Dynamic(uri)
    ensures Render(cfg, Passthrough, [], own + tag) == Page(own + Placeholder(0), [uri])
  {
    hide Placeholder, Resolve, TagOf, Render, ScanOf;
    var data := own + tag;
    assert data[..8] == own && data[8..35] == tag && data[13..] == tag[5..] && data[35..] == "";
    var scan := FullTag(8, 34);
    assert Head(cfg, Passthrough, [], data, scan) == own + Placeholder(0);
    assert NextUris(cfg, [], data, scan) == [uri];
    RenderFirst(cfg, data, scan);
    RenderNothing(cfg, [uri]);
    assert own + Placeholder(0) + "" == own + Placeholder(0);
  }

  lemma RenderFirst(cfg: Config, data: string, scan: Scan)
    requires ScanOf(Passthrough, data) == scan && Complete(data, scan)
    ensures Render(cfg, Passthrough, [], data)
         == Before(Head(cfg, Passthrough, [], data, scan),
                   Render(cfg, NextMode(data, scan), NextUris(cfg, [], data, scan), Rest(data, scan)))
  {
    hide ScanOf, Head, NextMode, NextUris, Rest;
  }

  /**
   * A page that holds the eight bytes of a placeholder itself, before an include:
   * its output has two holes with one number, and every fragment of more than 17
   * bytes needs more room than the splice has.
   */
  lemma OwnMark(cfg: Config, body: string)
    requires !cfg.subrequest && 16 + 2 * |body| <= MAX_BUFFER
    ensures Render(cfg, Passthrough, [], Placeholder(0) + INCLUDE) == Page(Placeholder(0) + Placeholder(0), ["/a.php"])
    ensures Roomy(Placeholder(0) + Placeholder(0), 0, |body|) <==> |body| <= 17
  {
    hide Placeholder, Resolve, Render, ScanOf, TagOf, HoleCount, Find;
    IncludeStart();
    IncludeScan();
    IncludeIsDynamic(cfg);
    IncludeName();
    OneInclude(cfg, Placeholder(0), INCLUDE, "/a.php");
    TwoHoles();
    RoomyByCount(Placeholder(0) + Placeholder(0), 0, |body|);
  }

  lemma TwoHoles()
    ensures HoleCount(Placeholder(0) + Placeholder(0), 0) == 2
  {
    hide Placeholder, IsHole;
    var own := Placeholder(0);
    CountPlaceholder(0, own, 0);
    CountPlaceholder(0, "", 0);
    assert own + "" == own;
  }

  lemma RenderNothing(cfg: Config, uris: seq<string>)
    ensures Render(cfg, Passthrough, uris, "") == Page("", uris)
  {
  }

  // ------------------------------------------------------- the hold buffer

  /** One turn of the final pass. */
  lemma StripTurn(was: string, i: nat, done: string)
    requires i < |was|
    ensures PlaceholderAtFront(was[i..]) <==>
      && i + 8 <= |was| && was[i] == MARK && was[i + 1] == 'L' && was[i + 2] == 'H' && was[i + 3] == 'E'
      && was[i + 7] == '\U{02}'
    ensures done + StripFrom(was[i..])
         == if PlaceholderAtFront(was[i..]) then done + StripFrom(was[i + 8..])
            else done + [was[i]] + StripFrom(was[i + 1..])
  {
    var left := was[i..];
    if PlaceholderAtFront(left) {
      assert left[8..] == was[i + 8..];
    } else {
      assert left[1..] == was[i + 1..];
      assert done + ([left[0]] + StripFrom(left[1..])) == done + [left[0]] + StripFrom(left[1..]);
    }
  }

  lemma StripEnd(was: string, done: string)
    ensures was[0..] == was && "" + StripFrom(was) == StripFrom(was)
    ensures done + StripFrom(was[|was|..]) == done
  {
  }

  /** One turn of the pass with at least a placeholder's length left. */
  lemma SpliceTurn(hold: string, i: nat, index: int, body: string, done: string)
    requires i + 8 <= |hold| && |done| <= |SpliceFrom(hold[i..], index, body, done)|
    ensures IsHole(hold[i..], index) <==>
      && hold[i] == MARK && hold[i + 1] == 'L' && hold[i + 2] == 'H' && hold[i + 3] == 'E' && hold[i + 7] == '\U{02}'
      && FrontIndex(hold[i..]) == index
    ensures var next := if IsHole(hold[i..], index) then (if |done| + |body| <= MAX_BUFFER then done + body else done)
                        else if |done| < MAX_BUFFER then done + [hold[i]] else done;
            var j := if IsHole(hold[i..], index) then i + 8 else i + 1;
            && SpliceFrom(hold[i..], index, body, done) == SpliceFrom(hold[j..], index, body, next)
            && |next| <= |SpliceFrom(hold[i..], index, body, done)|
  {
    assert hold[i..][8..] == hold[i + 8..] && hold[i..][1..] == hold[i + 1..];
    var hole := IsHole(hold[i..], index);
    var next := if hole then (if |done| + |body| <= MAX_BUFFER then done + body else done)
                else if |done| < MAX_BUFFER then done + [hold[i]] else done;
    SpliceGrows(hold[if hole then i + 8 else i + 1..], index, body, next);
  }

  /** A byte of a tail too short for a placeholder. */
  lemma SpliceTail(hold: string, i: nat, index: int, body: string, done: string)
    requires i < |hold| < i + 8 && |done| < MAX_BUFFER
    ensures SpliceFrom(hold[i..], index, body, done) == SpliceFrom(hold[i + 1..], index, body, done + [hold[i]])
    ensures |done| < |SpliceFrom(hold[i..], index, body, done)|
  {
    assert hold[i..][1..] == hold[i + 1..];
    SpliceGrows(hold[i + 1..], index, body, done + [hold[i]]);
  }

  lemma SpliceEnd(hold: string, i: nat, index: int, body: string, done: string)
    requires i <= |hold| < i + 8 && (i == |hold| || |done| >= MAX_BUFFER)
    ensures SpliceFrom(hold[i..], index, body, done) == done
  {
  }

  /** The held output and its two passes; the last one compacts the buffer in place. */
  class HoldBuffer {
    var data: array<char>
    var len: nat
    var dynCount: nat

    ghost predicate Valid()
      reads this
    {
      len <= data.Length
    }

    ghost function Text(): string
      reads this, data
      requires Valid()
    {
      data[..len]
    }

    constructor (text: string, dynCount: nat)
      ensures Valid() && fresh(data) && Text() == text && this.dynCount == dynCount
    {
      var d := new char[|text|](i requires 0 <= i < |text| => text[i]);
      data, len, this.dynCount := d, |text|, dynCount;
      new;
      assert data[..len] == text;
    }

    /**
     * esi_dyn_splice, into a new buffer of fixed size: an index that was never
     * handed out changes nothing. The code writes without asking whether the
     * buffer has room; `Roomy` is exactly when it has.
     */
    method Splice(index: int, body: string)
      requires Valid() && (0 <= index < dynCount ==> Roomy(Text(), index, |body|))
      modifies this`data, this`len
      ensures Valid() && (data == old(data) || fresh(data))
      ensures Text() == if 0 <= index < dynCount then SpliceFrom(old(Text()), index, body, "") else old(Text())
    {
      hide SpliceFrom, Roomy, IsHole;
      if index < 0 || index >= dynCount {
        return;
      }
      ghost var hold := Text();
      ghost var result := SpliceFrom(hold, index, body, "");
      FitsExactly(hold, index, body);
      var out := new char[len + |body| + 1];
      var o: nat, i: nat := 0, 0;
      assert hold[0..] == hold && out[..0] == "";
      while i + 8 <= len
        invariant i <= len && o <= |result| && data == old(data) && len == old(len) && fresh(out)
        invariant SpliceFrom(hold[i..], index, body, out[..o]) == result
      {
        ghost var done := out[..o];
        SpliceTurn(hold, i, index, body, done);
        if data[i] == MARK && data[i + 1] == 'L' && data[i + 2] == 'H' && data[i + 3] == 'E'
           && data[i + 7] == '\U{02}' && IndexAt(i) == index
        {
          if |body| > 0 && o + |body| <= MAX_BUFFER {
            forall k | 0 <= k < |body| { out[o + k] := body[k]; }
            o := o + |body|;
            assert out[..o] == done + body;
          } else {
            assert body == "" ==> done + body == done;
          }
          i := i + 8;
        } else {
          if o < MAX_BUFFER {
            out[o] := data[i];
            o := o + 1;
            assert out[..o] == done + [hold[i]];
          }
          i := i + 1;
        }
      }
      while i < len && o < MAX_BUFFER
        invariant i <= len < i + 8 && o <= |result| && data == old(data) && len == old(len) && fresh(out)
        invariant SpliceFrom(hold[i..], index, body, out[..o]) == result
      {
        ghost var done := out[..o];
        SpliceTail(hold, i, index, body, done);
        out[o] := data[i];
        o, i := o + 1, i + 1;
        assert out[..o] == done + [hold[i - 1]];
        SpliceGrows(hold[i..], index, body, out[..o]);
      }
      SpliceEnd(hold, i, index, body, out[..o]);
      data, len := out, o;
    }

    /** ph_index_at. */
    function IndexAt(i: nat): (r: nat)
      requires Valid() && i + 8 <= len
      reads this, data
      ensures r == FrontIndex(Text()[i..])
    {
      data[i + 4] as int + 256 * (data[i + 5] as int) + 65536 * (data[i + 6] as int)
    }

    /** The final pass, in place: the write position never passes the read position. */
    method StripRemaining()
      requires Valid()
      modifies this`len, data
      ensures Valid() && data == old(data) && Text() == StripFrom(old(Text()))
    {
      hide StripFrom, PlaceholderAtFront;
      ghost var was := Text();
      var o: nat, i: nat := 0, 0;
      StripEnd(was, "");
      while i < len
        invariant o <= i <= len == |was| && data == old(data)
        invariant forall k :: i <= k < len ==> data[k] == was[k]
        invariant data[..o] + StripFrom(was[i..]) == StripFrom(was)
      {
        ghost var done := data[..o];
        StripTurn(was, i, done);
        if i + 8 <= len && data[i] == MARK && data[i + 1] == 'L' && data[i + 2] == 'H' && data[i + 3] == 'E'
           && data[i + 7] == '\U{02}'
        {
          i := i + 8;
        } else {
          data[o] := data[i];
          o, i := o + 1, i + 1;
          assert data[..o] == done + [was[i - 1]];
        }
      }
      StripEnd(was, data[..o]);
      len := o;
    }

    /** The join at the end of the page: a fragment that could not be fetched is the empty text, and when the page
        runs out of time the later ones are missing. */
    method Join(bodies: seq<string>)
      requires Valid() && |bodies| <= dynCount && RoomyAll(Text(), bodies, 0)
      modifies this`data, this`len, data
      ensures Valid() && Text() == Joined(old(Text()), bodies)
    {
      ghost var all := SpliceAll(Text(), bodies, 0);
      var i := 0;
      while i < |bodies|
        invariant Valid() && i <= |bodies| && dynCount == old(dynCount) && (data == old(data) || fresh(data))
        invariant SpliceAll(Text(), bodies, i) == all && RoomyAll(Text(), bodies, i)
      {
        Splice(i, bodies[i]);
        i := i + 1;
      }
      StripRemaining();
    }
  }
}
