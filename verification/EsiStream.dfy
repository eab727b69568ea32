/**
 * Streaming agrees with the meaning of the whole body: for which chunk
 * boundaries it does, and that it does so for no others.
 */
module EsiStream {
  import opened Text
  import opened Esi

  // ------------------------------------------------------- where a chunk ends

  /** The block a text ends in, and the last stretch of it that was scanned in that block. */
  function Residue(mode: Mode, data: string): (Mode, string)
    decreases |data|
  {
    var scan := ScanOf(mode, data);
    if Complete(data, scan) then Residue(NextMode(data, scan), Rest(data, scan)) else (mode, data)
  }

  /** The last `k` bytes of `seg` and the first bytes of `next` spell the close tag `c`. */
  predicate SpelledAcross(c: string, seg: string, next: string, k: nat) {
    0 < k < |c| && k <= |seg| && |c| - k <= |next| && seg[|seg| - k..] == c[..k] && next[..|c| - k] == c[k..]
  }

  /** `seg` ends with the first `k` bytes of the close tag `c`. */
  predicate BeginsClose(c: string, seg: string, k: nat) {
    0 < k < |c| && k <= |seg| && seg[|seg| - k..] == c[..k]
  }

  const KNOWN: seq<string> := ["remove", "comment", "include", "vars"]

  /** `s` and `name` agree as far as both go. */
  predicate Agree(s: string, name: string) {
    forall i :: 0 <= i < |s| && i < |name| ==> Lower(s[i]) == name[i]
  }

  /** `s` is the start of a tag the filter knows, or could become one when more bytes arrive. */
  predicate CouldOpen(s: string) {
    if |s| <= 5 then s == PREFIX[..|s|]
    else s[..5] == PREFIX && exists n :: 0 <= n < |KNOWN| && Agree(s[5..], KNOWN[n])
  }

  /** No byte of `s` begins a tag the filter knows. */
  predicate Harmless(s: string) {
    forall p :: 0 <= p < |s| ==> !CouldOpen(s[p..])
  }

  /** An unterminated tag at the end of a passthrough text is short enough to be held, or means nothing. */
  predicate TailOK(seg: string) {
    var scan := ScanOf(Passthrough, seg);
    scan.OpenTag? ==> |seg| - scan.at <= HOLD_MAX || Harmless(seg[scan.at..])
  }

  /** The boundary between `a` and the rest of the body splits no close tag and drops no overlong tag. */
  predicate CutOK(mode: Mode, a: string, rest: string) {
    var (m, seg) := Residue(mode, a);
    if m.Passthrough? then TailOK(seg)
    else forall c, k: nat :: c in Closers(m) && 0 < k < |c| ==> !SpelledAcross(c, seg, rest, k)
  }

  /** The same, whatever the rest of the body may be. */
  predicate CutSafe(mode: Mode, a: string) {
    var (m, seg) := Residue(mode, a);
    if m.Passthrough? then TailOK(seg)
    else forall c, k: nat :: c in Closers(m) && 0 < k < |c| ==> !BeginsClose(c, seg, k)
  }

  lemma SafeIsOK(mode: Mode, a: string, rest: string)
    requires CutSafe(mode, a)
    ensures CutOK(mode, a, rest)
  {
    var (m, seg) := Residue(mode, a);
    if !m.Passthrough? {
      forall c, k: nat | c in Closers(m) && 0 < k < |c|
        ensures !SpelledAcross(c, seg, rest, k)
      {
        assert !BeginsClose(c, seg, k);
      }
    }
  }

  // ---------------------------------------------------- scans of longer texts

  lemma NoInnerAngle(c: string, k: nat)
    requires c == PREFIX || c == REMOVE_CLOSE || c == COMMENT_CLOSE || c == VARS_CLOSE
    requires 0 < k < |c|
    ensures c[k] != '<'
  {
  }

  lemma NameExtend(s: string, b: string, p: string)
    requires '>' in s && '>' !in p
    ensures StartsNoCase(s + b, p) <==> StartsNoCase(s, p)
  {
    var g :| 0 <= g < |s| && s[g] == '>';
    if |s| < |p| {
      assert (s + b)[g] == '>' && Lower('>') == '>' && p[g] != '>';
    }
  }

  lemma TagExtend(s: string, b: string)
    requires '>' in s
    ensures TagOf(s + b) == TagOf(s)
  {
    NameExtend(s, b, "remove");
    NameExtend(s, b, "comment");
    NameExtend(s, b, "include");
    NameExtend(s, b, "vars");
  }

  /** The first complete tag stays the same when text is appended. */
  lemma FullTagExtend(a: string, b: string)
    requires ScanOf(Passthrough, a).FullTag?
    ensures ScanOf(Passthrough, a + b) == ScanOf(Passthrough, a)
  {
    var scan := ScanOf(Passthrough, a);
    FindExtend(a, b, PREFIX, 0);
    FindExtend(a, b, ">", scan.at);
  }

  /** Close tags have one '<', so two of them cannot overlap. */
  lemma ClosersApart(hay: string, c: string, d: string, p: nat, q: nat)
    requires c in Closers(Strip) && d in Closers(Strip) && c != d
    requires OccursAt(hay, c, p) && OccursAt(hay, d, q) && q <= p
    ensures q + |d| <= p
  {
    assert hay[p..p + |c|][0] == '<' && hay[p..p + |c|][6] == c[6] && hay[q..q + |d|][6] == d[6];
    if q < p < q + |d| {
      assert hay[q..q + |d|][p - q] == hay[p];
      NoInnerAngle(d, p - q);
    }
  }

  lemma ClosedExtend(mode: Mode, a: string, b: string)
    requires ScanOf(mode, a).Closed?
    ensures ScanOf(mode, a + b) == ScanOf(mode, a)
  {
    if mode.Vars? {
      FindExtend(a, b, VARS_CLOSE, 0);
    } else {
      var cr, cc := Find(a, REMOVE_CLOSE), Find(a, COMMENT_CLOSE);
      if cr.Some? { FindExtend(a, b, REMOVE_CLOSE, 0); }
      if cc.Some? { FindExtend(a, b, COMMENT_CLOSE, 0); }
      var cr', cc' := Find(a + b, REMOVE_CLOSE), Find(a + b, COMMENT_CLOSE);
      if cr.None? && cr'.Some? && cr'.value <= cc.value {
        ClosersApart(a + b, COMMENT_CLOSE, REMOVE_CLOSE, cc.value, cr'.value);
        OccursExtend(a, b, REMOVE_CLOSE, cr'.value);
      }
      if cc.None? && cc'.Some? && cc'.value <= cr.value {
        ClosersApart(a + b, REMOVE_CLOSE, COMMENT_CLOSE, cr.value, cc'.value);
        OccursExtend(a, b, COMMENT_CLOSE, cc'.value);
      }
    }
  }

  /** A text with no close tag, and none spelled across the boundary, adds nothing to the search. */
  lemma NoCloseFind(c: string, a: string, b: string)
    requires c != "" && Find(a, c).None?
    requires forall k: nat :: 0 < k < |c| ==> !SpelledAcross(c, a, b, k)
    ensures Find(a + b, c) == Shift(|a|, Find(b, c))
  {
    forall j: nat | j < |a|
      ensures !OccursAt(a + b, c, j)
    {
      if OccursAt(a + b, c, j) {
        if j + |c| <= |a| {
          OccursExtend(a, b, c, j);
        } else {
          var k := |a| - j;
          assert c == (a + b)[j..j + |c|];
          assert c[..k] == a[|a| - k..];
          assert c[k..] == b[..|c| - k];
          assert SpelledAcross(c, a, b, k);
        }
      }
    }
    FindSkip(a, b, c, 0, 0);
  }

  // ------------------------------------------------------- one step of a call

  function Prepend(pre: string, r: Result): Result { r.(text := pre + r.text) }

  lemma FlatTwo(x: string, y: string)
    ensures Flat([x, y]) == x + y && Flat([x]) == x
  {
    assert [x, y][1..] == [y] && [y][1..] == [] && [x][1..] == [];
    assert Flat([y]) == y + Flat([]) && Flat([x]) == x + Flat([]);
    assert y + "" == y && x + "" == x;
  }

  lemma RunStep(cfg: Config, mode: Mode, uris: seq<string>, a: string)
    requires Complete(a, ScanOf(mode, a))
    ensures var scan := ScanOf(mode, a);
            Run(cfg, mode, uris, a)
            == Prepend(Head(cfg, mode, uris, a, scan),
                       Run(cfg, NextMode(a, scan), NextUris(cfg, uris, a, scan), Rest(a, scan)))
  {
    var scan := ScanOf(mode, a);
    hide ScanOf, Emitted, Rest, Resolve, TagOf;
    if scan.FullTag? {
      FlatTwo(a[..scan.at], Emitted(cfg, uris, a, scan));
    } else {
      FlatTwo(a[..scan.at], "");
    }
  }

  lemma RunLast(cfg: Config, mode: Mode, uris: seq<string>, a: string)
    requires !Complete(a, ScanOf(mode, a))
    ensures var scan := ScanOf(mode, a);
            Run(cfg, mode, uris, a) ==
            match scan
            case NoTag =>
              var k := PartialTail(a);
              Result(mode, uris, a[..|a| - k], a[|a| - k..])
            case OpenTag(at) =>
              if |a| - at <= HOLD_MAX then Result(mode, uris, a[..at], a[at..]) else Result(mode, uris, a, "")
            case _ => Result(mode, uris, if mode.Vars? then a else "", "")
  {
    var scan := ScanOf(mode, a);
    hide ScanOf, PartialTail;
    if scan.OpenTag? {
      FlatTwo(a[..scan.at], a[scan.at..]);
      assert a[..scan.at] + a[scan.at..] == a;
    } else {
      FlatTwo(a, "");
      FlatTwo(a[..|a| - PartialTail(a)], "");
    }
  }

  lemma RenderStep(cfg: Config, mode: Mode, uris: seq<string>, data: string, scan: Scan)
    requires scan == ScanOf(mode, data) && Complete(data, scan)
    ensures Render(cfg, mode, uris, data)
         == Before(Head(cfg, mode, uris, data, scan),
                   Render(cfg, NextMode(data, scan), NextUris(cfg, uris, data, scan), Rest(data, scan)))
  {
  }

  lemma RenderLast(cfg: Config, mode: Mode, uris: seq<string>, data: string)
    requires !Complete(data, ScanOf(mode, data))
    ensures Render(cfg, mode, uris, data) == Page(if mode.Strip? then "" else data, uris)
  {
  }

  // ------------------------------------------------------------ passing text

  function Moved(d: nat, scan: Scan): Scan {
    match scan
    case OpenTag(at) => OpenTag(d + at)
    case FullTag(at, gt) => FullTag(d + at, d + gt)
    case _ => scan
  }

  lemma PassthroughScan(data: string)
    ensures var scan := ScanOf(Passthrough, data);
            && (scan.OpenTag? || scan.FullTag? ==> OccursAt(data, PREFIX, scan.at))
            && (scan.OpenTag? ==> Find(data, ">", scan.at).None?)
            && (scan.FullTag? ==> data[scan.gt] == '>')
            && forall j: nat :: scan.NoTag? || j < scan.at ==> !OccursAt(data, PREFIX, j)
  {
    var scan := ScanOf(Passthrough, data);
    if scan.FullTag? { assert data[scan.gt..scan.gt + 1] == ">"; }
  }

  lemma ScanSkip(x: string, y: string)
    requires forall j: nat :: j < |x| ==> !OccursAt(x + y, PREFIX, j)
    ensures ScanOf(Passthrough, x + y) == Moved(|x|, ScanOf(Passthrough, y))
  {
    FindSkip(x, y, PREFIX, 0, 0);
    var tag := Find(y, PREFIX);
    if tag.Some? { FindSkip(x, y, ">", tag.value, |x| + tag.value); }
    hide Find, OccursAt;
  }

  lemma MovedTag(cfg: Config, uris: seq<string>, x: string, y: string, scan: Scan)
    requires Complete(y, scan) && scan.FullTag?
    ensures var scan' := Moved(|x|, scan);
            && Complete(x + y, scan')
            && Rest(x + y, scan') == Rest(y, scan)
            && NextMode(x + y, scan') == NextMode(y, scan)
            && NextUris(cfg, uris, x + y, scan') == NextUris(cfg, uris, y, scan)
            && Head(cfg, Passthrough, uris, x + y, scan') == x + Head(cfg, Passthrough, uris, y, scan)
  {
    hide TagOf, Resolve, Written;
    var scan' := Moved(|x|, scan);
    assert (x + y)[scan'.at + 5..] == y[scan.at + 5..];
    assert (x + y)[scan'.at..scan'.gt + 1] == y[scan.at..scan.gt + 1];
    assert (x + y)[scan'.gt + 1..] == y[scan.gt + 1..];
    var e := Emitted(cfg, uris, y, scan);
    hide Emitted;
    assert (x + y)[..scan'.at] + e == x + (y[..scan.at] + e);
  }

  /** Text in which no tag starts is passed, and the rest is rendered as if it stood alone. */
  lemma RenderSkip(cfg: Config, uris: seq<string>, x: string, y: string)
    requires forall j: nat :: j < |x| ==> !OccursAt(x + y, PREFIX, j)
    ensures Render(cfg, Passthrough, uris, x + y) == Before(x, Render(cfg, Passthrough, uris, y))
  {
    hide Render, ScanOf, NextMode, NextUris, Rest, Head;
    ScanSkip(x, y);
    var scan := ScanOf(Passthrough, y);
    if scan.FullTag? {
      MovedTag(cfg, uris, x, y, scan);
      RenderStep(cfg, Passthrough, uris, y, scan);
      RenderStep(cfg, Passthrough, uris, x + y, Moved(|x|, scan));
      var rest := Render(cfg, NextMode(y, scan), NextUris(cfg, uris, y, scan), Rest(y, scan)).text;
      assert x + Head(cfg, Passthrough, uris, y, scan) + rest == x + (Head(cfg, Passthrough, uris, y, scan) + rest);
    } else {
      RenderLast(cfg, Passthrough, uris, y);
      RenderLast(cfg, Passthrough, uris, x + y);
    }
  }

  /** Tag text that already holds its '>' is not changed by what follows. */
  lemma TagExtended(cfg: Config, mode: Mode, uris: seq<string>, a: string, b: string, scan: Scan)
    requires Complete(a, scan) && (scan.FullTag? ==> a[scan.gt] == '>')
    ensures Complete(a + b, scan)
    ensures NextMode(a + b, scan) == NextMode(a, scan)
    ensures NextUris(cfg, uris, a + b, scan) == NextUris(cfg, uris, a, scan)
    ensures Rest(a + b, scan) == Rest(a, scan) + b
    ensures Head(cfg, mode, uris, a + b, scan) == Head(cfg, mode, uris, a, scan)
  {
    TakeAppend(a, b, scan.at);
    if scan.Closed? {
      DropAppend(a, b, scan.at + scan.len);
    } else {
      NameExtended(a, b, scan);
      DropAppend(a, b, scan.gt + 1);
      InsertExtended(cfg, uris, a, b, scan);
      hide TagOf, InsertOf, Written;
    }
  }

  lemma InsertExtended(cfg: Config, uris: seq<string>, a: string, b: string, scan: Scan)
    requires Complete(a, scan) && scan.FullTag? && TagOf((a + b)[scan.at + 5..]) == TagOf(a[scan.at + 5..])
    ensures InsertOf(cfg, uris, a + b, scan) == InsertOf(cfg, uris, a, scan)
  {
    hide TagOf, Resolve;
    assert (a + b)[scan.at..scan.gt + 1] == a[scan.at..scan.gt + 1];
  }

  lemma NameExtended(a: string, b: string, scan: Scan)
    requires Complete(a, scan) && scan.FullTag? && a[scan.gt] == '>'
    ensures (a + b)[scan.at + 5..] == a[scan.at + 5..] + b
    ensures TagOf(a[scan.at + 5..] + b) == TagOf(a[scan.at + 5..])
  {
    assert a[scan.at + 5..][scan.gt - (scan.at + 5)] == '>';
    TagExtend(a[scan.at + 5..], b);
    DropAppend(a, b, scan.at + 5);
  }

  /** An unterminated text that cannot open a known tag reads the same, whatever follows it. */
  lemma {:induction false} HarmlessPasses(cfg: Config, uris: seq<string>, x: string, b: string)
    requires Harmless(x)
    ensures Render(cfg, Passthrough, uris, x + b) == Before(x, Render(cfg, Passthrough, uris, b))
    decreases |x|
  {
    hide Render, ScanOf, OccursAt, Harmless;
    var scan := ScanOf(Passthrough, x + b);
    PassthroughScan(x + b);
    if scan.NoTag? || |x| <= scan.at {
      RenderSkip(cfg, uris, x, b);
    } else {
      TagInside(x, b, scan.at);
      var at := scan.at;
      if scan.OpenTag? {
        RenderLast(cfg, Passthrough, uris, x + b);
        NoGtRender(cfg, uris, x, b, at);
      } else {
        UnknownStep(cfg, uris, x, b, scan);
        HarmlessSuffix(x, at + 5);
        HarmlessPasses(cfg, uris, x[at + 5..], b);
        var tail := Render(cfg, Passthrough, uris, b).text;
        assert x[..at + 5] + x[at + 5..] == x;
        assert x[..at + 5] + (x[at + 5..] + tail) == x[..at + 5] + x[at + 5..] + tail;
      }
    }
  }

  lemma UnknownStep(cfg: Config, uris: seq<string>, x: string, b: string, scan: Scan)
    requires ScanOf(Passthrough, x + b) == scan && scan.FullTag?
    requires Harmless(x) && scan.at + 5 < |x| && x[scan.at..scan.at + 5] == PREFIX
    ensures Render(cfg, Passthrough, uris, x + b)
         == Before(x[..scan.at + 5], Render(cfg, Passthrough, uris, x[scan.at + 5..] + b))
  {
    HarmlessName(x, b, scan.at);
    DropAppend(x, b, scan.at + 5);
    assert (x + b)[..scan.at] + PREFIX == x[..scan.at + 5];
    hide ScanOf, TagOf, Render, Harmless;
    RenderStep(cfg, Passthrough, uris, x + b, scan);
  }

  lemma HarmlessSuffix(x: string, n: nat)
    requires n <= |x| && Harmless(x)
    ensures Harmless(x[n..])
  {
    forall p | 0 <= p < |x| - n
      ensures !CouldOpen(x[n..][p..])
    {
      assert x[n..][p..] == x[n + p..];
    }
  }

  /** A tag that starts in harmless text also ends its prefix there. */
  lemma TagInside(x: string, b: string, at: nat)
    requires Harmless(x) && at < |x| && OccursAt(x + b, PREFIX, at)
    ensures at + 5 < |x| && x[at..at + 5] == PREFIX
  {
    var m := if |x| - at < 5 then |x| - at else 5;
    assert x[at..at + m] == (x + b)[at..at + 5][..m] == PREFIX[..m];
    assert x[at..][..m] == x[at..at + m];
    assert !CouldOpen(x[at..]);
  }

  lemma HarmlessName(x: string, b: string, at: nat)
    requires Harmless(x) && at + 5 < |x| && x[at..at + 5] == PREFIX
    ensures TagOf(x[at + 5..] + b).UnknownTag?
  {
    assert !CouldOpen(x[at..]) && x[at..][..5] == x[at..at + 5] && x[at..][5..] == x[at + 5..];
    var name := x[at + 5..];
    assert forall n :: 0 <= n < |KNOWN| ==> !Agree(name, KNOWN[n]);
    NotAgree(name, b, KNOWN[0]);
    NotAgree(name, b, KNOWN[1]);
    NotAgree(name, b, KNOWN[2]);
    NotAgree(name, b, KNOWN[3]);
  }

  lemma NotAgree(s: string, b: string, name: string)
    requires !Agree(s, name)
    ensures !StartsNoCase(s + b, name)
  {
    var i :| 0 <= i < |s| && i < |name| && Lower(s[i]) != name[i];
    assert (s + b)[i] == s[i];
  }

  lemma NoGtRender(cfg: Config, uris: seq<string>, x: string, b: string, at: nat)
    requires at <= |x| && Find(x + b, ">", at).None?
    ensures Render(cfg, Passthrough, uris, b) == Page(b, uris)
  {
    forall j: nat
      ensures !OccursAt(b, ">", j)
    {
      OccursShift(x, b, ">", j);
    }
  }

  // -------------------------------------------------------- cutting a body in two

  /** Filtering `a`, then rendering what is held with `b`, means what `a + b` means. */
  predicate SplitHolds(cfg: Config, mode: Mode, uris: seq<string>, a: string, b: string) {
    var r := Run(cfg, mode, uris, a);
    Render(cfg, mode, uris, a + b) == Before(r.text, Render(cfg, r.mode, r.uris, r.hold + b))
  }

  lemma Prefixed(pre: string, x: string, y: string, z: string)
    ensures pre + x == pre + y + z <==> x == y + z
  {
    assert pre + y + z == pre + (y + z);
    assert (pre + x)[|pre|..] == x && (pre + (y + z))[|pre|..] == y + z;
  }

  /** A complete tag or block is dealt with before the boundary matters. */
  lemma SplitStep(cfg: Config, mode: Mode, uris: seq<string>, a: string, b: string, scan: Scan)
    requires scan == ScanOf(mode, a) && Complete(a, scan)
    ensures SplitHolds(cfg, mode, uris, a, b)
       <==> SplitHolds(cfg, NextMode(a, scan), NextUris(cfg, uris, a, scan), Rest(a, scan), b)
  {
    hide ScanOf, Render, Run, Head, NextMode, NextUris, Rest, OccursAt;
    if mode.Passthrough? {
      FullTagExtend(a, b);
      PassthroughScan(a);
    } else {
      ClosedExtend(mode, a, b);
    }
    TagExtended(cfg, mode, uris, a, b, scan);
    RenderStep(cfg, mode, uris, a + b, scan);
    RunStep(cfg, mode, uris, a);
    var mode', uris', a' := NextMode(a, scan), NextUris(cfg, uris, a, scan), Rest(a, scan);
    var inner := Run(cfg, mode', uris', a');
    Prefixed(Head(cfg, mode, uris, a, scan), Render(cfg, mode', uris', a' + b).text, inner.text,
             Render(cfg, inner.mode, inner.uris, inner.hold + b).text);
  }

  /** Before a partial tag at the end of `a`, no tag starts, whatever `b` brings. */
  lemma NoTagBefore(a: string, b: string)
    requires ScanOf(Passthrough, a).NoTag?
    ensures forall j: nat :: j < |a| - PartialTail(a) ==> !OccursAt(a + b, PREFIX, j)
  {
    PassthroughScan(a);
    hide ScanOf, PartialTail, OccursAt;
    forall j: nat | j < |a| - PartialTail(a)
      ensures !OccursAt(a + b, PREFIX, j)
    {
      if j + 5 <= |a| {
        OccursExtend(a, b, PREFIX, j);
      } else {
        StraddlingTag(a, b, |a| - j);
      }
    }
  }

  lemma StraddlingTag(a: string, b: string, t: nat)
    requires t <= |a| && 0 < t <= 4 && !PartialAt(a, t)
    ensures !OccursAt(a + b, PREFIX, |a| - t)
  {
    var i :| 0 <= i < t && a[|a| - t + i] != PREFIX[i];
    assert (a + b)[|a| - t + i] == a[|a| - t + i];
    if |a| - t + 5 <= |a + b| {
      assert (a + b)[|a| - t..|a| - t + 5][i] == a[|a| - t + i];
    }
  }

  lemma SplitNoTag(cfg: Config, uris: seq<string>, a: string, b: string)
    requires ScanOf(Passthrough, a).NoTag?
    ensures SplitHolds(cfg, Passthrough, uris, a, b)
  {
    hide Render, Run, ScanOf, PartialTail, OccursAt;
    var n, k := |a|, PartialTail(a);
    RunLast(cfg, Passthrough, uris, a);
    NoTagBefore(a, b);
    assert a[..n - k] + (a[n - k..] + b) == a + b;
    RenderSkip(cfg, uris, a[..n - k], a[n - k..] + b);
  }

  lemma NoTagInFront(a: string, b: string)
    requires ScanOf(Passthrough, a).OpenTag?
    ensures forall j: nat :: j < ScanOf(Passthrough, a).at ==> !OccursAt(a + b, PREFIX, j)
  {
    PassthroughScan(a);
    hide ScanOf;
    forall j: nat | j < ScanOf(Passthrough, a).at
      ensures !OccursAt(a + b, PREFIX, j)
    {
      OccursExtend(a, b, PREFIX, j);
    }
  }

  lemma SplitOpenTag(cfg: Config, uris: seq<string>, a: string, b: string)
    requires ScanOf(Passthrough, a).OpenTag? && TailOK(a)
    ensures SplitHolds(cfg, Passthrough, uris, a, b)
  {
    hide Render, Run, ScanOf, Harmless, OccursAt, PartialTail;
    var at := ScanOf(Passthrough, a).at;
    RunLast(cfg, Passthrough, uris, a);
    NoTagInFront(a, b);
    var x, y := a[..at], a[at..];
    assert x + (y + b) == a + b;
    RenderSkip(cfg, uris, x, y + b);
    if |a| - at > HOLD_MAX {
      HarmlessPasses(cfg, uris, y, b);
      var tail := Render(cfg, Passthrough, uris, b).text;
      assert x + y == a && "" + b == b;
      assert x + (y + tail) == x + y + tail;
    }
  }

  /** When no close tag lies across the boundary, the search goes on in `b` alone. */
  lemma ScanNoClose(mode: Mode, a: string, b: string)
    requires ScanOf(mode, a).NoClose?
    requires forall c, k: nat :: c in Closers(mode) && 0 < k < |c| ==> !SpelledAcross(c, a, b, k)
    ensures var scan := ScanOf(mode, b);
            ScanOf(mode, a + b) == if scan.Closed? then Closed(|a| + scan.at, scan.len) else scan
  {
    if mode.Strip? {
      assert Closers(mode) == [REMOVE_CLOSE, COMMENT_CLOSE];
      NoCloseFind(REMOVE_CLOSE, a, b);
      NoCloseFind(COMMENT_CLOSE, a, b);
    } else {
      assert Closers(mode) == [VARS_CLOSE];
      NoCloseFind(VARS_CLOSE, a, b);
    }
    hide OccursAt, Find, SpelledAcross;
  }

  lemma MovedClose(cfg: Config, mode: Mode, uris: seq<string>, a: string, b: string, scan: Scan)
    requires Complete(b, scan) && scan.Closed?
    ensures var scan' := Closed(|a| + scan.at, scan.len);
            && Complete(a + b, scan')
            && Rest(a + b, scan') == Rest(b, scan)
            && NextMode(a + b, scan') == NextMode(b, scan)
            && NextUris(cfg, uris, a + b, scan') == NextUris(cfg, uris, b, scan)
            && Head(cfg, mode, uris, a + b, scan')
            == (if mode.Vars? then a else "") + Head(cfg, mode, uris, b, scan)
  {
    assert (a + b)[..|a| + scan.at] == a + b[..scan.at];
    assert (a + b)[|a| + scan.at + scan.len..] == b[scan.at + scan.len..];
    assert "" + "" == "";
  }

  lemma SplitNoClose(cfg: Config, mode: Mode, uris: seq<string>, a: string, b: string)
    requires !mode.Passthrough? && ScanOf(mode, a).NoClose? && CutOK(mode, a, b)
    ensures SplitHolds(cfg, mode, uris, a, b)
  {
    CutNoClose(mode, a, b);
    hide ScanOf, Render, Run, PartialTail, Head, NextMode, NextUris, Rest, CutOK;
    RunLast(cfg, mode, uris, a);
    var scan, pre := ScanOf(mode, b), if mode.Vars? then a else "";
    assert Run(cfg, mode, uris, a) == Result(mode, uris, pre, "") && "" + b == b;
    if scan.Closed? {
      MovedClose(cfg, mode, uris, a, b, scan);
      RenderStep(cfg, mode, uris, b, scan);
      RenderStep(cfg, mode, uris, a + b, Closed(|a| + scan.at, scan.len));
      var tail := Render(cfg, NextMode(b, scan), NextUris(cfg, uris, b, scan), Rest(b, scan)).text;
      Assoc(pre, Head(cfg, mode, uris, b, scan), tail);
    } else {
      RenderLast(cfg, mode, uris, b);
      RenderLast(cfg, mode, uris, a + b);
    }
  }

  lemma Assoc(x: string, y: string, z: string)
    ensures x + y + z == x + (y + z)
  {
  }

  lemma CutNoClose(mode: Mode, a: string, b: string)
    requires !mode.Passthrough? && ScanOf(mode, a).NoClose? && CutOK(mode, a, b)
    ensures var scan := ScanOf(mode, b);
            ScanOf(mode, a + b) == if scan.Closed? then Closed(|a| + scan.at, scan.len) else scan
  {
    assert Residue(mode, a) == (mode, a);
    hide ScanOf, SpelledAcross, Closers;
    ScanNoClose(mode, a, b);
  }

  lemma CutStep(mode: Mode, a: string, b: string)
    requires CutOK(mode, a, b)
    ensures var scan := ScanOf(mode, a);
            if Complete(a, scan) then CutOK(NextMode(a, scan), Rest(a, scan), b) else scan.OpenTag? ==> TailOK(a)
  {
    hide ScanOf, NextMode, Rest, Harmless, SpelledAcross, Closers, TailOK;
  }

  /** One cut: a boundary that splits no close tag and drops no overlong tag cannot be seen in the output. */
  lemma {:induction false} CutUnseen(cfg: Config, mode: Mode, uris: seq<string>, a: string, b: string)
    requires CutOK(mode, a, b)
    ensures SplitHolds(cfg, mode, uris, a, b)
    decreases |a|
  {
    hide ScanOf, SplitHolds, CutOK, TailOK, NextMode, NextUris, Rest;
    CutStep(mode, a, b);
    var scan := ScanOf(mode, a);
    match scan
    case NoTag => SplitNoTag(cfg, uris, a, b);
    case OpenTag(_) => SplitOpenTag(cfg, uris, a, b);
    case NoClose => SplitNoClose(cfg, mode, uris, a, b);
    case _ =>
      CutUnseen(cfg, NextMode(a, scan), NextUris(cfg, uris, a, scan), Rest(a, scan), b);
      SplitStep(cfg, mode, uris, a, b, scan);
  }

  // --------------------------------------------------------- a whole stream

  datatype Stream = Stream(mode: Mode, uris: seq<string>, hold: string)

  const START: Stream := Stream(Passthrough, [], "")

  /** Held bytes are always the start of a tag that has not ended. */
  predicate Reachable(s: Stream) {
    s.hold != "" ==> s.mode.Passthrough? && (ScanOf(Passthrough, s.hold).NoTag? || ScanOf(Passthrough, s.hold).OpenTag?)
  }

  function Call(cfg: Config, s: Stream, chunk: string): Result {
    BoundedRun(cfg, s.mode, s.uris, s.hold + chunk, "")
  }

  function After(r: Result): Stream { Stream(r.mode, r.uris, r.hold) }

  function Join(chunks: seq<string>): string {
    if chunks == [] then "" else chunks[0] + Join(chunks[1..])
  }

  /** All the output of a body fed chunk by chunk, with the final flush of the held bytes. */
  function Streamed(cfg: Config, s: Stream, chunks: seq<string>): Page
    decreases |chunks|
  {
    if chunks == [] then Page(s.hold, s.uris)
    else
      var r := Call(cfg, s, chunks[0]);
      Before(r.text, Streamed(cfg, After(r), chunks[1..]))
  }

  /** Every boundary is harmless, and what each call writes fits its buffer. */
  predicate Smooth(cfg: Config, s: Stream, chunks: seq<string>)
    decreases |chunks|
  {
    chunks != [] ==>
      && CutOK(s.mode, s.hold + chunks[0], Join(chunks[1..]))
      && |Run(cfg, s.mode, s.uris, s.hold + chunks[0]).text| <= MAX_BUFFER
      && Smooth(cfg, After(Call(cfg, s, chunks[0])), chunks[1..])
  }

  lemma {:induction false} RunReachable(cfg: Config, mode: Mode, uris: seq<string>, data: string)
    ensures Reachable(After(Run(cfg, mode, uris, data)))
    decreases |data|
  {
    hide Run, ScanOf, PartialTail, NextMode, NextUris, Rest, Head;
    var scan := ScanOf(mode, data);
    if Complete(data, scan) {
      RunStep(cfg, mode, uris, data);
      RunReachable(cfg, NextMode(data, scan), NextUris(cfg, uris, data, scan), Rest(data, scan));
    } else {
      RunLast(cfg, mode, uris, data);
      if scan.NoTag? { ShortScan(data[|data| - PartialTail(data)..]); }
      if scan.OpenTag? { HeldScan(data, scan.at); }
    }
  }

  lemma ShortScan(hold: string)
    requires |hold| <= 4
    ensures ScanOf(Passthrough, hold).NoTag?
  {
  }

  lemma HeldScan(data: string, at: nat)
    requires ScanOf(Passthrough, data) == OpenTag(at)
    ensures ScanOf(Passthrough, data[at..]) == OpenTag(0)
  {
    assert data == data[..at] + data[at..];
    OccursShift(data[..at], data[at..], PREFIX, 0);
    FindIs(data[at..], PREFIX, 0, 0);
    forall j: nat
      ensures !OccursAt(data[at..], ">", j)
    {
      OccursShift(data[..at], data[at..], ">", j);
    }
  }

  /**
   * Chunk invariance: however a body is cut, the outputs of the calls and the
   * final flush concatenate to the meaning of the whole body, and the same
   * dynamic includes are recorded in the same order.
   */
  lemma {:induction false} StreamingIsRendering(cfg: Config, s: Stream, chunks: seq<string>)
    requires Reachable(s) && Smooth(cfg, s, chunks)
    ensures Streamed(cfg, s, chunks) == Render(cfg, s.mode, s.uris, s.hold + Join(chunks))
    decreases |chunks|
  {
    hide Render, Run, BoundedRun, ScanOf, CutOK;
    if chunks == [] {
      assert s.hold + "" == s.hold;
      if s.mode.Passthrough? {
        if s.hold == "" { ShortScan(""); }
        RenderLast(cfg, s.mode, s.uris, s.hold);
      } else {
        EmptyRenders(cfg, s.mode, s.uris);
      }
    } else {
      var data := s.hold + chunks[0];
      var rest := Join(chunks[1..]);
      var r := Run(cfg, s.mode, s.uris, data);
      BoundedIsRun(cfg, s.mode, s.uris, data, "");
      assert "" + r.text == r.text;
      RunReachable(cfg, s.mode, s.uris, data);
      StreamingIsRendering(cfg, After(r), chunks[1..]);
      CutUnseen(cfg, s.mode, s.uris, data, rest);
      assert data + rest == s.hold + Join(chunks);
    }
  }

  lemma EmptyRenders(cfg: Config, mode: Mode, uris: seq<string>)
    ensures Render(cfg, mode, uris, "") == Page("", uris)
  {
  }
}
