/**
 * The chunk boundaries that can be seen: a boundary is invisible for every
 * continuation of the body if and only if it is `CutSafe`.
 */
module EsiExact {
  import opened Text
  import opened Esi
  import opened EsiStream

  /** No readable files, and dynamic includes refused: every include tag vanishes. */
  const BARE: Config := Config(_ => "", true)

  // ------------------------------------------------------------ plain bodies

  lemma {:induction false} PlainIsSmooth(cfg: Config, s: Stream, chunks: seq<string>)
    requires s.mode.Passthrough? && |s.hold| <= 4
    requires Find(s.hold + Join(chunks), PREFIX).None?
    requires forall c :: c in chunks ==> |c| <= MAX_BUFFER - 4
    ensures Smooth(cfg, s, chunks)
    decreases |chunks|
  {
    if chunks != [] {
      var data, rest := s.hold + chunks[0], Join(chunks[1..]);
      assert data + rest == s.hold + Join(chunks);
      hide Run, BoundedRun, CutOK, ScanOf, PartialTail, Find;
      PlainStep(cfg, s.uris, data, rest);
      var next := After(Call(cfg, s, chunks[0]));
      PlainIsSmooth(cfg, next, chunks[1..]);
    }
  }

  /** A chunk with no tag leaves the machine in passthrough, holding at most four bytes. */
  lemma PlainStep(cfg: Config, uris: seq<string>, data: string, rest: string)
    requires Find(data + rest, PREFIX).None? && |data| <= MAX_BUFFER
    ensures var r := Run(cfg, Passthrough, uris, data);
            && BoundedRun(cfg, Passthrough, uris, data, "") == r
            && r.mode.Passthrough? && |r.hold| <= 4 && |r.text| <= MAX_BUFFER
            && Find(r.hold + rest, PREFIX).None?
    ensures CutOK(Passthrough, data, rest)
  {
    PlainCut(data, rest);
    hide Run, BoundedRun, ScanOf, PartialTail, Find, CutOK;
    RunLast(cfg, Passthrough, uris, data);
    HeldRest(data, PartialTail(data), rest);
    BoundedIsRun(cfg, Passthrough, uris, data, "");
    var text := Run(cfg, Passthrough, uris, data).text;
    assert "" + text == text;
  }

  lemma HeldRest(data: string, k: nat, rest: string)
    requires k <= |data| && Find(data + rest, PREFIX).None?
    ensures Find(data[|data| - k..] + rest, PREFIX).None?
  {
    var x, y := data[..|data| - k], data[|data| - k..] + rest;
    assert x + y + "" == data + rest;
    hide Find;
    NoTagPart(x, y, "");
  }

  lemma PlainCut(data: string, rest: string)
    requires Find(data + rest, PREFIX).None?
    ensures CutOK(Passthrough, data, rest) && ScanOf(Passthrough, data).NoTag?
  {
    assert "" + data + rest == data + rest;
    NoTagPart("", data, rest);
    hide OccursAt;
  }

  lemma NoTagPart(x: string, y: string, z: string)
    requires Find(x + y + z, PREFIX).None?
    ensures Find(y, PREFIX).None?
  {
    forall j: nat
      ensures !OccursAt(y, PREFIX, j)
    {
      OccursShift(x, y, PREFIX, j);
      if j + 5 <= |y| { OccursExtend(x + y, z, PREFIX, |x| + j); }
    }
  }

  /** A body without "<esi:" passes unchanged, however it is cut. */
  lemma PlainBodyPasses(cfg: Config, chunks: seq<string>)
    requires Find(Join(chunks), PREFIX).None?
    requires forall c :: c in chunks ==> |c| <= MAX_BUFFER - 4
    ensures Streamed(cfg, START, chunks) == Page(Join(chunks), [])
  {
    assert "" + Join(chunks) == Join(chunks);
    PlainIsSmooth(cfg, START, chunks);
    StreamingIsRendering(cfg, START, chunks);
    RenderLast(cfg, Passthrough, [], Join(chunks));
  }

  // ------------------------------------------------- cuts inside a close tag

  lemma NoOtherCloser(mode: Mode, hay: string, c: string, d: string, p: nat, j: nat)
    requires c in Closers(mode) && d in Closers(mode) && OccursAt(hay, c, p) && j <= p < j + |d|
    requires j != p || c != d
    ensures !OccursAt(hay, d, j)
  {
    assert hay[p..p + |c|][0] == '<' && hay[p..p + |c|][6] == c[6];
    assert |d| > 6 && |c| > 6 && (c != d ==> c[6] != d[6]);
    if j < p { NoInnerAngle(d, p - j); }
    if j + |d| <= |hay| {
      assert hay[j..j + |d|][p - j] == hay[p] && hay[j..j + |d|][6] == hay[j + 6];
    }
  }

  /** Completing the close tag `c` at the end of `a` creates no earlier close tag. */
  lemma NoEarlierCloser(mode: Mode, a: string, c: string, k: nat, b: string, d: string, j: nat)
    requires ScanOf(mode, a).NoClose? && c in Closers(mode) && d in Closers(mode)
    requires k <= |a| && OccursAt(a + b, c, |a| - k)
    requires j < |a| - k || (j == |a| - k && c != d)
    ensures !OccursAt(a + b, d, j)
  {
    if j + |d| <= |a| {
      OccursExtend(a, b, d, j);
    } else {
      hide ScanOf, Closers, OccursAt;
      NoOtherCloser(mode, a + b, c, d, |a| - k, j);
    }
  }

  lemma CompletedClose(mode: Mode, a: string, c: string, k: nat, b: string)
    requires ScanOf(mode, a).NoClose? && c in Closers(mode) && BeginsClose(c, a, k) && b == c[k..] + "x"
    ensures ScanOf(mode, a + b) == Closed(|a| - k, |c|)
  {
    var p := |a| - k;
    CompletedAt(mode, a, c, k, b);
    CompletedFind(mode, a, c, k, b, c);
    if mode.Strip? {
      CompletedFind(mode, a, c, k, b, if c == REMOVE_CLOSE then COMMENT_CLOSE else REMOVE_CLOSE);
    }
    hide OccursAt, Find;
  }

  lemma CompletedAt(mode: Mode, a: string, c: string, k: nat, b: string)
    requires BeginsClose(c, a, k) && b == c[k..] + "x"
    ensures OccursAt(a + b, c, |a| - k)
  {
    var p := |a| - k;
    assert (a + b)[p..p + |c|] == a[p..] + c[k..] == c;
  }

  lemma CompletedFind(mode: Mode, a: string, c: string, k: nat, b: string, d: string)
    requires ScanOf(mode, a).NoClose? && c in Closers(mode) && d in Closers(mode)
    requires k <= |a| && OccursAt(a + b, c, |a| - k)
    ensures var r := Find(a + b, d);
            if c == d then r == Some(|a| - k) else r.None? || |a| - k < r.value
  {
    hide ScanOf, Closers, OccursAt;
    forall j: nat | j < |a| - k || (j == |a| - k && c != d)
      ensures !OccursAt(a + b, d, j)
    {
      NoEarlierCloser(mode, a, c, k, b, d, j);
    }
    if c == d { FindIs(a + b, c, 0, |a| - k); }
  }

  lemma NoAngleScan(mode: Mode, b: string)
    requires '<' !in b
    ensures ScanOf(mode, b) == if mode.Passthrough? then NoTag else NoClose
  {
    forall c, j: nat | c in [PREFIX, REMOVE_CLOSE, COMMENT_CLOSE, VARS_CLOSE]
      ensures !OccursAt(b, c, j)
    {
      if j + |c| <= |b| { assert b[j..j + |c|][0] == b[j]; }
    }
  }

  lemma CloserTail(mode: Mode, c: string, k: nat)
    requires c in Closers(mode) && 0 < k < |c|
    ensures '<' !in c[k..] + "x"
  {
    forall i | k <= i < |c|
      ensures c[i] != '<'
    {
      NoInnerAngle(c, i);
    }
  }

  lemma CloseSeen(mode: Mode, uris: seq<string>, a: string, c: string, k: nat)
    requires ScanOf(mode, a).NoClose? && c in Closers(mode) && BeginsClose(c, a, k)
    ensures !SplitHolds(BARE, mode, uris, a, c[k..] + "x")
  {
    hide ScanOf, Render, Run, PartialTail, SplitHolds, Closers;
    var b := c[k..] + "x";
    CloseRenders(mode, uris, a, c, k, b);
    CloseRuns(mode, uris, a, c, k);
    LengthsDiffer(BARE, mode, uris, a, b);
  }

  /** What the cut stream makes of it: the bytes after the cut are a text of their own. */
  lemma CloseRuns(mode: Mode, uris: seq<string>, a: string, c: string, k: nat)
    requires ScanOf(mode, a).NoClose? && c in Closers(mode) && BeginsClose(c, a, k)
    ensures var b := c[k..] + "x";
            var r := Run(BARE, mode, uris, a);
            |r.text| + |Render(BARE, r.mode, r.uris, r.hold + b).text| == if mode.Vars? then |a| + |b| else 0
  {
    var b := c[k..] + "x";
    hide ScanOf, Render, Run, PartialTail;
    RunLast(BARE, mode, uris, a);
    CloserTail(mode, c, k);
    NoAngleScan(mode, b);
    assert !mode.Passthrough?;
    RenderLast(BARE, mode, uris, b);
    assert "" + b == b;
  }

  lemma CloseRenders(mode: Mode, uris: seq<string>, a: string, c: string, k: nat, b: string)
    requires ScanOf(mode, a).NoClose? && c in Closers(mode) && BeginsClose(c, a, k) && b == c[k..] + "x"
    ensures |Render(BARE, mode, uris, a + b).text| == if mode.Vars? then |a| - k + 1 else 1
  {
    CompletedClose(mode, a, c, k, b);
    var p, n := |a| - k, |c|;
    var scan := Closed(p, n);
    assert (a + b)[p + n..] == "x";
    hide ScanOf, Render, Closers, BeginsClose;
    RenderStep(BARE, mode, uris, a + b, scan);
    LastX(NextUris(BARE, uris, a + b, scan));
    assert Rest(a + b, scan) == "x";
  }

  lemma LastX(uris: seq<string>)
    ensures Render(BARE, Passthrough, uris, "x") == Page("x", uris)
  {
    NoAngleScan(Passthrough, "x");
  }

  // -------------------------------------------------- overlong open tags

  predicate OnlyGtLast(y: string) {
    forall j :: 0 <= j < |y| ==> (y[j] == '>' <==> j == |y| - 1)
  }

  /** Under `BARE`, a known tag that ends with the text leaves nothing. */
  lemma BareLast(uris: seq<string>, y: string, scan: Scan)
    requires scan == ScanOf(Passthrough, y) && scan.FullTag? && scan.gt == |y| - 1
    requires !TagOf(y[scan.at + 5..]).UnknownTag?
    ensures |Render(BARE, Passthrough, uris, y).text| < |y|
  {
    hide ScanOf, TagOf, Render, ExtractSrc, CString, IsHandler, UriValid;
    RenderStep(BARE, Passthrough, uris, y, scan);
    EmptyRenders(BARE, NextMode(y, scan), NextUris(BARE, uris, y, scan));
    assert Rest(y, scan) == "" && Emitted(BARE, uris, y, scan) == "";
  }

  /** An unknown tag loses nothing, so what follows it decides. */
  lemma BareUnknown(uris: seq<string>, y: string, scan: Scan)
    requires scan == ScanOf(Passthrough, y) && scan.FullTag? && TagOf(y[scan.at + 5..]).UnknownTag?
    ensures |Render(BARE, Passthrough, uris, y).text| - |y|
         == |Render(BARE, Passthrough, uris, y[scan.at + 5..]).text| - |y[scan.at + 5..]|
  {
    hide ScanOf, TagOf, Render;
    RenderStep(BARE, Passthrough, uris, y, scan);
    assert NextUris(BARE, uris, y, scan) == uris;
  }

  /** A known tag starts at `p`, and the one '>' of the text is its last byte. */
  predicate KnownAt(y: string, p: nat) {
    OccursAt(y, PREFIX, p) && !TagOf(y[p + 5..]).UnknownTag? && OnlyGtLast(y)
  }

  /** A known tag that the last byte ends takes something out of the text. */
  lemma {:induction false} KnownTagLoses(uris: seq<string>, y: string, p: nat)
    requires KnownAt(y, p)
    ensures |Render(BARE, Passthrough, uris, y).text| < |y|
    decreases |y|
  {
    hide ScanOf, TagOf, Render, KnownAt;
    var scan := ScanOf(Passthrough, y);
    LastGt(y, p);
    if TagOf(y[scan.at + 5..]).UnknownTag? {
      LaterTag(y, scan.at, p);
      KnownTagLoses(uris, y[scan.at + 5..], p - (scan.at + 5));
      BareUnknown(uris, y, scan);
    } else {
      BareLast(uris, y, scan);
    }
  }

  lemma LaterTag(y: string, at: nat, p: nat)
    requires KnownAt(y, p) && at <= p && OccursAt(y, PREFIX, at) && TagOf(y[at + 5..]).UnknownTag?
    ensures at + 5 <= p && KnownAt(y[at + 5..], p - (at + 5))
  {
    hide TagOf;
    PrefixApart(y, at, p);
    OccursShift(y[..at + 5], y[at + 5..], PREFIX, p - (at + 5));
    assert y[..at + 5] + y[at + 5..] == y;
    assert y[at + 5..][p - (at + 5) + 5..] == y[p + 5..];
  }

  lemma LastGt(y: string, p: nat)
    requires KnownAt(y, p)
    ensures var scan := ScanOf(Passthrough, y);
            scan.FullTag? && Complete(y, scan) && scan.at <= p && scan.gt == |y| - 1 && OccursAt(y, PREFIX, scan.at)
  {
    var at := Find(y, PREFIX).value;
    assert y[|y| - 1..|y|] == ">";
    assert OccursAt(y, ">", |y| - 1);
    forall j: nat | at <= j < |y| - 1
      ensures !OccursAt(y, ">", j)
    {
      assert y[j..j + 1] == [y[j]];
    }
    FindIs(y, ">", at, |y| - 1);
  }

  /** Two occurrences of "<esi:" do not overlap. */
  lemma PrefixApart(y: string, i: nat, j: nat)
    requires OccursAt(y, PREFIX, i) && OccursAt(y, PREFIX, j) && i <= j
    ensures i == j || i + 5 <= j
  {
    assert y[j..j + 5][0] == '<';
    if i < j < i + 5 {
      assert y[i..i + 5][j - i] == y[j];
      NoInnerAngle(PREFIX, j - i);
    }
  }

  /** The bytes that turn the end of `t`, from `p` on, into a known tag. */
  lemma Completion(t: string, p: nat) returns (b: string)
    requires p < |t| && CouldOpen(t[p..]) && '>' !in t
    ensures '<' !in b && b != ""
    ensures KnownAt(t + b, p)
  {
    var s := t[p..];
    var n: nat := 0;
    if |s| > 5 { n :| n < |KNOWN| && Agree(s[5..], KNOWN[n]); }
    var whole := PREFIX + KNOWN[n];
    b := (if |s| < |whole| then whole[|s|..] else "") + ">";
    NamePlain(n);
    CompletionPlain(n, |s|, b);
    hide CouldOpen, TagOf;
    OnlyLastGt(t, b);
    assert (t + b)[p..] == s + b;
    Completed(s, n, b);
    assert (t + b)[p..p + 5] == (s + b)[..5];
    assert (t + b)[p + 5..] == (s + b)[5..];
  }

  lemma CompletionPlain(n: nat, t: nat, b: string)
    requires n < |KNOWN| && 0 < t
    requires var whole := PREFIX + KNOWN[n]; b == (if t < |whole| then whole[t..] else "") + ">"
    ensures b != "" && '<' !in b && b[|b| - 1] == '>' && forall i :: 0 <= i < |b| - 1 ==> b[i] != '>'
  {
    NamePlain(n);
    hide TagOf;
    EndPlain(PREFIX + KNOWN[n], t, b);
  }

  lemma EndPlain(whole: string, t: nat, b: string)
    requires 0 < t && b == (if t < |whole| then whole[t..] else "") + ">"
    requires '>' !in whole && forall i :: 0 < i < |whole| ==> whole[i] != '<'
    ensures b != "" && '<' !in b && b[|b| - 1] == '>' && forall i :: 0 <= i < |b| - 1 ==> b[i] != '>'
  {
    assert forall i :: 0 <= i < |b| - 1 ==> b[i] == whole[t + i];
  }

  lemma OnlyLastGt(t: string, b: string)
    requires '>' !in t && b != "" && b[|b| - 1] == '>' && forall i :: 0 <= i < |b| - 1 ==> b[i] != '>'
    ensures OnlyGtLast(t + b)
  {
  }

  lemma Completed(s: string, n: nat, b: string)
    requires 0 < |s| && CouldOpen(s) && n < |KNOWN| && (|s| > 5 ==> Agree(s[5..], KNOWN[n]))
    requires var whole := PREFIX + KNOWN[n]; b == (if |s| < |whole| then whole[|s|..] else "") + ">"
    ensures |s + b| >= 5 && (s + b)[..5] == PREFIX
    ensures !TagOf((s + b)[5..]).UnknownTag?
  {
    var name, y := KNOWN[n], s + b;
    forall i | 0 <= i < 5
      ensures y[i] == PREFIX[i]
    {
      if i < |s| { assert y[i] == s[i]; } else { assert y[i] == b[i - |s|] == PREFIX[i]; }
    }
    NamePlain(n);
    assert forall i :: 0 <= i < |name| && 5 + i < |s| ==> s[5..][i] == y[5 + i];
    assert StartsNoCase(y[5..], name);
    hide TagOf;
  }

  lemma NamePlain(n: nat)
    requires n < |KNOWN|
    ensures forall c :: c in PREFIX + KNOWN[n] ==> c != '>'
    ensures forall i :: 0 < i < |PREFIX + KNOWN[n]| ==> (PREFIX + KNOWN[n])[i] != '<'
    ensures forall i :: 0 <= i < |KNOWN[n]| ==> Lower(KNOWN[n][i]) == KNOWN[n][i]
    ensures forall s :: StartsNoCase(s, KNOWN[n]) ==> !TagOf(s).UnknownTag?
  {
  }

  lemma OverlongSeen(uris: seq<string>, a: string, p: nat) returns (b: string)
    requires var scan := ScanOf(Passthrough, a);
             scan.OpenTag? && |a| - scan.at > HOLD_MAX && p < |a| - scan.at && CouldOpen(a[scan.at..][p..])
    ensures !SplitHolds(BARE, Passthrough, uris, a, b)
  {
    var at := ScanOf(Passthrough, a).at;
    var t := a[at..];
    NoGtAfter(a, at);
    b := Completion(t, p);
    hide ScanOf, Render, Run, CouldOpen, PartialTail, KnownAt;
    TailLoses(uris, a, b, p);
    OverlongPasses(uris, a, b);
    hide *;
    LengthsDiffer(BARE, Passthrough, uris, a, b);
  }

  lemma TailLoses(uris: seq<string>, a: string, b: string, p: nat)
    requires var scan := ScanOf(Passthrough, a);
             scan.OpenTag? && KnownAt(a[scan.at..] + b, p)
    ensures |Render(BARE, Passthrough, uris, a + b).text| < |a| + |b|
  {
    hide ScanOf, Render, KnownAt, OccursAt;
    var at := ScanOf(Passthrough, a).at;
    KnownTagLoses(uris, a[at..] + b, p);
    NoTagInFront(a, b);
    assert a + b == a[..at] + (a[at..] + b);
    RenderSkip(BARE, uris, a[..at], a[at..] + b);
  }

  lemma LengthsDiffer(cfg: Config, mode: Mode, uris: seq<string>, a: string, b: string)
    requires var r := Run(cfg, mode, uris, a);
             |Render(cfg, mode, uris, a + b).text| != |r.text| + |Render(cfg, r.mode, r.uris, r.hold + b).text|
    ensures !SplitHolds(cfg, mode, uris, a, b)
  {
    hide Render, Run;
  }

  lemma OverlongPasses(uris: seq<string>, a: string, b: string)
    requires var scan := ScanOf(Passthrough, a); scan.OpenTag? && |a| - scan.at > HOLD_MAX
    requires '<' !in b
    ensures var r := Run(BARE, Passthrough, uris, a);
            r.mode == Passthrough && |r.text| + |Render(BARE, r.mode, r.uris, r.hold + b).text| == |a| + |b|
  {
    hide ScanOf, Render, Run, PartialTail;
    RunLast(BARE, Passthrough, uris, a);
    NoAngleScan(Passthrough, b);
    RenderLast(BARE, Passthrough, uris, b);
    assert "" + b == b;
  }

  lemma NoGtAfter(a: string, at: nat)
    requires ScanOf(Passthrough, a) == OpenTag(at)
    ensures '>' !in a[at..]
  {
    forall i | 0 <= i < |a| - at
      ensures a[at..][i] != '>'
    {
      assert !OccursAt(a, ">", at + i);
      assert a[at + i..at + i + 1] == [a[at + i]];
    }
  }

  // --------------------------------------------------------------- exactness

  /** A boundary that is not safe is visible: some continuation is treated differently. */
  lemma {:induction false} UnsafeIsSeen(mode: Mode, uris: seq<string>, a: string) returns (b: string)
    requires !CutSafe(mode, a)
    ensures !SplitHolds(BARE, mode, uris, a, b)
    decreases |a|
  {
    hide ScanOf, SplitHolds, CouldOpen, NextMode, Rest, NextUris, Closers, BeginsClose;
    var scan := ScanOf(mode, a);
    if Complete(a, scan) {
      b := UnsafeIsSeen(NextMode(a, scan), NextUris(BARE, uris, a, scan), Rest(a, scan));
      SplitStep(BARE, mode, uris, a, b, scan);
    } else if scan.NoClose? {
      var c, k: nat :| c in Closers(mode) && 0 < k < |c| && BeginsClose(c, a, k);
      b := c[k..] + "x";
      CloseSeen(mode, uris, a, c, k);
    } else {
      var p: nat :| p < |a| - scan.at && CouldOpen(a[scan.at..][p..]);
      b := OverlongSeen(uris, a, p);
    }
  }

  /** A boundary after `a` is invisible, whatever the server and the rest of the body, exactly when it is safe. */
  lemma CutExact(mode: Mode, a: string)
    ensures CutSafe(mode, a) <==> forall cfg: Config, uris: seq<string>, b: string :: SplitHolds(cfg, mode, uris, a, b)
  {
    if CutSafe(mode, a) {
      forall cfg: Config, uris: seq<string>, b: string
        ensures SplitHolds(cfg, mode, uris, a, b)
      {
        SafeIsOK(mode, a, b);
        CutUnseen(cfg, mode, uris, a, b);
      }
    } else {
      var b := UnsafeIsSeen(mode, [], a);
    }
  }
}
