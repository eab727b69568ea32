/**
 * Dynamic includes: the filter leaves numbered placeholders in the held
 * output, and the fetched fragments are spliced over them at the end.
 */
module EsiSplice {
  import opened Esi

  const MARK: char := '\U{01}'

  predicate PlaceholderAtFront(s: string) {
    8 <= |s| && s[0] == MARK && s[1] == 'L' && s[2] == 'H' && s[3] == 'E' && s[7] == '\U{02}'
  }

  /** The 24-bit little-endian index of a placeholder. */
  function FrontIndex(s: string): nat
    requires 8 <= |s|
  {
    s[4] as int + 256 * (s[5] as int) + 65536 * (s[6] as int)
  }

  predicate IsHole(s: string, index: int) {
    PlaceholderAtFront(s) && FrontIndex(s) == index
  }

  /** One pass over the held output: every placeholder `index` becomes `body`, the rest is copied up to 1 MB. */
  function SpliceFrom(s: string, index: int, body: string, out: string): string
    decreases |s|
  {
    if s == "" then out
    else if IsHole(s, index) then
      SpliceFrom(s[8..], index, body, if |out| + |body| <= MAX_BUFFER then out + body else out)
    else if |out| < MAX_BUFFER then SpliceFrom(s[1..], index, body, out + [s[0]])
    else if 8 <= |s| then SpliceFrom(s[1..], index, body, out)
    else out
  }

  /** The final pass: every placeholder that is left is dropped. */
  function StripFrom(s: string): (r: string)
    ensures |r| <= |s|
    decreases |s|
  {
    if s == "" then ""
    else if PlaceholderAtFront(s) then StripFrom(s[8..])
    else [s[0]] + StripFrom(s[1..])
  }

  // ------------------------------------------------------------ text and holes

  datatype Seg = Chars(text: string) | Hole(index: nat)

  predicate Clean(s: string) { MARK !in s }

  predicate CleanSegs(segs: seq<Seg>) {
    forall seg :: seg in segs ==> if seg.Chars? then Clean(seg.text) else seg.index < 0x100_0000
  }

  function SegText(seg: Seg): string {
    match seg
    case Chars(t) => t
    case Hole(i) => Placeholder(i)
  }

  /** The held output that stands for a sequence of texts and holes. */
  function Encode(segs: seq<Seg>): string {
    if segs == [] then "" else SegText(segs[0]) + Encode(segs[1..])
  }

  function FillOne(seg: Seg, index: nat, body: string): Seg {
    if seg == Hole(index) then Chars(body) else seg
  }

  function Fill(segs: seq<Seg>, index: nat, body: string): (r: seq<Seg>)
    ensures |r| == |segs|
    ensures forall k :: 0 <= k < |segs| ==> r[k] == FillOne(segs[k], index, body)
  {
    if segs == [] then [] else [FillOne(segs[0], index, body)] + Fill(segs[1..], index, body)
  }

  function TextOnly(segs: seq<Seg>): string {
    if segs == [] then "" else (if segs[0].Chars? then segs[0].text else "") + TextOnly(segs[1..])
  }

  function Holes(segs: seq<Seg>): seq<nat> {
    if segs == [] then [] else (if segs[0].Hole? then [segs[0].index] else []) + Holes(segs[1..])
  }

  lemma EncodeFirst(segs: seq<Seg>)
    requires segs != []
    ensures Encode(segs) == SegText(segs[0]) + Encode(segs[1..])
  {
  }

  lemma {:induction false} CopyText(t: string, rest: string, index: int, body: string, out: string)
    requires Clean(t) && |out| + |t| <= MAX_BUFFER
    ensures SpliceFrom(t + rest, index, body, out) == SpliceFrom(rest, index, body, out + t)
    decreases |t|
  {
    if t == "" {
      assert t + rest == rest && out + t == out;
    } else {
      assert (t + rest)[1..] == t[1..] + rest && (t + rest)[0] == t[0];
      CopyText(t[1..], rest, index, body, out + [t[0]]);
      assert out + [t[0]] + t[1..] == out + t by { assert [t[0]] + t[1..] == t; }
    }
  }

  lemma CopyByte(s: string, index: int, body: string, out: string)
    requires s != "" && !IsHole(s, index) && |out| < MAX_BUFFER
    ensures SpliceFrom(s, index, body, out) == SpliceFrom(s[1..], index, body, out + [s[0]])
  {
  }

  lemma PlaceholderBytes(i: nat, rest: string)
    requires i < 0x100_0000
    ensures var s := Placeholder(i) + rest; PlaceholderAtFront(s) && FrontIndex(s) == i && s[8..] == rest
    ensures forall k :: 0 < k < 8 ==> !PlaceholderAtFront((Placeholder(i) + rest)[k..])
  {
    var s := Placeholder(i) + rest;
    assert s[7] == '\U{02}' && s[1] == 'L' && s[2] == 'H' && s[3] == 'E' && s[0] == MARK;
    forall k | 0 < k < 8
      ensures !PlaceholderAtFront(s[k..])
    {
      assert k < 4 ==> s[k..][0] == s[k] != MARK;
      assert k == 4 ==> |s[k..]| >= 4 && s[k..][3] == s[7];
      assert k == 5 ==> |s[k..]| >= 3 && s[k..][2] == s[7];
      assert k == 6 ==> |s[k..]| >= 2 && s[k..][1] == s[7];
      assert k == 7 ==> s[k..][0] == s[7];
    }
  }

  /** A placeholder with another number is copied byte by byte, and none of its bytes starts a hole. */
  lemma {:induction false} CopyHole(i: nat, k: nat, rest: string, index: int, body: string, out: string)
    requires i < 0x100_0000 && i != index && k <= 8 && |out| + 8 - k <= MAX_BUFFER
    ensures SpliceFrom((Placeholder(i) + rest)[k..], index, body, out)
         == SpliceFrom(rest, index, body, out + Placeholder(i)[k..])
    decreases 8 - k
  {
    var s := Placeholder(i) + rest;
    hide Placeholder, IsHole, SpliceFrom;
    if k == 8 {
      assert s[8..] == rest && out + Placeholder(i)[8..] == out;
    } else {
      NotThatHole(i, k, rest, index);
      CopyByte(s[k..], index, body, out);
      assert s[k..][1..] == s[k + 1..] && s[k..][0] == Placeholder(i)[k];
      CopyHole(i, k + 1, rest, index, body, out + [s[k]]);
      assert Placeholder(i)[k..] == [s[k]] + Placeholder(i)[k + 1..];
      assert out + [s[k]] + Placeholder(i)[k + 1..] == out + Placeholder(i)[k..];
    }
  }

  lemma NotThatHole(i: nat, k: nat, rest: string, index: int)
    requires i < 0x100_0000 && i != index && k < 8
    ensures !IsHole((Placeholder(i) + rest)[k..], index)
  {
    PlaceholderBytes(i, rest);
    var s := Placeholder(i) + rest;
    assert s[0..] == s;
  }

  /** The pass replaces exactly the holes of its number. */
  lemma {:induction false} SpliceSegs(segs: seq<Seg>, index: nat, body: string, out: string)
    requires CleanSegs(segs) && |out| + |Encode(Fill(segs, index, body))| <= MAX_BUFFER
    ensures SpliceFrom(Encode(segs), index, body, out) == out + Encode(Fill(segs, index, body))
    decreases |segs|
  {
    hide SpliceFrom, IsHole, Placeholder, Fill, Encode;
    if segs == [] {
      EmptySplice(index, body, out);
    } else {
      FillFirst(segs, index, body);
      EncodeFirst(segs);
      EncodeFirst(Fill(segs, index, body));
      var seg, rest := segs[0], Encode(segs[1..]);
      var mid := SegText(FillOne(seg, index, body));
      SpliceOne(seg, rest, index, body, out);
      SpliceSegs(segs[1..], index, body, out + mid);
      var after := Encode(Fill(segs[1..], index, body));
      assert out + mid + after == out + (mid + after);
    }
  }

  lemma FillFirst(segs: seq<Seg>, index: nat, body: string)
    requires segs != []
    ensures Fill(segs, index, body)[0] == FillOne(segs[0], index, body)
    ensures Fill(segs, index, body)[1..] == Fill(segs[1..], index, body)
  {
  }

  lemma EmptySplice(index: nat, body: string, out: string)
    ensures SpliceFrom(Encode([]), index, body, out) == out + Encode(Fill([], index, body))
  {
    assert out + "" == out;
  }

  lemma SpliceOne(seg: Seg, rest: string, index: nat, body: string, out: string)
    requires CleanSegs([seg]) && |out| + |SegText(FillOne(seg, index, body))| <= MAX_BUFFER
    ensures SpliceFrom(SegText(seg) + rest, index, body, out)
         == SpliceFrom(rest, index, body, out + SegText(FillOne(seg, index, body)))
  {
    assert seg in [seg];
    match seg
    case Chars(t) => CopyText(t, rest, index, body, out);
    case Hole(i) =>
      hide Placeholder;
      PlaceholderBytes(i, rest);
      if i != index {
        assert (Placeholder(i) + rest)[0..] == Placeholder(i) + rest && Placeholder(i)[0..] == Placeholder(i);
        CopyHole(i, 0, rest, index, body, out);
      }
  }

  /** Splicing one fragment replaces its hole and nothing else. */
  lemma SpliceReplaces(segs: seq<Seg>, index: nat, body: string)
    requires CleanSegs(segs) && |Encode(Fill(segs, index, body))| <= MAX_BUFFER
    ensures SpliceFrom(Encode(segs), index, body, "") == Encode(Fill(segs, index, body))
  {
    SpliceSegs(segs, index, body, "");
    assert "" + Encode(Fill(segs, index, body)) == Encode(Fill(segs, index, body));
  }

  lemma FillKeepsClean(segs: seq<Seg>, index: nat, body: string)
    requires CleanSegs(segs) && Clean(body)
    ensures CleanSegs(Fill(segs, index, body))
  {
    var r := Fill(segs, index, body);
    forall seg | seg in r
      ensures if seg.Chars? then Clean(seg.text) else seg.index < 0x100_0000
    {
      var k :| 0 <= k < |r| && r[k] == seg;
      assert segs[k] in segs && seg == FillOne(segs[k], index, body);
    }
  }

  /** Fragments for different holes can be spliced in either order. */
  lemma SplicesCommute(segs: seq<Seg>, i: nat, a: string, j: nat, b: string)
    requires CleanSegs(segs) && Clean(a) && Clean(b) && i != j
    requires |Encode(Fill(segs, i, a))| <= MAX_BUFFER && |Encode(Fill(segs, j, b))| <= MAX_BUFFER
    requires |Encode(Fill(Fill(segs, i, a), j, b))| <= MAX_BUFFER
    ensures SpliceFrom(SpliceFrom(Encode(segs), i, a, ""), j, b, "")
         == SpliceFrom(SpliceFrom(Encode(segs), j, b, ""), i, a, "")
  {
    assert Fill(Fill(segs, i, a), j, b) == Fill(Fill(segs, j, b), i, a);
    FillKeepsClean(segs, i, a);
    FillKeepsClean(segs, j, b);
    SpliceReplaces(segs, i, a);
    SpliceReplaces(segs, j, b);
    SpliceReplaces(Fill(segs, i, a), j, b);
    SpliceReplaces(Fill(segs, j, b), i, a);
  }

  lemma {:induction false} StripText(t: string, rest: string)
    requires Clean(t)
    ensures StripFrom(t + rest) == t + StripFrom(rest)
    decreases |t|
  {
    if t == "" {
      assert t + rest == rest && t + StripFrom(rest) == StripFrom(rest);
    } else {
      assert (t + rest)[1..] == t[1..] + rest && (t + rest)[0] == t[0];
      StripText(t[1..], rest);
      assert [t[0]] + (t[1..] + StripFrom(rest)) == t + StripFrom(rest) by { assert [t[0]] + t[1..] == t; }
    }
  }

  /** The final pass leaves no placeholder and all of the text. */
  lemma {:induction false} StripLeavesText(segs: seq<Seg>)
    requires CleanSegs(segs)
    ensures StripFrom(Encode(segs)) == TextOnly(segs) && Clean(TextOnly(segs))
    decreases |segs|
  {
    if segs != [] {
      StripLeavesText(segs[1..]);
      assert segs[0] in segs;
      hide Placeholder;
      match segs[0]
      case Chars(t) => StripText(t, Encode(segs[1..]));
      case Hole(i) => PlaceholderBytes(i, Encode(segs[1..]));
    }
  }

  // ------------------------------------------------------ how long the result is

  function HoleCount(s: string, index: int): nat
    decreases |s|
  {
    if s == "" then 0 else if IsHole(s, index) then 1 + HoleCount(s[8..], index) else HoleCount(s[1..], index)
  }

  /** How many of the holes find room for a body of `n` bytes, with `o` bytes written before. */
  function Placed(s: string, index: int, n: nat, o: nat): nat
    decreases |s|
  {
    if s == "" then 0
    else if IsHole(s, index) then
      if o + n <= MAX_BUFFER then 1 + Placed(s[8..], index, n, o + n) else Placed(s[8..], index, n, o)
    else Placed(s[1..], index, n, if o < MAX_BUFFER then o + 1 else o)
  }

  /** Every byte but those of the holes, and a body for every hole with room for it, up to 1 MB. */
  lemma {:induction false} SpliceLength(s: string, index: int, body: string, out: string)
    requires |out| <= MAX_BUFFER
    ensures var total := |out| + |s| - 8 * HoleCount(s, index) + Placed(s, index, |body|, |out|) * |body|;
            |SpliceFrom(s, index, body, out)| == if total <= MAX_BUFFER then total else MAX_BUFFER
    ensures Placed(s, index, |body|, |out|) <= HoleCount(s, index) && 8 * HoleCount(s, index) <= |s|
    decreases |s|
  {
    if s != "" {
      assert IsHole(s, index) ==> |s| >= 8;
      hide IsHole;
      if IsHole(s, index) {
        var n := |body|;
        var next := if |out| + n <= MAX_BUFFER then out + body else out;
        SpliceLength(s[8..], index, body, next);
        var p := Placed(s[8..], index, n, |next|);
        assert (1 + p) * n == n + p * n;
        assert Placed(s, index, n, |out|) == if |out| + n <= MAX_BUFFER then 1 + p else p;
      } else if |out| < MAX_BUFFER {
        SpliceLength(s[1..], index, body, out + [s[0]]);
      } else {
        FullLength(s, index, body, out);
        SpliceLength(s[1..], index, body, out);
      }
    }
  }

  /** Once 1 MB has been written nothing more is. */
  lemma {:induction false} FullLength(s: string, index: int, body: string, out: string)
    requires |out| == MAX_BUFFER
    ensures |SpliceFrom(s, index, body, out)| == MAX_BUFFER
    decreases |s|
  {
    if s != "" {
      if IsHole(s, index) {
        FullLength(s[8..], index, body, if |out| + |body| <= MAX_BUFFER then out + body else out);
      } else {
        FullLength(s[1..], index, body, out);
      }
    }
  }

  /** What has been written stays. */
  lemma {:induction false} SpliceGrows(s: string, index: int, body: string, out: string)
    ensures |out| <= |SpliceFrom(s, index, body, out)|
    decreases |s|
  {
    if s != "" {
      if IsHole(s, index) {
        SpliceGrows(s[8..], index, body, if |out| + |body| <= MAX_BUFFER then out + body else out);
      } else {
        SpliceGrows(s[1..], index, body, if |out| < MAX_BUFFER then out + [s[0]] else out);
      }
    }
  }

  /**
   * The new buffer has one byte more than the held output and the body together.
   * That is enough when it reaches the 1 MB limit, or when the bodies put in
   * beyond the first one are made up for by the holes taken out.
   */
  predicate Roomy(hold: string, index: int, n: nat) {
    || |hold| + n + 1 >= MAX_BUFFER
    || (Placed(hold, index, n, 0) - 1) * n <= 8 * HoleCount(hold, index) + 1
  }

  /** The pass stays within its new buffer under exactly this condition. */
  lemma FitsExactly(hold: string, index: int, body: string)
    ensures |SpliceFrom(hold, index, body, "")| <= |hold| + |body| + 1 <==> Roomy(hold, index, |body|)
  {
    SpliceLength(hold, index, body, "");
    var m, n := Placed(hold, index, |body|, 0), |body|;
    assert (m - 1) * n == m * n - n;
  }

  /** Where 1 MB is not reached, only the number of holes and the lengths matter. */
  lemma RoomyByCount(hold: string, index: int, n: nat)
    requires |hold| + n * HoleCount(hold, index) <= MAX_BUFFER
    ensures Roomy(hold, index, n) <==> |hold| + n + 1 >= MAX_BUFFER
                                       || (HoleCount(hold, index) - 1) * n <= 8 * HoleCount(hold, index) + 1
  {
    AllPlaced(hold, index, n, 0);
  }

  lemma {:induction false} AllPlaced(s: string, index: int, n: nat, o: nat)
    requires o + |s| + n * HoleCount(s, index) <= MAX_BUFFER
    ensures Placed(s, index, n, o) == HoleCount(s, index)
    decreases |s|
  {
    if s != "" {
      if IsHole(s, index) {
        var h := HoleCount(s[8..], index);
        assert n * (1 + h) == n + n * h;
        AllPlaced(s[8..], index, n, o + n);
      } else {
        AllPlaced(s[1..], index, n, o + 1);
      }
    }
  }

  /** An index that occurs at most once always fits. */
  lemma OnceFits(hold: string, index: int, body: string)
    requires HoleCount(hold, index) <= 1
    ensures Roomy(hold, index, |body|)
  {
    SpliceLength(hold, index, body, "");
    var m := Placed(hold, index, |body|, 0);
    assert m == 0 || m == 1;
  }

  /** Every splice of a join fits. */
  predicate RoomyAll(hold: string, bodies: seq<string>, from: nat)
    requires from <= |bodies|
    decreases |bodies| - from
  {
    from == |bodies|
    || (Roomy(hold, from, |bodies[from]|) && RoomyAll(SpliceFrom(hold, from, bodies[from], ""), bodies, from + 1))
  }

  lemma {:induction false} CountText(t: string, rest: string, index: int)
    requires Clean(t)
    ensures HoleCount(t + rest, index) == HoleCount(rest, index)
    decreases |t|
  {
    if t == "" {
      assert t + rest == rest;
    } else {
      assert (t + rest)[1..] == t[1..] + rest && (t + rest)[0] == t[0];
      CountText(t[1..], rest, index);
    }
  }

  lemma {:induction false} CountOther(i: nat, k: nat, rest: string, index: int)
    requires i < 0x100_0000 && i != index && k <= 8
    ensures HoleCount((Placeholder(i) + rest)[k..], index) == HoleCount(rest, index)
    decreases 8 - k
  {
    hide Placeholder, IsHole;
    var s := Placeholder(i) + rest;
    if k == 8 {
      assert s[8..] == rest;
    } else {
      NotThatHole(i, k, rest, index);
      assert s[k..][1..] == s[k + 1..];
      CountOther(i, k + 1, rest, index);
    }
  }

  lemma CountPlaceholder(i: nat, rest: string, index: int)
    requires i < 0x100_0000
    ensures HoleCount(Placeholder(i) + rest, index) == (if i == index then 1 else 0) + HoleCount(rest, index)
  {
    hide Placeholder;
    PlaceholderBytes(i, rest);
    assert (Placeholder(i) + rest)[0..] == Placeholder(i) + rest;
    if i != index { CountOther(i, 0, rest, index); }
  }

  /** Among text and holes that each occur once, the pass meets each index at most once. */
  lemma {:induction false} CountOnce(segs: seq<Seg>, index: nat)
    requires CleanSegs(segs) && Once(segs)
    ensures HoleCount(Encode(segs), index) == if Hole(index) in segs then 1 else 0
    decreases |segs|
  {
    hide Placeholder, Clean;
    if segs != [] {
      var rest := segs[1..];
      assert forall k :: 0 <= k < |rest| ==> rest[k] == segs[k + 1];
      assert segs[0] in segs;
      CountOnce(rest, index);
      match segs[0]
      case Chars(t) => CountText(t, Encode(rest), index);
      case Hole(i) => CountPlaceholder(i, Encode(rest), index);
    }
  }

  /** So a join of such an output never leaves a buffer. */
  lemma {:induction false} JoinFits(segs: seq<Seg>, bodies: seq<string>, from: nat)
    requires CleanSegs(segs) && Once(segs) && from <= |bodies|
    requires forall b :: b in bodies ==> Clean(b)
    requires |Encode(segs)| + Total(bodies[from..]) <= MAX_BUFFER
    ensures RoomyAll(Encode(segs), bodies, from)
    decreases |bodies| - from
  {
    hide CleanSegs, Clean, Once, Encode, Fill, Roomy;
    if from < |bodies| {
      var body := bodies[from];
      assert bodies[from..][0] == body && bodies[from..][1..] == bodies[from + 1..];
      CountOnce(segs, from);
      OnceFits(Encode(segs), from, body);
      FillLength(segs, from, body);
      FillOnce(segs, from, body);
      FillKeepsClean(segs, from, body);
      SpliceReplaces(segs, from, body);
      JoinFits(Fill(segs, from, body), bodies, from + 1);
    }
  }

  // -------------------------------------------------- joining a rendered body

  function SpliceAll(hold: string, bodies: seq<string>, from: nat): string
    requires from <= |bodies|
    decreases |bodies| - from
  {
    if from == |bodies| then hold else SpliceAll(SpliceFrom(hold, from, bodies[from], ""), bodies, from + 1)
  }

  /** The join at the end of a page: every fragment over its placeholder, then the final pass. */
  function Joined(hold: string, bodies: seq<string>): string {
    StripFrom(SpliceAll(hold, bodies, 0))
  }

  function FillFrom(segs: seq<Seg>, bodies: seq<string>, from: nat): seq<Seg>
    requires from <= |bodies|
    decreases |bodies| - from
  {
    if from == |bodies| then segs else FillFrom(Fill(segs, from, bodies[from]), bodies, from + 1)
  }

  function Total(bodies: seq<string>): nat {
    if bodies == [] then 0 else |bodies[0]| + Total(bodies[1..])
  }

  /** A hole reads as its fragment, or as nothing when there is none. */
  function Value(seg: Seg, bodies: seq<string>): string {
    match seg
    case Chars(t) => t
    case Hole(i) => if i < |bodies| then bodies[i] else ""
  }

  /** The meaning of segments when the fragments are known. */
  function Filled(segs: seq<Seg>, bodies: seq<string>): string {
    if segs == [] then "" else Value(segs[0], bodies) + Filled(segs[1..], bodies)
  }

  predicate Once(segs: seq<Seg>) {
    forall i, j :: 0 <= i < j < |segs| && segs[i].Hole? ==> segs[i] != segs[j]
  }

  lemma {:induction false} FillLength(segs: seq<Seg>, index: nat, body: string)
    requires Once(segs)
    ensures |Encode(Fill(segs, index, body))| <= |Encode(segs)| + |body|
    ensures Hole(index) !in segs ==> Fill(segs, index, body) == segs
    decreases |segs|
  {
    if segs != [] {
      var rest := segs[1..];
      assert Once(rest) by {
        forall i, j | 0 <= i < j < |rest| && rest[i].Hole?
          ensures rest[i] != rest[j]
        {
          assert rest[i] == segs[i + 1] && rest[j] == segs[j + 1];
        }
      }
      assert segs[0].Hole? ==> segs[0] !in rest by {
        assert forall j :: 0 <= j < |rest| ==> rest[j] == segs[j + 1];
      }
      FillLength(rest, index, body);
      FillFirst(segs, index, body);
      assert segs[0] in segs;
      assert Hole(index) !in segs ==> Hole(index) !in rest;
    }
  }

  lemma FillOnce(segs: seq<Seg>, index: nat, body: string)
    requires Once(segs)
    ensures Once(Fill(segs, index, body))
  {
  }

  lemma {:induction false} SpliceAllFills(segs: seq<Seg>, bodies: seq<string>, from: nat)
    requires CleanSegs(segs) && Once(segs) && from <= |bodies|
    requires forall b :: b in bodies ==> Clean(b)
    requires |Encode(segs)| + Total(bodies[from..]) <= MAX_BUFFER
    ensures SpliceAll(Encode(segs), bodies, from) == Encode(FillFrom(segs, bodies, from))
    ensures CleanSegs(FillFrom(segs, bodies, from))
    decreases |bodies| - from
  {
    if from < |bodies| {
      var body := bodies[from];
      assert bodies[from..][0] == body && bodies[from..][1..] == bodies[from + 1..];
      FillLength(segs, from, body);
      FillOnce(segs, from, body);
      FillKeepsClean(segs, from, body);
      SpliceReplaces(segs, from, body);
      SpliceAllFills(Fill(segs, from, body), bodies, from + 1);
    }
  }

  /** A hole filled at its turn reads as its fragment; texts are left alone. */
  lemma {:induction false} FillFromMeans(segs: seq<Seg>, bodies: seq<string>, from: nat)
    requires from <= |bodies|
    requires forall k :: 0 <= k < |segs| && segs[k].Hole? ==> from <= segs[k].index
    ensures TextOnly(FillFrom(segs, bodies, from)) == Filled(segs, bodies)
    decreases |bodies| - from
  {
    if from == |bodies| {
      NoneFilled(segs, bodies);
    } else {
      var next := Fill(segs, from, bodies[from]);
      FillFromMeans(next, bodies, from + 1);
      FillIsFilled(segs, bodies, from);
    }
  }

  lemma {:induction false} NoneFilled(segs: seq<Seg>, bodies: seq<string>)
    requires forall k :: 0 <= k < |segs| && segs[k].Hole? ==> |bodies| <= segs[k].index
    ensures TextOnly(segs) == Filled(segs, bodies)
    decreases |segs|
  {
    if segs != [] {
      assert forall k :: 0 <= k < |segs[1..]| ==> segs[1..][k] == segs[k + 1];
      NoneFilled(segs[1..], bodies);
    }
  }

  lemma {:induction false} FillIsFilled(segs: seq<Seg>, bodies: seq<string>, index: nat)
    requires index < |bodies|
    ensures Filled(Fill(segs, index, bodies[index]), bodies) == Filled(segs, bodies)
    decreases |segs|
  {
    if segs != [] {
      FillFirst(segs, index, bodies[index]);
      FillIsFilled(segs[1..], bodies, index);
    }
  }

  /** Joining a held output gives its text with each fragment in its place. */
  lemma JoinedIsFilled(segs: seq<Seg>, bodies: seq<string>)
    requires CleanSegs(segs) && Once(segs)
    requires forall b :: b in bodies ==> Clean(b)
    requires |Encode(segs)| + Total(bodies) <= MAX_BUFFER
    ensures Joined(Encode(segs), bodies) == Filled(segs, bodies)
  {
    assert bodies[0..] == bodies;
    SpliceAllFills(segs, bodies, 0);
    StripLeavesText(FillFrom(segs, bodies, 0));
    FillFromMeans(segs, bodies, 0);
  }
}
