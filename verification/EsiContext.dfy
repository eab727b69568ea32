/**
 * The filter's context object: the consuming loop of one call, its output
 * buffer with the doubling capacity, and the held bytes, proved to compute
 * `BoundedRun` on every input.
 */
module EsiContext {
  import opened Text
  import opened Esi
  import EsiStream

  const FIRST_CAP: nat := 16384

  /** The capacities the buffer goes through: 16384 doubled some number of times. */
  ghost predicate IsCap(c: nat) {
    c == FIRST_CAP || (FIRST_CAP < c && c % 2 == 0 && IsCap(c / 2))
  }

  lemma {:induction false} CapGap(c: nat, m: nat)
    requires IsCap(c) && IsCap(m) && m < c
    ensures 2 * m <= c
  {
    if m != FIRST_CAP { CapGap(c / 2, m / 2); } else if c / 2 != FIRST_CAP { CapGap(c / 2, m); }
  }

  lemma LimitIsCap()
    ensures IsCap(MAX_BUFFER)
  {
    assert IsCap(32768) && IsCap(65536) && IsCap(131072);
    assert IsCap(262144) && IsCap(524288);
  }

  method FindStr(hay: string, needle: string) returns (r: Option<nat>)
    requires needle != ""
    ensures r == Find(hay, needle)
  {
    if |hay| < |needle| {
      return None;
    }
    var i := 0;
    while i + |needle| <= |hay|
      invariant i <= |hay|
      invariant forall j: nat :: j < i ==> !OccursAt(hay, needle, j)
    {
      if hay[i] == needle[0] && hay[i..i + |needle|] == needle {
        FindIs(hay, needle, 0, i);
        return Some(i);
      }
      i := i + 1;
    }
    return None;
  }

  method PartialTagTail(data: string) returns (r: nat)
    ensures r == PartialTail(data)
  {
    var k := if |data| < 4 then |data| else 4;
    while k >= 1
      invariant 0 <= k <= 4 && k <= |data|
      invariant PartialTail(data) == LongestPartial(data, k)
    {
      TailSlice(data, k);
      if data[|data| - k..] == PREFIX[..k] {
        return k;
      }
      k := k - 1;
    }
    return 0;
  }

  lemma TailSlice(data: string, k: nat)
    requires k <= 4 && k <= |data|
    ensures data[|data| - k..] == PREFIX[..k] <==> PartialAt(data, k)
  {
    var t := data[|data| - k..];
    assert forall i :: 0 <= i < k ==> t[i] == data[|data| - k + i];
    if PartialAt(data, k) { assert t == PREFIX[..k]; }
  }

  method ExtractSrcOf(tag: string) returns (r: Option<string>)
    ensures r == ExtractSrc(tag)
  {
    var i := 0;
    while i + 5 < |tag|
      invariant ExtractSrc(tag) == ExtractSrc(tag, i)
    {
      var here := QuotedSrc(tag, i);
      if here.Some? {
        return here;
      }
      i := i + 1;
    }
    return None;
  }

  /** The quoted value of a src attribute that starts at `i`; without a closing quote it runs to the tag's end. */
  method QuotedSrc(tag: string, i: nat) returns (r: Option<string>)
    requires i + 5 < |tag|
    ensures r == Quoted(tag, i)
  {
    if StartsNoCase(tag[i..], "src=") {
      var quote := tag[i + 4];
      if quote == '"' || quote == '\'' {
        var end := i + 5;
        while end < |tag| && tag[end] != quote
          invariant i + 5 <= end <= |tag|
          invariant forall j: nat :: i + 5 <= j < end ==> !OccursAt(tag, [quote], j)
        {
          assert tag[end..end + 1] == [tag[end]];
          end := end + 1;
        }
        if end < |tag| {
          assert tag[end..end + 1] == [quote];
          FindIs(tag, [quote], i + 5, end);
        }
        if end > i + 5 && end - (i + 5) < 4096 {
          return Some(tag[i + 5..end]);
        }
      }
    }
    return None;
  }

  class EsiContext {
    const cfg: Config
    var state: Mode
    var buf: string
    var bufCap: nat
    var hold: string
    var pend: string
    var dynUri: seq<string>
    var dynHolding: bool

    ghost predicate Valid()
      reads this
    {
      && |buf| <= bufCap <= MAX_BUFFER && IsCap(bufCap)
      && |hold| <= HOLD_MAX
      && (hold != "" ==> state.Passthrough?)
      && (dynHolding <==> dynUri != [])
    }

    /** What a later call depends on. */
    ghost function StreamState(): EsiStream.Stream
      reads this
    {
      EsiStream.Stream(state, dynUri, hold)
    }

    constructor (cfg: Config)
      ensures Valid() && this.cfg == cfg && StreamState() == EsiStream.START && pend == ""
    {
      this.cfg := cfg;
      state, buf, bufCap, hold, pend := Passthrough, "", FIRST_CAP, "", "";
      dynUri, dynHolding := [], false;
    }

    method BufAppend(data: string) returns (ok: bool)
      requires Valid()
      modifies this`buf, this`bufCap
      ensures Valid()
      ensures ok <==> |old(buf)| + |data| <= MAX_BUFFER
      ensures buf == Put(old(buf), data)
    {
      if |buf| + |data| > bufCap {
        var newCap := bufCap * 2;
        while newCap < |buf| + |data|
          invariant IsCap(newCap) && newCap / 2 < |buf| + |data| && 0 < newCap
          decreases |buf| + |data| - newCap
        {
          newCap := newCap * 2;
        }
        LimitIsCap();
        if newCap > MAX_BUFFER {
          CapGap(newCap, MAX_BUFFER);
          return false;
        }
        bufCap := newCap;
      }
      buf := buf + data;
      return true;
    }

    method EmitPlaceholder(index: nat)
      requires Valid()
      modifies this`buf, this`bufCap
      ensures Valid() && buf == Put(old(buf), Placeholder(index))
    {
      var ok := BufAppend(Placeholder(index));
    }

    /** hold_bytes: what does not fit is cut off. */
    method HoldBytes(data: string)
      modifies this`hold
      ensures hold == if |data| <= HOLD_MAX then data else data[..HOLD_MAX]
    {
      var len := |data|;
      if len > HOLD_MAX { len := HOLD_MAX; }
      hold := data[..len];
    }

    /** An include tag: static body first, else a placeholder for a recorded URI, else nothing. */
    method IncludeTagged(tag: string)
      requires Valid()
      modifies this`buf, this`bufCap, this`dynUri, this`dynHolding
      ensures Valid()
      ensures var ins := Resolve(cfg, |old(dynUri)|, tag);
              buf == Put(old(buf), Written(ins, old(dynUri))) && dynUri == Recorded(ins, old(dynUri))
    {
      hide ExtractSrc, CString, UriValid, StaticBody, Placeholder, IsCap;
      var raw := ExtractSrcOf(tag);
      if raw.Some? {
        var src := CString(raw.value);
        var content := StaticBody(cfg, src);
        if content != "" {
          var ok := BufAppend(content);
        } else if !cfg.subrequest && |dynUri| < DYN_MAX && UriValid(src) {
          EmitPlaceholder(|dynUri|);
          dynUri := dynUri + [src];
          dynHolding := true;
        }
      }
    }

    ghost predicate Stepped(mode: Mode, uris: seq<string>, acc: string, chunk: string, used: nat)
      reads this
    {
      var s := StepOf(cfg, mode, uris, chunk);
      && used <= |chunk| && chunk[used..] == s.rest
      && state == s.mode && dynUri == s.uris && hold == s.hold && buf == PutAll(acc, s.pieces)
    }

    /** Text outside any block. */
    method PassthroughChunk(chunk: string) returns (used: nat)
      requires Valid() && state.Passthrough? && hold == "" && chunk != ""
      modifies this`state, this`buf, this`bufCap, this`hold, this`dynUri, this`dynHolding
      ensures Valid() && Stepped(old(state), old(dynUri), old(buf), chunk, used)
    {
      hide StepOf, PartialTail, Find, IsCap;
      var esi := FindStr(chunk, PREFIX);
      if esi.None? {
        used := UntaggedChunk(chunk);
        return;
      }
      var before := esi.value;
      var gt := FindStr(chunk[before..], ">");
      FindFrom(chunk, before);
      if gt.None? {
        used := UnfinishedChunk(chunk, before);
      } else {
        used := TaggedChunk(chunk, before, before + gt.value);
      }
    }

    /** No "<esi:": pass all but the bytes that may be the start of one. */
    method UntaggedChunk(chunk: string) returns (used: nat)
      requires Valid() && state.Passthrough? && hold == "" && ScanOf(Passthrough, chunk) == NoTag
      modifies this`buf, this`bufCap, this`hold
      ensures Valid() && Stepped(old(state), old(dynUri), old(buf), chunk, used)
    {
      hide StepOf, ScanOf, PartialTail, IsCap, PutAll, Put;
      var k := PartialTagTail(chunk);
      PutTwo(buf, chunk[..|chunk| - k], "");
      StepIs(cfg, state, dynUri, chunk);
      KeepTail(chunk, k);
      used := |chunk|;
      assert chunk[used..] == "";
    }

    method KeepTail(chunk: string, k: nat)
      requires Valid() && state.Passthrough? && hold == "" && k <= |chunk| && k <= 4
      modifies this`buf, this`bufCap, this`hold
      ensures Valid() && buf == Put(old(buf), chunk[..|chunk| - k]) && hold == chunk[|chunk| - k..]
    {
      hide IsCap;
      var n := |chunk|;
      if k > 0 {
        if k < n {
          var ok := BufAppend(chunk[..n - k]);
        }
        HoldBytes(chunk[n - k..]);
      } else {
        assert chunk[..n - k] == chunk;
        var ok := BufAppend(chunk);
      }
    }

    /** A tag without its '>': hold it, or pass it literally when it is too long. */
    method UnfinishedChunk(chunk: string, before: nat) returns (used: nat)
      requires Valid() && state.Passthrough? && hold == "" && ScanOf(Passthrough, chunk) == OpenTag(before)
      modifies this`buf, this`bufCap, this`hold
      ensures Valid() && Stepped(old(state), old(dynUri), old(buf), chunk, used)
    {
      hide StepOf, ScanOf, PartialTail, IsCap, PutAll;
      var n := |chunk|;
      PutTwo(buf, chunk[..before], chunk[before..]);
      StepIs(cfg, state, dynUri, chunk);
      assert chunk[n..] == "";
      if before > 0 { var ok := BufAppend(chunk[..before]); }
      if n - before <= HOLD_MAX {
        HoldBytes(chunk[before..]);
      } else {
        var ok := BufAppend(chunk[before..]);
      }
      used := n;
    }

    /** A complete tag at `before`, ended by the '>' at `end`. */
    method TaggedChunk(chunk: string, before: nat, end: nat) returns (used: nat)
      requires Valid() && state.Passthrough? && hold == ""
      requires ScanOf(Passthrough, chunk) == FullTag(before, end)
      modifies this`state, this`buf, this`bufCap, this`dynUri, this`dynHolding
      ensures Valid() && Stepped(old(state), old(dynUri), old(buf), chunk, used)
    {
      hide StepOf, ScanOf, NextMode, NextUris, Emitted, Rest, IsCap, PutAll;
      ghost var scan := FullTag(before, end);
      PutTwo(buf, chunk[..before], Emitted(cfg, dynUri, chunk, scan));
      StepIs(cfg, state, dynUri, chunk);
      if before > 0 { var ok := BufAppend(chunk[..before]); }
      used := ActOnTag(chunk, before, end);
    }

    /** Dispatch on the tag's name. */
    method ActOnTag(chunk: string, before: nat, end: nat) returns (used: nat)
      requires Valid() && state.Passthrough? && hold == "" && before + 5 <= end < |chunk|
      modifies this`state, this`buf, this`bufCap, this`dynUri, this`dynHolding
      ensures Valid()
      ensures var scan := FullTag(before, end);
              && state == NextMode(chunk, scan)
              && dynUri == NextUris(cfg, old(dynUri), chunk, scan)
              && buf == Put(old(buf), Emitted(cfg, old(dynUri), chunk, scan))
              && used <= |chunk| && chunk[used..] == Rest(chunk, scan)
    {
      hide Resolve, StartsNoCase, IsCap;
      PutTwo(buf, "", "");
      var tag := chunk[before + 5..];
      used := end + 1;
      if StartsNoCase(tag, "remove") {
        state := Strip;
      } else if StartsNoCase(tag, "comment") {
        state := Strip;
      } else if StartsNoCase(tag, "include") {
        IncludeTagged(chunk[before..end + 1]);
      } else if StartsNoCase(tag, "vars") {
        state := Vars;
      } else {
        var ok := BufAppend(PREFIX);
        used := before + 5;
      }
    }

    /** Text inside a remove or comment block. */
    method StripChunk(chunk: string) returns (used: nat)
      requires Valid() && state.Strip? && hold == "" && chunk != ""
      modifies this`state
      ensures Valid() && Stepped(old(state), dynUri, buf, chunk, used)
    {
      var cr := FindStr(chunk, REMOVE_CLOSE);
      var cc := FindStr(chunk, COMMENT_CLOSE);
      if cr.Some? && (cc.None? || cr.value < cc.value) {
        used := cr.value + |REMOVE_CLOSE|;
        state := Passthrough;
      } else if cc.Some? {
        used := cc.value + |COMMENT_CLOSE|;
        state := Passthrough;
      } else {
        used := |chunk|;
      }
    }

    /** Text inside a vars block. */
    method VarsChunk(chunk: string) returns (used: nat)
      requires Valid() && state.Vars? && hold == "" && chunk != ""
      modifies this`state, this`buf, this`bufCap
      ensures Valid() && Stepped(old(state), dynUri, old(buf), chunk, used)
    {
      var close := FindStr(chunk, VARS_CLOSE);
      PutTwo(buf, if close.None? then chunk else chunk[..close.value], "");
      if close.None? {
        var ok := BufAppend(chunk);
        used := |chunk|;
      } else {
        var ok := BufAppend(chunk[..close.value]);
        used := close.value + |VARS_CLOSE|;
        state := Passthrough;
      }
    }

    /**
     * One call. Parked output makes it refuse the chunk, and that loses the
     * held bytes; otherwise it eats the whole chunk and computes `BoundedRun`.
     */
    method Process(input: string) returns (consumed: nat, out: string)
      requires Valid()
      modifies this
      ensures Valid() && pend == old(pend)
      ensures old(pend) != "" ==>
                consumed == 0 && out == old(pend)
                && StreamState() == old(StreamState()).(hold := "")
      ensures buf == if old(pend) == "" then "" else old(buf)
      ensures old(pend) == "" ==>
                var r := EsiStream.Call(cfg, old(StreamState()), input);
                consumed == |input| && out == r.text && StreamState() == EsiStream.After(r)
    {
      hide StepOf, IsCap, BoundedRun;
      var data := hold + input;
      ghost var all := BoundedRun(cfg, state, dynUri, data, "");
      var held := |hold|;
      hold := "";
      if pend != "" {
        return 0, pend;
      }
      buf := "";
      consumed := 0;
      assert data[0..] == data;
      BoundedStep(cfg, state, dynUri, data, "");
      while consumed < |data|
        invariant Valid() && pend == "" && consumed <= |data|
        invariant if consumed == |data| then all == Result(state, dynUri, buf, hold)
                  else hold == "" && all == BoundedRun(cfg, state, dynUri, data[consumed..], buf)
      {
        var chunk := data[consumed..];
        BoundedStep(cfg, state, dynUri, chunk, buf);
        var used := StepChunk(chunk);
        assert chunk[used..] == data[consumed + used..];
        consumed := consumed + used;
      }
      out := buf;
      buf := "";
      consumed := if consumed > held then consumed - held else 0;
    }

    method StepChunk(chunk: string) returns (used: nat)
      requires Valid() && hold == "" && chunk != ""
      modifies this`state, this`buf, this`bufCap, this`hold, this`dynUri, this`dynHolding
      ensures Valid() && Stepped(old(state), old(dynUri), old(buf), chunk, used)
    {
      hide StepOf, IsCap, PutAll;
      match state {
        case Passthrough => used := PassthroughChunk(chunk);
        case Strip => used := StripChunk(chunk);
        case Vars => used := VarsChunk(chunk);
      }
    }

    /** The flush at the end of the body: a tag that never ended is passed literally. */
    method Finish() returns (out: string)
      requires Valid()
      modifies this`buf, this`bufCap, this`hold
      ensures Valid() && out == Put(old(buf), old(hold)) && buf == ""
      ensures StreamState() == old(StreamState()).(hold := "")
      ensures old(buf) == "" ==> out == old(hold)
    {
      if hold != "" {
        var ok := BufAppend(hold);
        hold := "";
      }
      out := buf;
      buf := "";
    }
  }

  /** The step for each way a scan can end. */
  lemma StepIs(cfg: Config, mode: Mode, uris: seq<string>, data: string)
    requires mode.Passthrough?
    ensures ScanOf(mode, data).NoTag? ==>
              var k := PartialTail(data);
              StepOf(cfg, mode, uris, data) == Step(mode, uris, [data[..|data| - k]], data[|data| - k..], "")
    ensures var scan := ScanOf(mode, data);
            scan.OpenTag? ==>
              StepOf(cfg, mode, uris, data)
              == if |data| - scan.at <= HOLD_MAX then Step(mode, uris, [data[..scan.at]], data[scan.at..], "")
                 else Step(mode, uris, [data[..scan.at], data[scan.at..]], "", "")
    ensures var scan := ScanOf(mode, data);
            scan.FullTag? ==>
              StepOf(cfg, mode, uris, data)
              == Step(NextMode(data, scan), NextUris(cfg, uris, data, scan),
                      [data[..scan.at], Emitted(cfg, uris, data, scan)], "", Rest(data, scan))
  {
    hide ScanOf, NextMode, NextUris, Emitted, Rest, PartialTail;
  }

  lemma BoundedStep(cfg: Config, mode: Mode, uris: seq<string>, data: string, acc: string)
    ensures BoundedRun(cfg, mode, uris, "", acc) == Result(mode, uris, acc, "")
    ensures data != "" ==>
              var s := StepOf(cfg, mode, uris, data);
              BoundedRun(cfg, mode, uris, data, acc)
              == if s.rest == "" then Result(s.mode, s.uris, PutAll(acc, s.pieces), s.hold)
                 else BoundedRun(cfg, s.mode, s.uris, s.rest, PutAll(acc, s.pieces))
  {
    hide StepOf, PutAll;
  }

  lemma PutTwo(acc: string, x: string, y: string)
    requires |acc| <= MAX_BUFFER
    ensures PutAll(acc, [x, y]) == Put(Put(acc, x), y)
    ensures PutAll(acc, [x]) == Put(acc, x) && Put(acc, "") == acc && PutAll(acc, []) == acc
  {
    assert [x, y][1..] == [y] && [y][1..] == [] && [x][1..] == [];
    assert PutAll(Put(acc, x), [y]) == PutAll(Put(Put(acc, x), y), []);
    assert acc + "" == acc;
  }

  /** A search in the remaining bytes is a search from an offset. */
  lemma FindFrom(chunk: string, at: nat)
    requires at <= |chunk|
    ensures Find(chunk, ">", at) == Shift(at, Find(chunk[at..], ">"))
  {
    assert chunk[..at] + chunk[at..] == chunk;
    FindSkip(chunk[..at], chunk[at..], ">", 0, at);
  }

  lemma WholeBody(cfg: Config, chunks: seq<string>)
    ensures EsiStream.Smooth(cfg, EsiStream.START, chunks) ==>
              EsiStream.Streamed(cfg, EsiStream.START, chunks) == Render(cfg, Passthrough, [], EsiStream.Join(chunks))
  {
    hide EsiStream.Smooth, EsiStream.Streamed, Render, EsiStream.Join;
    if EsiStream.Smooth(cfg, EsiStream.START, chunks) {
      EsiStream.StreamingIsRendering(cfg, EsiStream.START, chunks);
      assert "" + EsiStream.Join(chunks) == EsiStream.Join(chunks);
    }
  }

  /**
   * A whole body fed to one context: its outputs and recorded URIs are `Streamed`,
   * and over harmless chunks those of the body as one.
   */
  method FilterBody(ctx: EsiContext, chunks: seq<string>) returns (out: string)
    requires ctx.Valid() && ctx.pend == "" && ctx.buf == ""
    modifies ctx
    ensures EsiStream.Streamed(ctx.cfg, old(ctx.StreamState()), chunks) == Page(out, ctx.dynUri)
    ensures old(ctx.StreamState()) == EsiStream.START && EsiStream.Smooth(ctx.cfg, EsiStream.START, chunks) ==>
              Page(out, ctx.dynUri) == Render(ctx.cfg, Passthrough, [], EsiStream.Join(chunks))
  {
    WholeBody(ctx.cfg, chunks);
    out := "";
    var i := 0;
    ghost var all := EsiStream.Streamed(ctx.cfg, ctx.StreamState(), chunks);
    assert chunks[0..] == chunks;
    hide EsiStream.Call, EsiStream.After;
    assert "" + all.text == all.text;
    while i < |chunks|
      invariant i <= |chunks| && ctx.Valid() && ctx.pend == "" && ctx.buf == ""
      invariant all == Before(out, EsiStream.Streamed(ctx.cfg, ctx.StreamState(), chunks[i..]))
    {
      var used, piece := ctx.Process(chunks[i]);
      assert chunks[i..][1..] == chunks[i + 1..];
      EsiStream.Assoc(out, piece, EsiStream.Streamed(ctx.cfg, ctx.StreamState(), chunks[i + 1..]).text);
      out := out + piece;
      i := i + 1;
    }
    var last := ctx.Finish();
    out := out + last;
  }
}
