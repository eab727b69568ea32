/**
 * The level loop of a directory walk over the parse cache: as long as a file's
 * metadata determines what a fresh read would yield, no lookup and no walk can
 * tell that there is a cache.
 */
module Dirwalk {
  import opened Text
  import opened Directives
  import Merge
  import MergeList
  import opened Nodes
  import OverrideLaws
  import OverrideList
  import Overrides
  import opened ParseCache

  // ------------------------------------------------------------------------ files

  datatype Stat = Stat(mtime: int, size: int, inode: bv64, blocks: bv64)

  datatype File = File(stat: Stat, link: bool, regular: bool, writable: bool, content: string)

  type FileSystem = map<string, File>

  type Forest = ds: seq<Directive> | Formed(ds) witness []

  /** The parser and the size limit. */
  datatype Env = Env(parse: string -> Forest, limit: nat)

  function MetaOf(st: Stat): Meta { Meta(st.mtime, st.size, st.inode ^ st.blocks) }

  /** The checks and the parse of read_and_cache; None when the file is refused. */
  function ReadParse(env: Env, f: File): Option<Forest> {
    if f.link || !f.regular || f.writable then None
    else if f.content == "" || |f.content| > env.limit || |f.content| > f.stat.size then None
    else Some(env.parse(f.content))
  }

  /** What a read without any cache yields for a file. */
  function Meaning(env: Env, f: File): seq<Directive> {
    var r := ReadParse(env, f);
    if r.Some? then r.value else []
  }

  /** Only a regular file that is no link, that nobody else may write and that is neither empty nor too long is read. */
  lemma TrustedOnly(env: Env, f: File)
    ensures Meaning(env, f) != [] ==>
              !f.link && f.regular && !f.writable && 0 < |f.content| <= env.limit && |f.content| <= f.stat.size
    ensures !f.link && f.regular && !f.writable && 0 < |f.content| <= env.limit && |f.content| <= f.stat.size ==>
              Meaning(env, f) == env.parse(f.content)
  {
  }

  function Fresh(env: Env, fs: FileSystem, path: string): seq<Directive> {
    if path in fs then Meaning(env, fs[path]) else []
  }

  // ------------------------------------------------------------------- one level

  /** A file that cannot be seen is looked up with zeros. */
  function LookupMeta(fs: FileSystem, path: string): Meta {
    if path in fs then MetaOf(fs[path].stat) else Meta(0, 0, 0)
  }

  /** The directives used for a level, and the cache afterwards. */
  function Level(env: Env, t: Table<seq<Directive>>, fs: FileSystem, path: string)
    : (seq<Directive>, Table<seq<Directive>>)
  {
    var hit := GetFrom(t, path, LookupMeta(fs, path));
    if hit.Some? then (hit.value, t)
    else if path !in fs then ([], t)
    else
      var read := ReadParse(env, fs[path]);
      if read.None? then ([], t)
      else (read.value, PutInto(t, path, Cached(MetaOf(fs[path].stat), read.value)))
  }

  /** Overwriting and filling seen by what the lists spell. */
  lemma SpelledPut(t: Table<Node?>, shapes: Shapes, path: string, value: Cached<Node?>, fs: seq<Shape>)
    requires shapes.Keys == t.Keys
    ensures Spelled(t[path := value], shapes[path := fs])
         == Spelled(t, shapes)[path := Cached(value.meta, Trees(fs))]
  {
    hide Trees;
  }

  lemma SpelledAccepts(t: Table<Node?>, shapes: Shapes, path: string)
    requires shapes.Keys == t.Keys
    ensures Accepts(Spelled(t, shapes), path) <==> Accepts(t, path)
  {
    hide Trees;
    assert Spelled(t, shapes).Keys == t.Keys;
    assert |Spelled(t, shapes).Keys| == |t.Keys|;
  }

  lemma KeptPut(shapes: Shapes, path: string, fs: seq<Shape>)
    ensures Kept(shapes[path := fs]) <= Kept(shapes) + Feet(fs)
  {
    hide Feet;
  }

  /** The end of read_and_cache: hand the list to the cache, which may refuse it. */
  method Store(cache: Cache, path: string, meta: Meta, head: Node?, ghost fs: seq<Shape>) returns (level: Node?)
    requires cache.Valid() && Owned(cache.contents, cache.shapes)
    requires Linked(head, fs, null) && Feet(fs) !! Kept(cache.shapes)
    modifies cache, cache.buckets
    ensures cache.Valid() && Owned(cache.contents, cache.shapes)
    ensures Spelled(cache.contents, cache.shapes)
         == PutInto(old(Spelled(cache.contents, cache.shapes)), path, Cached(meta, Trees(fs)))
    ensures level == head && Linked(level, fs, null) && Kept(cache.shapes) <= old(Kept(cache.shapes)) + Feet(fs)
  {
    hide Cache.Valid, Linked, Feet, Trees, Spelled, Kept;
    SpelledPut(cache.contents, cache.shapes, path, Cached(meta, head), fs);
    SpelledAccepts(cache.contents, cache.shapes, path);
    KeptPut(cache.shapes, path, fs);
    assert allocated(Feet(fs)) && allocated(Kept(cache.shapes));
    level := head;
    var stored, gone := cache.Put(path, meta, head, fs);
    assert allocated(Kept(cache.shapes));
    if stored {
      var cached := cache.Get(path, meta);
      level := cached.value;
    }
  }

  /** read_and_cache: a refused file leaves nothing, and a full cache leaves the list to the caller. */
  method ReadAndCache(cache: Cache, env: Env, fs: FileSystem, path: string)
    returns (level: Node?, ghost ls: seq<Shape>)
    requires cache.Valid() && Owned(cache.contents, cache.shapes) && path in fs
    requires GetFrom(Spelled(cache.contents, cache.shapes), path, MetaOf(fs[path].stat)).None?
    modifies cache, cache.buckets
    ensures cache.Valid() && Owned(cache.contents, cache.shapes)
    ensures (Trees(ls), Spelled(cache.contents, cache.shapes))
         == Level(env, old(Spelled(cache.contents, cache.shapes)), fs, path)
    ensures Linked(level, ls, null)
    ensures forall n :: n in Feet(ls) + Kept(cache.shapes) ==> n in old(Kept(cache.shapes)) || fresh(n)
  {
    hide Cache.Valid, Linked, Feet, Trees, MetaOf, Spelled, Kept, ReadParse, PutInto;
    NoNodes(null);
    level, ls := null, [];
    var f := fs[path];
    var read := ReadParse(env, f);
    if read.Some? {
      assert allocated(Kept(cache.shapes));
      var head, hs := MakeList(read.value);
      ls := hs;
      level := Store(cache, path, MetaOf(f.stat), head, ls);
    }
  }

  /** The walker's lookup, read and store of one level. */
  method UseLevel(cache: Cache, env: Env, fs: FileSystem, path: string)
    returns (level: Node?, ghost ls: seq<Shape>)
    requires cache.Valid() && Owned(cache.contents, cache.shapes)
    modifies cache, cache.buckets
    ensures cache.Valid() && Owned(cache.contents, cache.shapes)
    ensures (Trees(ls), Spelled(cache.contents, cache.shapes))
         == Level(env, old(Spelled(cache.contents, cache.shapes)), fs, path)
    ensures Linked(level, ls, null)
    ensures forall n :: n in Feet(ls) + Kept(cache.shapes) ==> n in old(Kept(cache.shapes)) || fresh(n)
  {
    hide Cache.Valid, Linked, Feet, Trees, MetaOf, Kept;
    NoNodes(null);
    level, ls := null, [];
    var haveStat := path in fs;
    var meta := if haveStat then MetaOf(fs[path].stat) else Meta(0, 0, 0);
    assert allocated(Kept(cache.shapes));
    var hit := cache.Get(path, meta);
    assert Owned(cache.contents, cache.shapes);
    if hit.Some? {
      KeptHas(cache.shapes, path);
      return hit.value, cache.shapes[path];
    }
    if haveStat {
      level, ls := ReadAndCache(cache, env, fs, path);
    }
  }

  // -------------------------------------------------------------------- transparency

  /** A reading of metadata: what it stands for at each path. */
  type Reading = (string, Meta) -> seq<Directive>

  /** The file's metadata determines what a fresh read yields. */
  predicate Determined(env: Env, reading: Reading, path: string, f: File) {
    Meaning(env, f) == reading(path, MetaOf(f.stat))
  }

  ghost predicate AllDetermined(env: Env, reading: Reading, fs: FileSystem) {
    forall p :: p in fs ==> Determined(env, reading, p, fs[p])
  }

  /** Every entry holds what its metadata stands for; only non-empty files are stored. */
  ghost predicate Good(t: Table<seq<Directive>>, reading: Reading) {
    forall p :: p in t ==> t[p].directives == reading(p, t[p].meta) && t[p].meta.size > 0
  }

  lemma LevelIsFresh(env: Env, reading: Reading, t: Table<seq<Directive>>, fs: FileSystem, path: string)
    requires Good(t, reading) && (path in fs ==> Determined(env, reading, path, fs[path]))
    ensures Level(env, t, fs, path).0 == Fresh(env, fs, path) && Good(Level(env, t, fs, path).1, reading)
  {
  }

  datatype Op = Edit(path: string, file: File) | Remove(path: string) | Lookup(path: string)

  function After(fs: FileSystem, op: Op): FileSystem {
    match op
    case Edit(p, f) => fs[p := f]
    case Remove(p) => fs - {p}
    case Lookup(_) => fs
  }

  /** The answers of the lookups in a run over the cache. */
  function Answers(env: Env, t: Table<seq<Directive>>, fs: FileSystem, ops: seq<Op>): seq<seq<Directive>>
    decreases |ops|
  {
    if ops == [] then []
    else if ops[0].Lookup? then
      var (dirs, u) := Level(env, t, fs, ops[0].path);
      [dirs] + Answers(env, u, fs, ops[1..])
    else Answers(env, t, After(fs, ops[0]), ops[1..])
  }

  /** The answers when every lookup reads and parses the file anew. */
  function FreshAnswers(env: Env, fs: FileSystem, ops: seq<Op>): seq<seq<Directive>>
    decreases |ops|
  {
    if ops == [] then []
    else if ops[0].Lookup? then [Fresh(env, fs, ops[0].path)] + FreshAnswers(env, fs, ops[1..])
    else FreshAnswers(env, After(fs, ops[0]), ops[1..])
  }

  ghost predicate OpsDetermined(env: Env, reading: Reading, ops: seq<Op>) {
    forall i :: 0 <= i < |ops| && ops[i].Edit? ==> Determined(env, reading, ops[i].path, ops[i].file)
  }

  /**
   * Over every run of edits, deletions and lookups, on a table of any fill, the
   * answers are those of fresh reads, provided metadata determines the outcome of reading.
   */
  lemma {:induction false} CacheIsTransparent(env: Env, reading: Reading, t: Table<seq<Directive>>, fs: FileSystem,
      ops: seq<Op>)
    requires Good(t, reading) && AllDetermined(env, reading, fs) && OpsDetermined(env, reading, ops)
    ensures Answers(env, t, fs, ops) == FreshAnswers(env, fs, ops)
    decreases |ops|
  {
    hide Level, Good, Determined, Fresh;
    if ops != [] {
      var op, rest := ops[0], ops[1..];
      assert forall i :: 0 <= i < |rest| ==> rest[i] == ops[i + 1];
      if op.Lookup? {
        LevelIsFresh(env, reading, t, fs, op.path);
        CacheIsTransparent(env, reading, Level(env, t, fs, op.path).1, fs, rest);
      } else {
        CacheIsTransparent(env, reading, t, After(fs, op), rest);
      }
    }
  }

  /**
   * A file is read, replaced and read again: the second answer is stale exactly when the first version was
   * readable and the second one has the same metadata but would be read differently.
   */
  lemma StaleExactly(env: Env, path: string, f: File, g: File)
    ensures var ops := [Edit(path, f), Lookup(path), Edit(path, g), Lookup(path)];
            Answers(env, map[], map[], ops) != FreshAnswers(env, map[], ops)
            <==> ReadParse(env, f).Some? && MetaOf(f.stat) == MetaOf(g.stat) && Meaning(env, f) != Meaning(env, g)
  {
    hide ReadParse, MetaOf;
    var a, b, c, d := Edit(path, f), Lookup(path), Edit(path, g), Lookup(path);
    var one, two: FileSystem := map[path := f], map[path := g];
    var t := Level(env, map[], one, path).1;
    assert [a, b, c, d][1..] == [b, c, d] && [b, c, d][1..] == [c, d] && [c, d][1..] == [d] && [d][1..] == [];
    assert (map[])[path := f] == one && one[path := g] == two;
    AnswersEnd(env, t, two, path);
    assert Answers(env, map[], map[], [a, b, c, d]) == Answers(env, map[], one, [b, c, d]);
    assert Answers(env, map[], one, [b, c, d]) == [Level(env, map[], one, path).0] + Answers(env, t, one, [c, d]);
    assert Answers(env, t, one, [c, d]) == Answers(env, t, two, [d]);
    assert FreshAnswers(env, map[], [a, b, c, d]) == FreshAnswers(env, one, [b, c, d]);
    assert FreshAnswers(env, one, [b, c, d]) == [Fresh(env, one, path)] + FreshAnswers(env, one, [c, d]);
    assert FreshAnswers(env, one, [c, d]) == FreshAnswers(env, two, [d]);
    var x, y, z := Level(env, map[], one, path).0, Level(env, t, two, path).0, Fresh(env, two, path);
    assert x == Fresh(env, one, path) == Meaning(env, f) && z == Meaning(env, g);
    assert ([x] + [y])[1] == y && ([x] + [z])[1] == z;
    var read: Option<seq<Directive>> := ReadParse(env, f);
    var empty: Table := map[];
    assert |empty| == 0;
    assert t == if read.None? then empty else empty[path := Cached(MetaOf(f.stat), read.value)];
    assert y == if read.Some? && MetaOf(f.stat) == MetaOf(g.stat) then Meaning(env, f) else Meaning(env, g);
  }

  lemma AnswersEnd(env: Env, t: Table<seq<Directive>>, fs: FileSystem, path: string)
    ensures Answers(env, t, fs, [Lookup(path)]) == [Level(env, t, fs, path).0]
    ensures FreshAnswers(env, fs, [Lookup(path)]) == [Fresh(env, fs, path)]
  {
    hide Level, Fresh;
    assert [Lookup(path)][1..] == [];
  }

  /** The contents that files are ever given, each with its path. */
  type Versions = iset<(string, File)>

  ghost predicate Among(ops: seq<Op>, versions: Versions) {
    forall i :: 0 <= i < |ops| && ops[i].Edit? ==> (ops[i].path, ops[i].file) in versions
  }

  ghost predicate AnswersFresh(env: Env, ops: seq<Op>) {
    Answers(env, map[], map[], ops) == FreshAnswers(env, map[], ops)
  }

  /** Two versions of one path with the same time, size, and inode with block count, are read alike. */
  ghost predicate Alike(env: Env, v: (string, File), w: (string, File)) {
    var a, b := v.1.stat, w.1.stat;
    v.0 == w.0 && a.mtime == b.mtime && a.size == b.size && a.inode ^ a.blocks == b.inode ^ b.blocks
    ==> Meaning(env, v.1) == Meaning(env, w.1)
  }

  /** What metadata stands for: the reading of some version that has it. */
  ghost function ReadingOf(env: Env, versions: Versions): Reading {
    (path: string, meta: Meta) =>
      if exists v :: v in versions && v.0 == path && MetaOf(v.1.stat) == meta then
        var v :| v in versions && v.0 == path && MetaOf(v.1.stat) == meta;
        Meaning(env, v.1)
      else []
  }

  /**
   * Over given versions of given files, no run can tell that there is a cache
   * exactly when any two versions of one path with the same metadata are read alike.
   */
  lemma TransparentExactly(env: Env, versions: Versions)
    ensures (forall ops :: Among(ops, versions) ==> AnswersFresh(env, ops))
       <==> (forall v, w :: v in versions && w in versions ==> Alike(env, v, w))
  {
    hide Answers, FreshAnswers, Meaning;
    if forall v, w :: v in versions && w in versions ==> Alike(env, v, w) {
      var reading := ReadingOf(env, versions);
      forall ops | Among(ops, versions)
        ensures AnswersFresh(env, ops)
      {
        CacheIsTransparent(env, reading, map[], map[], ops);
      }
    }
    forall v, w | v in versions && w in versions && !Alike(env, v, w)
      ensures exists ops :: Among(ops, versions) && !AnswersFresh(env, ops)
    {
      var ops := StaleRun(env, v.0, v.1, w.1);
      assert Among(ops, versions);
    }
  }

  /** The run in which the version that is read to something is cached and the other one comes after it. */
  lemma StaleRun(env: Env, path: string, f: File, g: File) returns (ops: seq<Op>)
    requires MetaOf(f.stat) == MetaOf(g.stat) && Meaning(env, f) != Meaning(env, g)
    ensures !AnswersFresh(env, ops)
    ensures forall i :: 0 <= i < |ops| && ops[i].Edit? ==> ops[i].path == path && ops[i].file in {f, g}
  {
    var first, second := if ReadParse(env, f).Some? then f else g, if ReadParse(env, f).Some? then g else f;
    hide Answers, FreshAnswers, ReadParse, MetaOf;
    ops := [Edit(path, first), Lookup(path), Edit(path, second), Lookup(path)];
    StaleExactly(env, path, first, second);
  }

  /** Metadata leaves the permission bits out: a file made world-writable after it was cached is still used. */
  lemma ModeIsNotMetadata(env: Env, path: string, f: File)
    requires ReadParse(env, f).Some? && Meaning(env, f) != []
    ensures var ops := [Edit(path, f), Lookup(path), Edit(path, f.(writable := true)), Lookup(path)];
            Answers(env, map[], map[], ops) != FreshAnswers(env, map[], ops)
  {
    StaleExactly(env, path, f, f.(writable := true));
  }

  // ------------------------------------------------------------------------ the walk

  function FreshLevels(env: Env, fs: FileSystem, paths: seq<string>): seq<seq<Directive>> {
    seq(|paths|, i requires 0 <= i < |paths| => Fresh(env, fs, paths[i]))
  }

  /** What a walk returns for given levels and a given AllowOverride mask. */
  function Outcome(levels: seq<seq<Directive>>, mask: bv8): seq<Directive> {
    var merged := Merge.Walk(levels);
    Overrides.Flatten(if mask == ALL then merged else Overrides.Filter(merged, mask))
  }

  /** What a walk uses at its levels, and the cache afterwards. */
  function Levels(env: Env, t: Table<seq<Directive>>, fs: FileSystem, paths: seq<string>)
    : (r: (seq<seq<Directive>>, Table<seq<Directive>>))
    ensures |r.0| == |paths|
    decreases |paths|
  {
    if paths == [] then ([], t)
    else
      var (before, u) := Levels(env, t, fs, paths[..|paths| - 1]);
      var (level, v) := Level(env, u, fs, paths[|paths| - 1]);
      (before + [level], v)
  }

  /** Where metadata determines the outcome of reading, every level is that of a fresh read. */
  lemma {:induction false} LevelsAreFresh(
      env: Env, reading: Reading, t: Table<seq<Directive>>, fs: FileSystem, paths: seq<string>)
    requires Good(t, reading) && AllDetermined(env, reading, fs)
    ensures Levels(env, t, fs, paths).0 == FreshLevels(env, fs, paths)
    ensures Good(Levels(env, t, fs, paths).1, reading)
    decreases |paths|
  {
    hide Level, Good, Determined, Fresh;
    if paths != [] {
      var front, last := paths[..|paths| - 1], paths[|paths| - 1];
      LevelsAreFresh(env, reading, t, fs, front);
      LevelIsFresh(env, reading, Levels(env, t, fs, front).1, fs, last);
      assert FreshLevels(env, fs, paths) == FreshLevels(env, fs, front) + [Fresh(env, fs, last)];
    }
  }

  lemma LevelsSnoc(env: Env, t: Table<seq<Directive>>, fs: FileSystem, paths: seq<string>, i: nat)
    requires i < |paths|
    ensures var (before, u) := Levels(env, t, fs, paths[..i]);
            var (level, v) := Level(env, u, fs, paths[i]);
            && Levels(env, t, fs, paths[..i + 1]) == (before + [level], v)
            && Merge.Walk(before + [level]) == Merge.Merge(Merge.Walk(before), level)
  {
    hide Level, Merge.Merge;
    var upTo := paths[..i + 1];
    assert upTo[..|upTo| - 1] == paths[..i] && upTo[|upTo| - 1] == paths[i];
    var (before, u) := Levels(env, t, fs, paths[..i]);
    var levels := before + [Level(env, u, fs, paths[i]).0];
    assert levels[..|levels| - 1] == before && levels[|levels| - 1] == Level(env, u, fs, paths[i]).0;
  }

  /** The level loop of htaccess_dirwalk: one list merged from deep copies of the levels. */
  method MergeLevels(cache: Cache, env: Env, fs: FileSystem, paths: seq<string>)
    returns (merged: Node?, ghost ms: seq<Shape>)
    requires cache.Valid() && Owned(cache.contents, cache.shapes)
    modifies cache, cache.buckets
    ensures cache.Valid() && Owned(cache.contents, cache.shapes)
    ensures Linked(merged, ms, null) && fresh(Feet(ms)) && Feet(ms) !! Kept(cache.shapes)
    ensures var (levels, t) := Levels(env, old(Spelled(cache.contents, cache.shapes)), fs, paths);
            Trees(ms) == Merge.Walk(levels) && Spelled(cache.contents, cache.shapes) == t
  {
    hide Cache.Valid, Level, Levels, Merge.Merge, Merge.Walk, Linked, Feet, Trees, Spelled, Kept;
    merged, ms := null, [];
    NoNodes(null);
    ghost var t := Spelled(cache.contents, cache.shapes);
    LevelsNone(env, t, fs);
    var i := 0;
    while i < |paths|
      invariant 0 <= i <= |paths| && cache.Valid() && Owned(cache.contents, cache.shapes)
      invariant Linked(merged, ms, null) && fresh(Feet(ms)) && Feet(ms) !! Kept(cache.shapes)
      invariant Trees(ms) == Merge.Walk(Levels(env, t, fs, paths[..i]).0)
      invariant Spelled(cache.contents, cache.shapes) == Levels(env, t, fs, paths[..i]).1
    {
      LevelsSnoc(env, t, fs, paths, i);
      merged, ms := MergeLevel(cache, env, fs, paths[i], merged, ms);
      i := i + 1;
    }
    assert paths[..i] == paths;
  }

  /** One turn of the loop. */
  method MergeLevel(cache: Cache, env: Env, fs: FileSystem, path: string, merged: Node?, ghost ms: seq<Shape>)
    returns (after: Node?, ghost ns: seq<Shape>)
    requires cache.Valid() && Owned(cache.contents, cache.shapes)
    requires Linked(merged, ms, null) && Feet(ms) !! Kept(cache.shapes)
    modifies cache, cache.buckets, Feet(ms)
    ensures cache.Valid() && Owned(cache.contents, cache.shapes)
    ensures Linked(after, ns, null) && Feet(ns) !! Kept(cache.shapes)
    ensures forall n :: n in Feet(ns) ==> n in Feet(ms) || fresh(n)
    ensures var (level, t) := Level(env, old(Spelled(cache.contents, cache.shapes)), fs, path);
            Trees(ns) == Merge.Merge(Trees(ms), level) && Spelled(cache.contents, cache.shapes) == t
  {
    hide Cache.Valid, Level, Merge.Merge, Linked, Feet, Trees, Spelled, Kept;
    assert allocated(Feet(ms)) && allocated(Kept(cache.shapes));
    after, ns := merged, ms;
    var level, ls := UseLevel(cache, env, fs, path);
    Merge.MergeNone(Trees(ms));
    LinkedParts(level, ls, null);
    if level != null {
      assert allocated(Kept(cache.shapes));
      ghost var gone;
      after, ns, gone := MergeList.MergeDirectives(merged, level, ms, ls);
    }
  }

  lemma LevelsNone(env: Env, t: Table<seq<Directive>>, fs: FileSystem)
    ensures Levels(env, t, fs, []) == ([], t) && Merge.Walk([]) == []
  {
  }

  lemma FilterEmpty(mask: bv8)
    ensures Overrides.Filter([], mask) == []
  {
  }

  /**
   * What a walk returns holds nothing that is not permitted and no IfModule; of
   * the merged levels it has exactly what is permitted with everything around it,
   * in order and in the same blocks.
   */
  lemma OutcomeLaws(levels: seq<seq<Directive>>, mask: bv8)
    ensures OverrideLaws.AllPermitted(Outcome(levels, mask), mask) && Overrides.NoModule(Outcome(levels, mask))
    ensures OverrideLaws.Visible(Outcome(levels, mask), [])
         == OverrideLaws.Chosen(OverrideLaws.Visible(Merge.Walk(levels), []), mask)
    ensures mask == ALL || Overrides.Clean(Merge.Walk(levels), mask) ==>
              Overrides.Outline(Outcome(levels, mask), 0) == Overrides.Outline(Merge.Walk(levels), 0)
  {
    hide Merge.Walk, Overrides.Filter, Overrides.Flatten, Overrides.Clean, OverrideLaws.AllPermitted;
    hide OverrideLaws.Visible, OverrideLaws.Chosen, Overrides.NoModule, Overrides.Outline;
    var merged := Merge.Walk(levels);
    var left := if mask == ALL then merged else Overrides.Filter(merged, mask);
    if mask == ALL {
      OverrideLaws.EverythingPermitted(merged);
      OverrideLaws.AllKeepsAll(merged);
    } else {
      Overrides.FilterCleans(merged, mask);
      OverrideLaws.CleanIsPermitted(left, mask);
      OverrideLaws.FilterVisible(merged, [], mask);
    }
    OverrideLaws.FlattenPermitted(left, mask);
    OverrideLaws.FlattenVisible(left, []);
    Overrides.FlattenKeeps(left, 0);
  }

  /**
   * htaccess_dirwalk: the level loop, then the filter and the flattening in place
   * on the merged list. The outcome is a list of nodes of its own; every cached
   * list is as the lookups left it. Nothing that the mask does not permit is in
   * the outcome, and nothing that it permits with all around it is missing. Where
   * metadata determines the outcome of reading, the walk cannot be told from one
   * that reads every level anew.
   */
  method HtaccessDirwalk(cache: Cache, env: Env, fs: FileSystem, paths: seq<string>, mask: bv8, ghost reading: Reading)
    returns (merged: Node?, ghost ms: seq<Shape>)
    requires cache.Valid() && Owned(cache.contents, cache.shapes)
    modifies cache, cache.buckets
    ensures cache.Valid() && Owned(cache.contents, cache.shapes)
    ensures Linked(merged, ms, null) && fresh(Feet(ms)) && Feet(ms) !! Kept(cache.shapes)
    ensures var (levels, t) := Levels(env, old(Spelled(cache.contents, cache.shapes)), fs, paths);
            && Trees(ms) == Outcome(levels, mask) && Spelled(cache.contents, cache.shapes) == t
            && OverrideLaws.Visible(Trees(ms), [])
               == OverrideLaws.Chosen(OverrideLaws.Visible(Merge.Walk(levels), []), mask)
            && (mask == ALL || Overrides.Clean(Merge.Walk(levels), mask) ==>
                  Overrides.Outline(Trees(ms), 0) == Overrides.Outline(Merge.Walk(levels), 0))
    ensures OverrideLaws.AllPermitted(Trees(ms), mask) && Overrides.NoModule(Trees(ms))
    ensures Good(old(Spelled(cache.contents, cache.shapes)), reading) && AllDetermined(env, reading, fs) ==>
              && Good(Spelled(cache.contents, cache.shapes), reading)
              && Trees(ms) == Outcome(FreshLevels(env, fs, paths), mask)
  {
    hide Cache.Valid, Good, Level, Levels, Fresh, Merge.Walk, Overrides.Filter, Overrides.Flatten, AllDetermined;
    hide Linked, Feet, Trees, Spelled, Kept, FreshLevels;
    ghost var t := Spelled(cache.contents, cache.shapes);
    if Good(t, reading) && AllDetermined(env, reading, fs) { LevelsAreFresh(env, reading, t, fs, paths); }
    var head, hs := MergeLevels(cache, env, fs, paths);
    LinkedParts(head, hs, null);
    FilterEmpty(mask);
    assert allocated(Kept(cache.shapes));
    ghost var gone;
    if head != null && mask != ALL { head, hs, gone := OverrideList.FilterByAllowOverride(head, mask, hs); }
    merged, ms, gone := OverrideList.FlattenIfmodule(head, hs);
    OutcomeLaws(Levels(env, t, fs, paths).0, mask);
  }
}
