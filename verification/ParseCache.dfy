/**
 * The cache of parsed files: hash buckets with chained entries changed in
 * place, at most 4096 of them, and an answer only for the file metadata it was
 * stored with.
 */
module ParseCache {
  import opened Text
  import opened Directives
  import opened Nodes

  const MAX_ENTRIES: nat := 4096

  /** Modification time, size, and inode number combined with the block count by exclusive or. */
  datatype Meta = Meta(mtime: int, size: int, inode: bv64)

  /** What is kept for a file: its metadata, and the head of its list or what that list spells. */
  datatype Cached<T> = Cached(meta: Meta, directives: T)

  datatype Entry = Entry(path: string, value: Cached<Node?>)

  /** hash_string, in 64-bit unsigned arithmetic. */
  function Hash(s: string, h: nat := 5381): nat
    decreases |s|
  {
    if s == "" then h else Hash(s[1..], (h * 33 + s[0] as nat) % 0x1_0000_0000_0000_0000)
  }

  function Bucket(path: string, n: nat): (r: nat)
    requires n > 0
    ensures r < n
  {
    Hash(path) % n
  }

  method HashString(path: string, n: nat) returns (r: nat)
    requires n > 0
    ensures r == Bucket(path, n)
  {
    var h: nat := 5381;
    var i := 0;
    while i < |path|
      invariant 0 <= i <= |path| && Hash(path[i..], h) == Hash(path)
    {
      assert path[i..][1..] == path[i + 1..];
      h := (h * 33 + path[i] as nat) % 0x1_0000_0000_0000_0000;
      i := i + 1;
    }
    assert path[i..] == "";
    r := h % n;
  }

  // ---------------------------------------------------------------- as a finite map

  type Table<T> = map<string, Cached<T>>

  /** What a lookup answers; None is a miss. */
  function GetFrom<T>(t: Table<T>, path: string, meta: Meta): Option<T> {
    if path in t && t[path].meta == meta then Some(t[path].directives) else None
  }

  /** A known path is overwritten; a new one is refused when the table is full. */
  predicate Accepts<T>(t: Table<T>, path: string) { path in t || |t| < MAX_ENTRIES }

  function PutInto<T>(t: Table<T>, path: string, value: Cached<T>): Table<T> {
    if Accepts(t, path) then t[path := value] else t
  }

  // ------------------------------------------------------------------ owned lists

  /** The shapes of the lists that are kept. */
  type Shapes = map<string, seq<Shape>>

  ghost function Kept(shapes: Shapes): set<Node> {
    set p, n | p in shapes && n in Feet(shapes[p]) :: n
  }

  /** Every path has a complete list, and no node is in the lists of two paths. */
  ghost predicate Owned(t: Table<Node?>, shapes: Shapes)
    reads Kept(shapes)
  {
    && shapes.Keys == t.Keys
    && (forall p :: p in t ==> Linked(t[p].directives, shapes[p], null))
    && (forall p, q :: p in shapes && q in shapes && p != q ==> Feet(shapes[p]) !! Feet(shapes[q]))
  }

  lemma KeptHas(shapes: Shapes, path: string)
    requires path in shapes
    ensures Feet(shapes[path]) <= Kept(shapes)
  {
    hide Feet;
  }

  lemma PutOwned(t: Table<Node?>, shapes: Shapes, path: string, value: Cached<Node?>, fs: seq<Shape>)
    requires Owned(t, shapes) && Linked(value.directives, fs, null) && Feet(fs) !! Kept(shapes)
    ensures Owned(t[path := value], shapes[path := fs])
  {
    hide Linked, Feet;
    forall q | q in shapes
      ensures Feet(fs) !! Feet(shapes[q])
    {
      KeptHas(shapes, q);
    }
  }

  /** The table with what the lists spell in the place of their heads. */
  ghost function Spelled(t: Table<Node?>, shapes: Shapes): Table<seq<Directive>>
    requires shapes.Keys == t.Keys
  {
    map p | p in t :: Cached(t[p].meta, Trees(shapes[p]))
  }

  // ------------------------------------------------------------------- the chains

  /** Every entry is in the bucket of its path, and no path is there twice. */
  ghost predicate ChainOK(chain: seq<Entry>, bucket: nat, n: nat)
    requires n > 0
  {
    && (forall i :: 0 <= i < |chain| ==> Bucket(chain[i].path, n) == bucket)
    && (forall i, j :: 0 <= i < j < |chain| ==> chain[i].path != chain[j].path)
  }

  ghost predicate Refines(chain: seq<Entry>, bucket: nat, n: nat, t: Table<Node?>)
    requires n > 0
  {
    && (forall i :: 0 <= i < |chain| ==> chain[i].path in t && t[chain[i].path] == chain[i].value)
    && (forall p :: p in t && Bucket(p, n) == bucket ==> exists i :: 0 <= i < |chain| && chain[i].path == p)
  }

  class Cache {
    const buckets: array<seq<Entry>>
    var numEntries: nat
    ghost var contents: Table<Node?>
    ghost var shapes: Shapes

    /** The chains hold exactly `contents`, each path once, in its own bucket; the counter is the number of paths. */
    ghost predicate Valid()
      reads `contents, `numEntries, buckets
    {
      && buckets.Length > 0 && numEntries == |contents|
      && (forall b :: 0 <= b < buckets.Length ==> ChainOK(buckets[b], b, buckets.Length))
      && (forall b :: 0 <= b < buckets.Length ==> Refines(buckets[b], b, buckets.Length, contents))
    }

    constructor (initialBuckets: nat)
      ensures Valid() && Owned(contents, shapes) && contents == map[] && fresh(buckets)
    {
      buckets := new seq<Entry>[if initialBuckets == 0 then 64 else initialBuckets](_ => []);
      numEntries := 0;
      contents, shapes := map[], map[];
    }

    /** The place of a path in its chain. */
    method Locate(path: string) returns (b: nat, i: Option<nat>)
      requires Valid()
      ensures b == Bucket(path, buckets.Length) && b < buckets.Length && numEntries == |contents|
      ensures i.Some? <==> path in contents
      ensures i.Some? ==> i.value < |buckets[b]| && buckets[b][i.value] == Entry(path, contents[path])
    {
      hide Hash, Bucket;
      b := HashString(path, buckets.Length);
      assert ChainOK(buckets[b], b, buckets.Length) && Refines(buckets[b], b, buckets.Length, contents);
      var k := 0;
      while k < |buckets[b]|
        invariant 0 <= k <= |buckets[b]|
        invariant forall j :: 0 <= j < k ==> buckets[b][j].path != path
      {
        if buckets[b][k].path == path {
          return b, Some(k);
        }
        k := k + 1;
      }
      i := None;
    }

    method Get(path: string, meta: Meta) returns (r: Option<Node?>)
      requires Valid()
      ensures r == GetFrom(contents, path, meta)
    {
      var b, i := Locate(path);
      if i.Some? && buckets[b][i.value].value.meta == meta {
        return Some(buckets[b][i.value].value.directives);
      }
      return None;
    }

    /**
     * On acceptance the cache takes the list over, and frees the one it had for the
     * path; on refusal it leaves the list to the caller.
     */
    method Put(path: string, meta: Meta, head: Node?, ghost fs: seq<Shape>) returns (ok: bool, ghost gone: set<Node>)
      requires Valid() && Owned(contents, shapes) && Linked(head, fs, null) && Feet(fs) !! Kept(shapes)
      modifies this, buckets
      ensures Valid() && ok == Accepts(old(contents), path)
      ensures contents == PutInto(old(contents), path, Cached(meta, head))
      ensures Owned(contents, shapes) && shapes == if ok then old(shapes)[path := fs] else old(shapes)
      ensures gone == if ok && path in old(shapes) then Feet(old(shapes)[path]) else {}
    {
      hide Linked, Feet, Trees, Hash, Bucket, Valid, Kept;
      PutOwned(contents, shapes, path, Cached(meta, head), fs);
      ghost var t, kept := contents[path := Cached(meta, head)], shapes[path := fs];
      assert Owned(t, kept) && allocated(Kept(shapes)) && allocated(Kept(kept));
      gone := {};
      var b, i := Locate(path);
      assert Owned(contents, shapes);
      if i.Some? {
        gone := DirectivesFree(buckets[b][i.value].value.directives, shapes[path]);
        Overwrite(b, i.value, path, Cached(meta, head));
        shapes := shapes[path := fs];
        return true, gone;
      }
      if numEntries >= MAX_ENTRIES {
        return false, gone;
      }
      Prepend(b, path, Cached(meta, head));
      shapes := shapes[path := fs];
      return true, gone;
    }

    method Overwrite(b: nat, i: nat, path: string, value: Cached<Node?>)
      requires Valid() && b < buckets.Length && i < |buckets[b]| && buckets[b][i].path == path
      modifies this`contents, buckets
      ensures Valid() && contents == old(contents)[path := value] && path in old(contents)
    {
      hide Hash, Bucket;
      ghost var n, chain, t := buckets.Length, buckets[b], contents;
      assert Refines(chain, b, n, t) && ChainOK(chain, b, n);
      buckets[b] := buckets[b][i := Entry(path, value)];
      contents := t[path := value];
      assert contents.Keys == t.Keys;
      ghost var after := buckets[b];
      assert forall k :: 0 <= k < |after| ==> after[k].path == chain[k].path;
      forall c | 0 <= c < n && c != b
        ensures Refines(buckets[c], c, n, contents)
      {
        assert Refines(old(buckets[c]), c, n, t) && ChainOK(old(buckets[c]), c, n);
      }
      OverwriteRefines(chain, after, b, n, t, i, path, value);
    }

    /** A new entry goes to the front of its chain. */
    method Prepend(b: nat, path: string, value: Cached<Node?>)
      requires Valid() && path !in contents && b == Bucket(path, buckets.Length)
      modifies this`contents, this`numEntries, buckets
      ensures Valid() && contents == old(contents)[path := value]
    {
      hide Hash, Bucket;
      ghost var n, chain, t := buckets.Length, buckets[b], contents;
      assert Refines(chain, b, n, t) && ChainOK(chain, b, n);
      buckets[b] := [Entry(path, value)] + buckets[b];
      numEntries := numEntries + 1;
      contents := t[path := value];
      forall c | 0 <= c < n && c != b
        ensures Refines(buckets[c], c, n, contents)
      {
        assert Refines(old(buckets[c]), c, n, t) && ChainOK(old(buckets[c]), c, n);
      }
      PrependRefines(chain, b, n, t, path, value);
    }
  }

  lemma OverwriteRefines(chain: seq<Entry>, after: seq<Entry>, b: nat, n: nat, t: Table<Node?>, i: nat,
      path: string, value: Cached<Node?>)
    requires n > 0 && ChainOK(chain, b, n) && Refines(chain, b, n, t)
    requires i < |chain| && chain[i].path == path && after == chain[i := Entry(path, value)]
    ensures ChainOK(after, b, n) && Refines(after, b, n, t[path := value])
  {
    hide Hash, Bucket;
    assert forall k :: 0 <= k < |after| ==> after[k].path == chain[k].path;
    var u := t[path := value];
    forall p | p in u && Bucket(p, n) == b
      ensures exists k :: 0 <= k < |after| && after[k].path == p
    {
      assert p in t;
      var k :| 0 <= k < |chain| && chain[k].path == p;
      assert after[k].path == p;
    }
  }

  lemma PrependRefines(chain: seq<Entry>, b: nat, n: nat, t: Table<Node?>, path: string, value: Cached<Node?>)
    requires n > 0 && ChainOK(chain, b, n) && Refines(chain, b, n, t) && path !in t && Bucket(path, n) == b
    ensures var after := [Entry(path, value)] + chain; ChainOK(after, b, n) && Refines(after, b, n, t[path := value])
  {
    hide Hash, Bucket;
    var after := [Entry(path, value)] + chain;
    assert forall k :: 1 <= k < |after| ==> after[k] == chain[k - 1];
    var u := t[path := value];
    forall p | p in u && Bucket(p, n) == b
      ensures exists k :: 0 <= k < |after| && after[k].path == p
    {
      if p == path {
        assert after[0].path == p;
      } else {
        var k :| 0 <= k < |chain| && chain[k].path == p;
        assert after[k + 1].path == p;
      }
    }
  }
}
