/**
 * Merging one level's directives into the accumulated list: overrides keep
 * their place, the rest is appended, and a whole walk yields the deepest
 * definition of every key.
 */
module Merge {
  import opened Text
  import opened Directives

  /** Where the first directive that `c` overrides stands. */
  function Overridden(ds: seq<Directive>, c: Directive): (r: Option<nat>)
    ensures r.Some? ==> r.value < |ds| && Matches(ds[r.value], c)
    ensures r.Some? ==> forall j :: 0 <= j < r.value ==> !Matches(ds[j], c)
    ensures r.None? ==> forall j :: 0 <= j < |ds| ==> !Matches(ds[j], c)
  {
    if ds == [] then None
    else if Matches(ds[0], c) then Some(0)
    else
      var r := Overridden(ds[1..], c);
      assert forall j :: 0 < j < |ds| ==> ds[j] == ds[1..][j - 1];
      if r.Some? then Some(r.value + 1) else None
  }

  function PutOne(ds: seq<Directive>, c: Directive): seq<Directive> {
    var i := Overridden(ds, c);
    if i.Some? then ds[i.value := c] else ds + [c]
  }

  function PutAll(ds: seq<Directive>, cs: seq<Directive>): seq<Directive>
    decreases |cs|
  {
    if cs == [] then ds else PutAll(PutOne(ds, cs[0]), cs[1..])
  }

  /** merge_directives: the first level is copied as it is. */
  function Merge(parent: seq<Directive>, child: seq<Directive>): seq<Directive> {
    if parent == [] then child else PutAll(parent, child)
  }

  // ---------------------------------------------------------------- the keyed view

  /** No two entries override each other. */
  predicate Distinct(ds: seq<Directive>) {
    forall i, j :: 0 <= i < j < |ds| ==> KeyOf(ds[i]).None? || KeyOf(ds[i]) != KeyOf(ds[j])
  }

  predicate Defines(ds: seq<Directive>, k: Option<Key>) {
    k.Some? && exists i :: 0 <= i < |ds| && KeyOf(ds[i]) == k
  }

  /** The definition of a key. */
  function Lookup(ds: seq<Directive>, k: Option<Key>): Option<Directive> {
    if ds == [] || k.None? then None else if KeyOf(ds[0]) == k then Some(ds[0]) else Lookup(ds[1..], k)
  }

  /** `d`, or what the child level says instead. */
  function Latest(d: Directive, cs: seq<Directive>): Directive {
    var r := Lookup(cs, KeyOf(d));
    if r.Some? then r.value else d
  }

  function Overlay(ds: seq<Directive>, cs: seq<Directive>): (r: seq<Directive>)
    ensures |r| == |ds| && forall i :: 0 <= i < |ds| ==> r[i] == Latest(ds[i], cs)
  {
    seq(|ds|, i requires 0 <= i < |ds| => Latest(ds[i], cs))
  }

  /** The entries of the child level that override nothing. */
  function Added(ds: seq<Directive>, cs: seq<Directive>): seq<Directive> {
    if cs == [] then []
    else (if Lookup(ds, KeyOf(cs[0])).None? then [cs[0]] else []) + Added(ds, cs[1..])
  }

  lemma {:induction false} LookupIs(ds: seq<Directive>, k: Option<Key>)
    ensures Lookup(ds, k).Some? <==> Defines(ds, k)
    ensures Lookup(ds, k).Some? ==> Lookup(ds, k).value in ds && KeyOf(Lookup(ds, k).value) == k
    decreases |ds|
  {
    hide KeyOf;
    if ds != [] && k.Some? {
      LookupIs(ds[1..], k);
      if Defines(ds[1..], k) {
        var i :| 0 <= i < |ds[1..]| && KeyOf(ds[1..][i]) == k;
        assert ds[i + 1] == ds[1..][i];
      }
      if Defines(ds, k) && KeyOf(ds[0]) != k {
        var i :| 0 <= i < |ds| && KeyOf(ds[i]) == k;
        assert ds[1..][i - 1] == ds[i];
      }
    }
  }

  lemma LookupAt(ds: seq<Directive>, i: nat)
    requires Distinct(ds) && i < |ds| && KeyOf(ds[i]).Some?
    ensures Lookup(ds, KeyOf(ds[i])) == Some(ds[i])
    decreases |ds|
  {
    hide KeyOf;
    LookupIs(ds, KeyOf(ds[i]));
    var r := Lookup(ds, KeyOf(ds[i])).value;
    var j :| 0 <= j < |ds| && ds[j] == r;
    assert i == j;
  }

  lemma {:induction false} LookupAppend(a: seq<Directive>, b: seq<Directive>, k: Option<Key>)
    ensures Lookup(a + b, k) == if Lookup(a, k).Some? then Lookup(a, k) else Lookup(b, k)
    decreases |a|
  {
    hide KeyOf;
    if a == [] {
      assert a + b == b;
    } else {
      assert (a + b)[1..] == a[1..] + b;
      LookupAppend(a[1..], b, k);
    }
  }

  /** Overlaying changes no key. */
  lemma LatestKey(d: Directive, cs: seq<Directive>)
    ensures KeyOf(Latest(d, cs)) == KeyOf(d)
  {
    hide KeyOf;
    LookupIs(cs, KeyOf(d));
  }

  lemma {:induction false} LookupOverlay(ds: seq<Directive>, cs: seq<Directive>, k: Option<Key>)
    ensures Lookup(Overlay(ds, cs), k)
         == if Lookup(ds, k).None? then None else if Lookup(cs, k).Some? then Lookup(cs, k) else Lookup(ds, k)
    decreases |ds|
  {
    hide KeyOf;
    var r := Overlay(ds, cs);
    if ds != [] {
      LatestKey(ds[0], cs);
      assert r[1..] == Overlay(ds[1..], cs);
      LookupOverlay(ds[1..], cs, k);
    }
  }

  lemma {:induction false} LookupAdded(ds: seq<Directive>, cs: seq<Directive>, k: Option<Key>)
    ensures Lookup(Added(ds, cs), k) == if Lookup(ds, k).Some? then None else Lookup(cs, k)
    decreases |cs|
  {
    hide KeyOf;
    if cs != [] {
      LookupAdded(ds, cs[1..], k);
      var first := if Lookup(ds, KeyOf(cs[0])).None? then [cs[0]] else [];
      LookupAppend(first, Added(ds, cs[1..]), k);
    }
  }

  // ------------------------------------------------------- what merging amounts to

  lemma OverriddenIsLookup(ds: seq<Directive>, c: Directive)
    requires Distinct(ds)
    ensures var i := Overridden(ds, c);
            if i.Some? then KeyOf(c).Some? && KeyOf(ds[i.value]) == KeyOf(c)
                && Lookup(ds, KeyOf(c)) == Some(ds[i.value])
            else Lookup(ds, KeyOf(c)).None?
  {
    var i := Overridden(ds, c);
    if i.Some? {
      MatchesIsKey(ds[i.value], c);
      LookupAt(ds, i.value);
    } else {
      LookupIs(ds, KeyOf(c));
      if Lookup(ds, KeyOf(c)).Some? {
        var j :| 0 <= j < |ds| && KeyOf(ds[j]) == KeyOf(c);
        MatchesIsKey(ds[j], c);
      }
    }
  }

  lemma LookupOne(c: Directive, k: Option<Key>)
    ensures Lookup([c], k) == if k.Some? && KeyOf(c) == k then Some(c) else None
  {
    hide KeyOf;
    assert [c][1..] == [];
  }

  lemma PutOneIs(ds: seq<Directive>, c: Directive)
    requires Distinct(ds)
    ensures PutOne(ds, c) == Overlay(ds, [c]) + Added(ds, [c]) && Distinct(PutOne(ds, c))
  {
    hide KeyOf, Matches, Lookup;
    var i := Overridden(ds, c);
    OverriddenIsLookup(ds, c);
    assert [c][1..] == [] && Added(ds, [c]) == if i.Some? then [] else [c];
    forall j | 0 <= j < |ds|
      ensures Latest(ds[j], [c]) == if i.Some? && j == i.value then c else ds[j]
    {
      LookupOne(c, KeyOf(ds[j]));
      LookupIs(ds, KeyOf(c));
    }
    assert Overlay(ds, [c]) == if i.Some? then ds[i.value := c] else ds;
    LookupIs(ds, KeyOf(c));
  }

  /** The list that merging builds: overrides in place, then the new entries in order. */
  function Merged(ds: seq<Directive>, cs: seq<Directive>): seq<Directive> {
    Overlay(ds, cs) + Added(ds, cs)
  }

  lemma {:induction false} PutAllIs(ds: seq<Directive>, cs: seq<Directive>)
    requires Distinct(ds) && Distinct(cs)
    ensures PutAll(ds, cs) == Merged(ds, cs) && Distinct(PutAll(ds, cs))
    decreases |cs|
  {
    hide Distinct;
    if cs == [] {
      assert Overlay(ds, []) == ds;
    } else {
      var c, rest := cs[0], cs[1..];
      PutOneIs(ds, c);
      DistinctTail(cs);
      PutAllIs(PutOne(ds, c), rest);
      MergedStep(ds, c, rest);
      assert cs == [c] + rest;
    }
  }

  lemma DistinctTail(cs: seq<Directive>)
    requires Distinct(cs) && cs != []
    ensures Distinct(cs[1..]) && Lookup(cs[1..], KeyOf(cs[0])).None?
  {
    hide KeyOf;
    LookupIs(cs[1..], KeyOf(cs[0]));
    assert forall j :: 0 <= j < |cs[1..]| ==> cs[1..][j] == cs[j + 1];
  }

  lemma MergedStep(ds: seq<Directive>, c: Directive, rest: seq<Directive>)
    requires Lookup(rest, KeyOf(c)).None?
    ensures Merged(Merged(ds, [c]), rest) == Merged(ds, [c] + rest)
  {
    hide KeyOf;
    var first := Merged(ds, [c]);
    var whole := [c] + rest;
    assert whole[1..] == rest;
    OverlayAppend(Overlay(ds, [c]), Added(ds, [c]), rest);
    OverlayTwice(ds, [c], rest);
    AddedStays(ds, c, rest);
    AddedStep(ds, c, rest);
  }

  lemma AddedStays(ds: seq<Directive>, c: Directive, rest: seq<Directive>)
    requires Lookup(rest, KeyOf(c)).None?
    ensures Overlay(Added(ds, [c]), rest) == Added(ds, [c])
  {
    hide KeyOf, Lookup;
    assert Latest(c, rest) == c && Added(ds, [c][1..]) == [];
  }

  lemma OverlayAppend(a: seq<Directive>, b: seq<Directive>, cs: seq<Directive>)
    ensures Overlay(a + b, cs) == Overlay(a, cs) + Overlay(b, cs)
  {
  }

  /** Two overlays one after the other are one overlay by the merged level. */
  lemma OverlayTwice(ds: seq<Directive>, bs: seq<Directive>, cs: seq<Directive>)
    ensures Overlay(Overlay(ds, bs), cs) == Overlay(ds, Merged(bs, cs))
    ensures forall d :: Latest(Latest(d, bs), cs) == Latest(d, Merged(bs, cs))
    ensures |bs| == 1 && Lookup(cs, KeyOf(bs[0])).None? ==> Overlay(Overlay(ds, bs), cs) == Overlay(ds, bs + cs)
  {
    hide KeyOf;
    forall d
      ensures Latest(Latest(d, bs), cs) == Latest(d, Merged(bs, cs))
      ensures |bs| == 1 && Lookup(cs, KeyOf(bs[0])).None? ==> Latest(Latest(d, bs), cs) == Latest(d, bs + cs)
    {
      var k := KeyOf(d);
      LatestKey(d, bs);
      LookupAppend(Overlay(bs, cs), Added(bs, cs), k);
      LookupOverlay(bs, cs, k);
      LookupAdded(bs, cs, k);
      LookupAppend(bs, cs, k);
      LookupIs(bs, k);
    }
  }

  lemma {:induction false} AddedStep(ds: seq<Directive>, c: Directive, rest: seq<Directive>)
    requires Lookup(rest, KeyOf(c)).None?
    ensures Added(ds, [c]) + Added(Merged(ds, [c]), rest) == Added(ds, [c] + rest)
  {
    hide KeyOf;
    assert ([c] + rest)[1..] == rest;
    AddedSame(Merged(ds, [c]), ds, rest, c);
  }

  lemma {:induction false} AddedSame(wide: seq<Directive>, ds: seq<Directive>, rest: seq<Directive>, c: Directive)
    requires wide == Merged(ds, [c]) && Lookup(rest, KeyOf(c)).None?
    ensures Added(wide, rest) == Added(ds, rest)
    decreases |rest|
  {
    hide KeyOf;
    if rest != [] {
      var k := KeyOf(rest[0]);
      LookupAppend(Overlay(ds, [c]), Added(ds, [c]), k);
      LookupOverlay(ds, [c], k);
      LookupAdded(ds, [c], k);
      AddedSame(wide, ds, rest[1..], c);
    }
  }

  // ------------------------------------------------------------------------- laws

  /** Merging level lists without inner overrides: the shape, and no inner override appears. */
  lemma MergeIs(a: seq<Directive>, b: seq<Directive>)
    requires Distinct(a) && Distinct(b)
    ensures Merge(a, b) == Merged(a, b) && Distinct(Merge(a, b))
  {
    if a == [] {
      AddedToNone(b);
    } else {
      PutAllIs(a, b);
    }
  }

  lemma {:induction false} AddedToNone(b: seq<Directive>)
    ensures Added([], b) == b
    decreases |b|
  {
    hide KeyOf;
    if b != [] {
      AddedToNone(b[1..]);
      assert b == [b[0]] + b[1..];
    }
  }

  lemma {:induction false} AddedAppend(ds: seq<Directive>, a: seq<Directive>, b: seq<Directive>)
    ensures Added(ds, a + b) == Added(ds, a) + Added(ds, b)
    decreases |a|
  {
    hide KeyOf;
    if a == [] {
      assert a + b == b;
    } else {
      assert (a + b)[1..] == a[1..] + b;
      AddedAppend(ds, a[1..], b);
    }
  }

  /** Overlaying what was added is adding what was overlaid. */
  lemma {:induction false} AddedOverlay(a: seq<Directive>, b: seq<Directive>, c: seq<Directive>)
    ensures Overlay(Added(a, b), c) == Added(a, Overlay(b, c))
    decreases |b|
  {
    hide KeyOf;
    if b != [] {
      LatestKey(b[0], c);
      assert Overlay(b, c)[1..] == Overlay(b[1..], c);
      AddedOverlay(a, b[1..], c);
      var first := if Lookup(a, KeyOf(b[0])).None? then [b[0]] else [];
      OverlayAppend(first, Added(a, b[1..]), c);
      assert Overlay(first, c) == if Lookup(a, KeyOf(b[0])).None? then [Overlay(b, c)[0]] else [];
    }
  }

  /** What is new to the merged list is new to both. */
  lemma {:induction false} AddedTwice(a: seq<Directive>, b: seq<Directive>, c: seq<Directive>)
    ensures Added(Merged(a, b), c) == Added(a, Added(b, c))
    decreases |c|
  {
    hide KeyOf;
    if c != [] {
      var k := KeyOf(c[0]);
      LookupAppend(Overlay(a, b), Added(a, b), k);
      LookupOverlay(a, b, k);
      LookupAdded(a, b, k);
      AddedTwice(a, b, c[1..]);
      var first := if Lookup(b, k).None? then [c[0]] else [];
      AddedAppend(a, first, Added(b, c[1..]));
      if Lookup(b, k).None? { assert first[1..] == []; }
    }
  }

  /** Merging is associative, with the empty list as identity. */
  lemma MergeAssociative(a: seq<Directive>, b: seq<Directive>, c: seq<Directive>)
    requires Distinct(a) && Distinct(b) && Distinct(c)
    ensures Merge(Merge(a, b), c) == Merge(a, Merge(b, c))
    ensures Merge(a, []) == a == Merge([], a)
  {
    hide Distinct, Merge;
    MergeIs(a, b);
    MergeIs(b, c);
    MergeIs(Merge(a, b), c);
    MergeIs(a, Merge(b, c));
    OverlayAppend(Overlay(a, b), Added(a, b), c);
    OverlayTwice(a, b, c);
    AddedOverlay(a, b, c);
    AddedTwice(a, b, c);
    AddedAppend(a, Overlay(b, c), Added(b, c));
    MergeNone(a);
  }

  lemma MergeNone(a: seq<Directive>)
    ensures Merge(a, []) == a == Merge([], a)
  {
  }

  /** The accumulated list after all levels, the root first. */
  function Walk(levels: seq<seq<Directive>>): seq<Directive> {
    if levels == [] then [] else Merge(Walk(levels[..|levels| - 1]), levels[|levels| - 1])
  }

  /** The definition of a key at the deepest level that has one. */
  function Deepest(levels: seq<seq<Directive>>, k: Option<Key>): Option<Directive> {
    if levels == [] then None
    else
      var last := Lookup(levels[|levels| - 1], k);
      if last.Some? then last else Deepest(levels[..|levels| - 1], k)
  }

  /** The directives that are never overridden. */
  function Keyless(ds: seq<Directive>): seq<Directive> {
    if ds == [] then [] else (if KeyOf(ds[0]).None? then [ds[0]] else []) + Keyless(ds[1..])
  }

  function AllKeyless(levels: seq<seq<Directive>>): seq<Directive> {
    if levels == [] then [] else AllKeyless(levels[..|levels| - 1]) + Keyless(levels[|levels| - 1])
  }

  lemma {:induction false} KeylessAppend(a: seq<Directive>, b: seq<Directive>)
    ensures Keyless(a + b) == Keyless(a) + Keyless(b)
    decreases |a|
  {
    hide KeyOf;
    if a == [] {
      assert a + b == b;
    } else {
      assert (a + b)[1..] == a[1..] + b;
      KeylessAppend(a[1..], b);
    }
  }

  lemma {:induction false} KeylessOverlay(a: seq<Directive>, b: seq<Directive>)
    ensures Keyless(Overlay(a, b)) == Keyless(a)
    decreases |a|
  {
    hide KeyOf;
    if a != [] {
      LatestKey(a[0], b);
      assert Overlay(a, b)[1..] == Overlay(a[1..], b);
      KeylessOverlay(a[1..], b);
    }
  }

  lemma {:induction false} KeylessAdded(a: seq<Directive>, b: seq<Directive>)
    ensures Keyless(Added(a, b)) == Keyless(b)
    decreases |b|
  {
    hide KeyOf;
    if b != [] {
      KeylessAdded(a, b[1..]);
      var first := if Lookup(a, KeyOf(b[0])).None? then [b[0]] else [];
      KeylessAppend(first, Added(a, b[1..]));
      if first != [] { assert first[1..] == []; }
    }
  }

  /**
   * A walk over any number of levels yields, for every key, its deepest
   * definition, and keeps every accumulating directive of every level in order.
   */
  lemma {:induction false} WalkIsDeepest(levels: seq<seq<Directive>>, k: Option<Key>)
    requires forall i :: 0 <= i < |levels| ==> Distinct(levels[i])
    ensures Distinct(Walk(levels))
    ensures Lookup(Walk(levels), k) == Deepest(levels, k)
    ensures Keyless(Walk(levels)) == AllKeyless(levels)
    decreases |levels|
  {
    hide Merge;
    if levels != [] {
      var before, last := levels[..|levels| - 1], levels[|levels| - 1];
      WalkIsDeepest(before, k);
      var a := Walk(before);
      MergeIs(a, last);
      LookupAppend(Overlay(a, last), Added(a, last), k);
      LookupOverlay(a, last, k);
      LookupAdded(a, last, k);
      KeylessAppend(Overlay(a, last), Added(a, last));
      KeylessOverlay(a, last);
      KeylessAdded(a, last);
    }
  }
}
