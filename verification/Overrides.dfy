/**
 * What happens to the merged list at the end of a walk: the AllowOverride
 * filter and the flattening of IfModule blocks, and the laws between them.
 */
module Overrides {
  import opened Text
  import opened Directives

  /** filter_by_allow_override; an emptied Require block goes too. */
  function Filter(ds: seq<Directive>, mask: bv8): seq<Directive>
    decreases ds
  {
    if ds == [] then [] else FilterOne(ds[0], mask) + Filter(ds[1..], mask)
  }

  function FilterOne(d: Directive, mask: bv8): seq<Directive>
    decreases d
  {
    if !Permitted(mask, d.kind) then []
    else if IsRequire(d.kind) then
      var kids := Filter(d.children, mask);
      if kids == [] then [] else [d.(children := kids)]
    else if IsBlock(d.kind) || d.kind.Ifmodule? then [d.(children := Filter(d.children, mask))]
    else if d.kind.RewriteRule? then [d.(conditions := Filter(d.conditions, mask))]
    else [d]
  }

  /** flatten_ifmodule: an IfModule is replaced by its children. */
  function Flatten(ds: seq<Directive>): seq<Directive>
    decreases ds
  {
    if ds == [] then [] else FlattenOne(ds[0]) + Flatten(ds[1..])
  }

  function FlattenOne(d: Directive): seq<Directive>
    decreases d
  {
    if d.kind.Ifmodule? then Flatten(d.children)
    else if IsBlock(d.kind) then [d.(children := Flatten(d.children))]
    else [d]
  }

  // ---------------------------------------------------------------- distribution

  lemma {:induction false} FilterAppend(a: seq<Directive>, b: seq<Directive>, mask: bv8)
    ensures Filter(a + b, mask) == Filter(a, mask) + Filter(b, mask)
    decreases |a|
  {
    hide FilterOne;
    if a == [] {
      assert a + b == b;
    } else {
      assert (a + b)[1..] == a[1..] + b;
      FilterAppend(a[1..], b, mask);
    }
  }

  lemma {:induction false} FlattenAppend(a: seq<Directive>, b: seq<Directive>)
    ensures Flatten(a + b) == Flatten(a) + Flatten(b)
    decreases |a|
  {
    hide FlattenOne;
    if a == [] {
      assert a + b == b;
    } else {
      assert (a + b)[1..] == a[1..] + b;
      FlattenAppend(a[1..], b);
    }
  }

  lemma FilterSingle(d: Directive, mask: bv8)
    ensures Filter([d], mask) == FilterOne(d, mask)
  {
    hide FilterOne;
    assert [d][1..] == [];
  }

  lemma FlattenSingle(d: Directive)
    ensures Flatten([d]) == FlattenOne(d)
  {
    hide FlattenOne;
    assert [d][1..] == [];
  }

  // --------------------------------------------------------------- filtering twice

  lemma PermittedBoth(a: bv8, b: bv8, kind: Kind)
    ensures Permitted(a & b, kind) <==> Permitted(a, kind) && Permitted(b, kind)
  {
    var c := Category(kind);
    hide Category;
    assert (a & b) & c == c <==> a & c == c && b & c == c;
  }

  /** Filtering with one mask after another is filtering once with both, at every depth. */
  lemma {:induction false} FilterTwice(ds: seq<Directive>, a: bv8, b: bv8)
    ensures Filter(Filter(ds, b), a) == Filter(ds, a & b)
    decreases ds
  {
    hide FilterOne;
    if ds != [] {
      FilterOneTwice(ds[0], a, b);
      FilterTwice(ds[1..], a, b);
      FilterAppend(FilterOne(ds[0], b), Filter(ds[1..], b), a);
    }
  }

  lemma {:induction false} FilterOneTwice(d: Directive, a: bv8, b: bv8)
    ensures Filter(FilterOne(d, b), a) == FilterOne(d, a & b)
    decreases d
  {
    hide Permitted, Filter;
    PermittedBoth(a, b, d.kind);
    FilterTwice(d.children, a, b);
    FilterTwice(d.conditions, a, b);
    FilterNone(a);
    if FilterOne(d, b) != [] {
      var e := FilterOne(d, b)[0];
      assert FilterOne(d, b) == [e];
      FilterSingle(e, a);
    }
  }

  lemma FilterNone(mask: bv8)
    ensures Filter([], mask) == []
  {
  }

  // ------------------------------------------------------------- what filtering keeps

  /** Every directive at every depth is permitted, and no Require block is empty. */
  predicate Clean(ds: seq<Directive>, mask: bv8)
    decreases ds
  {
    ds == [] || (CleanOne(ds[0], mask) && Clean(ds[1..], mask))
  }

  predicate CleanOne(d: Directive, mask: bv8)
    decreases d
  {
    && Permitted(mask, d.kind)
    && (IsBlock(d.kind) || d.kind.Ifmodule? ==> Clean(d.children, mask))
    && (IsRequire(d.kind) ==> d.children != [])
    && (d.kind.RewriteRule? ==> Clean(d.conditions, mask))
  }

  lemma {:induction false} CleanAppend(a: seq<Directive>, b: seq<Directive>, mask: bv8)
    ensures Clean(a + b, mask) <==> Clean(a, mask) && Clean(b, mask)
    decreases |a|
  {
    hide CleanOne;
    if a == [] {
      assert a + b == b;
    } else {
      assert (a + b)[1..] == a[1..] + b;
      CleanAppend(a[1..], b, mask);
    }
  }

  /** Only permitted directives are left, no Require block is left empty, and a clean list is not touched. */
  lemma {:induction false} FilterCleans(ds: seq<Directive>, mask: bv8)
    ensures Clean(Filter(ds, mask), mask)
    ensures Filter(ds, mask) == ds <==> Clean(ds, mask)
    ensures |Filter(ds, mask)| <= |ds|
    decreases ds
  {
    hide FilterOne, CleanOne;
    if ds != [] {
      FilterOneCleans(ds[0], mask);
      FilterCleans(ds[1..], mask);
      CleanAppend(FilterOne(ds[0], mask), Filter(ds[1..], mask), mask);
      assert ds == [ds[0]] + ds[1..];
    }
  }

  lemma {:induction false} FilterOneCleans(d: Directive, mask: bv8)
    ensures Clean(FilterOne(d, mask), mask)
    ensures FilterOne(d, mask) == [d] <==> CleanOne(d, mask)
    ensures |FilterOne(d, mask)| <= 1
    decreases d
  {
    hide Permitted, Filter;
    FilterCleans(d.children, mask);
    FilterCleans(d.conditions, mask);
    if FilterOne(d, mask) != [] {
      var e := FilterOne(d, mask)[0];
      assert FilterOne(d, mask) == [e] && [e][1..] == [];
    }
  }

  // -------------------------------------------------------------------- flattening

  predicate NoModule(ds: seq<Directive>)
    decreases ds
  {
    ds == [] || (NoModuleIn(ds[0]) && NoModule(ds[1..]))
  }

  predicate NoModuleIn(d: Directive)
    decreases d
  {
    !d.kind.Ifmodule? && (IsBlock(d.kind) ==> NoModule(d.children))
  }

  /** A directive without its children, and how many blocks other than IfModule are around it. */
  datatype Entry = Entry(depth: nat, header: Directive)

  /** The directives other than IfModule in the order of the text, each with its depth. */
  function Outline(ds: seq<Directive>, depth: nat): seq<Entry>
    decreases ds
  {
    if ds == [] then [] else OutlineOne(ds[0], depth) + Outline(ds[1..], depth)
  }

  function OutlineOne(d: Directive, depth: nat): seq<Entry>
    decreases d
  {
    if d.kind.Ifmodule? then Outline(d.children, depth)
    else if IsBlock(d.kind) then [Entry(depth, d.(children := []))] + Outline(d.children, depth + 1)
    else [Entry(depth, d)]
  }

  lemma {:induction false} NoModuleAppend(a: seq<Directive>, b: seq<Directive>)
    ensures NoModule(a + b) <==> NoModule(a) && NoModule(b)
    decreases |a|
  {
    hide NoModuleIn;
    if a == [] {
      assert a + b == b;
    } else {
      assert (a + b)[1..] == a[1..] + b;
      NoModuleAppend(a[1..], b);
    }
  }

  lemma {:induction false} OutlineAppend(a: seq<Directive>, b: seq<Directive>, depth: nat)
    ensures Outline(a + b, depth) == Outline(a, depth) + Outline(b, depth)
    decreases |a|
  {
    hide OutlineOne;
    if a == [] {
      assert a + b == b;
    } else {
      assert (a + b)[1..] == a[1..] + b;
      OutlineAppend(a[1..], b, depth);
    }
  }

  /** No IfModule is left anywhere; order and nesting of everything else stay; a flat list is not touched. */
  lemma {:induction false} FlattenKeeps(ds: seq<Directive>, depth: nat)
    ensures NoModule(Flatten(ds)) && Outline(Flatten(ds), depth) == Outline(ds, depth)
    ensures NoModule(ds) ==> Flatten(ds) == ds
    decreases ds
  {
    hide FlattenOne, OutlineOne, NoModuleIn;
    if ds != [] {
      FlattenOneKeeps(ds[0], depth);
      FlattenKeeps(ds[1..], depth);
      NoModuleAppend(FlattenOne(ds[0]), Flatten(ds[1..]));
      OutlineAppend(FlattenOne(ds[0]), Flatten(ds[1..]), depth);
      assert ds == [ds[0]] + ds[1..];
    }
  }

  lemma {:induction false} FlattenOneKeeps(d: Directive, depth: nat)
    ensures NoModule(FlattenOne(d)) && Outline(FlattenOne(d), depth) == OutlineOne(d, depth)
    ensures NoModuleIn(d) ==> FlattenOne(d) == [d]
    decreases d
  {
    hide Flatten;
    FlattenKeeps(d.children, depth);
    FlattenKeeps(d.children, depth + 1);
    if !d.kind.Ifmodule? {
      var e := FlattenOne(d)[0];
      assert FlattenOne(d) == [e] && [e][1..] == [];
      hide Outline;
      OutlineSingle(e, depth);
      assert e.(children := []) == d.(children := []) || e == d;
    }
  }

  lemma OutlineSingle(d: Directive, depth: nat)
    ensures Outline([d], depth) == OutlineOne(d, depth)
  {
    hide OutlineOne;
    assert [d][1..] == [];
  }

  /** Both passes can be repeated without effect. */
  lemma Idempotent(ds: seq<Directive>, mask: bv8)
    ensures Filter(Filter(ds, mask), mask) == Filter(ds, mask)
    ensures Flatten(Flatten(ds)) == Flatten(ds)
  {
    FilterTwice(ds, mask, mask);
    assert mask & mask == mask;
    FlattenKeeps(ds, 0);
    FlattenKeeps(Flatten(ds), 0);
  }

  // --------------------------------------------------------------- the two together

  /** No Require block outside rule conditions is empty. */
  predicate NoHollow(ds: seq<Directive>)
    decreases ds
  {
    ds == [] || (NoHollowIn(ds[0]) && NoHollow(ds[1..]))
  }

  predicate NoHollowIn(d: Directive)
    decreases d
  {
    (IsBlock(d.kind) ==> NoHollow(d.children)) && (IsRequire(d.kind) ==> d.children != [])
  }

  lemma {:induction false} NoHollowAppend(a: seq<Directive>, b: seq<Directive>)
    ensures NoHollow(a + b) <==> NoHollow(a) && NoHollow(b)
    decreases |a|
  {
    hide NoHollowIn;
    if a == [] {
      assert a + b == b;
    } else {
      assert (a + b)[1..] == a[1..] + b;
      NoHollowAppend(a[1..], b);
    }
  }

  lemma {:induction false} CleanIsNotHollow(ds: seq<Directive>, mask: bv8)
    requires Clean(ds, mask)
    ensures NoHollow(ds)
    decreases ds
  {
    hide Permitted;
    if ds != [] {
      if IsBlock(ds[0].kind) { CleanIsNotHollow(ds[0].children, mask); }
      CleanIsNotHollow(ds[1..], mask);
    }
  }

  lemma {:induction false} Commutes(ds: seq<Directive>, mask: bv8)
    requires NoHollow(Flatten(Filter(ds, mask)))
    ensures Flatten(Filter(ds, mask)) == Filter(Flatten(ds), mask)
    decreases ds
  {
    hide FilterOne, FlattenOne, NoHollowIn;
    if ds != [] {
      FlattenAppend(FilterOne(ds[0], mask), Filter(ds[1..], mask));
      NoHollowAppend(Flatten(FilterOne(ds[0], mask)), Flatten(Filter(ds[1..], mask)));
      CommutesOne(ds[0], mask);
      Commutes(ds[1..], mask);
      FilterAppend(FlattenOne(ds[0]), Flatten(ds[1..]), mask);
    }
  }

  lemma {:induction false} CommutesOne(d: Directive, mask: bv8)
    requires NoHollow(Flatten(FilterOne(d, mask)))
    ensures Flatten(FilterOne(d, mask)) == Filter(FlattenOne(d), mask)
    decreases d
  {
    hide Filter, Flatten, NoHollow;
    var kids := Filter(d.children, mask);
    FlattenNone();
    FilterSingle(d, mask);
    if !Permitted(mask, d.kind) {
      BlockedStays(d, mask);
    } else if d.kind.Ifmodule? {
      FlattenSingle(d.(children := kids));
      Commutes(d.children, mask);
    } else if IsBlock(d.kind) {
      var e := d.(children := kids);
      FlattenSingle(e);
      FilterSingle(d.(children := Flatten(d.children)), mask);
      var f := e.(children := Flatten(kids));
      HollowSingle(f);
      if IsRequire(d.kind) && kids == [] { HollowNone(); }
      Commutes(d.children, mask);
    } else if d.kind.RewriteRule? {
      FlattenSingle(d.(conditions := Filter(d.conditions, mask)));
    } else {
      FlattenSingle(d);
    }
  }

  lemma FlattenNone()
    ensures Flatten([]) == []
  {
  }

  lemma HollowNone()
    ensures NoHollow([])
  {
  }

  lemma HollowSingle(d: Directive)
    ensures NoHollow([d]) <==> NoHollowIn(d)
  {
    assert [d][1..] == [];
  }

  /** IfModule blocks are always permitted, so a blocked directive stays one directive when flattened. */
  lemma BlockedStays(d: Directive, mask: bv8)
    requires !Permitted(mask, d.kind)
    ensures Filter(FlattenOne(d), mask) == []
  {
    hide Filter;
    assert !d.kind.Ifmodule?;
    FilterSingle(FlattenOne(d)[0], mask);
  }

  /** Whether something of the list is left by the filter. */
  predicate Survives(ds: seq<Directive>, mask: bv8)
    decreases ds
  {
    ds != [] && (SurvivesOne(ds[0], mask) || Survives(ds[1..], mask))
  }

  predicate SurvivesOne(d: Directive, mask: bv8)
    decreases d
  {
    Permitted(mask, d.kind) && (IsRequire(d.kind) ==> Survives(d.children, mask))
  }

  /** Whether something other than IfModule blocks is left by the filter. */
  predicate Shows(ds: seq<Directive>, mask: bv8)
    decreases ds
  {
    ds != [] && (ShowsOne(ds[0], mask) || Shows(ds[1..], mask))
  }

  predicate ShowsOne(d: Directive, mask: bv8)
    decreases d
  {
    SurvivesOne(d, mask) && (d.kind.Ifmodule? ==> Shows(d.children, mask))
  }

  /** Every Require block that survives has something other than empty IfModule blocks to survive for. */
  predicate Solid(ds: seq<Directive>, mask: bv8)
    decreases ds
  {
    ds == [] || (SolidOne(ds[0], mask) && Solid(ds[1..], mask))
  }

  predicate SolidOne(d: Directive, mask: bv8)
    decreases d
  {
    SurvivesOne(d, mask) ==>
      && (IsBlock(d.kind) || d.kind.Ifmodule? ==> Solid(d.children, mask))
      && (IsRequire(d.kind) ==> Shows(d.children, mask))
  }

  lemma {:induction false} SurvivesExactly(ds: seq<Directive>, mask: bv8)
    ensures Survives(ds, mask) <==> Filter(ds, mask) != []
    decreases ds
  {
    hide Permitted;
    if ds != [] {
      SurvivesExactly(ds[0].children, mask);
      SurvivesExactly(ds[1..], mask);
    }
  }

  lemma SurvivesOneExactly(d: Directive, mask: bv8)
    ensures SurvivesOne(d, mask) <==> FilterOne(d, mask) != []
    ensures |FilterOne(d, mask)| <= 1
  {
    hide Permitted, Filter;
    SurvivesExactly(d.children, mask);
  }

  lemma {:induction false} ShowsExactly(ds: seq<Directive>, mask: bv8)
    ensures Shows(ds, mask) <==> Flatten(Filter(ds, mask)) != []
    decreases ds
  {
    hide FilterOne, FlattenOne, ShowsOne;
    if ds != [] {
      FlattenAppend(FilterOne(ds[0], mask), Filter(ds[1..], mask));
      ShowsOneExactly(ds[0], mask);
      ShowsExactly(ds[1..], mask);
    }
  }

  lemma {:induction false} ShowsOneExactly(d: Directive, mask: bv8)
    ensures ShowsOne(d, mask) <==> Flatten(FilterOne(d, mask)) != []
    decreases d
  {
    SurvivesOneExactly(d, mask);
    hide Filter, Flatten, Permitted, SurvivesOne, Shows;
    FlattenNone();
    ShowsExactly(d.children, mask);
    if FilterOne(d, mask) != [] {
      var e := FilterOne(d, mask)[0];
      assert FilterOne(d, mask) == [e];
      FlattenSingle(e);
    }
  }

  lemma {:induction false} SolidExactly(ds: seq<Directive>, mask: bv8)
    ensures Solid(ds, mask) <==> NoHollow(Flatten(Filter(ds, mask)))
    decreases ds
  {
    hide FilterOne, FlattenOne, SolidOne, NoHollowIn;
    if ds != [] {
      FlattenAppend(FilterOne(ds[0], mask), Filter(ds[1..], mask));
      NoHollowAppend(Flatten(FilterOne(ds[0], mask)), Flatten(Filter(ds[1..], mask)));
      SolidOneExactly(ds[0], mask);
      SolidExactly(ds[1..], mask);
    }
  }

  lemma {:induction false} SolidOneExactly(d: Directive, mask: bv8)
    ensures SolidOne(d, mask) <==> NoHollow(Flatten(FilterOne(d, mask)))
    decreases d
  {
    SurvivesOneExactly(d, mask);
    hide Filter, Flatten, NoHollow, Permitted, SurvivesOne, Shows, Solid;
    FlattenNone();
    HollowNone();
    ShowsExactly(d.children, mask);
    if FilterOne(d, mask) != [] {
      var e := FilterOne(d, mask)[0];
      assert FilterOne(d, mask) == [e];
      FlattenSingle(e);
      if !d.kind.Ifmodule? { HollowSingle(FlattenOne(e)[0]); }
      if IsBlock(d.kind) || d.kind.Ifmodule? { SolidExactly(d.children, mask); }
    }
  }

  /**
   * Filtering before and after flattening agree exactly on solid lists: the
   * filter drops a Require block that it empties, and does not look again
   * after flattening has emptied one.
   */
  lemma FilterFlattenExact(ds: seq<Directive>, mask: bv8)
    ensures Flatten(Filter(ds, mask)) == Filter(Flatten(ds), mask) <==> Solid(ds, mask)
  {
    hide Filter, Flatten, Solid, NoHollow, Clean;
    SolidExactly(ds, mask);
    FilterCleans(Flatten(ds), mask);
    CleanIsNotHollow(Filter(Flatten(ds), mask), mask);
    if Solid(ds, mask) { Commutes(ds, mask); }
  }

  /** No IfModule anywhere beneath a Require block. */
  predicate RequireFlat(ds: seq<Directive>)
    decreases ds
  {
    ds == [] || (RequireFlatIn(ds[0]) && RequireFlat(ds[1..]))
  }

  predicate RequireFlatIn(d: Directive)
    decreases d
  {
    if IsRequire(d.kind) then NoModule(d.children)
    else if IsBlock(d.kind) || d.kind.Ifmodule? then RequireFlat(d.children)
    else true
  }

  lemma {:induction false} NoModuleSolid(ds: seq<Directive>, mask: bv8)
    requires NoModule(ds)
    ensures Solid(ds, mask) && (Survives(ds, mask) ==> Shows(ds, mask))
    decreases ds
  {
    hide Permitted;
    if ds != [] {
      if IsBlock(ds[0].kind) { NoModuleSolid(ds[0].children, mask); }
      NoModuleSolid(ds[1..], mask);
    }
  }

  lemma {:induction false} RequireFlatSolid(ds: seq<Directive>, mask: bv8)
    requires RequireFlat(ds)
    ensures Solid(ds, mask)
    decreases ds
  {
    hide Permitted, NoModule;
    if ds != [] {
      if IsRequire(ds[0].kind) {
        NoModuleSolid(ds[0].children, mask);
      } else if IsBlock(ds[0].kind) || ds[0].kind.Ifmodule? {
        RequireFlatSolid(ds[0].children, mask);
      }
      RequireFlatSolid(ds[1..], mask);
    }
  }

  /** The two passes commute under every mask where no IfModule stands beneath a Require block. */
  lemma FilterFlattenCommute(ds: seq<Directive>, mask: bv8)
    requires RequireFlat(ds)
    ensures Flatten(Filter(ds, mask)) == Filter(Flatten(ds), mask)
  {
    hide Filter, Flatten, RequireFlat, Solid;
    RequireFlatSolid(ds, mask);
    FilterFlattenExact(ds, mask);
  }

  /** A Require block around an empty IfModule: filtered first it is kept, flattened first it goes. */
  lemma OrderMatters()
    ensures var inner := Directive(Ifmodule, Some("m"), None, 0, None, None, "", [], []);
            var outer := Directive(RequireAllOpen, None, None, 0, None, None, "", [inner], []);
            && Flatten(Filter([outer], AUTH)) == [outer.(children := [])]
            && Filter(Flatten([outer]), AUTH) == []
  {
    hide Filter, Flatten;
    var inner := Directive(Ifmodule, Some("m"), None, 0, None, None, "", [], []);
    var outer := Directive(RequireAllOpen, None, None, 0, None, None, "", [inner], []);
    FilterNone(AUTH);
    FlattenNone();
    FilterSingle(inner, AUTH);
    FilterSingle(outer, AUTH);
    assert inner.(children := []) == inner;
    FlattenSingle(inner);
    FlattenSingle(outer);
    FilterSingle(outer.(children := []), AUTH);
  }

  // ------------------------------------------------------------ one directive at a time

  lemma {:induction false} FilterSnoc(ds: seq<Directive>, i: nat, mask: bv8)
    requires i < |ds|
    ensures Filter(ds[..i + 1], mask) == Filter(ds[..i], mask) + FilterOne(ds[i], mask)
  {
    hide FilterOne, Filter;
    assert ds[..i + 1] == ds[..i] + [ds[i]];
    FilterAppend(ds[..i], [ds[i]], mask);
    FilterSingle(ds[i], mask);
  }

  lemma {:induction false} FlattenSnoc(ds: seq<Directive>, i: nat)
    requires i < |ds|
    ensures Flatten(ds[..i + 1]) == Flatten(ds[..i]) + FlattenOne(ds[i])
  {
    hide FlattenOne, Flatten;
    assert ds[..i + 1] == ds[..i] + [ds[i]];
    FlattenAppend(ds[..i], [ds[i]]);
    FlattenSingle(ds[i]);
  }
}
