/**
 * What a filtered and flattened list contains: nothing that is not permitted,
 * and of everything else exactly what is permitted together with all that is
 * around it, in order and with the same blocks around it.
 */
module OverrideLaws {
  import opened Directives
  import opened Overrides

  /** Every directive at every depth is permitted, rule conditions included. */
  predicate AllPermitted(ds: seq<Directive>, mask: bv8)
    decreases ds
  {
    ds == [] || (PermittedIn(ds[0], mask) && AllPermitted(ds[1..], mask))
  }

  predicate PermittedIn(d: Directive, mask: bv8)
    decreases d
  {
    && Permitted(mask, d.kind)
    && (IsBlock(d.kind) || d.kind.Ifmodule? ==> AllPermitted(d.children, mask))
    && (d.kind.RewriteRule? ==> AllPermitted(d.conditions, mask))
  }

  lemma {:induction false} AllPermittedAppend(a: seq<Directive>, b: seq<Directive>, mask: bv8)
    ensures AllPermitted(a + b, mask) <==> AllPermitted(a, mask) && AllPermitted(b, mask)
    decreases |a|
  {
    hide PermittedIn;
    if a == [] {
      assert a + b == b;
    } else {
      assert (a + b)[1..] == a[1..] + b;
      AllPermittedAppend(a[1..], b, mask);
    }
  }

  lemma {:induction false} CleanIsPermitted(ds: seq<Directive>, mask: bv8)
    requires Clean(ds, mask)
    ensures AllPermitted(ds, mask)
    decreases ds
  {
    hide Permitted;
    if ds != [] {
      if IsBlock(ds[0].kind) || ds[0].kind.Ifmodule? { CleanIsPermitted(ds[0].children, mask); }
      if ds[0].kind.RewriteRule? { CleanIsPermitted(ds[0].conditions, mask); }
      CleanIsPermitted(ds[1..], mask);
    }
  }

  lemma {:induction false} FlattenPermitted(ds: seq<Directive>, mask: bv8)
    requires AllPermitted(ds, mask)
    ensures AllPermitted(Flatten(ds), mask)
    decreases ds
  {
    hide Permitted;
    if ds != [] {
      var d := ds[0];
      if IsBlock(d.kind) || d.kind.Ifmodule? { FlattenPermitted(d.children, mask); }
      FlattenPermitted(ds[1..], mask);
      AllPermittedAppend(FlattenOne(d), Flatten(ds[1..]), mask);
      if !d.kind.Ifmodule? { assert FlattenOne(d)[1..] == []; }
    }
  }

  // ------------------------------------------------------------------ what is left

  /** A directive by itself, with the kinds of the blocks around it, IfModule blocks aside. */
  datatype Item = Item(around: seq<Kind>, header: Directive)

  /** The directives of a list in the order of the text, IfModule and Require blocks themselves left out. */
  function Visible(ds: seq<Directive>, around: seq<Kind>): seq<Item>
    decreases ds
  {
    if ds == [] then [] else VisibleOne(ds[0], around) + Visible(ds[1..], around)
  }

  function VisibleOne(d: Directive, around: seq<Kind>): seq<Item>
    decreases d
  {
    if d.kind.Ifmodule? then Visible(d.children, around)
    else
      (if IsRequire(d.kind) then [] else [Item(around, d.(children := [], conditions := []))])
      + (if IsBlock(d.kind) then Visible(d.children, around + [d.kind]) else [])
  }

  predicate Free(item: Item, mask: bv8) {
    Permitted(mask, item.header.kind) && forall k :: k in item.around ==> Permitted(mask, k)
  }

  /** The items that are permitted with everything around them. */
  function Chosen(items: seq<Item>, mask: bv8): seq<Item> {
    if items == [] then [] else (if Free(items[0], mask) then [items[0]] else []) + Chosen(items[1..], mask)
  }

  lemma {:induction false} ChosenAppend(a: seq<Item>, b: seq<Item>, mask: bv8)
    ensures Chosen(a + b, mask) == Chosen(a, mask) + Chosen(b, mask)
    decreases |a|
  {
    hide Free;
    if a == [] {
      assert a + b == b && [] + Chosen(b, mask) == Chosen(b, mask);
    } else {
      assert (a + b)[1..] == a[1..] + b && (a + b)[0] == a[0];
      ChosenAppend(a[1..], b, mask);
      var first := if Free(a[0], mask) then [a[0]] else [];
      hide Chosen;
      assert first + (Chosen(a[1..], mask) + Chosen(b, mask)) == first + Chosen(a[1..], mask) + Chosen(b, mask);
    }
  }

  lemma {:induction false} VisibleAppend(a: seq<Directive>, b: seq<Directive>, around: seq<Kind>)
    ensures Visible(a + b, around) == Visible(a, around) + Visible(b, around)
    decreases |a|
  {
    hide VisibleOne;
    if a == [] {
      assert a + b == b && [] + Visible(b, around) == Visible(b, around);
    } else {
      assert (a + b)[1..] == a[1..] + b;
      VisibleAppend(a[1..], b, around);
    }
  }

  lemma VisibleSingle(d: Directive, around: seq<Kind>)
    ensures Visible([d], around) == VisibleOne(d, around) && Visible([], around) == []
  {
    hide VisibleOne;
    assert [d][1..] == [];
  }

  /** Flattening moves nothing. */
  lemma {:induction false} FlattenVisible(ds: seq<Directive>, around: seq<Kind>)
    ensures Visible(Flatten(ds), around) == Visible(ds, around)
    decreases ds
  {
    hide FlattenOne, VisibleOne;
    if ds != [] {
      FlattenOneVisible(ds[0], around);
      FlattenVisible(ds[1..], around);
      VisibleAppend(FlattenOne(ds[0]), Flatten(ds[1..]), around);
    }
  }

  lemma {:induction false} FlattenOneVisible(d: Directive, around: seq<Kind>)
    ensures Visible(FlattenOne(d), around) == VisibleOne(d, around)
    decreases d
  {
    hide Flatten, Visible;
    if d.kind.Ifmodule? {
      FlattenVisible(d.children, around);
    } else {
      if IsBlock(d.kind) { FlattenVisible(d.children, around + [d.kind]); }
      var e := FlattenOne(d)[0];
      assert FlattenOne(d) == [e];
      VisibleSingle(e, around);
    }
  }

  predicate AroundFree(around: seq<Kind>, mask: bv8) { forall k :: k in around ==> Permitted(mask, k) }

  /** Beneath a block that is not permitted nothing is chosen. */
  lemma {:induction false} NothingChosen(ds: seq<Directive>, around: seq<Kind>, mask: bv8)
    requires !AroundFree(around, mask)
    ensures Chosen(Visible(ds, around), mask) == []
    decreases ds
  {
    hide Permitted;
    if ds != [] {
      NothingChosenOne(ds[0], around, mask);
      NothingChosen(ds[1..], around, mask);
      hide VisibleOne;
      ChosenAppend(VisibleOne(ds[0], around), Visible(ds[1..], around), mask);
    }
  }

  lemma {:induction false} NothingChosenOne(d: Directive, around: seq<Kind>, mask: bv8)
    requires !AroundFree(around, mask)
    ensures Chosen(VisibleOne(d, around), mask) == []
    decreases d
  {
    hide Permitted, Visible;
    if d.kind.Ifmodule? {
      NothingChosen(d.children, around, mask);
    } else {
      var inner := around + [d.kind];
      assert forall k :: k in around ==> k in inner;
      if IsBlock(d.kind) { NothingChosen(d.children, inner, mask); }
      var own := if IsRequire(d.kind) then [] else [Item(around, d.(children := [], conditions := []))];
      ChosenAppend(own, if IsBlock(d.kind) then Visible(d.children, inner) else [], mask);
      if own != [] { assert own[1..] == []; }
    }
  }

  /** The filter keeps exactly what is permitted with everything around it. */
  lemma {:induction false} FilterVisible(ds: seq<Directive>, around: seq<Kind>, mask: bv8)
    requires AroundFree(around, mask)
    ensures Visible(Filter(ds, mask), around) == Chosen(Visible(ds, around), mask)
    decreases ds
  {
    hide FilterOne, VisibleOne, AroundFree;
    if ds != [] {
      FilterOneVisible(ds[0], around, mask);
      FilterVisible(ds[1..], around, mask);
      VisibleAppend(FilterOne(ds[0], mask), Filter(ds[1..], mask), around);
      ChosenAppend(VisibleOne(ds[0], around), Visible(ds[1..], around), mask);
    }
  }

  lemma {:induction false} FilterOneVisible(d: Directive, around: seq<Kind>, mask: bv8)
    requires AroundFree(around, mask)
    ensures Visible(FilterOne(d, mask), around) == Chosen(VisibleOne(d, around), mask)
    decreases d
  {
    hide Permitted, Filter, Visible;
    VisibleSingle(d, around);
    var inner := around + [d.kind];
    var own := if IsRequire(d.kind) then [] else [Item(around, d.(children := [], conditions := []))];
    var beneath := if IsBlock(d.kind) then Visible(d.children, inner) else [];
    ChosenAppend(own, beneath, mask);
    if own != [] { assert own[1..] == []; }
    if !Permitted(mask, d.kind) {
      ModulesPermitted(mask, d.kind);
      if IsBlock(d.kind) { NothingChosen(d.children, inner, mask); }
    } else if d.kind.Ifmodule? {
      FilterVisible(d.children, around, mask);
      VisibleSingle(d.(children := Filter(d.children, mask)), around);
    } else {
      if IsBlock(d.kind) { FilterVisible(d.children, inner, mask); }
      KeptVisible(d, around, mask);
    }
  }

  /** A permitted directive other than IfModule, as the filter leaves it. */
  lemma KeptVisible(d: Directive, around: seq<Kind>, mask: bv8)
    requires Permitted(mask, d.kind) && !d.kind.Ifmodule?
    ensures Visible(FilterOne(d, mask), around)
         == (if IsRequire(d.kind) then [] else [Item(around, d.(children := [], conditions := []))])
            + (if IsBlock(d.kind) then Visible(Filter(d.children, mask), around + [d.kind]) else [])
  {
    hide Permitted, Filter;
    VisibleSingle(d, around + [d.kind]);
    hide Visible;
    if FilterOne(d, mask) == [] {
      VisibleSingle(d, around);
    } else {
      var e := FilterOne(d, mask)[0];
      assert FilterOne(d, mask) == [e];
      VisibleSingle(e, around);
    }
  }

  lemma ModulesPermitted(mask: bv8, kind: Kind)
    ensures kind.Ifmodule? ==> Permitted(mask, kind)
  {
  }

  lemma {:induction false} EverythingPermitted(ds: seq<Directive>)
    ensures AllPermitted(ds, ALL)
    decreases ds
  {
    if ds != [] {
      AllPermits();
      hide Permitted;
      if IsBlock(ds[0].kind) || ds[0].kind.Ifmodule? { EverythingPermitted(ds[0].children); }
      if ds[0].kind.RewriteRule? { EverythingPermitted(ds[0].conditions); }
      EverythingPermitted(ds[1..]);
    }
  }

  /** Nothing is filtered by the mask of all categories. */
  lemma {:induction false} AllKeepsAll(ds: seq<Directive>)
    ensures Chosen(Visible(ds, []), ALL) == Visible(ds, [])
  {
    EverythingFree(Visible(ds, []));
  }

  lemma {:induction false} EverythingFree(items: seq<Item>)
    ensures Chosen(items, ALL) == items
    decreases |items|
  {
    if items != [] {
      assert forall k :: Permitted(ALL, k) by { AllPermits(); }
      hide Permitted;
      EverythingFree(items[1..]);
      assert items == [items[0]] + items[1..];
    }
  }

  lemma AllPermits()
    ensures forall k :: Permitted(ALL, k)
  {
    hide Category;
    forall k
      ensures Permitted(ALL, k)
    {
      var c := Category(k);
      assert 0xFF & c == c;
    }
  }

  /** The conditions of a permitted rule stay with it. */
  lemma {:induction false} ConditionsStay(cs: seq<Directive>, mask: bv8)
    requires Permitted(mask, RewriteRule) && forall c :: c in cs ==> c.kind.RewriteCond?
    ensures Filter(cs, mask) == cs
    decreases cs
  {
    if cs != [] {
      assert Permitted(mask, cs[0].kind);
      hide Permitted;
      ConditionsStay(cs[1..], mask);
      assert FilterOne(cs[0], mask) == [cs[0]];
      hide FilterOne;
      assert cs == [cs[0]] + cs[1..];
    }
  }
}
