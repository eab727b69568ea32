/**
 * The two passes over the merged list as the walker does them: nodes taken off
 * one list and hung behind another, children relinked beneath them, and what is
 * dropped freed.
 */
module OverrideList {
  import opened Directives
  import opened Overrides
  import opened Nodes

  // ------------------------------------------------------------------- the filter

  /**
   * filter_by_allow_override. The nodes of the list become the nodes of the
   * result or are freed, each of them one of the two.
   */
  method FilterByAllowOverride(head: Node?, mask: bv8, ghost fs: seq<Shape>)
    returns (result: Node?, ghost rs: seq<Shape>, ghost gone: set<Node>)
    requires Linked(head, fs, null)
    modifies Feet(fs)
    ensures Linked(result, rs, null) && Trees(rs) == Filter(Trees(fs), mask)
    ensures Feet(rs) + gone == Feet(fs) && Feet(rs) !! gone
    decreases fs, 1
  {
    hide Linked, Feet, FeetOne, Owns, Tree, Trees, Filter, FilterOne, Last;
    result, rs, gone := null, [], {};
    NoNodes(null);
    FilterNone(mask);
    LastIn([]);
    var tail: Node? := null;
    var cur := head;
    ghost var i := 0;
    assert fs[0..] == fs;
    while cur != null
      invariant i <= |fs| && Linked(cur, fs[i..], null) && Linked(result, rs, null) && tail == Last(rs)
      invariant Feet(rs) !! Feet(fs[i..]) && gone !! Feet(rs) + Feet(fs[i..])
      invariant Feet(rs) + gone + Feet(fs[i..]) == Feet(fs)
      invariant Trees(rs) == Filter(Trees(fs)[..i], mask)
      decreases |fs| - i
    {
      FirstOf(cur, fs, i);
      FilterSnoc(Trees(fs), i, mask);
      LastIn(rs);
      assert allocated(Feet(rs)) && allocated(Feet(fs[i + 1..]));
      var next := cur.next;
      CutOff(cur, fs[i]);
      var keep, g, freed := FilterNode(cur, mask, fs[i]);
      gone := gone + freed;
      if keep {
        var front := AppendOne(result, tail, cur, rs, g);
        LastOf(rs, g);
        result, tail, rs := front, cur, rs + [g];
      }
      cur := next;
      i := i + 1;
    }
    LinkedParts(cur, fs[i..], null);
    assert Trees(fs)[..i] == Trees(fs);
  }

  /** One directive, taken off its list. */
  method FilterNode(cur: Node, mask: bv8, ghost f: Shape) returns (keep: bool, ghost g: Shape, ghost gone: set<Node>)
    requires Owns(f) && cur == f.node && cur.next == null
    modifies FeetOne(f)
    ensures (if keep then [Tree(g)] else []) == FilterOne(Tree(f), mask)
    ensures keep ==> Owns(g) && g.node == cur && cur.next == null
    ensures keep ==> FeetOne(g) + gone == FeetOne(f) && FeetOne(g) !! gone
    ensures !keep ==> gone == FeetOne(f)
    decreases f, 2
  {
    hide Linked, Feet, FeetOne, Owns, Tree, Trees, Filter, FilterOne, Category, HasChildren;
    FilterSimple(f, mask);
    g, gone, keep := f, {}, true;
    var cat := Category(cur.fields.kind);
    if cat != ALL && mask & cat != cat {
      LinkedSingle(cur, f, null);
      gone := DirectivesFree(cur, [f]);
      keep := false;
    } else if HasChildren(cur.fields.kind) {
      keep, g, gone := FilterContainer(cur, mask, f);
    } else if cur.fields.kind.RewriteRule? {
      g, gone := FilterRule(cur, mask, f);
    }
  }

  lemma FilterSimple(f: Shape, mask: bv8)
    ensures !Permitted(mask, f.node.fields.kind) ==> FilterOne(Tree(f), mask) == []
    ensures Permitted(mask, f.node.fields.kind) && !HasChildren(f.node.fields.kind) && !f.node.fields.kind.RewriteRule?
        ==> FilterOne(Tree(f), mask) == [Tree(f)]
  {
    hide Permitted, Filter, Trees;
  }

  /** A permitted container: its children are filtered, and a Require block that they leave empty goes too. */
  method FilterContainer(cur: Node, mask: bv8, ghost f: Shape)
    returns (keep: bool, ghost g: Shape, ghost gone: set<Node>)
    requires Owns(f) && cur == f.node && cur.next == null
    requires HasChildren(cur.fields.kind) && Permitted(mask, cur.fields.kind)
    modifies FeetOne(f)
    ensures (if keep then [Tree(g)] else []) == FilterOne(Tree(f), mask)
    ensures keep ==> Owns(g) && g.node == cur && cur.next == null
    ensures keep ==> FeetOne(g) + gone == FeetOne(f) && FeetOne(g) !! gone
    ensures !keep ==> gone == FeetOne(f)
    decreases f, 1
  {
    hide Linked, Feet, FeetOne, Owns, Tree, Trees, Filter, Permitted;
    OwnsParts(f);
    assert allocated(Feet(f.conds));
    var children, kids, lost := FilterByAllowOverride(cur.children, mask, f.kids);
    cur.children := children;
    gone, keep := lost, true;
    g := Shape(cur, kids, f.conds);
    OwnsParts(g);
    LinkedParts(children, kids, null);
    if IsRequire(cur.fields.kind) && children == null {
      LinkedSingle(cur, g, null);
      ghost var rest := DirectivesFree(cur, [g]);
      gone := gone + rest;
      keep := false;
    }
  }

  /** A permitted rule: its conditions are filtered. */
  method FilterRule(cur: Node, mask: bv8, ghost f: Shape) returns (ghost g: Shape, ghost gone: set<Node>)
    requires Owns(f) && cur == f.node && cur.next == null
    requires cur.fields.kind.RewriteRule? && Permitted(mask, cur.fields.kind)
    modifies FeetOne(f)
    ensures [Tree(g)] == FilterOne(Tree(f), mask)
    ensures Owns(g) && g.node == cur && cur.next == null && FeetOne(g) + gone == FeetOne(f) && FeetOne(g) !! gone
    decreases f, 1
  {
    hide Linked, Feet, FeetOne, Owns, Tree, Trees, Filter, Permitted;
    OwnsParts(f);
    assert allocated(Feet(f.kids));
    var conditions, conds, lost := FilterByAllowOverride(cur.conditions, mask, f.conds);
    cur.conditions := conditions;
    gone := lost;
    g := Shape(cur, f.kids, conds);
    OwnsParts(g);
  }

  // -------------------------------------------------------------------- flattening

  /**
   * flatten_ifmodule. The nodes of the list other than IfModule blocks become the
   * nodes of the result, those of IfModule blocks are freed.
   */
  method FlattenIfmodule(head: Node?, ghost fs: seq<Shape>)
    returns (flat: Node?, ghost rs: seq<Shape>, ghost gone: set<Node>)
    requires Linked(head, fs, null)
    modifies Feet(fs)
    ensures Linked(flat, rs, null) && Trees(rs) == Flatten(Trees(fs))
    ensures Feet(rs) + gone == Feet(fs) && Feet(rs) !! gone
    decreases fs, 1
  {
    hide Linked, Feet, FeetOne, Owns, Tree, Trees, Flatten, FlattenOne, Last;
    flat, rs, gone := null, [], {};
    NoNodes(null);
    FlattenNone();
    LastIn([]);
    var tail: Node? := null;
    var cur := head;
    ghost var i := 0;
    assert fs[0..] == fs;
    while cur != null
      invariant i <= |fs| && Linked(cur, fs[i..], null) && Linked(flat, rs, null) && tail == Last(rs)
      invariant Feet(rs) !! Feet(fs[i..]) && gone !! Feet(rs) + Feet(fs[i..])
      invariant Feet(rs) + gone + Feet(fs[i..]) == Feet(fs)
      invariant Trees(rs) == Flatten(Trees(fs)[..i])
      decreases |fs| - i
    {
      FirstOf(cur, fs, i);
      FlattenSnoc(Trees(fs), i);
      assert allocated(Feet(fs[i + 1..]));
      var next := cur.next;
      ghost var freed;
      if cur.fields.kind.Ifmodule? {
        flat, tail, rs, freed := Promote(flat, tail, cur, rs, fs[i]);
      } else {
        flat, tail, rs, freed := Keep(flat, tail, cur, rs, fs[i]);
      }
      gone := gone + freed;
      cur := next;
      i := i + 1;
    }
    LinkedParts(cur, fs[i..], null);
    assert Trees(fs)[..i] == Trees(fs);
  }

  /** An IfModule block: its flattened children go behind the list, and the block itself is freed. */
  method Promote(head: Node?, end: Node?, cur: Node, ghost fs: seq<Shape>, ghost f: Shape)
    returns (flat: Node?, tail: Node?, ghost rs: seq<Shape>, ghost gone: set<Node>)
    requires Linked(head, fs, null) && end == Last(fs) && Owns(f) && cur == f.node && Feet(fs) !! FeetOne(f)
    requires cur.fields.kind.Ifmodule?
    modifies Feet(fs), FeetOne(f)
    ensures Linked(flat, rs, null) && tail == Last(rs) && Trees(rs) == Trees(fs) + FlattenOne(Tree(f))
    ensures Feet(rs) + gone == Feet(fs) + FeetOne(f) && Feet(rs) !! gone
    decreases f, 1
  {
    hide Linked, Feet, FeetOne, Owns, Tree, Trees, Flatten, Last;
    OwnsParts(f);
    assert allocated(Feet(fs)) && allocated(Feet(f.conds));
    LastIn(fs);
    NoNodes(null);
    flat, tail, rs := head, end, fs;
    var ic, ks, lost := FlattenIfmodule(cur.children, f.kids);
    LinkedParts(ic, ks, null);
    if ic != null {
      flat, tail := AppendList(head, end, ic, fs, ks);
      rs := fs + ks;
    }
    assert allocated(Feet(rs));
    cur.children := null;
    ghost var g := Shape(cur, [], f.conds);
    OwnsParts(g);
    CutOff(cur, g);
    LinkedSingle(cur, g, null);
    ghost var rest := DirectivesFree(cur, [g]);
    gone := lost + rest;
  }

  lemma FlattenSimple(f: Shape)
    requires !f.node.fields.kind.Ifmodule?
    ensures !IsBlock(f.node.fields.kind) || f.kids == [] ==> FlattenOne(Tree(f)) == [Tree(f)]
    ensures IsBlock(f.node.fields.kind) ==> FlattenOne(Tree(f)) == [Tree(f).(children := Flatten(Trees(f.kids)))]
  {
    OwnsParts(f);
    hide Tree, Trees, Flatten;
    FlattenNone();
    if f.kids == [] { assert Trees(f.kids) == []; }
  }

  /** Any other directive goes behind the list itself, and its children are flattened in place. */
  method Keep(head: Node?, end: Node?, cur: Node, ghost fs: seq<Shape>, ghost f: Shape)
    returns (flat: Node, tail: Node, ghost rs: seq<Shape>, ghost gone: set<Node>)
    requires Linked(head, fs, null) && end == Last(fs) && Owns(f) && cur == f.node && Feet(fs) !! FeetOne(f)
    requires !cur.fields.kind.Ifmodule?
    modifies Feet(fs), FeetOne(f)
    ensures Linked(flat, rs, null) && tail == Last(rs) && Trees(rs) == Trees(fs) + FlattenOne(Tree(f))
    ensures Feet(rs) + gone == Feet(fs) + FeetOne(f) && Feet(rs) !! gone
    decreases f, 1
  {
    hide Linked, Feet, FeetOne, Owns, Tree, Trees, Flatten, FlattenOne, Last;
    OwnsParts(f);
    LastIn(fs);
    LinkedParts(head, fs, null);
    LinkedParts(cur.children, f.kids, null);
    FlattenSimple(f);
    assert allocated(Feet(fs)) && allocated(FeetOne(f));
    CutOff(cur, f);
    var front := Append(head, end, cur, fs);
    flat, tail, gone := front, cur, {};
    ghost var g := f;
    OwnsParts(f);
    if IsBlock(cur.fields.kind) && cur.children != null {
      var children;
      ghost var kids;
      children, kids, gone := FlattenIfmodule(cur.children, f.kids);
      cur.children := children;
      g := Shape(cur, kids, f.conds);
      OwnsParts(g);
    }
    LinkedSnoc(flat, fs, g, null);
    LastOf(fs, g);
    rs := fs + [g];
  }
}
