/**
 * The merge as the walker does it: nodes relinked in place and freed, the last
 * node kept track of through replacements, and the cached list of the level
 * only read and deeply copied.
 */
module MergeList {
  import opened Text
  import opened Directives
  import opened Merge
  import opened Nodes

  lemma MatchesFields(f: Shape, g: Shape)
    ensures Matches(f.node.fields, g.node.fields) <==> Matches(Tree(f), Tree(g))
  {
    hide OverrideRule, Trees;
    OwnsParts(f);
    OwnsParts(g);
  }

  /** The first node that `c` overrides, and the one before it. */
  method FindOverridden(parent: Node, c: Node, ghost ps: seq<Shape>, ghost cf: Shape)
    returns (prev: Node?, found: Node?, ghost at: nat)
    requires Linked(parent, ps, null) && c == cf.node
    ensures var r := Overridden(Trees(ps), Tree(cf));
            if r.Some? then at == r.value && at < |ps| && found == ps[at].node && prev == Last(ps[..at])
            else found == null
  {
    hide Linked, Feet, FeetOne, Owns, Tree, Matches, Trees;
    prev, found, at := null, parent, 0;
    while found != null
      invariant 0 <= at <= |ps| && Linked(found, ps[at..], null) && prev == Last(ps[..at])
      invariant forall j :: 0 <= j < at ==> !Matches(Trees(ps)[j], Tree(cf))
      decreases |ps| - at
    {
      FirstOf(found, ps, at);
      MatchesFields(ps[at], cf);
      if Matches(found.fields, c.fields) {
        assert Matches(Trees(ps)[at], Tree(cf));
        return;
      }
      prev := found;
      found := found.next;
      at := at + 1;
    }
    LinkedParts(found, ps[at..], null);
  }

  lemma FeetAround(before: seq<Shape>, f: Shape, after: seq<Shape>)
    ensures Feet(before + ([f] + after)) == Feet(before) + FeetOne(f) + Feet(after)
  {
    hide *;
    FeetAppend(before, [f] + after);
    FeetAppend([f], after);
    FeetSingle(f);
  }

  lemma Split(ps: seq<Shape>, at: nat)
    requires at < |ps|
    ensures ps == ps[..at] + ([ps[at]] + ps[at + 1..])
    ensures Feet(ps) == Feet(ps[..at]) + FeetOne(ps[at]) + Feet(ps[at + 1..])
  {
    hide *;
    FeetAround(ps[..at], ps[at], ps[at + 1..]);
    assert ps == ps[..at] + ([ps[at]] + ps[at + 1..]);
  }

  /** A list taken apart around its node at `at`. */
  lemma LinkedSplit(head: Node?, ps: seq<Shape>, at: nat)
    requires at < |ps|
    ensures Linked(head, ps, null) <==>
        var f, after := ps[at], ps[at + 1..];
        && Linked(head, ps[..at], f.node) && Owns(f) && Linked(f.node.next, after, null)
        && FeetOne(f) !! Feet(after) && Feet(ps[..at]) !! FeetOne(f) + Feet(after)
  {
    hide Linked, Feet, FeetOne, Owns;
    var f, after := ps[at], ps[at + 1..];
    Split(ps, at);
    LinkedAppend(head, ps[..at], [f] + after, null);
    assert ([f] + after)[1..] == after;
    LinkedParts(f.node, [f] + after, null);
  }

  lemma Rejoin(head: Node?, ps: seq<Shape>, at: nat, g: Shape)
    requires at < |ps| && Linked(head, ps[..at], g.node) && Owns(g) && Linked(g.node.next, ps[at + 1..], null)
    requires FeetOne(g) !! Feet(ps) && Feet(ps[..at]) !! Feet(ps[at + 1..])
    ensures Linked(head, ps[at := g], null)
  {
    hide Linked, Feet, FeetOne, Owns;
    Split(ps, at);
    LinkedSplit(head, ps[at := g], at);
    assert ps[at := g][..at] == ps[..at] && ps[at := g][at + 1..] == ps[at + 1..];
  }

  lemma LastUnique(head: Node?, ps: seq<Shape>, at: nat)
    requires at < |ps| && Linked(head, ps, null)
    ensures ps[at].node == Last(ps) <==> at == |ps| - 1
    ensures ps[at].node in FeetOne(ps[at])
  {
    hide Linked, Feet, FeetOne, Owns;
    LinkedSplit(head, ps, at);
    OwnsParts(ps[at]);
    LastIn(ps[at + 1..]);
    if at < |ps| - 1 { assert Last(ps[at + 1..]) == Last(ps); }
  }

  /** Let `copy` take the place of `p` between `before` and whatever follows `p`, and cut `p` off. */
  method Relink(parent: Node, prev: Node?, p: Node, copy: Node, ghost before: seq<Shape>, ghost f: Shape,
      ghost g: Shape)
    returns (head: Node)
    requires Linked(parent, before, p) && prev == Last(before)
    requires Owns(f) && p == f.node && Owns(g) && copy == g.node && copy.next == null
    requires Feet(before) !! FeetOne(f) && Feet(before) !! FeetOne(g) && FeetOne(f) !! FeetOne(g)
    modifies prev, p`next, copy`next
    ensures Linked(head, before, copy) && Owns(f) && Owns(g) && copy.next == old(p.next) && p.next == null
  {
    hide Linked, Feet, FeetOne, Owns, Tree, Trees;
    OwnsParts(f);
    OwnsParts(g);
    LastIn(before);
    LinkedSingle(copy, g, null);
    LinkedSingle(p, f, p.next);
    NoNodes(copy);
    LinkedParts(parent, before, p);
    assert allocated(Feet(before)) && allocated(FeetOne(f)) && allocated(FeetOne(g));
    ghost var rest := p.next;
    SetNext(copy, p.next, copy, [g], null);
    head := parent;
    if prev != null {
      SetNext(prev, copy, parent, before, p);
    } else {
      head := copy;
    }
    SetNext(p, null, p, [f], rest);
    LinkedSingle(copy, g, rest);
    LinkedSingle(p, f, null);
  }

  /** Put the new node `copy` in the place of `p`, which stands after `prev`. */
  method Replace(parent: Node, mergeTail: Node, prev: Node?, p: Node, copy: Node,
                 ghost ps: seq<Shape>, ghost at: nat, ghost g: Shape)
    returns (head: Node, tail: Node)
    requires Linked(parent, ps, null) && mergeTail == Last(ps)
    requires at < |ps| && p == ps[at].node && prev == Last(ps[..at])
    requires Owns(g) && g.node == copy && copy.next == null && FeetOne(g) !! Feet(ps)
    modifies Feet(ps), copy
    ensures Linked(head, ps[at := g], null) && tail == Last(ps[at := g])
    ensures Owns(ps[at]) && p.next == null
  {
    hide Linked, Feet, FeetOne, Owns, Tree, Trees, Last;
    InPlace(parent, ps, at, g);
    assert allocated(Feet(ps[at + 1..]));
    head := Relink(parent, prev, p, copy, ps[..at], ps[at], g);
    Rejoin(head, ps, at, g);
    tail := if p == mergeTail then copy else mergeTail;
  }

  lemma LastReplaced(ps: seq<Shape>, at: nat, g: Shape)
    requires at < |ps|
    ensures Last(ps[at := g]) == if at == |ps| - 1 then g.node else Last(ps)
  {
  }

  /** What holds around the node at `at`, and where the last node is once `g` stands there. */
  lemma InPlace(head: Node?, ps: seq<Shape>, at: nat, g: Shape)
    requires at < |ps| && Linked(head, ps, null) && Owns(g) && FeetOne(g) !! Feet(ps)
    ensures var p, before, after := ps[at].node, ps[..at], ps[at + 1..];
            && Linked(head, before, p) && Owns(ps[at]) && Linked(p.next, after, null)
            && Feet(ps) == Feet(before) + FeetOne(ps[at]) + Feet(after)
            && FeetOne(ps[at]) !! Feet(after) && Feet(before) !! FeetOne(ps[at]) + Feet(after)
            && FeetOne(g) !! Feet(ps)
            && p in FeetOne(ps[at]) && g.node in FeetOne(g) && (Last(before) != null ==> Last(before) in Feet(before))
    ensures Last(ps[at := g]) == if ps[at].node == Last(ps) then g.node else Last(ps)
  {
    hide *;
    LinkedSplit(head, ps, at);
    Split(ps, at);
    OwnsParts(g);
    LastIn(ps[..at]);
    LastUnique(head, ps, at);
    LastReplaced(ps, at, g);
  }

  /** One directive of the level: a copy in the place of the node it overrides, which is freed, or at the end. */
  method MergeOne(parent: Node, mergeTail: Node, c: Node, ghost ps: seq<Shape>, ghost cf: Shape)
    returns (head: Node, tail: Node, ghost ns: seq<Shape>, ghost gone: set<Node>)
    requires Linked(parent, ps, null) && mergeTail == Last(ps)
    requires Owns(cf) && c == cf.node && Feet(ps) !! FeetOne(cf)
    modifies Feet(ps)
    ensures Linked(head, ns, null) && tail == Last(ns)
    ensures Trees(ns) == PutOne(Trees(ps), Tree(cf))
    ensures gone <= Feet(ps) <= Feet(ns) + gone && gone !! Feet(ns)
    ensures forall n :: n in Feet(ns) ==> n in Feet(ps) || fresh(n)
  {
    hide Linked, Feet, FeetOne, Owns, Tree, Trees, Matches, Last;
    assert allocated(Feet(ps)) && allocated(FeetOne(cf));
    var prev, p, at := FindOverridden(parent, c, ps, cf);
    var copy, g := CopyDirective(c, cf);
    if p != null {
      InPlace(parent, ps, at, g);
      head, tail := Replace(parent, mergeTail, prev, p, copy, ps, at, g);
      ns := ps[at := g];
      assert allocated(Feet(ns));
      FeetReplaced(ps, at, g);
      LinkedSingle(p, ps[at], null);
      gone := DirectivesFree(p, [ps[at]]);
    } else {
      LastIn(ps);
      head := AppendOne(parent, mergeTail, copy, ps, g);
      tail, ns, gone := copy, ps + [g], {};
      LastOf(ps, g);
    }
  }

  lemma FeetReplaced(ps: seq<Shape>, at: nat, g: Shape)
    requires at < |ps|
    ensures Feet(ps[at := g]) == Feet(ps[..at]) + FeetOne(g) + Feet(ps[at + 1..])
    ensures Trees(ps[at := g]) == Trees(ps)[at := Tree(g)]
  {
    hide Feet, FeetOne, Tree;
    Split(ps[at := g], at);
    assert ps[at := g][..at] == ps[..at] && ps[at := g][at + 1..] == ps[at + 1..];
  }

  /**
   * merge_directives. The result spells the functional merge and shares no node
   * with the level at any depth, whose own links are not changed. Every node of
   * the list so far is in the result or was freed, and nothing freed is in the result.
   */
  method MergeDirectives(parent: Node?, child: Node?, ghost ps: seq<Shape>, ghost cs: seq<Shape>)
    returns (head: Node?, ghost ns: seq<Shape>, ghost gone: set<Node>)
    requires Linked(parent, ps, null) && Linked(child, cs, null) && Feet(ps) !! Feet(cs)
    modifies Feet(ps)
    ensures Linked(head, ns, null) && Trees(ns) == Merge.Merge(Trees(ps), Trees(cs))
    ensures Linked(child, cs, null) && Feet(ns) !! Feet(cs)
    ensures forall n :: n in Feet(ns) + gone ==> n in Feet(ps) || fresh(n)
    ensures gone !! Feet(ns) && Feet(ps) <= Feet(ns) + gone
  {
    hide Linked, Feet, FeetOne, Owns, Tree, Trees, PutAll, PutOne, Last;
    gone := {};
    LinkedParts(parent, ps, null);
    LinkedParts(child, cs, null);
    NoNodes(null);
    assert allocated(Feet(cs)) && allocated(Feet(ps));
    if child == null {
      head, ns := parent, ps;
      MergeNone(Trees(ps));
      return;
    }
    if parent == null {
      head, ns := CopyList(child, cs);
      return;
    }
    head, ns, gone := MergeAll(parent, child, ps, cs);
  }

  /** The loop of merge_directives. */
  method MergeAll(parent: Node, child: Node, ghost ps: seq<Shape>, ghost cs: seq<Shape>)
    returns (head: Node, ghost ns: seq<Shape>, ghost gone: set<Node>)
    requires Linked(parent, ps, null) && Linked(child, cs, null) && Feet(ps) !! Feet(cs)
    modifies Feet(ps)
    ensures Linked(head, ns, null) && Trees(ns) == PutAll(Trees(ps), Trees(cs))
    ensures Linked(child, cs, null) && Feet(ns) !! Feet(cs)
    ensures forall n :: n in Feet(ns) + gone ==> n in Feet(ps) || fresh(n)
    ensures gone !! Feet(ns) && Feet(ps) <= Feet(ns) + gone
  {
    hide Linked, Feet, FeetOne, Owns, Tree, Trees, PutAll, PutOne, Last;
    assert allocated(Feet(cs)) && allocated(Feet(ps));
    head, ns, gone := parent, ps, {};
    var mergeTail := LastNode(parent, ps);
    var c: Node? := child;
    ghost var i := 0;
    assert cs[0..] == cs && Trees(cs)[0..] == Trees(cs);
    while c != null
      invariant i <= |cs| && Linked(c, cs[i..], null) && Linked(child, cs, null) && Feet(cs[i..]) <= Feet(cs)
      invariant Linked(head, ns, null) && mergeTail == Last(ns) && Feet(ns) !! Feet(cs)
      invariant forall n :: n in Feet(ns) + gone ==> n in Feet(ps) || fresh(n)
      invariant gone !! Feet(ns) && Feet(ps) <= Feet(ns) + gone
      invariant PutAll(Trees(ns), Trees(cs)[i..]) == PutAll(Trees(ps), Trees(cs))
      decreases |cs| - i
    {
      FirstOf(c, cs, i);
      PutAllStep(Trees(ns), Trees(cs), i);
      assert allocated(Feet(ns)) && allocated(Feet(cs)) && allocated(gone);
      ghost var last := ns;
      ghost var freed: set<Node>;
      head, mergeTail, ns, freed := MergeOne(head, mergeTail, c, ns, cs[i]);
      assert forall n :: n in Feet(ns) && n in Feet(last) ==> n in Feet(last) + gone;
      gone := gone + freed;
      c := c.next;
      i := i + 1;
    }
    LinkedParts(c, cs[i..], null);
    assert Trees(cs)[i..] == Trees(cs)[|Trees(cs)|..];
    PutAllEnd(Trees(ns), Trees(cs));
  }

  lemma PutAllStep(ds: seq<Directive>, cs: seq<Directive>, i: nat)
    requires i < |cs|
    ensures PutAll(ds, cs[i..]) == PutAll(PutOne(ds, cs[i]), cs[i + 1..])
  {
    assert cs[i..][1..] == cs[i + 1..];
  }

  lemma PutAllEnd(ds: seq<Directive>, cs: seq<Directive>)
    ensures PutAll(ds, cs[|cs|..]) == ds
  {
  }
}
