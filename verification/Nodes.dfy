/**
 * The heap behind a list of directives: nodes linked by `next`, with lists of
 * their own beneath them. A shape names the nodes of a list at every depth; what
 * the list spells and which nodes it is made of depend on the shape alone, and
 * the heap decides whether the links follow the shape.
 */
module Nodes {
  import opened Directives

  predicate HasChildren(kind: Kind) { kind.Ifmodule? || IsBlock(kind) }

  /** A node; nothing writes its other fields once it has been made. */
  class Node {
    const fields: Directive
    var next: Node?
    var children: Node?
    var conditions: Node?

    constructor (fields: Directive)
      ensures this.fields == fields && next == null && children == null && conditions == null
    {
      this.fields := fields;
      next, children, conditions := null, null, null;
    }
  }

  datatype Shape = Shape(node: Node, kids: seq<Shape>, conds: seq<Shape>)

  /** The nodes of a list at every depth. */
  ghost function Feet(fs: seq<Shape>): set<Node>
    decreases fs
  {
    if fs == [] then {} else FeetOne(fs[0]) + Feet(fs[1..])
  }

  ghost function FeetOne(f: Shape): set<Node>
    decreases f
  {
    {f.node} + Feet(f.kids) + Feet(f.conds)
  }

  /** What a list spells. */
  ghost function Trees(fs: seq<Shape>): (ds: seq<Directive>)
    ensures |ds| == |fs| && forall i :: 0 <= i < |fs| ==> ds[i] == Tree(fs[i])
    decreases fs
  {
    if fs == [] then [] else [Tree(fs[0])] + Trees(fs[1..])
  }

  ghost function Tree(f: Shape): Directive
    decreases f
  {
    f.node.fields.(children := Trees(f.kids), conditions := Trees(f.conds))
  }

  /** The links from `head` lead through the nodes of `fs` and then to `end`, and no node occurs twice at any depth. */
  ghost predicate Linked(head: Node?, fs: seq<Shape>, end: Node?)
    reads Feet(fs)
    decreases fs
  {
    if fs == [] then head == end
    else
      && head == fs[0].node && Owns(fs[0]) && FeetOne(fs[0]) !! Feet(fs[1..])
      && Linked(fs[0].node.next, fs[1..], end)
  }

  /** Only containers have children and only rules have conditions, each in complete lists of their own. */
  ghost predicate Owns(f: Shape)
    reads FeetOne(f)
    decreases f
  {
    && f.node !in Feet(f.kids) && f.node !in Feet(f.conds) && Feet(f.kids) !! Feet(f.conds)
    && Linked(f.node.children, f.kids, null) && Linked(f.node.conditions, f.conds, null)
    && (HasChildren(f.node.fields.kind) || f.kids == []) && (f.node.fields.kind.RewriteRule? || f.conds == [])
  }

  ghost function First(fs: seq<Shape>, end: Node?): Node? { if fs == [] then end else fs[0].node }

  ghost function Last(fs: seq<Shape>): Node? { if fs == [] then null else fs[|fs| - 1].node }

  lemma {:induction false} TreesAppend(a: seq<Shape>, b: seq<Shape>)
    ensures Trees(a + b) == Trees(a) + Trees(b)
  {
  }

  lemma {:induction false} FeetAppend(a: seq<Shape>, b: seq<Shape>)
    ensures Feet(a + b) == Feet(a) + Feet(b)
    decreases |a|
  {
    hide FeetOne;
    if a == [] {
      assert a + b == b;
    } else {
      assert (a + b)[1..] == a[1..] + b;
      FeetAppend(a[1..], b);
    }
  }

  lemma FeetSingle(f: Shape)
    ensures Feet([f]) == FeetOne(f)
  {
    hide FeetOne;
    assert [f][1..] == [];
  }

  lemma {:induction false} LinkedAppend(head: Node?, a: seq<Shape>, b: seq<Shape>, end: Node?)
    ensures Linked(head, a + b, end)
       <==> Linked(head, a, First(b, end)) && Linked(First(b, end), b, end) && Feet(a) !! Feet(b)
    decreases |a|
  {
    hide FeetOne, Owns;
    if a == [] {
      assert a + b == b;
    } else {
      assert (a + b)[1..] == a[1..] + b;
      FeetAppend(a[1..], b);
      LinkedAppend(a[0].node.next, a[1..], b, end);
    }
  }

  lemma LinkedSingle(head: Node?, f: Shape, end: Node?)
    ensures Linked(head, [f], end) <==> head == f.node && Owns(f) && f.node.next == end
    ensures Feet([f]) == FeetOne(f)
  {
    hide FeetOne, Owns;
    FeetSingle(f);
    assert [f][1..] == [];
  }

  lemma OwnsParts(f: Shape)
    ensures Owns(f) <==>
        && f.node !in Feet(f.kids) && f.node !in Feet(f.conds) && Feet(f.kids) !! Feet(f.conds)
        && Linked(f.node.children, f.kids, null) && Linked(f.node.conditions, f.conds, null)
        && (HasChildren(f.node.fields.kind) || f.kids == []) && (f.node.fields.kind.RewriteRule? || f.conds == [])
    ensures FeetOne(f) == {f.node} + Feet(f.kids) + Feet(f.conds)
    ensures Tree(f) == f.node.fields.(children := Trees(f.kids), conditions := Trees(f.conds))
    ensures f.node in FeetOne(f)
  {
  }

  lemma LinkedParts(head: Node?, fs: seq<Shape>, end: Node?)
    ensures fs != [] ==> (Linked(head, fs, end) <==>
        && head == fs[0].node && Owns(fs[0]) && FeetOne(fs[0]) !! Feet(fs[1..])
        && Linked(fs[0].node.next, fs[1..], end))
    ensures fs == [] ==> (Linked(head, fs, end) <==> head == end)
    ensures fs != [] ==> Feet(fs) == FeetOne(fs[0]) + Feet(fs[1..])
  {
  }

  /** The list from its `i`-th node on, taken apart. */
  lemma FirstOf(s: Node, fs: seq<Shape>, i: nat)
    requires i <= |fs| && Linked(s, fs[i..], null)
    ensures i < |fs| && s == fs[i].node && Owns(fs[i]) && FeetOne(fs[i]) !! Feet(fs[i + 1..])
    ensures Linked(s.next, fs[i + 1..], null) && s !in Feet(fs[i + 1..]) && s in FeetOne(fs[i])
    ensures Feet(fs[i..]) == FeetOne(fs[i]) + Feet(fs[i + 1..])
    ensures Trees(fs)[..i + 1] == Trees(fs)[..i] + [Tree(fs[i])]
  {
    hide Linked, Feet, FeetOne, Owns, Tree, Trees;
    LinkedParts(s, fs[i..], null);
    assert fs[i..][0] == fs[i] && fs[i..][1..] == fs[i + 1..];
    OwnsParts(fs[i]);
  }

  lemma NoNodes(end: Node?)
    ensures Linked(end, [], end) && Feet([]) == {} && Trees([]) == []
  {
  }

  /** A list with one more node behind it. */
  lemma LinkedSnoc(head: Node?, fs: seq<Shape>, f: Shape, end: Node?)
    ensures Linked(head, fs + [f], end)
       <==> Linked(head, fs, f.node) && Owns(f) && f.node.next == end && Feet(fs) !! FeetOne(f)
    ensures Feet(fs + [f]) == Feet(fs) + FeetOne(f) && Trees(fs + [f]) == Trees(fs) + [Tree(f)]
  {
    hide FeetOne, Owns, Linked, Tree;
    LinkedAppend(head, fs, [f], end);
    LinkedSingle(f.node, f, end);
    FeetAppend(fs, [f]);
    FeetSingle(f);
  }

  /** Let the last node of a list lead elsewhere. */
  method SetNext(tail: Node, to: Node?, ghost head: Node?, ghost fs: seq<Shape>, ghost end: Node?)
    requires Linked(head, fs, end) && fs != [] && tail == Last(fs)
    modifies tail`next
    ensures Linked(head, fs, to) && tail.next == to
  {
    hide Linked, Feet, FeetOne, Owns, Tree;
    ghost var before, f := fs[..|fs| - 1], fs[|fs| - 1];
    assert fs == before + [f];
    LinkedSnoc(head, before, f, end);
    OwnsParts(f);
    tail.next := to;
    OwnsParts(f);
    LinkedSnoc(head, before, f, to);
  }

  /** Let a node lead nowhere. */
  method CutOff(n: Node, ghost f: Shape)
    requires Owns(f) && n == f.node
    modifies n`next
    ensures Owns(f) && n.next == null
  {
    hide Linked, Feet, FeetOne, Owns;
    LinkedSingle(n, f, n.next);
    SetNext(n, null, n, [f], n.next);
    LinkedSingle(n, f, null);
  }

  /** Put `d` behind the list. */
  method Append(head: Node?, tail: Node?, d: Node?, ghost fs: seq<Shape>) returns (h: Node?)
    requires Linked(head, fs, null) && tail == Last(fs)
    modifies tail
    ensures Linked(h, fs, d) && h == if fs == [] then d else head
  {
    hide Owns, FeetOne, Feet;
    if head == null {
      h := d;
    } else {
      SetNext(tail, d, head, fs, null);
      h := head;
    }
  }

  /** Put a single node behind the list. */
  method AppendOne(head: Node?, tail: Node?, d: Node, ghost fs: seq<Shape>, ghost f: Shape) returns (h: Node)
    requires Linked(head, fs, null) && tail == Last(fs)
    requires Owns(f) && d == f.node && d.next == null && Feet(fs) !! FeetOne(f)
    modifies tail
    ensures Linked(h, fs + [f], null) && (if fs == [] then h == d else h == head)
    ensures Feet(fs + [f]) == Feet(fs) + FeetOne(f) && Trees(fs + [f]) == Trees(fs) + [Tree(f)]
  {
    hide Linked, Feet, FeetOne, Owns, Tree;
    OwnsParts(f);
    LastIn(fs);
    LinkedParts(head, fs, null);
    assert fs == [] <==> head == null;
    assert tail !in FeetOne(f) && allocated(FeetOne(f));
    var front := Append(head, tail, d, fs);
    h := front;
    LinkedSnoc(h, fs, f, null);
  }

  lemma LastOf(ps: seq<Shape>, g: Shape)
    ensures Last(ps + [g]) == g.node
  {
  }

  lemma LastIn(fs: seq<Shape>)
    ensures Last(fs) == null <==> fs == []
    ensures Last(fs) != null ==> Last(fs) in Feet(fs)
  {
    hide FeetOne, Feet;
    if fs != [] {
      assert fs == fs[..|fs| - 1] + [fs[|fs| - 1]];
      OwnsParts(fs[|fs| - 1]);
      LinkedSnoc(null, fs[..|fs| - 1], fs[|fs| - 1], null);
    }
  }

  /** The node whose `next` is null, found by walking. */
  method LastNode(head: Node, ghost fs: seq<Shape>) returns (tail: Node)
    requires Linked(head, fs, null)
    ensures tail == Last(fs)
  {
    hide Linked, Feet, FeetOne, Owns, Tree, Trees;
    tail := head;
    ghost var i := 0;
    FirstOf(head, fs, 0);
    while tail.next != null
      invariant i < |fs| && tail == fs[i].node && Linked(tail, fs[i..], null)
      decreases |fs| - i
    {
      FirstOf(tail, fs, i);
      tail := tail.next;
      i := i + 1;
      FirstOf(tail, fs, i);
    }
    FirstOf(tail, fs, i);
    LinkedParts(null, fs[i + 1..], null);
  }

  /** Put a whole list behind the list, and walk to its end. */
  method AppendList(head: Node?, end: Node?, ic: Node, ghost fs: seq<Shape>, ghost ks: seq<Shape>)
    returns (h: Node?, tail: Node)
    requires Linked(head, fs, null) && end == Last(fs) && Linked(ic, ks, null) && Feet(fs) !! Feet(ks)
    modifies end
    ensures Linked(h, fs + ks, null) && tail == Last(fs + ks)
    ensures Feet(fs + ks) == Feet(fs) + Feet(ks) && Trees(fs + ks) == Trees(fs) + Trees(ks)
  {
    hide Linked, Feet, FeetOne, Owns, Tree, Trees;
    LastIn(fs);
    LinkedParts(ic, ks, null);
    assert allocated(Feet(fs)) && allocated(Feet(ks));
    h := Append(head, end, ic, fs);
    tail := LastNode(ic, ks);
    LinkedAppend(h, fs, ks, null);
    FeetAppend(fs, ks);
    TreesAppend(fs, ks);
  }

  // ------------------------------------------------------------------- deep copies

  /** copy_directive: first every link as it is, then copies of what the links lead to. */
  method CopyDirective(s: Node, ghost f: Shape) returns (d: Node, ghost g: Shape)
    requires Owns(f) && f.node == s
    ensures Owns(g) && g.node == d && d.next == null && Tree(g) == Tree(f) && fresh(d) && fresh(FeetOne(g))
    decreases f
  {
    hide Linked, Feet, FeetOne, Owns, Tree, Trees;
    OwnsParts(f);
    NoNodes(null);
    LinkedParts(s.children, f.kids, null);
    LinkedParts(s.conditions, f.conds, null);
    assert allocated(Feet(f.kids)) && allocated(Feet(f.conds));
    d := new Node(s.fields);
    ghost var kids, conds: seq<Shape> := [], [];
    d.children, d.conditions := s.children, s.conditions;
    if HasChildren(s.fields.kind) {
      var children;
      children, kids := CopyList(s.children, f.kids);
      d.children := children;
    } else if s.fields.kind.RewriteRule? {
      var conditions;
      conditions, conds := CopyList(s.conditions, f.conds);
      d.conditions := conditions;
    }
    g := Shape(d, kids, conds);
    OwnsParts(g);
  }

  /** copy_children and copy_directive_list. */
  method CopyList(src: Node?, ghost fs: seq<Shape>) returns (head: Node?, ghost gs: seq<Shape>)
    requires Linked(src, fs, null)
    ensures Linked(head, gs, null) && Trees(gs) == Trees(fs) && fresh(Feet(gs))
    decreases fs
  {
    hide Linked, Feet, FeetOne, Owns, Tree, Trees;
    head, gs := null, [];
    NoNodes(head);
    var tail: Node? := null;
    var s := src;
    ghost var i := 0;
    while s != null
      invariant i <= |fs| && Linked(s, fs[i..], null) && Feet(gs) !! Feet(fs[i..])
      invariant Linked(head, gs, null) && tail == Last(gs) && fresh(Feet(gs)) && (tail != null ==> fresh(tail))
      invariant Trees(gs) == Trees(fs)[..i]
      decreases |fs| - i
    {
      FirstOf(s, fs, i);
      OwnsParts(fs[i]);
      LastIn(gs);
      assert allocated(Feet(gs)) && allocated(Feet(fs[i + 1..]));
      var d, g := CopyDirective(s, fs[i]);
      var front := AppendOne(head, tail, d, gs, g);
      head, tail, gs := front, d, gs + [g];
      s := s.next;
      i := i + 1;
    }
    LinkedParts(s, fs[i..], null);
  }

  // --------------------------------------------------------------- making and freeing

  /** Children and conditions only where a node can hold them. */
  predicate Formed(ds: seq<Directive>)
    decreases ds
  {
    ds == [] || (FormedOne(ds[0]) && Formed(ds[1..]))
  }

  predicate FormedOne(d: Directive)
    decreases d
  {
    && (d.children == [] || (HasChildren(d.kind) && Formed(d.children)))
    && (d.conditions == [] || (d.kind.RewriteRule? && Formed(d.conditions)))
  }

  /** The nodes of a parsed directive, all of them new. */
  method MakeNode(d: Directive) returns (n: Node, ghost f: Shape)
    requires FormedOne(d)
    ensures Owns(f) && f.node == n && n.next == null && Tree(f) == d && fresh(n) && fresh(FeetOne(f))
    decreases d
  {
    hide Linked, Feet, FeetOne, Owns, Tree, Trees, Formed, IsBlock;
    NoNodes(null);
    var children, conditions: Node? := null, null;
    ghost var kids, conds: seq<Shape> := [], [];
    if d.children != [] { children, kids := MakeList(d.children); }
    assert allocated(Feet(kids));
    if d.conditions != [] { conditions, conds := MakeList(d.conditions); }
    assert allocated(Feet(kids)) && allocated(Feet(conds));
    n := new Node(d);
    n.children, n.conditions := children, conditions;
    f := Shape(n, kids, conds);
    OwnsParts(f);
  }

  method MakeList(ds: seq<Directive>) returns (head: Node?, ghost fs: seq<Shape>)
    requires Formed(ds)
    ensures Linked(head, fs, null) && Trees(fs) == ds && fresh(Feet(fs))
    decreases ds
  {
    hide Linked, Feet, FeetOne, Owns, Tree, Trees, FormedOne;
    head, fs := null, [];
    NoNodes(head);
    var tail: Node? := null;
    var i := 0;
    while i < |ds|
      invariant 0 <= i <= |ds| && Formed(ds[i..])
      invariant Linked(head, fs, null) && tail == Last(fs) && fresh(Feet(fs)) && (tail != null ==> fresh(tail))
      invariant Trees(fs) == ds[..i]
    {
      assert ds[i..][0] == ds[i] && ds[i..][1..] == ds[i + 1..];
      LastIn(fs);
      assert allocated(Feet(fs));
      var n, f := MakeNode(ds[i]);
      var front := AppendOne(head, tail, n, fs, f);
      head, tail, fs := front, n, fs + [f];
      i := i + 1;
    }
  }

  /** free, of a node that has not been freed. */
  method Free(n: Node, ghost gone: set<Node>) returns (ghost after: set<Node>)
    requires n !in gone
    ensures after == gone + {n}
  {
    after := gone + {n};
  }

  /** htaccess_directives_free: every node of the list at every depth, each once. */
  method DirectivesFree(head: Node?, ghost fs: seq<Shape>) returns (ghost gone: set<Node>)
    requires Linked(head, fs, null)
    ensures gone == Feet(fs)
    decreases fs
  {
    hide Linked, Feet, FeetOne, Owns, Tree, Trees, IsBlock;
    gone := {};
    NoNodes(null);
    var cur := head;
    ghost var i := 0;
    while cur != null
      invariant i <= |fs| && Linked(cur, fs[i..], null)
      invariant gone !! Feet(fs[i..]) && gone + Feet(fs[i..]) == Feet(fs)
      decreases |fs| - i
    {
      FirstOf(cur, fs, i);
      OwnsParts(fs[i]);
      assert allocated(Feet(fs[i + 1..]));
      var next := cur.next;
      ghost var fields := FreeFields(cur, fs[i]);
      gone := Free(cur, gone + fields);
      cur := next;
      i := i + 1;
    }
    LinkedParts(cur, fs[i..], null);
  }

  /** directive_free_fields. */
  method FreeFields(n: Node, ghost f: Shape) returns (ghost gone: set<Node>)
    requires Owns(f) && n == f.node
    ensures gone == Feet(f.kids) + Feet(f.conds)
    decreases f
  {
    hide Linked, Feet, FeetOne, Owns, Tree, Trees;
    OwnsParts(f);
    NoNodes(null);
    gone := {};
    if HasChildren(n.fields.kind) {
      gone := DirectivesFree(n.children, f.kids);
    } else if n.fields.kind.RewriteRule? {
      gone := DirectivesFree(n.conditions, f.conds);
    }
  }
}
