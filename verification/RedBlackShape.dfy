/** The shape of a red-black tree (lib/tree.h): ghost trees and one-hole contexts that
    describe the linked nodes, the colour and height rules, and what follows from them.

    A ghost `Tree` lists the node objects a stretch of the heap consists of.  `CellIn`
    gives the field values each of those nodes must hold, and `Stored` says that the heap
    holds them.  A `Context` is a tree with one hole; the loops of tree.h climb and
    descend, so their invariants speak of a context around the current node and the
    subtree below it. */
module RedBlackShape {

  datatype Color = Black | Red

  /** A node with its embedded RB_ENTRY (lib/tree.h:311-317).  The comparison function
      of the macros is the order of the integer keys. */
  class Elem {
    const key: int
    var left: Elem?
    var right: Elem?
    var parent: Elem?
    var color: Color

    constructor (k: int)
      ensures key == k
    {
      key := k;
      left, right, parent, color := null, null, null, Black;
    }
  }

  datatype Tree = Nil | Bin(left: Tree, node: Elem, color: Color, right: Tree)

  /** The path from a hole up to the root: `InLeft` when the hole is in the left subtree. */
  datatype Context =
    | Top
    | InLeft(up: Context, node: Elem, color: Color, sibling: Tree)
    | InRight(up: Context, node: Elem, color: Color, sibling: Tree)

  // ---------------------------------------------------------------- contents

  ghost function InOrder(t: Tree): seq<Elem> {
    match t
    case Nil => []
    case Bin(l, n, _, r) => InOrder(l) + [n] + InOrder(r)
  }

  ghost function Nodes(t: Tree): set<Elem> {
    match t
    case Nil => {}
    case Bin(l, n, _, r) => Nodes(l) + {n} + Nodes(r)
  }

  ghost function ContextNodes(c: Context): set<Elem> {
    if c.Top? then {} else ContextNodes(c.up) + {c.node} + Nodes(c.sibling)
  }

  /** What comes before and after the hole in the in-order sequence. */
  ghost function Before(c: Context): seq<Elem> {
    match c
    case Top => []
    case InLeft(up, _, _, _) => Before(up)
    case InRight(up, n, _, l) => Before(up) + InOrder(l) + [n]
  }

  ghost function After(c: Context): seq<Elem> {
    match c
    case Top => []
    case InLeft(up, n, _, r) => [n] + InOrder(r) + After(up)
    case InRight(up, _, _, _) => After(up)
  }

  ghost function Plug(c: Context, t: Tree): Tree {
    match c
    case Top => t
    case InLeft(up, n, col, r) => Plug(up, Bin(t, n, col, r))
    case InRight(up, n, col, l) => Plug(up, Bin(l, n, col, t))
  }

  /** The subtree one level up. */
  ghost function Climb(c: Context, t: Tree): (r: Tree)
    requires !c.Top?
    ensures Plug(c.up, r) == Plug(c, t)
  {
    if c.InLeft? then Bin(t, c.node, c.color, c.sibling) else Bin(c.sibling, c.node, c.color, t)
  }

  ghost function WithSibling(c: Context, s: Tree): Context
    requires !c.Top?
  {
    c.(sibling := s)
  }

  /** The context of the sibling of a hole filled with `t`. */
  ghost function Across(c: Context, t: Tree): (r: Context)
    requires !c.Top?
    ensures Plug(r, c.sibling) == Plug(c, t)
  {
    if c.InLeft? then InRight(c.up, c.node, c.color, t) else InLeft(c.up, c.node, c.color, t)
  }

  /** `inner` placed in the hole of `outer`. */
  ghost function Compose(outer: Context, inner: Context): Context {
    match inner
    case Top => outer
    case InLeft(up, n, col, r) => InLeft(Compose(outer, up), n, col, r)
    case InRight(up, n, col, l) => InRight(Compose(outer, up), n, col, l)
  }

  // ---------------------------------------------------------------- no sharing

  ghost predicate Distinct(t: Tree) {
    match t
    case Nil => true
    case Bin(l, n, _, r) =>
      Distinct(l) && Distinct(r) && n !in Nodes(l) && n !in Nodes(r) && Nodes(l) !! Nodes(r)
  }

  ghost predicate DistinctContext(c: Context) {
    c.Top? ||
    (DistinctContext(c.up) && Distinct(c.sibling) &&
     c.node !in ContextNodes(c.up) && c.node !in Nodes(c.sibling) &&
     Nodes(c.sibling) !! ContextNodes(c.up))
  }

  ghost predicate Apart(c: Context, t: Tree) {
    DistinctContext(c) && Distinct(t) && Nodes(t) !! ContextNodes(c)
  }

  // ---------------------------------------------------------------- the heap

  ghost function Root(t: Tree): Elem? {
    if t.Nil? then null else t.node
  }

  ghost function ParentOf(c: Context): Elem? {
    if c.Top? then null else c.node
  }

  /** The root of the whole tree when `hole` is the root of the subtree in the hole. */
  ghost function TopOf(c: Context, hole: Elem?): Elem? {
    if c.Top? then hole else TopOf(c.up, c.node)
  }

  /** The value of one RB_ENTRY. */
  datatype Cell = Cell(left: Elem?, right: Elem?, parent: Elem?, color: Color)

  /** The entry of the node `x` of `t` when the root of `t` hangs below `p`. */
  ghost function CellIn(t: Tree, p: Elem?, x: Elem): Cell
    requires x in Nodes(t)
  {
    match t
    case Bin(l, n, col, r) =>
      if x == n then Cell(Root(l), Root(r), p, col)
      else if x in Nodes(l) then CellIn(l, n, x)
      else CellIn(r, n, x)
  }

  /** The entry of the node `x` of `c` when `hole` is the root of the subtree in the hole. */
  ghost function CellAround(c: Context, hole: Elem?, x: Elem): Cell
    requires x in ContextNodes(c)
  {
    if x == c.node then
      if c.InLeft? then Cell(hole, Root(c.sibling), ParentOf(c.up), c.color)
      else Cell(Root(c.sibling), hole, ParentOf(c.up), c.color)
    else if x in Nodes(c.sibling) then CellIn(c.sibling, c.node, x)
    else CellAround(c.up, c.node, x)
  }

  ghost predicate Stored(t: Tree)
    reads Nodes(t)
  {
    forall x :: x in Nodes(t) ==> Cell(x.left, x.right, x.parent, x.color) == CellIn(t, null, x)
  }

  // ---------------------------------------------------------------- the rules

  ghost predicate BlackRoot(t: Tree) {
    t.Nil? || t.color == Black
  }

  /** Every path below has `h` black nodes and no red node has a red child. */
  ghost predicate Balanced(t: Tree, h: nat) {
    match t
    case Nil => h == 0
    case Bin(l, _, Black, r) => h > 0 && Balanced(l, h - 1) && Balanced(r, h - 1)
    case Bin(l, _, Red, r) => BlackRoot(l) && BlackRoot(r) && Balanced(l, h) && Balanced(r, h)
  }

  /** The hole does not admit a red root: it is the whole tree, or below a red node. */
  ghost predicate NeedsBlack(c: Context) {
    c.Top? || c.color == Red
  }

  /** The context becomes a red-black tree when a tree of black height `h` with an
      admissible root colour is put in the hole. */
  ghost predicate BalancedContext(c: Context, h: nat) {
    c.Top? ||
    (Balanced(c.sibling, h) &&
     if c.color == Black then BalancedContext(c.up, h + 1)
     else BlackRoot(c.sibling) && !NeedsBlack(c.up) && BalancedContext(c.up, h))
  }

  ghost predicate IsRedBlack(t: Tree) {
    BlackRoot(t) && exists h: nat :: Balanced(t, h)
  }

  ghost function HeightOf(t: Tree): (h: nat)
    requires IsRedBlack(t)
    ensures Balanced(t, h)
  {
    var h: nat :| Balanced(t, h);
    h
  }

  ghost function Blackened(t: Tree): Tree {
    if t.Nil? then Nil else t.(color := Black)
  }

  /** The keys of a sequence of nodes are strictly increasing. */
  ghost predicate Sorted(s: seq<Elem>) {
    forall i, j :: 0 <= i < j < |s| ==> s[i].key < s[j].key
  }

  // ---------------------------------------------------------------- lemmas on contents

  lemma Reassociate(a: seq<Elem>, b: seq<Elem>, n: Elem, d: seq<Elem>, e: seq<Elem>)
    ensures a + (b + [n] + d) + e == a + b + ([n] + d + e)
    ensures a + (b + [n] + d) + e == (a + b + [n]) + d + e
    ensures a + (b + [n] + d) + e == (a + b) + [n] + (d + e)
  {
  }

  lemma {:induction false} PlugInOrder(c: Context, t: Tree)
    ensures InOrder(Plug(c, t)) == Before(c) + InOrder(t) + After(c)
  {
    match c
    case Top =>
    case InLeft(up, n, col, r) =>
      PlugInOrder(up, Bin(t, n, col, r));
      Reassociate(Before(up), InOrder(t), n, InOrder(r), After(up));
    case InRight(up, n, col, l) =>
      PlugInOrder(up, Bin(l, n, col, t));
      Reassociate(Before(up), InOrder(l), n, InOrder(t), After(up));
  }

  lemma {:induction false} PlugNodes(c: Context, t: Tree)
    ensures Nodes(Plug(c, t)) == ContextNodes(c) + Nodes(t)
  {
    match c
    case Top =>
    case InLeft(up, n, col, r) => PlugNodes(up, Bin(t, n, col, r));
    case InRight(up, n, col, l) => PlugNodes(up, Bin(l, n, col, t));
  }

  lemma {:induction false} NodesInOrder(t: Tree)
    ensures Nodes(t) == set e | e in InOrder(t)
  {
    match t
    case Nil =>
    case Bin(l, n, _, r) => NodesInOrder(l); NodesInOrder(r);
  }

  lemma {:induction false} PlugDistinct(c: Context, t: Tree)
    ensures Distinct(Plug(c, t)) <==> Apart(c, t)
  {
    match c
    case Top =>
    case InLeft(up, n, col, r) => PlugDistinct(up, Bin(t, n, col, r));
    case InRight(up, n, col, l) => PlugDistinct(up, Bin(l, n, col, t));
  }

  ghost predicate AllBelow(a: seq<Elem>, b: seq<Elem>) {
    forall x, y :: x in a && y in b ==> x.key < y.key
  }

  lemma {:induction false} SortedConcat(a: seq<Elem>, b: seq<Elem>)
    ensures Sorted(a + b) <==> Sorted(a) && Sorted(b) && AllBelow(a, b)
  {
    var s := a + b;
    if Sorted(s) {
      forall i, j | 0 <= i < j < |a| ensures a[i].key < a[j].key {
        assert s[i] == a[i] && s[j] == a[j];
      }
      forall i, j | 0 <= i < j < |b| ensures b[i].key < b[j].key {
        assert s[|a| + i] == b[i] && s[|a| + j] == b[j];
      }
      forall x, y | x in a && y in b ensures x.key < y.key {
        var i :| 0 <= i < |a| && a[i] == x;
        var j :| 0 <= j < |b| && b[j] == y;
        assert s[i] == x && s[|a| + j] == y;
      }
    }
  }

  /** The keys of a search tree: everything left of a node is smaller, right of it greater. */
  lemma {:induction false} SortedBin(l: Tree, n: Elem, r: Tree)
    ensures Sorted(InOrder(l) + [n] + InOrder(r)) <==>
            Sorted(InOrder(l)) && Sorted(InOrder(r)) &&
            AllBelow(InOrder(l), [n]) && AllBelow([n], InOrder(r)) &&
            AllBelow(InOrder(l), InOrder(r))
  {
    SortedConcat(InOrder(l) + [n], InOrder(r));
    SortedConcat(InOrder(l), [n]);
    if AllBelow(InOrder(l) + [n], InOrder(r)) {
      assert forall x :: x in InOrder(l) || x in [n] ==> x in InOrder(l) + [n];
    }
  }

  lemma {:induction false} AllBelowDisjoint(l: Tree, n: Elem, r: Tree)
    requires AllBelow(InOrder(l), [n]) && AllBelow([n], InOrder(r))
    requires AllBelow(InOrder(l), InOrder(r))
    ensures n !in Nodes(l) && n !in Nodes(r) && Nodes(l) !! Nodes(r)
  {
    NodesInOrder(l);
    NodesInOrder(r);
    assert n in [n];
  }

  /** Strictly increasing keys rule out sharing. */
  lemma {:induction false} SortedDistinct(t: Tree)
    requires Sorted(InOrder(t))
    ensures Distinct(t)
  {
    match t
    case Nil =>
    case Bin(l, n, _, r) =>
      SortedBin(l, n, r);
      SortedDistinct(l);
      SortedDistinct(r);
      AllBelowDisjoint(l, n, r);
  }

  lemma {:induction false} ComposePlug(outer: Context, inner: Context, t: Tree)
    ensures Plug(Compose(outer, inner), t) == Plug(outer, Plug(inner, t))
  {
    match inner
    case Top =>
    case InLeft(up, n, col, r) => ComposePlug(outer, up, Bin(t, n, col, r));
    case InRight(up, n, col, l) => ComposePlug(outer, up, Bin(l, n, col, t));
  }

  // ---------------------------------------------------------------- lemmas on the heap

  /** The entries of a plugged tree, seen from the hole. */
  lemma {:induction false} PlugCell(c: Context, t: Tree, x: Elem)
    requires Apart(c, t) && x in Nodes(Plug(c, t))
    ensures x in ContextNodes(c) + Nodes(t)
    ensures CellIn(Plug(c, t), null, x)
         == if x in Nodes(t) then CellIn(t, ParentOf(c), x) else CellAround(c, Root(t), x)
  {
    PlugNodes(c, t);
    match c
    case Top =>
    case InLeft(up, n, col, r) => PlugCell(up, Bin(t, n, col, r), x);
    case InRight(up, n, col, l) => PlugCell(up, Bin(l, n, col, t), x);
  }

  /** The entry of the node at the focus, and that of the node above it. */
  lemma {:induction false} FocusCell(c: Context, t: Tree)
    requires Apart(c, t)
    ensures t.Bin? ==> t.node in Nodes(Plug(c, t))
    ensures t.Bin? ==>
              CellIn(Plug(c, t), null, t.node) == Cell(Root(t.left), Root(t.right), ParentOf(c), t.color)
    ensures !c.Top? ==> c.node in Nodes(Plug(c, t))
    ensures !c.Top? ==> CellIn(Plug(c, t), null, c.node) == CellAround(c, Root(t), c.node)
    ensures t.Bin? && !c.Top? ==> c.node != t.node && Root(c.sibling) != t.node
  {
    PlugNodes(c, t);
    if t.Bin? { PlugCell(c, t, t.node); }
    if !c.Top? { PlugCell(c, t, c.node); }
  }

  lemma {:induction false} PlugRoot(c: Context, t: Tree)
    ensures Root(Plug(c, t)) == TopOf(c, Root(t))
  {
    match c
    case Top =>
    case InLeft(up, n, col, r) => PlugRoot(up, Bin(t, n, col, r));
    case InRight(up, n, col, l) => PlugRoot(up, Bin(l, n, col, t));
  }

  ghost function RotatedLeft(t: Tree): Tree
    requires t.Bin? && t.right.Bin?
  {
    var r := t.right;
    Bin(Bin(t.left, t.node, t.color, r.left), r.node, r.color, r.right)
  }

  ghost function RotatedRight(t: Tree): Tree
    requires t.Bin? && t.left.Bin?
  {
    var l := t.left;
    Bin(l.left, l.node, l.color, Bin(l.right, t.node, t.color, t.right))
  }

  /** The entry `was` of the parent of a hole once `child` is the root of the subtree in it. */
  ghost function Rehung(c: Context, was: Cell, child: Elem?): Cell {
    if c.InLeft? then was.(left := child) else was.(right := child)
  }

  /** Hanging `t` below another node changes only the root's entry. */
  lemma {:induction false} MovedCell(t: Tree, p: Elem?, q: Elem?, x: Elem)
    requires x in Nodes(t)
    ensures CellIn(t, q, x) == if x == Root(t) then CellIn(t, p, x).(parent := q) else CellIn(t, p, x)
  {
  }

  /** Another subtree in the hole changes only the entry of the node above it. */
  lemma {:induction false} RefilledCell(c: Context, hole: Elem?, hole': Elem?, x: Elem)
    requires x in ContextNodes(c)
    ensures CellAround(c, hole', x)
         == if x == ParentOf(c) then Rehung(c, CellAround(c, hole, x), hole') else CellAround(c, hole, x)
  {
  }

  /** The entries a left rotation changes inside the rotated subtree. */
  lemma {:induction false} RotatedLeftInside(t: Tree, p: Elem?, x: Elem)
    requires t.Bin? && t.right.Bin? && Distinct(t) && x in Nodes(t)
    ensures Distinct(RotatedLeft(t)) && Nodes(RotatedLeft(t)) == Nodes(t)
    ensures var was, elm, tmp, b := CellIn(t, p, x), t.node, t.right.node, Root(t.right.left);
            CellIn(RotatedLeft(t), p, x) ==
            if x == elm then was.(right := b, parent := tmp)
            else if x == tmp then was.(left := elm, parent := p)
            else if x == b then was.(parent := elm)
            else was
  {
    var a, r, elm := t.left, t.right, t.node;
    var inner := Bin(a, elm, t.color, r.left);
    assert Distinct(r) && Nodes(r) == Nodes(r.left) + {r.node} + Nodes(r.right);
    assert Distinct(inner) && Nodes(inner) == Nodes(a) + {elm} + Nodes(r.left);
    if x in Nodes(r.left) {
      assert CellIn(t, p, x) == CellIn(r, elm, x) == CellIn(r.left, r.node, x);
      assert CellIn(RotatedLeft(t), p, x) == CellIn(inner, r.node, x) == CellIn(r.left, elm, x);
      MovedCell(r.left, r.node, elm, x);
    } else if x in Nodes(r) {
      assert CellIn(t, p, x) == CellIn(r, elm, x);
    } else {
      assert CellIn(RotatedLeft(t), p, x) == CellIn(inner, r.node, x);
    }
  }

  lemma {:induction false} RotatedRightInside(t: Tree, p: Elem?, x: Elem)
    requires t.Bin? && t.left.Bin? && Distinct(t) && x in Nodes(t)
    ensures Distinct(RotatedRight(t)) && Nodes(RotatedRight(t)) == Nodes(t)
    ensures var was, elm, tmp, b := CellIn(t, p, x), t.node, t.left.node, Root(t.left.right);
            CellIn(RotatedRight(t), p, x) ==
            if x == elm then was.(left := b, parent := tmp)
            else if x == tmp then was.(right := elm, parent := p)
            else if x == b then was.(parent := elm)
            else was
  {
    var l, d, elm := t.left, t.right, t.node;
    var inner := Bin(l.right, elm, t.color, d);
    assert Distinct(l) && Nodes(l) == Nodes(l.left) + {l.node} + Nodes(l.right);
    assert Distinct(inner) && Nodes(inner) == Nodes(l.right) + {elm} + Nodes(d);
    if x in Nodes(l.right) {
      assert CellIn(t, p, x) == CellIn(l, elm, x) == CellIn(l.right, l.node, x);
      assert CellIn(RotatedRight(t), p, x) == CellIn(inner, l.node, x) == CellIn(l.right, elm, x);
      MovedCell(l.right, l.node, elm, x);
    } else if x in Nodes(l) {
      assert CellIn(t, p, x) == CellIn(l, elm, x);
    } else {
      assert CellIn(RotatedRight(t), p, x) == CellIn(inner, l.node, x);
    }
  }

  /** What a left rotation reads: the entries around the rotated edge. */
  lemma {:induction false} RotatedLeftSite(c: Context, t: Tree)
    requires t.Bin? && t.right.Bin? && Distinct(Plug(c, t))
    ensures var tree, r, b := Plug(c, t), t.right, Root(t.right.left);
            t.node in Nodes(tree) && r.node in Nodes(tree) && t.node != r.node &&
            CellIn(tree, null, t.node) == Cell(Root(t.left), Root(t.right), ParentOf(c), t.color) &&
            CellIn(tree, null, r.node) == Cell(Root(r.left), Root(r.right), t.node, r.color) &&
            (b != null ==> b in Nodes(tree) && b != t.node && b != r.node && b != ParentOf(c))
    ensures !c.Top? ==> c.node in Nodes(Plug(c, t)) && c.node != t.node && c.node != t.right.node
    ensures !c.Top? ==> (CellIn(Plug(c, t), null, c.node).left == t.node <==> c.InLeft?)
    ensures Root(Plug(c, t)) == if c.Top? then t.node else Root(Plug(c, RotatedLeft(t)))
    ensures c.Top? ==> Root(Plug(c, RotatedLeft(t))) == t.right.node
  {
    var r := t.right;
    PlugDistinct(c, t);
    FocusCell(c, t);
    FocusCell(InRight(c, t.node, t.color, t.left), t.right);
    FocusCell(InLeft(InRight(c, t.node, t.color, t.left), r.node, r.color, r.right), r.left);
    PlugRoot(c, t);
    PlugRoot(c, RotatedLeft(t));
  }

  /** The entries a left rotation changes in the whole tree. */
  lemma {:induction false} RotatedLeftCell(c: Context, t: Tree, x: Elem)
    requires t.Bin? && t.right.Bin? && Distinct(Plug(c, t)) && x in Nodes(Plug(c, t))
    ensures Distinct(Plug(c, RotatedLeft(t))) && Nodes(Plug(c, RotatedLeft(t))) == Nodes(Plug(c, t))
    ensures var was, elm, tmp, b := CellIn(Plug(c, t), null, x), t.node, t.right.node, Root(t.right.left);
            CellIn(Plug(c, RotatedLeft(t)), null, x) ==
            if x == elm then was.(right := b, parent := tmp)
            else if x == tmp then was.(left := elm, parent := ParentOf(c))
            else if x == b then was.(parent := elm)
            else if x == ParentOf(c) then Rehung(c, was, tmp)
            else was
  {
    PlugDistinct(c, t);
    RotatedLeftInside(t, ParentOf(c), if x in Nodes(t) then x else t.node);
    PlugDistinct(c, RotatedLeft(t));
    PlugNodes(c, t);
    PlugNodes(c, RotatedLeft(t));
    PlugCell(c, t, x);
    PlugCell(c, RotatedLeft(t), x);
    if x !in Nodes(t) {
      RefilledCell(c, Root(t), Root(RotatedLeft(t)), x);
    }
  }

  /** What a right rotation reads: the entries around the rotated edge. */
  lemma {:induction false} RotatedRightSite(c: Context, t: Tree)
    requires t.Bin? && t.left.Bin? && Distinct(Plug(c, t))
    ensures var tree, r, b := Plug(c, t), t.left, Root(t.left.right);
            t.node in Nodes(tree) && r.node in Nodes(tree) && t.node != r.node &&
            CellIn(tree, null, t.node) == Cell(Root(t.left), Root(t.right), ParentOf(c), t.color) &&
            CellIn(tree, null, r.node) == Cell(Root(r.left), Root(r.right), t.node, r.color) &&
            (b != null ==> b in Nodes(tree) && b != t.node && b != r.node && b != ParentOf(c))
    ensures !c.Top? ==> c.node in Nodes(Plug(c, t)) && c.node != t.node && c.node != t.left.node
    ensures !c.Top? ==> (CellIn(Plug(c, t), null, c.node).left == t.node <==> c.InLeft?)
    ensures Root(Plug(c, t)) == if c.Top? then t.node else Root(Plug(c, RotatedRight(t)))
    ensures c.Top? ==> Root(Plug(c, RotatedRight(t))) == t.left.node
  {
    var r := t.left;
    PlugDistinct(c, t);
    FocusCell(c, t);
    FocusCell(InLeft(c, t.node, t.color, t.right), t.left);
    FocusCell(InRight(InLeft(c, t.node, t.color, t.right), r.node, r.color, r.left), r.right);
    PlugRoot(c, t);
    PlugRoot(c, RotatedRight(t));
  }

  /** The entries a right rotation changes in the whole tree. */
  lemma {:induction false} RotatedRightCell(c: Context, t: Tree, x: Elem)
    requires t.Bin? && t.left.Bin? && Distinct(Plug(c, t)) && x in Nodes(Plug(c, t))
    ensures Distinct(Plug(c, RotatedRight(t))) && Nodes(Plug(c, RotatedRight(t))) == Nodes(Plug(c, t))
    ensures var was, elm, tmp, b := CellIn(Plug(c, t), null, x), t.node, t.left.node, Root(t.left.right);
            CellIn(Plug(c, RotatedRight(t)), null, x) ==
            if x == elm then was.(left := b, parent := tmp)
            else if x == tmp then was.(right := elm, parent := ParentOf(c))
            else if x == b then was.(parent := elm)
            else if x == ParentOf(c) then Rehung(c, was, tmp)
            else was
  {
    PlugDistinct(c, t);
    RotatedRightInside(t, ParentOf(c), if x in Nodes(t) then x else t.node);
    PlugDistinct(c, RotatedRight(t));
    PlugNodes(c, t);
    PlugNodes(c, RotatedRight(t));
    PlugCell(c, t, x);
    PlugCell(c, RotatedRight(t), x);
    if x !in Nodes(t) {
      RefilledCell(c, Root(t), Root(RotatedRight(t)), x);
    }
  }

  /** Painting a node changes its entry only. */
  lemma {:induction false} PaintedCell(c: Context, t: Tree, col: Color, x: Elem)
    requires t.Bin? && Distinct(Plug(c, t)) && x in Nodes(Plug(c, t))
    ensures Distinct(Plug(c, t.(color := col))) && Nodes(Plug(c, t.(color := col))) == Nodes(Plug(c, t))
    ensures Root(Plug(c, t.(color := col))) == Root(Plug(c, t))
    ensures var was := CellIn(Plug(c, t), null, x);
            CellIn(Plug(c, t.(color := col)), null, x) == if x == t.node then was.(color := col) else was
  {
    var t' := t.(color := col);
    PlugDistinct(c, t);
    PlugDistinct(c, t');
    PlugNodes(c, t);
    PlugNodes(c, t');
    PlugCell(c, t, x);
    PlugCell(c, t', x);
    PlugRoot(c, t);
    PlugRoot(c, t');
  }

  /** Below a proper context the root of the whole tree is a node of the context. */
  lemma {:induction false} TopInContext(c: Context, hole: Elem?)
    ensures !c.Top? ==> TopOf(c, hole) != null && TopOf(c, hole) in ContextNodes(c)
  {
    if !c.Top? {
      TopInContext(c.up, c.node);
    }
  }

  /** The context of a node inside `t`, itself in the hole of `outer`. */
  lemma {:induction false} Focus(outer: Context, t: Tree, e: Elem) returns (c: Context, s: Tree)
    requires e in Nodes(t)
    ensures Plug(c, s) == Plug(outer, t) && s.Bin? && s.node == e
    decreases t
  {
    match t
    case Bin(l, n, col, r) =>
      if n == e {
        c, s := outer, t;
      } else if e in Nodes(l) {
        c, s := Focus(InLeft(outer, n, col, r), l, e);
      } else {
        c, s := Focus(InRight(outer, n, col, l), r, e);
      }
  }

  /** Trees with the same contents are interchangeable in a context. */
  lemma {:induction false} SameContents(c: Context, t: Tree, c': Context, t': Tree)
    requires Before(c) + InOrder(t) + After(c) == Before(c') + InOrder(t') + After(c')
    ensures InOrder(Plug(c, t)) == InOrder(Plug(c', t')) && Nodes(Plug(c, t)) == Nodes(Plug(c', t'))
  {
    PlugInOrder(c, t);
    PlugInOrder(c', t');
    NodesInOrder(Plug(c, t));
    NodesInOrder(Plug(c', t'));
  }

  // ---------------------------------------------------------------- lemmas on the rules

  /** Filling the hole admissibly gives a red-black tree. */
  lemma {:induction false} PlugBalanced(c: Context, t: Tree, h: nat)
    requires BalancedContext(c, h) && Balanced(t, h)
    requires NeedsBlack(c) ==> BlackRoot(t)
    ensures IsRedBlack(Plug(c, t))
  {
    match c
    case Top =>
    case InLeft(up, n, col, r) =>
      PlugBalanced(up, Bin(t, n, col, r), if col == Black then h + 1 else h);
    case InRight(up, n, col, l) =>
      PlugBalanced(up, Bin(l, n, col, t), if col == Black then h + 1 else h);
  }

  /** Any subtree of a red-black tree is balanced and its context fits it. */
  lemma {:induction false} UnplugBalanced(c: Context, t: Tree, height: nat) returns (h: nat)
    requires Balanced(Plug(c, t), height) && BlackRoot(Plug(c, t))
    ensures Balanced(t, h) && BalancedContext(c, h)
    ensures NeedsBlack(c) ==> BlackRoot(t)
  {
    match c
    case Top => h := height;
    case InLeft(up, n, col, r) =>
      h := UnplugBalanced(up, Bin(t, n, col, r), height);
      if col == Black { h := h - 1; }
    case InRight(up, n, col, l) =>
      h := UnplugBalanced(up, Bin(l, n, col, t), height);
      if col == Black { h := h - 1; }
  }

  // ---------------------------------------------------------------- insertion

  /** One turn of the loop of RB_INSERT_COLOR on ghost trees: the new focus. */
  ghost function InsertStep(c: Context, t: Tree): (Context, Tree)
    requires t.Bin? && !c.Top? && !c.up.Top?
  {
    var p := Climb(c, t);
    var g := Climb(c.up, p);
    var up := c.up.up;
    if !BlackRoot(c.up.sibling) then
      (up, Bin(Blackened(g.left), g.node, Red, Blackened(g.right)))
    else if c.up.InLeft? then
      var q := if c.InRight? then RotatedLeft(p) else p;
      (InLeft(up, q.node, Black, Bin(q.right, g.node, Red, g.right)), q.left)
    else
      var q := if c.InLeft? then RotatedRight(p) else p;
      (InRight(up, q.node, Black, Bin(g.left, g.node, Red, q.left)), q.right)
  }

  /** A red tree that is well placed but for the colour of the node above it. */
  ghost predicate RedFocus(c: Context, t: Tree, h: nat) {
    t.Bin? && t.color == Red && Balanced(t, h) && BalancedContext(c, h)
  }

  /** The two groupings of three subtrees around two nodes. */
  lemma {:induction false} Regrouped(a: Tree, x: Elem, b: Tree, y: Elem, d: Tree, c1: Color, c2: Color, c3: Color,
                                     c4: Color)
    ensures InOrder(Bin(a, x, c1, Bin(b, y, c2, d))) == InOrder(Bin(Bin(a, x, c3, b), y, c4, d))
  {
    assert InOrder(Bin(b, y, c2, d)) == InOrder(b) + [y] + InOrder(d);
    assert InOrder(Bin(a, x, c3, b)) == InOrder(a) + [x] + InOrder(b);
  }

  lemma {:induction false} InsertStepContents(c: Context, t: Tree)
    requires t.Bin? && !c.Top? && !c.up.Top?
    ensures var (c', t') := InsertStep(c, t);
            InOrder(Plug(c', t')) == InOrder(Plug(c, t)) && Nodes(Plug(c', t')) == Nodes(Plug(c, t))
  {
    var p, up := Climb(c, t), c.up.up;
    var g := Climb(c.up, p);
    var (c', t') := InsertStep(c, t);
    var recolored := !BlackRoot(c.up.sibling);
    var x := if recolored then t' else Climb(c', t');
    if recolored {
      assert InOrder(Blackened(g.left)) == InOrder(g.left) && InOrder(Blackened(g.right)) == InOrder(g.right);
    } else if c.up.InLeft? {
      var q := if c.InRight? then RotatedLeft(p) else p;
      if c.InRight? { Regrouped(p.left, p.node, t.left, t.node, t.right, p.color, t.color, p.color, t.color); }
      Regrouped(q.left, q.node, q.right, g.node, g.right, Black, Red, q.color, g.color);
      assert InOrder(q) == InOrder(p);
      assert InOrder(Bin(q, g.node, g.color, g.right)) == InOrder(q) + [g.node] + InOrder(g.right);
      assert x == Bin(q.left, q.node, Black, Bin(q.right, g.node, Red, g.right));
      assert InOrder(x) == InOrder(g);
    } else {
      var q := if c.InLeft? then RotatedRight(p) else p;
      if c.InLeft? { Regrouped(t.left, t.node, t.right, p.node, p.right, t.color, p.color, t.color, p.color); }
      Regrouped(g.left, g.node, q.left, q.node, q.right, g.color, q.color, Red, Black);
      assert InOrder(q) == InOrder(p);
      assert InOrder(Bin(g.left, g.node, g.color, q)) == InOrder(g.left) + [g.node] + InOrder(q);
      assert x == Bin(Bin(g.left, g.node, Red, q.left), q.node, Black, q.right);
      assert InOrder(x) == InOrder(g);
    }
    assert InOrder(x) == InOrder(g);
    SameContents(up, g, up, x);
  }

  lemma {:induction false} InsertStepKeeps(c: Context, t: Tree, h: nat) returns (h': nat)
    requires RedFocus(c, t, h) && !c.Top? && c.color == Red
    ensures !c.up.Top?
    ensures var (c', t') := InsertStep(c, t);
            RedFocus(c', t', h') && (c' < c || !NeedsBlack(c'))
  {
    h' := if BlackRoot(c.up.sibling) then h else h + 1;
    var p, u, up := Climb(c, t), c.up.sibling, c.up.up;
    assert BalancedContext(c.up, h) && Balanced(c.sibling, h) && BlackRoot(c.sibling);
    assert Balanced(u, h) && BalancedContext(up, h + 1);
    if !BlackRoot(u) {
      assert Balanced(Blackened(u), h + 1) && Balanced(Blackened(p), h + 1);
    }
  }

  /** Once the node above is not red, painting the root black completes the repair. */
  lemma {:induction false} InsertDone(c: Context, t: Tree, h: nat)
    requires RedFocus(c, t, h) && (NeedsBlack(c) ==> c.Top?)
    ensures IsRedBlack(Blackened(Plug(c, t))) && Plug(c, t).Bin?
  {
    if c.Top? {
      assert Balanced(Blackened(t), h + 1);
    } else {
      PlugBalanced(c, t, h);
      PlugRoot(c, t);
      TopInContext(c, t.node);
    }
  }

  /** A new red leaf in an empty hole changes only the entry of the node above. */
  lemma {:induction false} PlantedCell(c: Context, elm: Elem, x: Elem)
    requires Distinct(Plug(c, Nil)) && elm !in Nodes(Plug(c, Nil)) && x in Nodes(Plug(c, Nil)) + {elm}
    ensures var leaf := Bin(Nil, elm, Red, Nil);
            Distinct(Plug(c, leaf)) && Nodes(Plug(c, leaf)) == Nodes(Plug(c, Nil)) + {elm} &&
            CellIn(Plug(c, leaf), null, x) ==
            if x == elm then Cell(null, null, ParentOf(c), Red)
            else if x == ParentOf(c) then Rehung(c, CellIn(Plug(c, Nil), null, x), elm)
            else CellIn(Plug(c, Nil), null, x)
  {
    var leaf := Bin(Nil, elm, Red, Nil);
    PlugDistinct(c, Nil);
    PlugDistinct(c, leaf);
    PlugNodes(c, Nil);
    PlugNodes(c, leaf);
    PlugCell(c, leaf, x);
    if x != elm {
      PlugCell(c, Nil, x);
      RefilledCell(c, null, elm, x);
    }
  }

  // ---------------------------------------------------------------- searching

  ghost predicate AllLess(s: seq<Elem>, key: int) {
    forall i :: 0 <= i < |s| ==> s[i].key < key
  }

  ghost predicate AllGreater(s: seq<Elem>, key: int) {
    forall i :: 0 <= i < |s| ==> key < s[i].key
  }

  /** The key belongs in the hole of `c`. */
  ghost predicate Brackets(c: Context, key: int) {
    AllLess(Before(c), key) && AllGreater(After(c), key)
  }

  lemma {:induction false} DescendSequences(b: seq<Elem>, l: seq<Elem>, n: Elem, r: seq<Elem>, a: seq<Elem>, key: int)
    requires Sorted(b + (l + [n] + r) + a) && AllLess(b, key) && AllGreater(a, key)
    ensures key < n.key ==> AllGreater([n] + r + a, key)
    ensures key > n.key ==> AllLess(b + l + [n], key)
  {
    var s, k := b + (l + [n] + r) + a, |b| + |l|;
    assert s[k] == n;
    forall i | 0 <= i < |r| ensures n.key < r[i].key {
      assert s[k + 1 + i] == r[i];
    }
    forall i | 0 <= i < |l| ensures l[i].key < n.key {
      assert s[|b| + i] == l[i];
    }
  }

  /** One comparison of a descent (lib/tree.h:604-613): the key stays bracketed. */
  lemma {:induction false} Descend(c: Context, t: Tree, key: int)
    requires t.Bin? && Sorted(InOrder(Plug(c, t))) && Brackets(c, key)
    ensures key < t.node.key ==> Brackets(InLeft(c, t.node, t.color, t.right), key)
    ensures key > t.node.key ==> Brackets(InRight(c, t.node, t.color, t.left), key)
  {
    PlugInOrder(c, t);
    DescendSequences(Before(c), InOrder(t.left), t.node, InOrder(t.right), After(c), key);
  }

  /** A bracketed key below which nothing hangs is not in the tree; it fits there. */
  lemma {:induction false} Absent(c: Context, key: int)
    requires Sorted(InOrder(Plug(c, Nil))) && Brackets(c, key)
    ensures InOrder(Plug(c, Nil)) == Before(c) + After(c)
    ensures forall i :: 0 <= i < |InOrder(Plug(c, Nil))| ==> InOrder(Plug(c, Nil))[i].key != key
  {
    PlugInOrder(c, Nil);
  }

  lemma {:induction false} MiddleOf(p: seq<Elem>, n: Elem, q: seq<Elem>)
    requires Sorted(p + [n] + q)
    ensures AllLess(p, n.key)
    ensures (p + [n] + q)[..|p|] == p && First((p + [n] + q)[|p|..]) == n
  {
    var s := p + [n] + q;
    assert s[|p|] == n;
    forall j | 0 <= j < |p| ensures p[j].key < n.key {
      assert s[j] == p[j];
    }
  }

  /** A node with the key is the first element not below it. */
  lemma {:induction false} FoundFirst(c: Context, t: Tree)
    requires t.Bin? && Sorted(InOrder(Plug(c, t)))
    ensures var s, i := InOrder(Plug(c, t)), |Before(c) + InOrder(t.left)|;
            0 <= i < |s| && AllLess(s[..i], t.node.key) && First(s[i..]) == t.node
  {
    var p, q := Before(c) + InOrder(t.left), InOrder(t.right) + After(c);
    PlugInOrder(c, t);
    Reassociate(Before(c), InOrder(t.left), t.node, InOrder(t.right), After(c));
    MiddleOf(p, t.node, q);
  }

  lemma {:induction false} SortedInsert(a: seq<Elem>, e: Elem, b: seq<Elem>)
    requires Sorted(a + b) && AllLess(a, e.key) && AllGreater(b, e.key)
    ensures Sorted(a + [e] + b)
  {
    SortedConcat(a, b);
    SortedConcat(a, [e]);
    SortedConcat(a + [e], b);
  }

  /** A new leaf where its key belongs joins the contents in order. */
  lemma {:induction false} PlantedContents(c: Context, e: Elem)
    requires Sorted(InOrder(Plug(c, Nil))) && Brackets(c, e.key)
    ensures var t := Plug(c, Bin(Nil, e, Red, Nil));
            InOrder(t) == Before(c) + [e] + After(c) && Sorted(InOrder(t)) &&
            Nodes(t) == Nodes(Plug(c, Nil)) + {e} && ContextNodes(c) == Nodes(Plug(c, Nil))
  {
    Absent(c, e.key);
    SortedInsert(Before(c), e, After(c));
    PlugInOrder(c, Bin(Nil, e, Red, Nil));
    PlugNodes(c, Nil);
    PlugNodes(c, Bin(Nil, e, Red, Nil));
  }

  // ---------------------------------------------------------------- removal

  /** A subtree that is one black node short of what its context expects; a red root would
      make up for it when painted black. */
  ghost predicate Deficient(c: Context, t: Tree, h: nat) {
    BalancedContext(c, h + 1) && (if BlackRoot(t) then Balanced(t, h) else Balanced(Blackened(t), h + 1))
  }

  /** Rotating a red sibling away (lib/tree.h:458-462 and 491-495): the new context of the
      deficient subtree. */
  ghost function SiblingStep(c: Context): Context
    requires !c.Top?
  {
    var w := c.sibling;
    if BlackRoot(w) then c
    else if c.InLeft? then InLeft(InLeft(c.up, w.node, Black, w.right), c.node, Red, w.left)
    else InRight(InRight(c.up, w.node, Black, w.left), c.node, Red, w.right)
  }

  /** Both children of the sibling are black: the deficiency moves up. */
  ghost predicate MovesUp(c: Context) {
    !c.Top? && c.sibling.Bin? && BlackRoot(c.sibling.left) && BlackRoot(c.sibling.right)
  }

  /** The sibling turned so that its outer child is red (lib/tree.h:471-480 and 504-513). */
  ghost function TurnedSibling(c: Context): (s: Tree)
    requires !c.Top? && c.sibling.Bin? && !MovesUp(c)
    ensures s.Bin? && (c.InLeft? ==> s.right.Bin?) && (c.InRight? ==> s.left.Bin?)
  {
    var s := c.sibling;
    if c.InLeft? && BlackRoot(s.right) then RotatedRight(Bin(Blackened(s.left), s.node, Red, s.right))
    else if c.InRight? && BlackRoot(s.left) then RotatedLeft(Bin(s.left, s.node, Red, Blackened(s.right)))
    else s
  }

  /** The subtree after the last rotation of RB_REMOVE_COLOR (lib/tree.h:481-485 and 514-518). */
  ghost function Repaired(c: Context, t: Tree): Tree
    requires !c.Top? && c.sibling.Bin? && !MovesUp(c)
  {
    var s := TurnedSibling(c);
    if c.InLeft? then Bin(Bin(t, c.node, Black, s.left), s.node, c.color, Blackened(s.right))
    else Bin(Blackened(s.left), s.node, c.color, Bin(s.right, c.node, Black, t))
  }

  /** The subtree one level up after the sibling is painted red (lib/tree.h:467-469 and 500-502). */
  ghost function PushedUp(c: Context, t: Tree): Tree
    requires !c.Top? && c.sibling.Bin?
  {
    Climb(WithSibling(c, c.sibling.(color := Red)), t)
  }

  lemma {:induction false} SiblingStepKeeps(c: Context, t: Tree, h: nat)
    requires !c.Top? && Deficient(c, t, h)
    ensures c.sibling.Bin?
    ensures var c' := SiblingStep(c);
            !c'.Top? && c'.sibling.Bin? && BlackRoot(c'.sibling) && Deficient(c', t, h)
    ensures !BlackRoot(c.sibling) ==> SiblingStep(c).color == Red
  {
    var w := c.sibling;
    if !BlackRoot(w) {
      assert Balanced(w.left, h + 1) && Balanced(w.right, h + 1);
    }
  }

  lemma {:induction false} SiblingStepContents(c: Context, t: Tree)
    requires !c.Top?
    ensures InOrder(Plug(SiblingStep(c), t)) == InOrder(Plug(c, t))
    ensures Nodes(Plug(SiblingStep(c), t)) == Nodes(Plug(c, t))
  {
    var w, n := c.sibling, c.node;
    if !BlackRoot(w) {
      var c' := SiblingStep(c);
      if c.InLeft? {
        Regrouped(t, n, w.left, w.node, w.right, c.color, w.color, Red, Black);
      } else {
        Regrouped(w.left, w.node, w.right, n, t, Black, Red, w.color, c.color);
      }
      SameContents(c.up, Climb(c, t), c.up, Climb(c'.up, Climb(c', t)));
    }
  }

  lemma {:induction false} PushedUpKeeps(c: Context, t: Tree, h: nat) returns (h': nat)
    requires BlackRoot(t) && Deficient(c, t, h) && MovesUp(c) && BlackRoot(c.sibling)
    ensures Deficient(c.up, PushedUp(c, t), h')
    ensures BlackRoot(PushedUp(c, t)) <==> c.color == Black
    ensures InOrder(Plug(c.up, PushedUp(c, t))) == InOrder(Plug(c, t))
    ensures Nodes(Plug(c.up, PushedUp(c, t))) == Nodes(Plug(c, t))
  {
    h' := if c.color == Black then h + 1 else h;
    assert InOrder(c.sibling.(color := Red)) == InOrder(c.sibling);
    SameContents(c.up, Climb(c, t), c.up, PushedUp(c, t));
  }

  lemma {:induction false} TurnedSiblingKeeps(c: Context, h: nat)
    requires !c.Top? && c.sibling.Bin? && !MovesUp(c) && BlackRoot(c.sibling) && Balanced(c.sibling, h + 1)
    ensures var s := TurnedSibling(c);
            InOrder(s) == InOrder(c.sibling) && BlackRoot(s) && Balanced(s, h + 1) &&
            !BlackRoot(if c.InLeft? then s.right else s.left)
  {
    var s := c.sibling;
    if c.InLeft? && BlackRoot(s.right) {
      var l := s.left;
      Regrouped(l.left, l.node, l.right, s.node, s.right, Black, Red, l.color, s.color);
    } else if c.InRight? && BlackRoot(s.left) {
      var r := s.right;
      Regrouped(s.left, s.node, r.left, r.node, r.right, s.color, r.color, Red, Black);
    }
  }

  lemma {:induction false} RepairedKeeps(c: Context, t: Tree, h: nat)
    requires BlackRoot(t) && Deficient(c, t, h) && !c.Top? && c.sibling.Bin? && !MovesUp(c) && BlackRoot(c.sibling)
    ensures IsRedBlack(Plug(c.up, Repaired(c, t)))
    ensures InOrder(Plug(c.up, Repaired(c, t))) == InOrder(Plug(c, t))
    ensures Nodes(Plug(c.up, Repaired(c, t))) == Nodes(Plug(c, t))
  {
    var s, x := TurnedSibling(c), Repaired(c, t);
    TurnedSiblingKeeps(c, h);
    if c.InLeft? {
      Regrouped(t, c.node, s.left, s.node, s.right, c.color, s.color, Black, c.color);
    } else {
      Regrouped(s.left, s.node, s.right, c.node, t, c.color, Black, s.color, c.color);
    }
    SameContents(c.up, Climb(c, t), c.up, x);
    PlugBalanced(c.up, x, if c.color == Black then h + 2 else h + 1);
  }

  /** The loop ends at the root or at a red node; painting it black completes the repair. */
  lemma {:induction false} RemoveDone(c: Context, t: Tree, h: nat)
    requires Deficient(c, t, h) && (c.Top? || !BlackRoot(t))
    ensures IsRedBlack(Plug(c, Blackened(t)))
    ensures InOrder(Plug(c, Blackened(t))) == InOrder(Plug(c, t))
  {
    SameContents(c, t, c, Blackened(t));
    PlugBalanced(c, Blackened(t), if BlackRoot(t) then h else h + 1);
  }

  /** What one turn of the loop of RB_REMOVE_COLOR achieves, on ghost trees. */
  lemma {:induction false} RemoveStepKeeps(c: Context, t: Tree, h: nat) returns (h': nat)
    requires !c.Top? && BlackRoot(t) && Deficient(c, t, h)
    ensures var s := SiblingStep(c);
            !s.Top? && s.sibling.Bin? && BlackRoot(s.sibling) && Balanced(s.sibling, h + 1) &&
            Nodes(Plug(s, t)) == Nodes(Plug(c, t)) &&
            if MovesUp(s) then
              Deficient(s.up, PushedUp(s, t), h') &&
              (!BlackRoot(PushedUp(s, t)) || s.up < c) &&
              InOrder(Plug(s.up, PushedUp(s, t))) == InOrder(Plug(c, t)) &&
              Nodes(Plug(s.up, PushedUp(s, t))) == Nodes(Plug(c, t))
            else
              IsRedBlack(Plug(s.up, Repaired(s, t))) &&
              InOrder(Plug(s.up, Repaired(s, t))) == InOrder(Plug(c, t)) &&
              Nodes(Plug(s.up, Repaired(s, t))) == Nodes(Plug(c, t))
  {
    var s := SiblingStep(c);
    SiblingStepKeeps(c, t, h);
    SiblingStepContents(c, t);
    h' := h;
    if MovesUp(s) {
      h' := PushedUpKeeps(s, t, h);
    } else {
      RepairedKeeps(s, t, h);
    }
  }

  // ---------------------------------------------------------------- taking a node out

  /** The only subtree of a node with at most one child. */
  ghost function OnlyChild(t: Tree): Tree
    requires t.Bin? && (t.left.Nil? || t.right.Nil?)
  {
    if t.left.Nil? then t.right else t.left
  }

  /** Replacing a node with at most one child by that child (lib/tree.h:578-589). */
  lemma {:induction false} CutCell(c: Context, t: Tree, x: Elem)
    requires t.Bin? && (t.left.Nil? || t.right.Nil?) && Distinct(Plug(c, t))
    requires x in Nodes(Plug(c, t)) && x != t.node
    ensures var s := OnlyChild(t);
            Distinct(Plug(c, s)) && Nodes(Plug(c, s)) == Nodes(Plug(c, t)) - {t.node} &&
            var was := CellIn(Plug(c, t), null, x);
            CellIn(Plug(c, s), null, x) ==
            if x == Root(s) then was.(parent := ParentOf(c))
            else if x == ParentOf(c) then Rehung(c, was, Root(s))
            else was
  {
    var s := OnlyChild(t);
    PlugDistinct(c, t);
    PlugDistinct(c, s);
    PlugNodes(c, t);
    PlugNodes(c, s);
    PlugCell(c, t, x);
    PlugCell(c, s, x);
    if x in Nodes(s) {
      MovedCell(s, t.node, ParentOf(c), x);
    } else {
      RefilledCell(c, t.node, Root(s), x);
    }
  }

  /** Putting the unlinked node `e` in the place of the root of `t` (lib/tree.h:558-569). */
  lemma {:induction false} SwapCell(c: Context, t: Tree, e: Elem, x: Elem)
    requires t.Bin? && Distinct(Plug(c, t)) && e !in Nodes(Plug(c, t))
    requires x in Nodes(Plug(c, t)) - {t.node} + {e}
    ensures var t' := t.(node := e);
            t.node in Nodes(Plug(c, t)) &&
            Distinct(Plug(c, t')) && Nodes(Plug(c, t')) == Nodes(Plug(c, t)) - {t.node} + {e} &&
            CellIn(Plug(c, t'), null, x) ==
            if x == e then CellIn(Plug(c, t), null, t.node)
            else var was := CellIn(Plug(c, t), null, x);
              if x == ParentOf(c) then Rehung(c, was, e)
              else if x == Root(t.left) || x == Root(t.right) then was.(parent := e)
              else was
  {
    var t' := t.(node := e);
    PlugDistinct(c, t);
    PlugNodes(c, t);
    PlugNodes(c, t');
    PlugDistinct(c, t');
    PlugCell(c, t', x);
    FocusCell(c, t);
    if x != e {
      PlugCell(c, t, x);
      if x in Nodes(t.left) {
        MovedCell(t.left, t.node, e, x);
      } else if x in Nodes(t.right) {
        MovedCell(t.right, t.node, e, x);
      } else {
        RefilledCell(c, t.node, e, x);
      }
    }
  }

  /** The whole-tree facts about cutting, and the nodes it touches. */
  lemma {:induction false} CutSite(c: Context, t: Tree)
    requires t.Bin? && (t.left.Nil? || t.right.Nil?) && Distinct(Plug(c, t))
    ensures var s := OnlyChild(t);
            Distinct(Plug(c, s)) && Nodes(Plug(c, s)) == Nodes(Plug(c, t)) - {t.node} &&
            Root(Plug(c, s)) == (if c.Top? then Root(s) else Root(Plug(c, t))) &&
            (s.Bin? ==> s.node in Nodes(Plug(c, t)) && s.node != t.node && s.node != ParentOf(c))
  {
    var s := OnlyChild(t);
    PlugDistinct(c, t);
    PlugDistinct(c, s);
    PlugNodes(c, t);
    PlugNodes(c, s);
    PlugRoot(c, t);
    PlugRoot(c, s);
  }

  lemma {:induction false} SwapSite(c: Context, t: Tree, e: Elem)
    requires t.Bin? && Distinct(Plug(c, t)) && e !in Nodes(Plug(c, t))
    ensures var t' := t.(node := e);
            Distinct(Plug(c, t')) && Nodes(Plug(c, t')) == Nodes(Plug(c, t)) - {t.node} + {e} &&
            Root(Plug(c, t')) == (if c.Top? then e else Root(Plug(c, t))) &&
            t.node != ParentOf(c) && Nodes(t.left) !! Nodes(t.right)
    ensures t.left.Bin? ==> t.left.node in Nodes(Plug(c, t)) && t.left.node in Nodes(t.left) &&
                            t.left.node != t.node && t.left.node != ParentOf(c)
    ensures t.right.Bin? ==> t.right.node in Nodes(Plug(c, t)) && t.right.node in Nodes(t.right) &&
                             t.right.node != t.node && t.right.node != ParentOf(c)
  {
    var t' := t.(node := e);
    PlugDistinct(c, t);
    PlugNodes(c, t);
    PlugNodes(c, t');
    PlugDistinct(c, t');
    PlugRoot(c, t);
    PlugRoot(c, t');
  }

  /** What taking out a node with at most one child does to the heights. */
  lemma {:induction false} CutKeeps(c: Context, t: Tree, h: nat)
    requires t.Bin? && (t.left.Nil? || t.right.Nil?) && Balanced(t, h) && BalancedContext(c, h)
    ensures t.color == Black ==> Deficient(c, OnlyChild(t), 0)
    ensures t.color == Red ==> IsRedBlack(Plug(c, OnlyChild(t)))
  {
    var s := OnlyChild(t);
    if t.color == Red {
      assert s.Nil?;
      PlugBalanced(c, s, 0);
    }
  }

  /** The path to the leftmost node below `inner`. */
  ghost predicate Leftmost(inner: Context) {
    inner.Top? || (inner.InLeft? && Leftmost(inner.up))
  }

  lemma {:induction false} LeftmostCompose(outer: Context, inner: Context)
    requires Leftmost(inner)
    ensures Before(Compose(outer, inner)) == Before(outer)
    ensures After(Compose(outer, inner)) == After(inner) + After(outer)
  {
    if inner.InLeft? {
      LeftmostCompose(outer, inner.up);
    }
  }

  /** The heights around a hole do not depend on which node stands above. */
  lemma {:induction false} RenamedBalanced(c: Context, n: Elem, m: Elem, col: Color, l: Tree, inner: Context, h: nat)
    requires BalancedContext(Compose(InRight(c, n, col, l), inner), h)
    ensures BalancedContext(Compose(InRight(c, m, col, l), inner), h)
    decreases inner
  {
    if !inner.Top? {
      assert Compose(InRight(c, n, col, l), inner).up == Compose(InRight(c, n, col, l), inner.up);
      assert Compose(InRight(c, m, col, l), inner).up == Compose(InRight(c, m, col, l), inner.up);
      var k := if inner.color == Black then h + 1 else h;
      RenamedBalanced(c, n, m, col, l, inner.up, k);
    }
  }

  /** `after` is `before` without the element `e`, which occurs in it. */
  ghost predicate Without(before: seq<Elem>, e: Elem, after: seq<Elem>) {
    exists i :: 0 <= i < |before| && before[i] == e && after == before[..i] + before[i + 1..]
  }

  lemma WithoutMiddle(a: seq<Elem>, e: Elem, b: seq<Elem>)
    ensures Without(a + [e] + b, e, a + b)
  {
    var s := a + [e] + b;
    assert s[|a|] == e && s[..|a|] == a && s[|a| + 1..] == b;
  }

  /** Removing a node from the middle of a sorted sequence. */
  lemma {:induction false} RemoveMiddle(p: seq<Elem>, l: seq<Elem>, e: Elem, r: seq<Elem>, q: seq<Elem>)
    requires Sorted(p + (l + [e] + r) + q)
    ensures Without(p + (l + [e] + r) + q, e, p + (l + r) + q) && Sorted(p + (l + r) + q)
  {
    hide Sorted, Without;
    var a, b := p + l, r + q;
    Reassociate(p, l, e, r, q);
    assert p + (l + r) + q == a + b;
    SortedConcat(a + [e], b);
    SortedConcat(a, [e]);
    SortedConcat(a, b);
    WithoutMiddle(a, e, b);
  }

  /** Contents before and after cutting a node with at most one child. */
  lemma {:induction false} CutContents(c: Context, t: Tree)
    requires t.Bin? && (t.left.Nil? || t.right.Nil?) && Sorted(InOrder(Plug(c, t)))
    ensures Without(InOrder(Plug(c, t)), t.node, InOrder(Plug(c, OnlyChild(t))))
    ensures Sorted(InOrder(Plug(c, OnlyChild(t))))
  {
    var l, r := InOrder(t.left), InOrder(t.right);
    PlugInOrder(c, t);
    PlugInOrder(c, OnlyChild(t));
    assert InOrder(OnlyChild(t)) == l + r;
    RemoveMiddle(Before(c), l, t.node, r, After(c));
  }

  lemma {:induction false} LeftmostBefore(inner: Context)
    requires Leftmost(inner)
    ensures Before(inner) == []
  {
    if inner.InLeft? { LeftmostBefore(inner.up); }
  }

  lemma {:induction false} SuccessorFirst(inner: Context, m: Tree)
    requires m.Bin? && m.left.Nil? && Leftmost(inner)
    ensures InOrder(Plug(inner, m)) == [m.node] + InOrder(Plug(inner, m.right))
  {
    LeftmostBefore(inner);
    PlugInOrder(inner, m);
    PlugInOrder(inner, m.right);
    assert InOrder(m) == [m.node] + InOrder(m.right);
  }

  /** Cutting the successor `m` of the root of `t` and putting it in the root's place removes
      exactly the root. */
  lemma {:induction false} SuccessorContents(c: Context, t: Tree, inner: Context, m: Tree)
    requires t.Bin? && m.Bin? && m.left.Nil? && Leftmost(inner) && t.right == Plug(inner, m)
    requires Sorted(InOrder(Plug(c, t)))
    ensures var t' := Bin(t.left, m.node, t.color, Plug(inner, m.right));
            Without(InOrder(Plug(c, t)), t.node, InOrder(Plug(c, t'))) && Sorted(InOrder(Plug(c, t')))
  {
    var rest := Plug(inner, m.right);
    var t' := Bin(t.left, m.node, t.color, rest);
    SuccessorFirst(inner, m);
    assert InOrder(t') == InOrder(t.left) + InOrder(t.right) by {
      assert InOrder(t.left) + ([m.node] + InOrder(rest)) == InOrder(t.left) + [m.node] + InOrder(rest);
    }
    PlugInOrder(c, t);
    PlugInOrder(c, t');
    RemoveMiddle(Before(c), InOrder(t.left), t.node, InOrder(t.right), After(c));
  }

  /** The context of the successor of the root of `t`, before and after the exchange. */
  lemma {:induction false} SuccessorSites(c: Context, t: Tree, inner: Context, m: Tree)
    requires t.Bin? && m.Bin? && t.right == Plug(inner, m)
    ensures var site := Compose(InRight(c, t.node, t.color, t.left), inner);
            Plug(site, m) == Plug(c, t) &&
            Plug(site, m.right) == Plug(c, Bin(t.left, t.node, t.color, Plug(inner, m.right))) &&
            ParentOf(site) == if inner.Top? then t.node else inner.node
    ensures var site' := Compose(InRight(c, m.node, t.color, t.left), inner);
            Plug(site', m.right) == Plug(c, Bin(t.left, m.node, t.color, Plug(inner, m.right))) &&
            ParentOf(site') == if inner.Top? then m.node else inner.node
    ensures m.node in Nodes(Plug(c, t)) && (Distinct(Plug(c, t)) ==> m.node != t.node)
    ensures Distinct(Plug(c, t)) && !inner.Top? ==> inner.node != t.node
  {
    PlugDistinct(c, t);
    var site, site' := Compose(InRight(c, t.node, t.color, t.left), inner),
      Compose(InRight(c, m.node, t.color, t.left), inner);
    ComposePlug(InRight(c, t.node, t.color, t.left), inner, m);
    ComposePlug(InRight(c, t.node, t.color, t.left), inner, m.right);
    ComposePlug(InRight(c, m.node, t.color, t.left), inner, m.right);
    PlugNodes(inner, m);
    PlugNodes(c, t);
  }

  /** The heights after the exchange. */
  lemma {:induction false} SuccessorKeeps(c: Context, t: Tree, inner: Context, m: Tree)
    requires t.Bin? && m.Bin? && m.left.Nil? && t.right == Plug(inner, m) && IsRedBlack(Plug(c, t))
    ensures var site' := Compose(InRight(c, m.node, t.color, t.left), inner);
            if m.color == Black then Deficient(site', m.right, 0) else IsRedBlack(Plug(site', m.right))
  {
    var site := Compose(InRight(c, t.node, t.color, t.left), inner);
    var site' := Compose(InRight(c, m.node, t.color, t.left), inner);
    SuccessorSites(c, t, inner, m);
    var h := UnplugBalanced(site, m, HeightOf(Plug(c, t)));
    RenamedBalanced(c, t.node, m.node, t.color, t.left, inner, h);
    CutKeeps(site', m, h);
  }

  // ---------------------------------------------------------------- neighbours

  ghost function First(s: seq<Elem>): Elem? {
    if s == [] then null else s[0]
  }

  ghost function Last(s: seq<Elem>): Elem? {
    if s == [] then null else s[|s| - 1]
  }

  /** `r` follows `e` in `s`, or is null when `e` is the last. */
  ghost predicate Follows(s: seq<Elem>, e: Elem, r: Elem?) {
    exists i :: 0 <= i < |s| && s[i] == e && r == First(s[i + 1..])
  }

  ghost predicate Precedes(s: seq<Elem>, e: Elem, r: Elem?) {
    exists i :: 0 <= i < |s| && s[i] == e && r == Last(s[..i])
  }

  /** In a sorted sequence an element occurs once. */
  lemma SortedIndex(s: seq<Elem>, k: nat)
    requires Sorted(s) && k < |s|
    ensures forall i :: 0 <= i < |s| && s[i] == s[k] ==> i == k
  {
  }

  /** The neighbours of the node at the focus. */
  lemma {:induction false} Neighbours(c: Context, t: Tree)
    requires t.Bin?
    ensures Follows(InOrder(Plug(c, t)), t.node, First(InOrder(t.right) + After(c)))
    ensures Precedes(InOrder(Plug(c, t)), t.node, Last(Before(c) + InOrder(t.left)))
  {
    PlugInOrder(c, t);
    var a, b := Before(c) + InOrder(t.left), InOrder(t.right) + After(c);
    Reassociate(Before(c), InOrder(t.left), t.node, InOrder(t.right), After(c));
    var s := a + [t.node] + b;
    assert s[|a|] == t.node && s[..|a|] == a && s[|a| + 1..] == b;
  }

  // ---------------------------------------------------------------- height

  ghost function Height(t: Tree): nat {
    if t.Nil? then 0
    else 1 + if Height(t.left) > Height(t.right) then Height(t.left) else Height(t.right)
  }

  ghost function Pow2(n: nat): nat {
    if n == 0 then 1 else 2 * Pow2(n - 1)
  }

  lemma {:induction false} Pow2Add(m: nat, n: nat)
    ensures Pow2(m + n) == Pow2(m) * Pow2(n)
  {
    if m > 0 { Pow2Add(m - 1, n); }
  }

  lemma {:induction false} Pow2Monotone(m: nat, n: nat)
    requires m <= n
    ensures Pow2(m) <= Pow2(n)
  {
    if m < n { Pow2Monotone(m, n - 1); }
  }

  lemma SquareMonotone(m: nat, n: nat)
    requires m <= n
    ensures m * m <= n * n
  {
    assert m * m <= m * n <= n * n;
  }

  lemma {:induction false} BalancedBounds(t: Tree, h: nat)
    requires Balanced(t, h)
    ensures Pow2(h) <= |InOrder(t)| + 1
    ensures Height(t) <= 2 * h + (if BlackRoot(t) then 0 else 1)
  {
    if t.Bin? {
      var k := if t.color == Black then h - 1 else h;
      BalancedBounds(t.left, k);
      BalancedBounds(t.right, k);
    }
  }

  /** The height is at most 2 lg (n + 1) (lib/tree.h:59-60), squared to stay in the integers. */
  lemma {:induction false} HeightBound(t: Tree)
    requires IsRedBlack(t)
    ensures Pow2(Height(t)) <= (|InOrder(t)| + 1) * (|InOrder(t)| + 1)
  {
    var h := HeightOf(t);
    var n := |InOrder(t)| + 1;
    BalancedBounds(t, h);
    Pow2Monotone(Height(t), h + h);
    Pow2Add(h, h);
    SquareMonotone(Pow2(h), n);
  }
}
