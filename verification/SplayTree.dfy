/** The top-down splay tree of lib/tree.h (lines 81-294). */
module SplayTree {

  class Elem {
    const key: int
    var left: Elem?
    var right: Elem?

    constructor (k: int)
      ensures key == k
    {
      key := k;
      left, right := null, null;
    }
  }

  datatype Tree = Nil | Bin(left: Tree, node: Elem, right: Tree)

  /** The trees under construction: `Below` collects the nodes smaller than the searched
      key, each new one as the right child of the last; `Above` is its mirror image. */
  datatype Spine = End | Link(up: Spine, node: Elem, sibling: Tree)

  // ---------------------------------------------------------------- contents

  ghost function InOrder(t: Tree): seq<Elem> {
    if t.Nil? then [] else InOrder(t.left) + [t.node] + InOrder(t.right)
  }

  ghost function Nodes(t: Tree): set<Elem> {
    if t.Nil? then {} else Nodes(t.left) + {t.node} + Nodes(t.right)
  }

  ghost function SpineNodes(s: Spine): set<Elem> {
    if s.End? then {} else SpineNodes(s.up) + {s.node} + Nodes(s.sibling)
  }

  /** The contents of a left spine, whose siblings are left subtrees. */
  ghost function LeftContents(s: Spine): seq<Elem> {
    if s.End? then [] else LeftContents(s.up) + InOrder(s.sibling) + [s.node]
  }

  /** The contents of a right spine, whose siblings are right subtrees. */
  ghost function RightContents(s: Spine): seq<Elem> {
    if s.End? then [] else [s.node] + InOrder(s.sibling) + RightContents(s.up)
  }

  /** The left spine closed by the subtree `t`. */
  ghost function CloseLeft(s: Spine, t: Tree): Tree {
    if s.End? then t else CloseLeft(s.up, Bin(s.sibling, s.node, t))
  }

  ghost function CloseRight(s: Spine, t: Tree): Tree {
    if s.End? then t else CloseRight(s.up, Bin(t, s.node, s.sibling))
  }

  ghost predicate Distinct(t: Tree) {
    t.Nil? ||
    (Distinct(t.left) && Distinct(t.right) && t.node !in Nodes(t.left) && t.node !in Nodes(t.right) &&
     Nodes(t.left) !! Nodes(t.right))
  }

  ghost predicate DistinctSpine(s: Spine) {
    s.End? ||
    (DistinctSpine(s.up) && Distinct(s.sibling) && s.node !in SpineNodes(s.up) && s.node !in Nodes(s.sibling) &&
     Nodes(s.sibling) !! SpineNodes(s.up))
  }

  ghost predicate Sorted(s: seq<Elem>) {
    forall i, j :: 0 <= i < j < |s| ==> s[i].key < s[j].key
  }

  ghost predicate AllLess(s: seq<Elem>, key: int) {
    forall i :: 0 <= i < |s| ==> s[i].key < key
  }

  ghost predicate AllGreater(s: seq<Elem>, key: int) {
    forall i :: 0 <= i < |s| ==> key < s[i].key
  }

  // ---------------------------------------------------------------- the heap

  ghost function Root(t: Tree): Elem? {
    if t.Nil? then null else t.node
  }

  datatype Cell = Cell(left: Elem?, right: Elem?)

  ghost function CellIn(t: Tree, x: Elem): Cell
    requires x in Nodes(t)
  {
    if x == t.node then Cell(Root(t.left), Root(t.right))
    else if x in Nodes(t.left) then CellIn(t.left, x)
    else CellIn(t.right, x)
  }

  /** The entries of a left spine when `hole` is what its last right link holds. */
  ghost function CellLeft(s: Spine, hole: Elem?, x: Elem): Cell
    requires x in SpineNodes(s)
  {
    if x == s.node then Cell(Root(s.sibling), hole)
    else if x in Nodes(s.sibling) then CellIn(s.sibling, x)
    else CellLeft(s.up, s.node, x)
  }

  ghost function CellRight(s: Spine, hole: Elem?, x: Elem): Cell
    requires x in SpineNodes(s)
  {
    if x == s.node then Cell(hole, Root(s.sibling))
    else if x in Nodes(s.sibling) then CellIn(s.sibling, x)
    else CellRight(s.up, s.node, x)
  }

  /** The topmost node of a spine. */
  ghost function Head(s: Spine): Elem
    requires !s.End?
  {
    if s.up.End? then s.node else Head(s.up)
  }

  ghost predicate Stored(t: Tree)
    reads Nodes(t)
  {
    forall x :: x in Nodes(t) ==> Cell(x.left, x.right) == CellIn(t, x)
  }

  ghost predicate StoredLeft(s: Spine, hole: Elem?)
    reads SpineNodes(s)
  {
    forall x :: x in SpineNodes(s) ==> Cell(x.left, x.right) == CellLeft(s, hole, x)
  }

  ghost predicate StoredRight(s: Spine, hole: Elem?)
    reads SpineNodes(s)
  {
    forall x :: x in SpineNodes(s) ==> Cell(x.left, x.right) == CellRight(s, hole, x)
  }

  // ---------------------------------------------------------------- one turn of the loop

  ghost function RotatedRight(t: Tree): Tree
    requires t.Bin? && t.left.Bin?
  {
    Bin(t.left.left, t.left.node, Bin(t.left.right, t.node, t.right))
  }

  ghost function RotatedLeft(t: Tree): Tree
    requires t.Bin? && t.right.Bin?
  {
    Bin(Bin(t.left, t.node, t.right.left), t.right.node, t.right.right)
  }

  /** Everything splaying holds, in order. */
  ghost function Whole(l: Spine, t: Tree, r: Spine): seq<Elem> {
    LeftContents(l) + InOrder(t) + RightContents(r)
  }

  /** The tree SPLAY_ASSEMBLE leaves (lib/tree.h:111-116). */
  ghost function Assembled(l: Spine, t: Tree, r: Spine): Tree
    requires t.Bin?
  {
    Bin(CloseLeft(l, t.left), t.node, CloseRight(r, t.right))
  }

  /** The three parts of the heap share no nodes. */
  ghost predicate Separate(l: Spine, t: Tree, r: Spine) {
    Distinct(t) && DistinctSpine(l) && DistinctSpine(r) &&
    Nodes(t) !! SpineNodes(l) && Nodes(t) !! SpineNodes(r) && SpineNodes(l) !! SpineNodes(r)
  }

  // ---------------------------------------------------------------- lemmas on contents

  lemma Reassociate(a: seq<Elem>, b: seq<Elem>, n: Elem, d: seq<Elem>, e: seq<Elem>)
    ensures a + (b + [n] + d) + e == (a + b) + [n] + (d + e)
    ensures a + (b + [n] + d) + e == a + b + ([n] + d + e)
    ensures a + (b + [n] + d) + e == (a + b + [n]) + d + e
  {
  }

  /** One comparison: the nodes linked away stay on their side of the key. */
  lemma {:induction false} TurnSequences(b: seq<Elem>, l: seq<Elem>, n: Elem, r: seq<Elem>, a: seq<Elem>, key: int)
    requires Sorted(b + (l + [n] + r) + a) && AllLess(b, key) && AllGreater(a, key)
    ensures key <= n.key ==> AllGreater(r + a, key)
    ensures key < n.key ==> AllGreater([n] + r + a, key)
    ensures key >= n.key ==> AllLess(b + l, key)
    ensures key > n.key ==> AllLess(b + l + [n], key)
  {
    var s, k := b + (l + [n] + r) + a, |b| + |l|;
    assert s[k] == n;
    forall i | 0 <= i < |r| ensures n.key < r[i].key {
      assert s[k + 1 + i] == r[i];
    }
    forall i | 0 <= i < |l| ensures l[i].key < n.key {
      assert s[|b| + i] == l[i];
    }
  }

  lemma {:induction false} NodesInOrder(t: Tree)
    ensures Nodes(t) == set e | e in InOrder(t)
  {
    if t.Bin? {
      NodesInOrder(t.left);
      NodesInOrder(t.right);
    }
  }

  lemma {:induction false} RotatedContents(a: Tree, x: Elem, b: Tree, y: Elem, d: Tree)
    ensures InOrder(Bin(a, x, Bin(b, y, d))) == InOrder(Bin(Bin(a, x, b), y, d))
  {
    var inner, inner' := Bin(b, y, d), Bin(a, x, b);
    assert InOrder(inner) == InOrder(b) + [y] + InOrder(d) && InOrder(inner') == InOrder(a) + [x] + InOrder(b);
  }

  lemma {:induction false} RotatedNodes(a: Tree, x: Elem, b: Tree, y: Elem, d: Tree)
    ensures Nodes(Bin(a, x, Bin(b, y, d))) == Nodes(Bin(Bin(a, x, b), y, d))
    ensures Distinct(Bin(a, x, Bin(b, y, d))) <==> Distinct(Bin(Bin(a, x, b), y, d))
  {
    var inner, inner' := Bin(b, y, d), Bin(a, x, b);
    assert Nodes(inner) == Nodes(b) + {y} + Nodes(d) && Nodes(inner') == Nodes(a) + {x} + Nodes(b);
    assert Distinct(inner) <==> Distinct(b) && Distinct(d) && y !in Nodes(b) && y !in Nodes(d) && Nodes(b) !! Nodes(d);
    assert Distinct(inner') <==> Distinct(a) && Distinct(b) && x !in Nodes(a) && x !in Nodes(b) && Nodes(a) !! Nodes(b);
  }

  lemma {:induction false} CloseLeftContents(s: Spine, t: Tree)
    ensures InOrder(CloseLeft(s, t)) == LeftContents(s) + InOrder(t)
    ensures Nodes(CloseLeft(s, t)) == SpineNodes(s) + Nodes(t)
    ensures Distinct(CloseLeft(s, t)) <==> DistinctSpine(s) && Distinct(t) && Nodes(t) !! SpineNodes(s)
  {
    if !s.End? {
      CloseLeftContents(s.up, Bin(s.sibling, s.node, t));
    }
  }

  lemma {:induction false} CloseRightContents(s: Spine, t: Tree)
    ensures InOrder(CloseRight(s, t)) == InOrder(t) + RightContents(s)
    ensures Nodes(CloseRight(s, t)) == SpineNodes(s) + Nodes(t)
    ensures Distinct(CloseRight(s, t)) <==> DistinctSpine(s) && Distinct(t) && Nodes(t) !! SpineNodes(s)
  {
    if !s.End? {
      CloseRightContents(s.up, Bin(t, s.node, s.sibling));
    }
  }

  lemma {:induction false} CloseLeftCell(s: Spine, t: Tree, x: Elem)
    requires DistinctSpine(s) && Distinct(t) && Nodes(t) !! SpineNodes(s)
    requires x in SpineNodes(s) + Nodes(t)
    ensures x in Nodes(CloseLeft(s, t))
    ensures CellIn(CloseLeft(s, t), x) == if x in Nodes(t) then CellIn(t, x) else CellLeft(s, Root(t), x)
    ensures Root(CloseLeft(s, t)) == if s.End? then Root(t) else Head(s)
  {
    if !s.End? {
      CloseLeftCell(s.up, Bin(s.sibling, s.node, t), x);
    }
  }

  lemma {:induction false} CloseRightCell(s: Spine, t: Tree, x: Elem)
    requires DistinctSpine(s) && Distinct(t) && Nodes(t) !! SpineNodes(s)
    requires x in SpineNodes(s) + Nodes(t)
    ensures x in Nodes(CloseRight(s, t))
    ensures CellIn(CloseRight(s, t), x) == if x in Nodes(t) then CellIn(t, x) else CellRight(s, Root(t), x)
    ensures Root(CloseRight(s, t)) == if s.End? then Root(t) else Head(s)
  {
    if !s.End? {
      CloseRightCell(s.up, Bin(t, s.node, s.sibling), x);
    }
  }

  lemma {:induction false} CloseRoots(l: Spine, r: Spine, a: Tree, b: Tree)
    ensures Root(CloseLeft(l, a)) == if l.End? then Root(a) else Head(l)
    ensures Root(CloseRight(r, b)) == if r.End? then Root(b) else Head(r)
  {
    if !l.End? { CloseRoots(l.up, r, Bin(l.sibling, l.node, a), b); }
    else if !r.End? { CloseRoots(l, r.up, a, Bin(b, r.node, r.sibling)); }
  }

  /** The two entries a rotation changes. */
  lemma {:induction false} RotatedRightCell(t: Tree, x: Elem)
    requires t.Bin? && t.left.Bin? && Distinct(t) && x in Nodes(t)
    ensures x in Nodes(RotatedRight(t))
    ensures CellIn(RotatedRight(t), x) ==
            if x == t.node then Cell(Root(t.left.right), Root(t.right))
            else if x == t.left.node then Cell(Root(t.left.left), t.node)
            else CellIn(t, x)
  {
    var l := t.left;
    RotatedContents(l.left, l.node, l.right, t.node, t.right);
    RotatedNodes(l.left, l.node, l.right, t.node, t.right);
    var inner := Bin(l.right, t.node, t.right);
    assert Distinct(l) && Nodes(l) == Nodes(l.left) + {l.node} + Nodes(l.right);
    assert Nodes(inner) == Nodes(l.right) + {t.node} + Nodes(t.right);
    if x in Nodes(l) { assert CellIn(t, x) == CellIn(l, x); }
    if x in Nodes(inner) { assert CellIn(RotatedRight(t), x) == CellIn(inner, x); }
  }

  lemma {:induction false} RotatedLeftCell(t: Tree, x: Elem)
    requires t.Bin? && t.right.Bin? && Distinct(t) && x in Nodes(t)
    ensures x in Nodes(RotatedLeft(t))
    ensures CellIn(RotatedLeft(t), x) ==
            if x == t.node then Cell(Root(t.left), Root(t.right.left))
            else if x == t.right.node then Cell(t.node, Root(t.right.right))
            else CellIn(t, x)
  {
    var r := t.right;
    RotatedContents(t.left, t.node, r.left, r.node, r.right);
    RotatedNodes(t.left, t.node, r.left, r.node, r.right);
    var inner := Bin(t.left, t.node, r.left);
    assert Distinct(r) && Nodes(r) == Nodes(r.left) + {r.node} + Nodes(r.right);
    assert Nodes(inner) == Nodes(t.left) + {t.node} + Nodes(r.left);
    if x in Nodes(r) { assert CellIn(t, x) == CellIn(r, x); }
    if x in Nodes(inner) { assert CellIn(RotatedLeft(t), x) == CellIn(inner, x); }
  }

  /** What a rotation reads and keeps. */
  lemma {:induction false} RotatedRightSite(t: Tree)
    requires t.Bin? && t.left.Bin? && Distinct(t)
    ensures t.node in Nodes(t) && t.left.node in Nodes(t) && t.node != t.left.node
    ensures CellIn(t, t.node) == Cell(t.left.node, Root(t.right))
    ensures CellIn(t, t.left.node) == Cell(Root(t.left.left), Root(t.left.right))
    ensures Distinct(RotatedRight(t)) && Nodes(RotatedRight(t)) == Nodes(t)
    ensures InOrder(RotatedRight(t)) == InOrder(t)
  {
    var l := t.left;
    assert t == Bin(Bin(l.left, l.node, l.right), t.node, t.right);
    RotatedContents(l.left, l.node, l.right, t.node, t.right);
    RotatedNodes(l.left, l.node, l.right, t.node, t.right);
    assert l.node in Nodes(l) && CellIn(t, l.node) == CellIn(l, l.node);
  }

  lemma {:induction false} RotatedLeftSite(t: Tree)
    requires t.Bin? && t.right.Bin? && Distinct(t)
    ensures t.node in Nodes(t) && t.right.node in Nodes(t) && t.node != t.right.node
    ensures CellIn(t, t.node) == Cell(Root(t.left), t.right.node)
    ensures CellIn(t, t.right.node) == Cell(Root(t.right.left), Root(t.right.right))
    ensures Distinct(RotatedLeft(t)) && Nodes(RotatedLeft(t)) == Nodes(t)
    ensures InOrder(RotatedLeft(t)) == InOrder(t)
  {
    var r := t.right;
    assert t == Bin(t.left, t.node, Bin(r.left, r.node, r.right));
    RotatedContents(t.left, t.node, r.left, r.node, r.right);
    RotatedNodes(t.left, t.node, r.left, r.node, r.right);
    assert r.node in Nodes(r) && CellIn(t, r.node) == CellIn(r, r.node);
  }

  lemma {:induction false} AssembledContents(l: Spine, t: Tree, r: Spine)
    requires t.Bin?
    ensures InOrder(Assembled(l, t, r)) == Whole(l, t, r)
  {
    CloseLeftContents(l, t.left);
    CloseRightContents(r, t.right);
    Reassociate(LeftContents(l), InOrder(t.left), t.node, InOrder(t.right), RightContents(r));
  }

  lemma {:induction false} AssembledSite(l: Spine, t: Tree, r: Spine)
    requires t.Bin? && Separate(l, t, r)
    ensures Distinct(Assembled(l, t, r)) && Nodes(Assembled(l, t, r)) == AllNodes(l, t, r)
    ensures Root(CloseLeft(l, t.left)) == if l.End? then Root(t.left) else Head(l)
    ensures Root(CloseRight(r, t.right)) == if r.End? then Root(t.right) else Head(r)
  {
    CloseLeftContents(l, t.left);
    CloseRightContents(r, t.right);
    CloseRoots(l, End, t.left, Nil);
    CloseRoots(End, r, Nil, t.right);
  }

  /** The entries of the assembled tree. */
  lemma {:induction false} AssembledCell(l: Spine, t: Tree, r: Spine, x: Elem)
    requires t.Bin? && Separate(l, t, r) && x in SpineNodes(l) + Nodes(t) + SpineNodes(r)
    ensures x in Nodes(Assembled(l, t, r))
    ensures CellIn(Assembled(l, t, r), x) ==
            if x == t.node then Cell(Root(CloseLeft(l, t.left)), Root(CloseRight(r, t.right)))
            else if x in Nodes(t) then CellIn(t, x)
            else if x in SpineNodes(l) then CellLeft(l, Root(t.left), x)
            else CellRight(r, Root(t.right), x)
  {
    CloseLeftContents(l, t.left);
    CloseRightContents(r, t.right);
    if x in SpineNodes(l) + Nodes(t.left) {
      CloseLeftCell(l, t.left, x);
    } else if x in SpineNodes(r) + Nodes(t.right) {
      CloseRightCell(r, t.right, x);
    }
  }

  ghost function AllNodes(l: Spine, t: Tree, r: Spine): set<Elem> {
    SpineNodes(l) + Nodes(t) + SpineNodes(r)
  }

  /** The contents are sorted and the finished parts lie on their sides of the key. */
  ghost predicate Searching(l: Spine, t: Tree, r: Spine, key: int) {
    Sorted(Whole(l, t, r)) && AllLess(LeftContents(l), key) && AllGreater(RightContents(r), key)
  }

  /** Linking the root away narrows the search. */
  lemma {:induction false} LinkedAway(l: Spine, t: Tree, r: Spine, key: int)
    requires t.Bin? && Searching(l, t, r, key)
    ensures key < t.node.key ==> Searching(l, t.left, Link(r, t.node, t.right), key)
    ensures key > t.node.key ==> Searching(Link(l, t.node, t.left), t.right, r, key)
  {
    LinkedAwayContents(l, t, r);
    TurnSequences(LeftContents(l), InOrder(t.left), t.node, InOrder(t.right), RightContents(r), key);
  }

  lemma {:induction false} LinkedAwayContents(l: Spine, t: Tree, r: Spine)
    requires t.Bin?
    ensures var r' := Link(r, t.node, t.right);
            Whole(l, t.left, r') == Whole(l, t, r) && AllNodes(l, t.left, r') == AllNodes(l, t, r)
    ensures var l' := Link(l, t.node, t.left);
            Whole(l', t.right, r) == Whole(l, t, r) && AllNodes(l', t.right, r) == AllNodes(l, t, r)
  {
    Reassociate(LeftContents(l), InOrder(t.left), t.node, InOrder(t.right), RightContents(r));
  }

  lemma {:induction false} RotatedSearching(l: Spine, t: Tree, t': Tree, r: Spine, key: int)
    requires Searching(l, t, r, key) && InOrder(t') == InOrder(t) && Nodes(t') == Nodes(t)
    ensures Whole(l, t', r) == Whole(l, t, r) && AllNodes(l, t', r) == AllNodes(l, t, r) && Searching(l, t', r, key)
  {
  }

  /** Why the loop may stop, and what that says about the assembled tree: nothing on the
      left reaches the key, nothing on the right falls below it. */
  ghost predicate Stops(t: Tree, key: int) {
    t.Bin? && (t.node.key == key || (key < t.node.key && t.left.Nil?) || (key > t.node.key && t.right.Nil?))
  }

  lemma {:induction false} Stopped(l: Spine, t: Tree, r: Spine, key: int)
    requires Separate(l, t, r) && Searching(l, t, r, key) && Stops(t, key)
    ensures var t' := Assembled(l, t, r);
            AllLess(InOrder(t'.left), key) && AllGreater(InOrder(t'.right), key)
  {
    CloseLeftContents(l, t.left);
    CloseRightContents(r, t.right);
    TurnSequences(LeftContents(l), InOrder(t.left), t.node, InOrder(t.right), RightContents(r), key);
    assert [] + RightContents(r) == RightContents(r) && LeftContents(l) + [] == LeftContents(l);
  }

  /** `t'` is `t` with the element with the key, or a neighbour of where it would be, at
      the root. */
  ghost predicate SplayedFor(t: Tree, t': Tree, key: int) {
    InOrder(t') == InOrder(t) && Nodes(t') == Nodes(t) &&
    t'.Bin? && AllLess(InOrder(t'.left), key) && AllGreater(InOrder(t'.right), key)
  }

  lemma {:induction false} AssembledFor(whole: Tree, l: Spine, t: Tree, r: Spine, key: int)
    requires Separate(l, t, r) && Searching(l, t, r, key) && Stops(t, key)
    requires Whole(l, t, r) == InOrder(whole) && AllNodes(l, t, r) == Nodes(whole)
    ensures SplayedFor(whole, Assembled(l, t, r), key)
  {
    Stopped(l, t, r, key);
    AssembledSite(l, t, r);
    AssembledContents(l, t, r);
  }

  /** The key is at the root of a splayed tree or nowhere. */
  lemma {:induction false} RootKey(t: Tree, key: int)
    requires t.Bin? && AllLess(InOrder(t.left), key) && AllGreater(InOrder(t.right), key)
    ensures t.node.key != key ==> forall i :: 0 <= i < |InOrder(t)| ==> InOrder(t)[i].key != key
  {
  }

  /** `after` is `before` with `e` added somewhere. */
  ghost predicate With(before: seq<Elem>, e: Elem, after: seq<Elem>) {
    exists i :: 0 <= i <= |before| && after == before[..i] + [e] + before[i..]
  }

  /** `after` is `before` without the element `e`, which occurs in it. */
  ghost predicate Without(before: seq<Elem>, e: Elem, after: seq<Elem>) {
    exists i :: 0 <= i < |before| && before[i] == e && after == before[..i] + before[i + 1..]
  }

  /** The tree SPLAY_INSERT builds from a splayed one (lib/tree.h:172-183). */
  ghost function Inserted(t: Tree, e: Elem): Tree
    requires t.Bin?
  {
    if e.key < t.node.key then Bin(t.left, e, Bin(Nil, t.node, t.right))
    else Bin(Bin(t.left, t.node, Nil), e, t.right)
  }

  lemma {:induction false} InsertedContents(t: Tree, e: Elem)
    requires t.Bin? && Sorted(InOrder(t)) && t.node.key != e.key
    requires AllLess(InOrder(t.left), e.key) && AllGreater(InOrder(t.right), e.key)
    ensures var t' := Inserted(t, e);
            With(InOrder(t), e, InOrder(t')) && Sorted(InOrder(t'))
  {
    if e.key < t.node.key {
      assert InOrder(Bin(Nil, t.node, t.right)) == InOrder(Nil) + [t.node] + InOrder(t.right) && InOrder(Nil) == [];
      InsertedBefore(InOrder(t.left), t.node, InOrder(t.right), e);
    } else {
      assert InOrder(Bin(t.left, t.node, Nil)) == InOrder(t.left) + [t.node] + InOrder(Nil) && InOrder(Nil) == [];
      InsertedAfter(InOrder(t.left), t.node, InOrder(t.right), e);
    }
  }

  lemma {:induction false} InsertedBefore(l: seq<Elem>, n: Elem, r: seq<Elem>, e: Elem)
    requires Sorted(l + [n] + r) && AllLess(l, e.key) && AllGreater(r, e.key) && e.key < n.key
    ensures With(l + [n] + r, e, l + [e] + ([] + [n] + r)) && Sorted(l + [e] + ([] + [n] + r))
  {
    assert l + [n] + r == l + ([n] + r) && [] + [n] + r == [n] + r;
    SortedWith(l, e, [n] + r);
  }

  lemma {:induction false} InsertedAfter(l: seq<Elem>, n: Elem, r: seq<Elem>, e: Elem)
    requires Sorted(l + [n] + r) && AllLess(l, e.key) && AllGreater(r, e.key) && e.key > n.key
    ensures With(l + [n] + r, e, (l + [n] + []) + [e] + r) && Sorted((l + [n] + []) + [e] + r)
  {
    assert l + [n] + [] == l + [n];
    SortedWith(l + [n], e, r);
  }

  /** The entries SPLAY_INSERT sets, and the ones it leaves alone. */
  lemma {:induction false} InsertedCell(t: Tree, e: Elem, x: Elem)
    requires t.Bin? && Distinct(t) && e !in Nodes(t) && x in Nodes(t) + {e}
    ensures var t' := Inserted(t, e);
            Distinct(t') && Nodes(t') == Nodes(t) + {e} &&
            CellIn(t', x) ==
            if e.key < t.node.key then
              if x == e then Cell(Root(t.left), t.node)
              else if x == t.node then Cell(null, Root(t.right))
              else CellIn(t, x)
            else
              if x == e then Cell(t.node, Root(t.right))
              else if x == t.node then Cell(Root(t.left), null)
              else CellIn(t, x)
  {
    assert Nodes(Nil) == {} && Distinct(Nil);
    if e.key < t.node.key {
      var inner := Bin(Nil, t.node, t.right);
      assert Distinct(inner) && Nodes(inner) == {t.node} + Nodes(t.right);
      if x in Nodes(inner) { assert CellIn(Inserted(t, e), x) == CellIn(inner, x); }
    } else {
      var inner := Bin(t.left, t.node, Nil);
      assert Distinct(inner) && Nodes(inner) == Nodes(t.left) + {t.node};
      if x in Nodes(inner) { assert CellIn(Inserted(t, e), x) == CellIn(inner, x); }
    }
  }

  lemma {:induction false} SortedWith(a: seq<Elem>, e: Elem, b: seq<Elem>)
    requires Sorted(a + b) && AllLess(a, e.key) && AllGreater(b, e.key)
    ensures Sorted(a + [e] + b) && With(a + b, e, a + [e] + b)
  {
    var s, s' := a + b, a + [e] + b;
    assert s[..|a|] == a && s[|a|..] == b;
    forall i, j | 0 <= i < j < |s'| ensures s'[i].key < s'[j].key {
      if j < |a| { assert s'[i] == s[i] && s'[j] == s[j]; }
      else if i > |a| { assert s'[i] == s[i - 1] && s'[j] == s[j - 1]; }
      else if i < |a| && j > |a| { assert s'[i] == s[i] && s'[j] == s[j - 1]; }
    }
  }

  lemma {:induction false} WithoutMiddle(a: seq<Elem>, e: Elem, b: seq<Elem>)
    ensures Without(a + [e] + b, e, a + b)
  {
    var s := a + [e] + b;
    assert s[|a|] == e && s[..|a|] == a && s[|a| + 1..] == b;
  }

  lemma {:induction false} JoinedSorted(a: seq<Elem>, e: Elem, b: seq<Elem>)
    requires Sorted(a + [e] + b)
    ensures Sorted(a) && Sorted(b) && Sorted(a + b)
  {
    var s := a + [e] + b;
    forall i, j | 0 <= i < j < |a + b| ensures (a + b)[i].key < (a + b)[j].key {
      assert (a + b)[i] == s[if i < |a| then i else i + 1];
      assert (a + b)[j] == s[if j < |a| then j else j + 1];
    }
    forall i, j | 0 <= i < j < |a| ensures a[i].key < a[j].key {
      assert a[i] == s[i] && a[j] == s[j];
    }
    forall i, j | 0 <= i < j < |b| ensures b[i].key < b[j].key {
      assert b[i] == s[|a| + 1 + i] && b[j] == s[|a| + 1 + j];
    }
  }

  lemma {:induction false} RightPartLess(t: Tree, key: int)
    requires t.Bin? && AllLess(InOrder(t), key)
    ensures AllLess(InOrder(t.right), key)
    ensures InOrder(t.right) != [] ==> InOrder(t.right)[0].key < key
  {
    var l, r := InOrder(t.left), InOrder(t.right);
    forall i | 0 <= i < |r| ensures r[i].key < key {
      assert InOrder(t)[|l| + 1 + i] == r[i];
    }
  }

  /** Splaying for a key above all others leaves the root without a right child. */
  lemma {:induction false} NoneAbove(t: Tree, t': Tree, key: int)
    requires SplayedFor(t, t', key) && AllLess(InOrder(t), key)
    ensures t'.right.Nil?
  {
    RightPartLess(t', key);
  }

  ghost function First(s: seq<Elem>): Elem? {
    if s == [] then null else s[0]
  }

  /** `r` follows `e` in `s`, or is null when `e` is the last. */
  ghost predicate Follows(s: seq<Elem>, e: Elem, r: Elem?) {
    exists i :: 0 <= i < |s| && s[i] == e && r == First(s[i + 1..])
  }

  lemma {:induction false} FollowsRoot(t: Tree)
    requires t.Bin?
    ensures Follows(InOrder(t), t.node, First(InOrder(t.right)))
  {
    var s, i := InOrder(t), |InOrder(t.left)|;
    assert s[i] == t.node && s[i + 1..] == InOrder(t.right);
  }

  /** Splaying for an element of the tree brings that element to the root. */
  lemma {:induction false} RootIs(t: Tree, t': Tree, e: Elem)
    requires SplayedFor(t, t', e.key) && e in Nodes(t)
    ensures t'.node == e && Follows(InOrder(t'), e, First(InOrder(t'.right)))
  {
    NodesInOrder(t');
    assert e in InOrder(t'.left) + [t'.node] + InOrder(t'.right);
    FollowsRoot(t');
  }

  lemma {:induction false} NodesAllocated(t: Tree)
    ensures forall x :: x in Nodes(t) ==> allocated(x)
  {
    if t.Bin? {
      NodesAllocated(t.left);
      NodesAllocated(t.right);
    }
  }

  class Tops {
    var root: Elem?
    ghost var tree: Tree

    /** SPLAY_INIT (lib/tree.h:71-73). */
    constructor ()
      ensures Valid() && Contents() == []
    {
      root, tree := null, Nil;
    }

    ghost predicate Valid()
      reads this, Nodes(tree)
    {
      Represents(tree) && Sorted(Contents())
    }

    ghost function Contents(): seq<Elem>
      reads this
    {
      InOrder(tree)
    }

    ghost predicate Represents(t: Tree)
      reads this, Nodes(t)
    {
      Distinct(t) && root == Root(t) && Stored(t)
    }

    /** The state of the splaying loop: the tree `t` still to be searched hangs from `root`,
        the finished parts from the two links of the local node `nd`; `left` and `right`
        are the places where the next node is linked. */
    ghost predicate Splitting(nd: Elem, left: Elem, right: Elem, l: Spine, t: Tree, r: Spine)
      reads this, nd, left, right, SpineNodes(l), Nodes(t), SpineNodes(r)
    {
      t.Bin? && root == t.node && Separate(l, t, r) && Stored(t) &&
      nd !in SpineNodes(l) + Nodes(t) + SpineNodes(r) &&
      left == (if l.End? then nd else l.node) && right == (if r.End? then nd else r.node) &&
      StoredLeft(l, left.right) && StoredRight(r, right.left) &&
      (!l.End? ==> nd.right == Head(l)) && (!r.End? ==> nd.left == Head(r))
    }

    /** SPLAY_ROTATE_RIGHT (lib/tree.h:87-91). */
    method RotateRight(tmp: Elem, nd: Elem, left: Elem, right: Elem, ghost l: Spine, ghost t: Tree, ghost r: Spine)
      requires Splitting(nd, left, right, l, t, r) && t.left.Bin? && t.left.node == tmp
      modifies this`root, t.node, tmp
      ensures Splitting(nd, left, right, l, RotatedRight(t), r)
    {
      RotatedRightSite(t);
      root.left := tmp.right;
      tmp.right := root;
      root := tmp;
      forall x | x in Nodes(t)
        ensures Cell(x.left, x.right) == CellIn(RotatedRight(t), x)
      {
        RotatedRightCell(t, x);
      }
    }

    /** SPLAY_ROTATE_LEFT (lib/tree.h:93-97). */
    method RotateLeft(tmp: Elem, nd: Elem, left: Elem, right: Elem, ghost l: Spine, ghost t: Tree, ghost r: Spine)
      requires Splitting(nd, left, right, l, t, r) && t.right.Bin? && t.right.node == tmp
      modifies this`root, t.node, tmp
      ensures Splitting(nd, left, right, l, RotatedLeft(t), r)
    {
      RotatedLeftSite(t);
      root.right := tmp.left;
      tmp.left := root;
      root := tmp;
      forall x | x in Nodes(t)
        ensures Cell(x.left, x.right) == CellIn(RotatedLeft(t), x)
      {
        RotatedLeftCell(t, x);
      }
    }

    /** SPLAY_LINKLEFT (lib/tree.h:99-103): the root and its right subtree join the greater
        nodes. */
    method LinkLeft(right0: Elem, nd: Elem, left: Elem, ghost l: Spine, ghost t: Tree, ghost r: Spine)
      returns (right: Elem)
      requires Splitting(nd, left, right0, l, t, r) && t.left.Bin?
      modifies this`root, right0`left
      ensures Splitting(nd, left, right, l, t.left, Link(r, t.node, t.right))
    {
      ghost var r' := Link(r, t.node, t.right);
      assert t.node in Nodes(t) && CellIn(t, t.node) == Cell(t.left.node, Root(t.right));
      right := right0;
      right.left := root;
      right := root;
      root := root.left;
      forall x | x in SpineNodes(r')
        ensures Cell(x.left, x.right) == CellRight(r', t.left.node, x)
      {
        if x in Nodes(t.right) { assert CellIn(t, x) == CellIn(t.right, x); }
      }
      forall x | x in Nodes(t.left)
        ensures Cell(x.left, x.right) == CellIn(t.left, x)
      {
        assert CellIn(t, x) == CellIn(t.left, x);
      }
    }

    /** SPLAY_LINKRIGHT (lib/tree.h:105-109). */
    method LinkRight(left0: Elem, nd: Elem, right: Elem, ghost l: Spine, ghost t: Tree, ghost r: Spine)
      returns (left: Elem)
      requires Splitting(nd, left0, right, l, t, r) && t.right.Bin?
      modifies this`root, left0`right
      ensures Splitting(nd, left, right, Link(l, t.node, t.left), t.right, r)
    {
      ghost var l' := Link(l, t.node, t.left);
      assert t.node in Nodes(t) && CellIn(t, t.node) == Cell(Root(t.left), t.right.node);
      left := left0;
      left.right := root;
      left := root;
      root := root.right;
      forall x | x in SpineNodes(l')
        ensures Cell(x.left, x.right) == CellLeft(l', t.right.node, x)
      {
        if x in Nodes(t.left) { assert CellIn(t, x) == CellIn(t.left, x); }
      }
      forall x | x in Nodes(t.right)
        ensures Cell(x.left, x.right) == CellIn(t.right, x)
      {
        assert CellIn(t, x) == CellIn(t.right, x);
      }
    }

    /** SPLAY_ASSEMBLE (lib/tree.h:111-116). */
    method Assemble(nd: Elem, left: Elem, right: Elem, ghost l: Spine, ghost t: Tree, ghost r: Spine)
      requires Splitting(nd, left, right, l, t, r)
      modifies left`right, right`left, t.node
      ensures Represents(Assembled(l, t, r))
    {
      ghost var t' := Assembled(l, t, r);
      assert t.node in Nodes(t) && CellIn(t, t.node) == Cell(Root(t.left), Root(t.right));
      left.right := root.left;
      right.left := root.right;
      root.left := nd.right;
      root.right := nd.left;
      AssembledSite(l, t, r);
      forall x | x in Nodes(t')
        ensures Cell(x.left, x.right) == CellIn(t', x)
      {
        AssembledCell(l, t, r, x);
      }
    }

    /** The turn of the splaying loop for a smaller key (lib/tree.h:218-227); `stop` is a break. */
    method TurnLeft(key: int, nd: Elem, right0: Elem, left: Elem, ghost l: Spine, ghost t: Tree, ghost r: Spine)
      returns (right: Elem, stop: bool, ghost t': Tree, ghost r': Spine)
      requires Splitting(nd, left, right0, l, t, r) && key < t.node.key
      requires Searching(l, t, r, key)
      modifies this`root, Nodes(t), right0`left
      ensures Splitting(nd, left, right, l, t', r')
      ensures Whole(l, t', r') == Whole(l, t, r) && AllNodes(l, t', r') == AllNodes(l, t, r) &&
              Searching(l, t', r', key)
      ensures if stop then t'.left.Nil? && key < t'.node.key else t' < t
    {
      t', r', stop := t, r, true;
      right := right0;
      assert t.node in Nodes(t) && CellIn(t, t.node) == Cell(Root(t.left), Root(t.right));
      var tmp := root.left;
      if tmp == null {
        return;
      }
      if key < tmp.key {
        RotateRight(tmp, nd, left, right, l, t, r);
        t' := RotatedRight(t);
        RotatedRightSite(t);
        RotatedSearching(l, t, t', r, key);
        assert t'.node in Nodes(t') && CellIn(t', t'.node) == Cell(Root(t'.left), Root(t'.right));
        if root.left == null {
          return;
        }
      }
      LinkedAway(l, t', r, key);
      LinkedAwayContents(l, t', r);
      right := LinkLeft(right, nd, left, l, t', r);
      r' := Link(r, t'.node, t'.right);
      t' := t'.left;
      stop := false;
    }

    /** The turn of the splaying loop for a greater key (lib/tree.h:228-237); `stop` is a break. */
    method TurnRight(key: int, nd: Elem, left0: Elem, right: Elem, ghost l: Spine, ghost t: Tree, ghost r: Spine)
      returns (left: Elem, stop: bool, ghost t': Tree, ghost l': Spine)
      requires Splitting(nd, left0, right, l, t, r) && key > t.node.key
      requires Searching(l, t, r, key)
      modifies this`root, Nodes(t), left0`right
      ensures Splitting(nd, left, right, l', t', r)
      ensures Whole(l', t', r) == Whole(l, t, r) && AllNodes(l', t', r) == AllNodes(l, t, r) &&
              Searching(l', t', r, key)
      ensures if stop then t'.right.Nil? && key > t'.node.key else t' < t
    {
      t', l', stop := t, l, true;
      left := left0;
      assert t.node in Nodes(t) && CellIn(t, t.node) == Cell(Root(t.left), Root(t.right));
      var tmp := root.right;
      if tmp == null {
        return;
      }
      if key > tmp.key {
        RotateLeft(tmp, nd, left, right, l, t, r);
        t' := RotatedLeft(t);
        RotatedLeftSite(t);
        RotatedSearching(l, t, t', r, key);
        assert t'.node in Nodes(t') && CellIn(t', t'.node) == Cell(Root(t'.left), Root(t'.right));
        if root.right == null {
          return;
        }
      }
      LinkedAway(l, t', r, key);
      LinkedAwayContents(l, t', r);
      left := LinkRight(left, nd, right, l, t', r);
      l' := Link(l, t'.node, t'.left);
      t' := t'.right;
      stop := false;
    }

    /** The loop of name_SPLAY and SPLAY_ASSEMBLE (lib/tree.h:215-240). */
    method SplayWith(key: int, nd: Elem) returns (ghost t': Tree)
      requires Valid() && tree.Bin? && nd !in Nodes(tree)
      modifies this`root, Nodes(tree), nd
      ensures Represents(t') && SplayedFor(tree, t', key)
    {
      var left, right := nd, nd;
      ghost var l, t, r := End, tree, End;
      assert Whole(l, t, r) == InOrder(t) && AllNodes(l, t, r) == Nodes(tree);
      var stop := false;
      while !stop && key != root.key
        invariant Splitting(nd, left, right, l, t, r)
        invariant Whole(l, t, r) == InOrder(tree) && AllNodes(l, t, r) == Nodes(tree) && Searching(l, t, r, key)
        invariant stop ==> Stops(t, key)
        decreases !stop, t
      {
        if key < root.key {
          right, stop, t, r := TurnLeft(key, nd, right, left, l, t, r);
        } else {
          left, stop, t, l := TurnRight(key, nd, left, right, l, t, r);
        }
      }
      t' := Assembled(l, t, r);
      AssembledFor(tree, l, t, r, key);
      Assemble(nd, left, right, l, t, r);
    }

    /** name_SPLAY (lib/tree.h:208-241): the element with the key, or a neighbour of where it
        would be, moves to the root. */
    method Splay(key: int)
      requires Valid() && root != null
      modifies this, Nodes(tree)
      ensures Valid() && SplayedFor(old(tree), tree, key)
    {
      NodesAllocated(tree);
      var nd := new Elem(key);
      assert Represents(tree);
      tree := SplayWith(key, nd);
    }

    /** name_SPLAY_FIND (lib/tree.h:126-136). */
    method Find(key: int) returns (r: Elem?)
      requires Valid()
      modifies this, Nodes(tree)
      ensures Valid() && Contents() == old(Contents())
      ensures if r == null then forall i :: 0 <= i < |Contents()| ==> Contents()[i].key != key
              else r.key == key && r == root
    {
      if root == null {
        return null;
      }
      Splay(key);
      RootKey(tree, key);
      return if root.key == key then root else null;
    }

    /** name_SPLAY_INSERT (lib/tree.h:163-185): an element with an equal key is returned;
        otherwise `elm` becomes the root and joins the contents in order. */
    method Insert(elm: Elem) returns (r: Elem?)
      requires Valid()
      modifies this, Nodes(tree), elm
      ensures Valid()
      ensures r != null ==> Contents() == old(Contents()) && r == root && r.key == elm.key
      ensures r == null ==> root == elm && With(old(Contents()), elm, Contents())
    {
      if root == null {
        elm.left := null;
        elm.right := null;
        tree := Bin(Nil, elm, Nil);
        assert [elm] == old(Contents())[..0] + [elm] + old(Contents())[0..];
      } else {
        Splay(elm.key);
        if elm.key == root.key {
          return root;
        }
        RootKey(tree, elm.key);
        NodesInOrder(tree);
        InsertedContents(tree, elm);
        Attach(elm);
      }
      root := elm;
      r := null;
    }

    /** The three-way link of name_SPLAY_INSERT (lib/tree.h:172-179). */
    method Attach(elm: Elem)
      requires Valid() && tree.Bin? && elm !in Nodes(tree) && elm.key != tree.node.key
      modifies this`tree, Nodes(tree), elm
      ensures tree == Inserted(old(tree), elm) && Distinct(tree) && Stored(tree)
    {
      ghost var t := tree;
      InsertedCell(t, elm, elm);
      assert t.node in Nodes(t) && CellIn(t, t.node) == Cell(Root(t.left), Root(t.right));
      if elm.key < root.key {
        elm.left := root.left;
        elm.right := root;
        root.left := null;
      } else {
        elm.right := root.right;
        elm.left := root;
        root.right := null;
      }
      tree := Inserted(t, elm);
      forall x | x in Nodes(tree)
        ensures Cell(x.left, x.right) == CellIn(tree, x)
      {
        InsertedCell(t, elm, x);
      }
    }

    /** name_SPLAY_REMOVE (lib/tree.h:187-206): the element with an equal key, `gone`, leaves the
        contents.  The code returns its argument, which is the element that left if and only if
        the argument was in the tree itself. */
    method Remove(elm: Elem) returns (r: Elem?, ghost gone: Elem?)
      requires Valid()
      modifies this, Nodes(tree)
      ensures Valid() && (r == null <==> gone == null)
      ensures if gone == null then
                Contents() == old(Contents()) && forall i :: 0 <= i < |Contents()| ==> Contents()[i].key != elm.key
              else
                r == elm && gone.key == elm.key && Without(old(Contents()), gone, Contents())
      ensures r != null ==> (r == gone <==> elm in old(Contents()))
    {
      gone := null;
      if root == null {
        return null, null;
      }
      ghost var t := tree;
      Splay(elm.key);
      if elm.key != root.key {
        RootKey(tree, elm.key);
        return null, null;
      }
      gone := tree.node;
      NodesInOrder(t);
      if elm in Nodes(t) { RootIs(t, tree, elm); }
      WithoutMiddle(InOrder(tree.left), tree.node, InOrder(tree.right));
      RemoveRoot(elm.key);
      r := elm;
    }

    /** A tree that holds one element. */
    static method HoldingOne(elm: Elem) returns (tops: Tops)
      modifies elm
      ensures fresh(tops) && tops.Valid() && tops.Contents() == [elm]
    {
      tops := new Tops();
      NodesInOrder(tops.tree);
      assert Nodes(tops.tree) == {};
      var other := tops.Insert(elm);
    }

    /** A tree that holds one element, asked to remove another one with the same key: that one is
        returned, and the first is gone. */
    static method RemoveAnother(key: int) returns (tops: Tops, inside: Elem, probe: Elem, r: Elem?, ghost gone: Elem?)
      ensures inside.key == key && probe.key == key && inside != probe
      ensures tops.Contents() == [] && r == probe && gone == inside
    {
      inside := new Elem(key);
      probe := new Elem(key);
      tops := HoldingOne(inside);
      NodesInOrder(tops.tree);
      assert forall x :: x in Nodes(tops.tree) ==> x in tops.Contents();
      r, gone := tops.Remove(probe);
    }

    /** Joining the subtrees of the root (lib/tree.h:195-202): the left subtree is splayed
        again, which leaves its root without a right child. */
    method RemoveRoot(key: int)
      requires Valid() && tree.Bin? && tree.node.key == key
      requires AllLess(InOrder(tree.left), key) && AllGreater(InOrder(tree.right), key)
      modifies this, Nodes(tree)
      ensures Valid() && Contents() == InOrder(old(tree.left)) + InOrder(old(tree.right))
    {
      ghost var t := tree;
      assert t.node in Nodes(t) && CellIn(t, t.node) == Cell(Root(t.left), Root(t.right));
      SubtreesStored(t);
      JoinedSorted(InOrder(t.left), t.node, InOrder(t.right));
      if root.left == null {
        root := root.right;
        tree := t.right;
        assert InOrder(t.left) + InOrder(t.right) == InOrder(t.right);
      } else {
        var tmp := root.right;
        root := root.left;
        tree := t.left;
        NodesAllocated(t.right);
        Splay(key);
        NoneAbove(t.left, tree, key);
        assert Stored(t.right) && Represents(tree);
        Join(tmp, t.right);
      }
    }

    /** The root's empty right link takes the other subtree (lib/tree.h:201). */
    method Join(tmp: Elem?, ghost t: Tree)
      requires Represents(tree) && tree.Bin? && tree.right.Nil?
      requires Distinct(t) && Stored(t) && tmp == Root(t) && Nodes(t) !! Nodes(tree)
      modifies this`tree, tree.node`right
      ensures Represents(tree) && Contents() == InOrder(old(tree)) + InOrder(t)
    {
      ghost var l := tree;
      assert l.node in Nodes(l) && CellIn(l, l.node) == Cell(Root(l.left), null);
      root.right := tmp;
      tree := Bin(l.left, l.node, t);
      forall x | x in Nodes(tree)
        ensures Cell(x.left, x.right) == CellIn(tree, x)
      {
        if x in Nodes(t) { assert CellIn(tree, x) == CellIn(t, x); }
        else if x in Nodes(l.left) { assert CellIn(tree, x) == CellIn(l.left, x) == CellIn(l, x); }
      }
      assert InOrder(l) == InOrder(l.left) + [l.node];
    }

    lemma {:induction false} SubtreesStored(t: Tree)
      requires t.Bin? && Distinct(t) && Stored(t)
      ensures Stored(t.left) && Stored(t.right)
    {
      forall x | x in Nodes(t.left)
        ensures Cell(x.left, x.right) == CellIn(t.left, x)
      {
        assert CellIn(t, x) == CellIn(t.left, x);
      }
      forall x | x in Nodes(t.right)
        ensures Cell(x.left, x.right) == CellIn(t.right, x)
      {
        assert CellIn(t, x) == CellIn(t.right, x);
      }
    }

    /** The walk down the left links (lib/tree.h:144-146). */
    method Leftmost(elm0: Elem, ghost t0: Tree) returns (elm: Elem)
      requires Valid() && t0.Bin? && t0.node == elm0 && Distinct(t0) && Stored(t0)
      ensures Valid() && elm == First(InOrder(t0))
    {
      elm := elm0;
      ghost var t := t0;
      assert t.node in Nodes(t) && CellIn(t, t.node) == Cell(Root(t.left), Root(t.right));
      while elm.left != null
        invariant Valid() && t.Bin? && t.node == elm && Stored(t) && Distinct(t)
        invariant elm.left == Root(t.left) && First(InOrder(t)) == First(InOrder(t0))
        decreases t
      {
        SubtreesStored(t);
        elm := elm.left;
        t := t.left;
        assert t.node in Nodes(t) && CellIn(t, t.node) == Cell(Root(t.left), Root(t.right));
      }
    }

    /** name_SPLAY_NEXT (lib/tree.h:138-150): the element after `elm0`. */
    method Next(elm0: Elem) returns (elm: Elem?)
      requires Valid() && elm0 in Nodes(tree)
      modifies this, Nodes(tree)
      ensures Valid() && Contents() == old(Contents())
      ensures Follows(Contents(), elm0, elm)
    {
      Splay(elm0.key);
      RootIs(old(tree), tree, elm0);
      elm := elm0;
      SubtreesStored(tree);
      assert elm.right == Root(tree.right) by {
        assert elm in Nodes(tree) && CellIn(tree, elm) == Cell(Root(tree.left), Root(tree.right));
      }
      if elm.right != null {
        elm := Leftmost(elm.right, tree.right);
      } else {
        elm := null;
      }
    }

    /** The turn of the loop of name_SPLAY_MINMAX towards the minimum (lib/tree.h:254-263). */
    method MinTurn(nd: Elem, left: Elem, right0: Elem, ghost t: Tree, ghost r: Spine)
      returns (right: Elem, stop: bool, ghost t': Tree, ghost r': Spine)
      requires Splitting(nd, left, right0, End, t, r)
      modifies this`root, Nodes(t), right0`left
      ensures Splitting(nd, left, right, End, t', r')
      ensures Whole(End, t', r') == Whole(End, t, r) && AllNodes(End, t', r') == AllNodes(End, t, r)
      ensures if stop then t'.left.Nil? else t' < t
    {
      right, t', r', stop := right0, t, r, true;
      assert t.node in Nodes(t) && CellIn(t, t.node) == Cell(Root(t.left), Root(t.right));
      var tmp := root.left;
      if tmp == null {
        return;
      }
      RotateRight(tmp, nd, left, right, End, t, r);
      t' := RotatedRight(t);
      RotatedRightSite(t);
      assert Whole(End, t', r) == Whole(End, t, r) && AllNodes(End, t', r) == AllNodes(End, t, r);
      assert t'.node in Nodes(t') && CellIn(t', t'.node) == Cell(Root(t'.left), Root(t'.right));
      if root.left == null {
        return;
      }
      LinkedAwayContents(End, t', r);
      right := LinkLeft(right, nd, left, End, t', r);
      r' := Link(r, t'.node, t'.right);
      t' := t'.left;
      stop := false;
    }

    /** The turn of the loop of name_SPLAY_MINMAX towards the maximum (lib/tree.h:264-273). */
    method MaxTurn(nd: Elem, left0: Elem, right: Elem, ghost l: Spine, ghost t: Tree)
      returns (left: Elem, stop: bool, ghost t': Tree, ghost l': Spine)
      requires Splitting(nd, left0, right, l, t, End)
      modifies this`root, Nodes(t), left0`right
      ensures Splitting(nd, left, right, l', t', End)
      ensures Whole(l', t', End) == Whole(l, t, End) && AllNodes(l', t', End) == AllNodes(l, t, End)
      ensures if stop then t'.right.Nil? else t' < t
    {
      left, t', l', stop := left0, t, l, true;
      assert t.node in Nodes(t) && CellIn(t, t.node) == Cell(Root(t.left), Root(t.right));
      var tmp := root.right;
      if tmp == null {
        return;
      }
      RotateLeft(tmp, nd, left, right, l, t, End);
      t' := RotatedLeft(t);
      RotatedLeftSite(t);
      assert Whole(l, t', End) == Whole(l, t, End) && AllNodes(l, t', End) == AllNodes(l, t, End);
      assert t'.node in Nodes(t') && CellIn(t', t'.node) == Cell(Root(t'.left), Root(t'.right));
      if root.right == null {
        return;
      }
      LinkedAwayContents(l, t', End);
      left := LinkRight(left, nd, right, l, t', End);
      l' := Link(l, t'.node, t'.left);
      t' := t'.right;
      stop := false;
    }

    /** The loop of name_SPLAY_MINMAX and SPLAY_ASSEMBLE (lib/tree.h:246-277). */
    method MinMaxWith(comp: int, nd: Elem) returns (ghost t': Tree)
      requires Valid() && tree.Bin? && nd !in Nodes(tree) && comp != 0
      modifies this`root, Nodes(tree), nd
      ensures Represents(t') && InOrder(t') == Contents() && Nodes(t') == Nodes(tree)
      ensures t'.Bin? && if comp < 0 then t'.left.Nil? else t'.right.Nil?
    {
      var left, right := nd, nd;
      ghost var l, t, r := End, tree, End;
      assert Whole(l, t, r) == InOrder(t) && AllNodes(l, t, r) == Nodes(tree);
      var stop := false;
      while !stop
        invariant Splitting(nd, left, right, l, t, r)
        invariant Whole(l, t, r) == InOrder(tree) && AllNodes(l, t, r) == Nodes(tree)
        invariant if comp < 0 then l.End? && (stop ==> t.left.Nil?) else r.End? && (stop ==> t.right.Nil?)
        decreases !stop, t
      {
        if comp < 0 {
          right, stop, t, r := MinTurn(nd, left, right, t, r);
        } else {
          left, stop, t, l := MaxTurn(nd, left, right, l, t);
        }
      }
      AssembledSite(l, t, r);
      AssembledContents(l, t, r);
      Assemble(nd, left, right, l, t, r);
      t' := Assembled(l, t, r);
    }

    /** name_SPLAY_MIN_MAX (lib/tree.h:152-157): the minimum for a negative `comp`, the
        maximum for a positive one; the loop does not end for zero. */
    method MinMax(comp: int) returns (r: Elem)
      requires Valid() && root != null && comp != 0
      modifies this, Nodes(tree)
      ensures Valid() && Contents() == old(Contents())
      ensures r == if comp < 0 then Contents()[0] else Contents()[|Contents()| - 1]
    {
      NodesAllocated(tree);
      var nd := new Elem(0);
      assert Represents(tree);
      tree := MinMaxWith(comp, nd);
      r := root;
    }
  }
}
