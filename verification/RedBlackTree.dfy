/** The red-black tree of lib/tree.h (lines 341-726), with the field updates of its macros. */
module RedBlackTree {
  import opened RedBlackShape

  class Head {
    var root: Elem?
    ghost var tree: Tree

    /** RB_INIT (lib/tree.h:305-307). */
    constructor ()
      ensures Valid() && Contents() == []
    {
      root, tree := null, Nil;
      new;
      assert Balanced(Nil, 0);
    }

    /** The heap is a red-black search tree. */
    ghost predicate Valid()
      reads this, Nodes(tree)
    {
      Represents(tree) && IsRedBlack(tree) && Sorted(Contents())
    }

    ghost function Contents(): seq<Elem>
      reads this
    {
      InOrder(tree)
    }

    /** The nodes reachable from the root are linked and coloured as `t` says. */
    ghost predicate Represents(t: Tree)
      reads this, Nodes(t)
    {
      Distinct(t) && root == Root(t) && Stored(t)
    }

    /** What the fields of the node at the focus and of the node above it hold. */
    lemma {:induction false} Reads(c: Context, t: Tree)
      requires Represents(Plug(c, t))
      ensures root == TopOf(c, Root(t))
      ensures t.Bin? ==> t.node in Nodes(Plug(c, t))
      ensures t.Bin? ==> t.node.left == Root(t.left) && t.node.right == Root(t.right)
      ensures t.Bin? ==> t.node.parent == ParentOf(c) && t.node.color == t.color
      ensures !c.Top? ==> c.node in Nodes(Plug(c, t))
      ensures !c.Top? ==> c.node.parent == ParentOf(c.up) && c.node.color == c.color
      ensures c.InLeft? ==> c.node.left == Root(t) && c.node.right == Root(c.sibling)
      ensures c.InRight? ==> c.node.right == Root(t) && c.node.left == Root(c.sibling)
      ensures !c.Top? && t.Bin? ==> Root(c.sibling) != t.node && c.node != t.node
      ensures !c.Top? && c.sibling.Bin? ==> Root(t) != c.sibling.node
    {
      PlugDistinct(c, t);
      FocusCell(c, t);
      PlugRoot(c, t);
    }

    /** The focus is the root exactly when the context is empty. */
    lemma {:induction false} ReadsFocus(c: Context, t: Tree)
      requires Represents(Plug(c, t))
      ensures Root(t) == root <==> c.Top?
      ensures t.Bin? ==> t.node.color == t.color && t.node in Nodes(Plug(c, t))
    {
      Reads(c, t);
      TopInContext(c, Root(t));
      PlugDistinct(c, t);
      assert t.Bin? ==> t.node in Nodes(t);
    }

    /** Which child the focus is can be told from the parent's left link alone. */
    lemma {:induction false} LeftOrRight(c: Context, t: Tree)
      requires !c.Top? && c.sibling.Bin? && Represents(Plug(c, t))
      ensures c.node.left == Root(t) <==> c.InLeft?
    {
      Reads(c, t);
    }

    /** RB_COLOR(elm) = col (lib/tree.h:322). */
    method Paint(elm: Elem, col: Color, ghost c: Context, ghost t: Tree)
      requires t.Bin? && t.node == elm && Represents(Plug(c, t))
      modifies elm`color
      ensures Represents(Plug(c, t.(color := col)))
    {
      FocusCell(c, t) by { PlugDistinct(c, t); }
      PaintedCell(c, t, col, elm);
      elm.color := col;
      forall x | x in Nodes(Plug(c, t))
        ensures Cell(x.left, x.right, x.parent, x.color) == CellIn(Plug(c, t.(color := col)), null, x)
      {
        PaintedCell(c, t, col, x);
      }
    }

    /** RB_ROTATE_LEFT (lib/tree.h:341-359): the right child of `elm` takes its place. */
    method RotateLeft(elm: Elem, ghost c: Context, ghost t: Tree)
      requires t.Bin? && t.right.Bin? && t.node == elm
      requires Represents(Plug(c, t))
      modifies this`root, Nodes(Plug(c, t))
      ensures Represents(Plug(c, RotatedLeft(t)))
    {
      RotatedLeftSite(c, t);
      RotatedLeftCell(c, t, elm);
      var tmp := elm.right;
      elm.right := tmp.left;
      if elm.right != null {
        tmp.left.parent := elm;
      }
      tmp.parent := elm.parent;
      if tmp.parent != null {
        if elm == elm.parent.left {
          elm.parent.left := tmp;
        } else {
          elm.parent.right := tmp;
        }
      } else {
        root := tmp;
      }
      tmp.left := elm;
      elm.parent := tmp;
      forall x | x in Nodes(Plug(c, t))
        ensures Cell(x.left, x.right, x.parent, x.color) == CellIn(Plug(c, RotatedLeft(t)), null, x)
      {
        RotatedLeftCell(c, t, x);
      }
    }

    /** RB_ROTATE_RIGHT (lib/tree.h:361-379): the left child of `elm` takes its place. */
    method RotateRight(elm: Elem, ghost c: Context, ghost t: Tree)
      requires t.Bin? && t.left.Bin? && t.node == elm
      requires Represents(Plug(c, t))
      modifies this`root, Nodes(Plug(c, t))
      ensures Represents(Plug(c, RotatedRight(t)))
    {
      RotatedRightSite(c, t);
      RotatedRightCell(c, t, elm);
      var tmp := elm.left;
      elm.left := tmp.right;
      if elm.left != null {
        tmp.right.parent := elm;
      }
      tmp.parent := elm.parent;
      if tmp.parent != null {
        if elm == elm.parent.left {
          elm.parent.left := tmp;
        } else {
          elm.parent.right := tmp;
        }
      } else {
        root := tmp;
      }
      tmp.right := elm;
      elm.parent := tmp;
      forall x | x in Nodes(Plug(c, t))
        ensures Cell(x.left, x.right, x.parent, x.color) == CellIn(Plug(c, RotatedRight(t)), null, x)
      {
        RotatedRightCell(c, t, x);
      }
    }

    /** The recolouring step of RB_INSERT_COLOR (lib/tree.h:415-417): both children of
        `gparent` become black and it becomes red. */
    method RecolorFamily(parent: Elem, tmp: Elem, gparent: Elem, ghost c: Context, ghost t: Tree)
      requires t.Bin? && t.left.Bin? && t.right.Bin? && t.node == gparent && Represents(Plug(c, t))
      requires (parent == t.left.node && tmp == t.right.node) || (parent == t.right.node && tmp == t.left.node)
      modifies Nodes(Plug(c, t))
      ensures Represents(Plug(c, Bin(Blackened(t.left), gparent, Red, Blackened(t.right))))
    {
      Reads(InLeft(c, gparent, t.color, t.right), t.left);
      Reads(InRight(c, gparent, t.color, t.left), t.right);
      ghost var l, r, inRight := t.left, t.right, tmp == t.right.node;
      Paint(tmp, Black, if inRight then InRight(c, gparent, t.color, l) else InLeft(c, gparent, t.color, r),
            if inRight then r else l);
      Paint(parent, Black, if inRight then InLeft(c, gparent, t.color, Blackened(r))
                           else InRight(c, gparent, t.color, Blackened(l)),
            if inRight then l else r);
      Paint(gparent, Red, c, Bin(Blackened(l), gparent, t.color, Blackened(r)));
    }

    /** RB_SET_BLACKRED and RB_ROTATE_RIGHT (lib/tree.h:427-428): the red left child of
        `gparent` takes its place and colour. */
    method LiftLeft(parent: Elem, gparent: Elem, ghost c: Context, ghost t: Tree)
      requires t.Bin? && t.left.Bin? && t.node == gparent && t.left.node == parent && Represents(Plug(c, t))
      modifies this`root, Nodes(Plug(c, t))
      ensures Represents(Plug(c, Bin(t.left.left, parent, Black, Bin(t.left.right, gparent, Red, t.right))))
    {
      ghost var ctx := InLeft(c, gparent, t.color, t.right);
      Reads(ctx, t.left);
      Paint(parent, Black, ctx, t.left);
      Paint(gparent, Red, c, Bin(Blackened(t.left), gparent, t.color, t.right));
      SameContents(c, t, c, Bin(Blackened(t.left), gparent, Red, t.right));
      RotateRight(gparent, c, Bin(Blackened(t.left), gparent, Red, t.right));
    }

    /** RB_SET_BLACKRED and RB_ROTATE_LEFT (lib/tree.h:443-444). */
    method LiftRight(parent: Elem, gparent: Elem, ghost c: Context, ghost t: Tree)
      requires t.Bin? && t.right.Bin? && t.node == gparent && t.right.node == parent && Represents(Plug(c, t))
      modifies this`root, Nodes(Plug(c, t))
      ensures Represents(Plug(c, Bin(Bin(t.left, gparent, Red, t.right.left), parent, Black, t.right.right)))
    {
      ghost var ctx := InRight(c, gparent, t.color, t.left);
      Reads(ctx, t.right);
      Paint(parent, Black, ctx, t.right);
      Paint(gparent, Red, c, Bin(t.left, gparent, t.color, Blackened(t.right)));
      SameContents(c, t, c, Bin(t.left, gparent, Red, Blackened(t.right)));
      RotateLeft(gparent, c, Bin(t.left, gparent, Red, Blackened(t.right)));
    }

    /** The turn of the loop of RB_INSERT_COLOR below a left child (lib/tree.h:413-428). */
    method InsertStepLeft(elm0: Elem, parent0: Elem, gparent: Elem, ghost c: Context, ghost t: Tree)
      returns (elm: Elem)
      requires t.Bin? && t.node == elm0 && !c.Top? && c.up.InLeft? && Represents(Plug(c, t))
      requires c.node == parent0 && c.up.node == gparent
      modifies this`root, Nodes(Plug(c, t))
      ensures var (c', t') := InsertStep(c, t);
              t'.Bin? && t'.node == elm && Represents(Plug(c', t'))
    {
      elm := elm0;
      var parent := parent0;
      ghost var p, up := Climb(c, t), c.up.up;
      ghost var g := Climb(c.up, p);
      Reads(c, t);
      Reads(c.up, p);
      var tmp := gparent.right;
      if tmp != null {
        Reads(InRight(up, gparent, c.up.color, p), g.right);
      }
      if tmp != null && tmp.color == Red {
        RecolorFamily(parent, tmp, gparent, up, g);
        elm := gparent;
        return;
      }
      ghost var q := p;
      if parent.right == elm {
        RotateLeft(parent, c.up, p);
        RotatedLeftCell(c.up, p, parent);
        q := RotatedLeft(p);
        tmp := parent;
        parent := elm;
        elm := tmp;
      }
      LiftLeft(parent, gparent, up, Bin(q, gparent, c.up.color, g.right));
    }

    /** The turn of the loop of RB_INSERT_COLOR below a right child (lib/tree.h:429-444). */
    method InsertStepRight(elm0: Elem, parent0: Elem, gparent: Elem, ghost c: Context, ghost t: Tree)
      returns (elm: Elem)
      requires t.Bin? && t.node == elm0 && !c.Top? && c.up.InRight? && Represents(Plug(c, t))
      requires c.node == parent0 && c.up.node == gparent
      modifies this`root, Nodes(Plug(c, t))
      ensures var (c', t') := InsertStep(c, t);
              t'.Bin? && t'.node == elm && Represents(Plug(c', t'))
    {
      elm := elm0;
      var parent := parent0;
      ghost var p, up := Climb(c, t), c.up.up;
      ghost var g := Climb(c.up, p);
      Reads(c, t);
      Reads(c.up, p);
      var tmp := gparent.left;
      if tmp != null {
        Reads(InLeft(up, gparent, c.up.color, p), g.left);
      }
      if tmp != null && tmp.color == Red {
        RecolorFamily(parent, tmp, gparent, up, g);
        elm := gparent;
        return;
      }
      ghost var q := p;
      if parent.left == elm {
        RotateRight(parent, c.up, p);
        RotatedRightCell(c.up, p, parent);
        q := RotatedRight(p);
        tmp := parent;
        parent := elm;
        elm := tmp;
      }
      LiftRight(parent, gparent, up, Bin(g.left, gparent, c.up.color, q));
    }

    /** RB_INSERT_COLOR (lib/tree.h:406-448): repairs a red node below a red one, moving the
        violation towards the root. */
    method InsertColor(elm0: Elem, ghost c0: Context, ghost t0: Tree, ghost h0: nat) returns (ghost tree: Tree)
      requires RedFocus(c0, t0, h0) && t0.node == elm0 && Represents(Plug(c0, t0))
      modifies this`root, Nodes(Plug(c0, t0))
      ensures Represents(tree) && IsRedBlack(tree)
      ensures InOrder(tree) == InOrder(Plug(c0, t0))
    {
      var elm := elm0;
      ghost var c, t, h := c0, t0, h0;
      assert elm.parent == ParentOf(c) && (!c.Top? ==> c.node.color == c.color) by { Reads(c, t); }
      while elm.parent != null && elm.parent.color == Red
        invariant RedFocus(c, t, h) && t.node == elm && Represents(Plug(c, t))
        invariant Nodes(Plug(c, t)) == Nodes(Plug(c0, t0))
        invariant InOrder(Plug(c, t)) == InOrder(Plug(c0, t0))
        invariant elm.parent == ParentOf(c) && (!c.Top? ==> c.node.color == c.color)
        decreases NeedsBlack(c), c
      {
        h := InsertStepKeeps(c, t, h);
        InsertStepContents(c, t);
        var parent := elm.parent;
        assert parent.parent == c.up.node && (parent == c.up.node.left <==> c.up.InLeft?) by {
          Reads(c.up, Climb(c, t));
        }
        var gparent := parent.parent;
        if parent == gparent.left {
          elm := InsertStepLeft(elm, parent, gparent, c, t);
        } else {
          elm := InsertStepRight(elm, parent, gparent, c, t);
        }
        var (c', t') := InsertStep(c, t);
        c, t := c', t';
        assert elm.parent == ParentOf(c) && (!c.Top? ==> c.node.color == c.color) by { Reads(c, t); }
      }
      InsertDone(c, t, h);
      Paint(root, Black, Top, Plug(c, t));
      tree := Blackened(Plug(c, t));
    }

    /** RB_SET and the linking of RB_INSERT (lib/tree.h:614-622): `elm` becomes a red leaf. */
    method Plant(elm: Elem, parent: Elem?, left: bool, ghost c: Context)
      requires Represents(Plug(c, Nil)) && elm !in Nodes(Plug(c, Nil))
      requires parent == ParentOf(c) && (!c.Top? ==> (left <==> c.InLeft?))
      modifies this`root, elm, ContextNodes(c)
      ensures Represents(Plug(c, Bin(Nil, elm, Red, Nil)))
    {
      Reads(c, Nil);
      PlantedCell(c, elm, elm);
      PlugRoot(c, Bin(Nil, elm, Red, Nil));
      PlugNodes(c, Nil);
      elm.parent := parent;
      elm.left := null;
      elm.right := null;
      elm.color := Red;
      if parent != null {
        if left {
          parent.left := elm;
        } else {
          parent.right := elm;
        }
      } else {
        root := elm;
      }
      forall x | x in Nodes(Plug(c, Nil)) + {elm}
        ensures Cell(x.left, x.right, x.parent, x.color) == CellIn(Plug(c, Bin(Nil, elm, Red, Nil)), null, x)
      {
        PlantedCell(c, elm, x);
      }
    }

    /** The end of RB_INSERT (lib/tree.h:614-623): linking and recolouring. */
    method Attach(elm: Elem, parent: Elem?, left: bool, ghost c: Context)
      requires Valid() && tree == Plug(c, Nil) && elm !in Nodes(tree) && Brackets(c, elm.key)
      requires parent == ParentOf(c) && (!c.Top? ==> (left <==> c.InLeft?))
      modifies this, Nodes(tree), elm
      ensures Valid() && Contents() == Before(c) + [elm] + After(c)
    {
      ghost var leaf := Bin(Nil, elm, Red, Nil);
      ghost var h := UnplugBalanced(c, Nil, HeightOf(tree));
      PlantedContents(c, elm);
      Plant(elm, parent, left, c);
      tree := InsertColor(elm, c, leaf, h);
    }

    /** RB_INSERT (lib/tree.h:597-625): an element with an equal key is returned and nothing
        changes; otherwise `elm` joins the contents in order. */
    method Insert(elm: Elem) returns (r: Elem?)
      requires Valid()
      modifies this, Nodes(tree), elm
      ensures Valid()
      ensures r != null <==> exists i :: 0 <= i < |old(Contents())| && old(Contents())[i].key == elm.key
      ensures r != null ==> r in Contents() && r.key == elm.key && unchanged(this) && unchanged(elm)
      ensures r == null ==> exists a, b :: old(Contents()) == a + b && Contents() == a + [elm] + b
    {
      var tmp, parent: Elem?, comp := root, null, 0;
      ghost var c, t := Top, tree;
      Reads(c, t);
      while tmp != null
        invariant Valid() && Plug(c, t) == tree && Brackets(c, elm.key)
        invariant tmp == Root(t) && parent == ParentOf(c)
        invariant !c.Top? ==> (comp < 0 <==> c.InLeft?)
        modifies {}
        decreases t
      {
        Reads(c, t);
        Descend(c, t, elm.key);
        parent := tmp;
        comp := elm.key - parent.key;
        if comp < 0 {
          tmp := tmp.left;
          c, t := InLeft(c, t.node, t.color, t.right), t.left;
        } else if comp > 0 {
          tmp := tmp.right;
          c, t := InRight(c, t.node, t.color, t.left), t.right;
        } else {
          NodesInOrder(tree);
          return tmp;
        }
      }
      Absent(c, elm.key);
      NodesInOrder(tree);
      Attach(elm, parent, comp < 0, c);
      r := null;
    }

    /** A red right sibling is rotated away (lib/tree.h:458-462). */
    method RotateSiblingLeft(parent: Elem, tmp: Elem, ghost c: Context, ghost t: Tree)
      requires c.InLeft? && c.node == parent && !BlackRoot(c.sibling) && c.sibling.node == tmp
      requires Represents(Plug(c, t))
      modifies this`root, Nodes(Plug(c, t))
      ensures Represents(Plug(SiblingStep(c), t))
    {
      ghost var w, a := c.sibling, Across(c, t);
      ghost var w' := w.(color := Black);
      assert tmp in Nodes(Plug(c, t)) && parent in Nodes(Plug(c, t)) by {
        Reads(a, w);
      }
      Paint(tmp, Black, a, w);
      PaintedCell(a, w, Black, tmp);
      Paint(parent, Red, c.up, Bin(t, parent, c.color, w'));
      PaintedCell(c.up, Bin(t, parent, c.color, w'), Red, parent);
      RotateLeft(parent, c.up, Bin(t, parent, Red, w'));
    }

    /** The sibling gets a red outer child (lib/tree.h:471-480). */
    method TurnSiblingLeft(tmp: Elem, ghost c: Context, ghost t: Tree)
      requires c.InLeft? && c.sibling.Bin? && c.sibling.node == tmp && !MovesUp(c) && Represents(Plug(c, t))
      requires BlackRoot(c.sibling.right)
      modifies this`root, Nodes(Plug(c, t))
      ensures Represents(Plug(WithSibling(c, TurnedSibling(c)), t))
    {
      ghost var s, a := c.sibling, Across(c, t);
      Reads(a, s);
      Reads(InLeft(a, s.node, s.color, s.right), s.left);
      var inner := tmp.left;
      if inner != null {
        Paint(inner, Black, InLeft(a, s.node, s.color, s.right), s.left);
        PaintedCell(InLeft(a, s.node, s.color, s.right), s.left, Black, inner);
      }
      ghost var s1 := Bin(Blackened(s.left), s.node, Red, s.right).(color := s.color);
      Paint(tmp, Red, a, s1);
      PaintedCell(a, s1, Red, tmp);
      RotateRight(tmp, a, s1.(color := Red));
    }

    /** The last recolouring and rotation (lib/tree.h:481-485). */
    method RepairLeft(parent: Elem, tmp: Elem, ghost c: Context, ghost t: Tree)
      requires c.InLeft? && c.node == parent && c.sibling.Bin? && c.sibling.node == tmp && c.sibling.right.Bin?
      requires Represents(Plug(c, t))
      modifies this`root, Nodes(Plug(c, t))
      ensures var s := c.sibling;
              Represents(Plug(c.up, Bin(Bin(t, parent, Black, s.left), tmp, c.color, Blackened(s.right))))
    {
      ghost var s, a := c.sibling, Across(c, t);
      Reads(a, s);
      Paint(tmp, parent.color, a, s);
      PaintedCell(a, s, c.color, tmp);
      Paint(parent, Black, c.up, Bin(t, parent, c.color, s.(color := c.color)));
      PaintedCell(c.up, Bin(t, parent, c.color, s.(color := c.color)), Black, parent);
      Reads(InRight(InRight(c.up, parent, Black, t), s.node, c.color, s.left), s.right);
      if tmp.right != null {
        Paint(tmp.right, Black, InRight(InRight(c.up, parent, Black, t), s.node, c.color, s.left), s.right);
        PaintedCell(InRight(InRight(c.up, parent, Black, t), s.node, c.color, s.left), s.right, Black, tmp.right);
      }
      RotateLeft(parent, c.up, Bin(t, parent, Black, Bin(s.left, s.node, c.color, Blackened(s.right))));
    }

    /** A red left sibling is rotated away (lib/tree.h:491-495). */
    method RotateSiblingRight(parent: Elem, tmp: Elem, ghost c: Context, ghost t: Tree)
      requires c.InRight? && c.node == parent && !BlackRoot(c.sibling) && c.sibling.node == tmp
      requires Represents(Plug(c, t))
      modifies this`root, Nodes(Plug(c, t))
      ensures Represents(Plug(SiblingStep(c), t))
    {
      ghost var w, a := c.sibling, Across(c, t);
      ghost var w' := w.(color := Black);
      assert tmp in Nodes(Plug(c, t)) && parent in Nodes(Plug(c, t)) by {
        Reads(a, w);
      }
      Paint(tmp, Black, a, w);
      PaintedCell(a, w, Black, tmp);
      Paint(parent, Red, c.up, Bin(w', parent, c.color, t));
      PaintedCell(c.up, Bin(w', parent, c.color, t), Red, parent);
      RotateRight(parent, c.up, Bin(w', parent, Red, t));
    }

    /** The sibling gets a red outer child (lib/tree.h:504-513). */
    method TurnSiblingRight(tmp: Elem, ghost c: Context, ghost t: Tree)
      requires c.InRight? && c.sibling.Bin? && c.sibling.node == tmp && !MovesUp(c) && Represents(Plug(c, t))
      requires BlackRoot(c.sibling.left)
      modifies this`root, Nodes(Plug(c, t))
      ensures Represents(Plug(WithSibling(c, TurnedSibling(c)), t))
    {
      ghost var s, a := c.sibling, Across(c, t);
      Reads(a, s);
      Reads(InRight(a, s.node, s.color, s.left), s.right);
      var inner := tmp.right;
      if inner != null {
        Paint(inner, Black, InRight(a, s.node, s.color, s.left), s.right);
        PaintedCell(InRight(a, s.node, s.color, s.left), s.right, Black, inner);
      }
      ghost var s1 := Bin(s.left, s.node, Red, Blackened(s.right)).(color := s.color);
      Paint(tmp, Red, a, s1);
      PaintedCell(a, s1, Red, tmp);
      RotateLeft(tmp, a, s1.(color := Red));
    }

    /** The last recolouring and rotation (lib/tree.h:514-518). */
    method RepairRight(parent: Elem, tmp: Elem, ghost c: Context, ghost t: Tree)
      requires c.InRight? && c.node == parent && c.sibling.Bin? && c.sibling.node == tmp && c.sibling.left.Bin?
      requires Represents(Plug(c, t))
      modifies this`root, Nodes(Plug(c, t))
      ensures var s := c.sibling;
              Represents(Plug(c.up, Bin(Blackened(s.left), tmp, c.color, Bin(s.right, parent, Black, t))))
    {
      ghost var s, a := c.sibling, Across(c, t);
      Reads(a, s);
      Paint(tmp, parent.color, a, s);
      PaintedCell(a, s, c.color, tmp);
      Paint(parent, Black, c.up, Bin(s.(color := c.color), parent, c.color, t));
      PaintedCell(c.up, Bin(s.(color := c.color), parent, c.color, t), Black, parent);
      Reads(InLeft(InLeft(c.up, parent, Black, t), s.node, c.color, s.right), s.left);
      if tmp.left != null {
        Paint(tmp.left, Black, InLeft(InLeft(c.up, parent, Black, t), s.node, c.color, s.right), s.left);
        PaintedCell(InLeft(InLeft(c.up, parent, Black, t), s.node, c.color, s.right), s.left, Black, tmp.left);
      }
      RotateRight(parent, c.up, Bin(Bin(Blackened(s.left), s.node, c.color, s.right), parent, Black, t));
    }

    /** A red child of the sibling ends the repair (lib/tree.h:471-485). */
    method FinishLeft(parent: Elem, tmp0: Elem, ghost c: Context, ghost t: Tree, ghost h: nat)
      requires c.InLeft? && c.node == parent && c.sibling.Bin? && c.sibling.node == tmp0 && !MovesUp(c)
      requires BlackRoot(c.sibling) && Balanced(c.sibling, h + 1) && Represents(Plug(c, t))
      modifies this`root, Nodes(Plug(c, t))
      ensures Represents(Plug(c.up, Repaired(c, t)))
    {
      var tmp := tmp0;
      ghost var s, q := c.sibling, WithSibling(c, TurnedSibling(c));
      TurnedSiblingKeeps(c, h);
      assert tmp.right == Root(s.right) by { Reads(Across(c, t), s); }
      assert tmp.right != null ==> tmp.right.color == s.right.color by {
        Reads(InRight(Across(c, t), s.node, s.color, s.left), s.right);
      }
      if tmp.right == null || tmp.right.color == Black {
        TurnSiblingLeft(tmp, c, t);
        SameContents(c.up, Climb(c, t), q.up, Climb(q, t));
        assert parent.right == Root(q.sibling) by { Reads(q, t); }
        tmp := parent.right;
      }
      RepairLeft(parent, tmp, q, t);
    }

    /** The sibling of a left child, once it is black (lib/tree.h:457-462). */
    method BlackSiblingLeft(parent: Elem, ghost c: Context, ghost t: Tree, ghost h: nat) returns (tmp: Elem)
      requires c.InLeft? && c.node == parent && Deficient(c, t, h) && Represents(Plug(c, t))
      modifies this`root, Nodes(Plug(c, t))
      ensures var c' := SiblingStep(c);
              c'.InLeft? && c'.sibling.Bin? && c'.sibling.node == tmp && Represents(Plug(c', t))
    {
      SiblingStepKeeps(c, t, h);
      assert parent.right == Root(c.sibling) && parent.right.color == c.sibling.color by {
        Reads(c, t);
        Reads(Across(c, t), c.sibling);
      }
      tmp := parent.right;
      if tmp.color == Red {
        RotateSiblingLeft(parent, tmp, c, t);
        assert parent.right == Root(SiblingStep(c).sibling) by { Reads(SiblingStep(c), t); }
        tmp := parent.right;
      }
    }

    /** The two outcomes below a black sibling of a left child (lib/tree.h:463-488).  `done` is the break. */
    method ResolveLeft(parent0: Elem, tmp: Elem, ghost c: Context, ghost t: Tree, ghost h: nat)
      returns (elm: Elem?, parent: Elem?, done: bool)
      requires c.InLeft? && c.node == parent0 && c.sibling.Bin? && c.sibling.node == tmp
      requires BlackRoot(c.sibling) && Balanced(c.sibling, h + 1) && Represents(Plug(c, t))
      modifies this`root, Nodes(Plug(c, t))
      ensures done <==> !MovesUp(c)
      ensures if done then elm == root && Represents(Plug(c.up, Repaired(c, t)))
              else Represents(Plug(c.up, PushedUp(c, t))) && elm == parent0 && parent == ParentOf(c.up)
    {
      parent := parent0;
      ghost var s, a := c.sibling, Across(c, t);
      assert tmp in Nodes(Plug(c, t)) && tmp.left == Root(s.left) && tmp.right == Root(s.right) by { Reads(a, s); }
      assert tmp.left != null ==> tmp.left.color == s.left.color by {
        Reads(InLeft(a, s.node, s.color, s.right), s.left);
      }
      assert tmp.right != null ==> tmp.right.color == s.right.color by {
        Reads(InRight(a, s.node, s.color, s.left), s.right);
      }
      if (tmp.left == null || tmp.left.color == Black) && (tmp.right == null || tmp.right.color == Black) {
        Paint(tmp, Red, a, s);
        assert parent.parent == ParentOf(c.up) by { Reads(c.up, PushedUp(c, t)); }
        elm := parent;
        parent := elm.parent;
        done := false;
      } else {
        FinishLeft(parent, tmp, c, t, h);
        elm := root;
        done := true;
      }
    }

    /** A red child of the sibling ends the repair (lib/tree.h:504-518). */
    method FinishRight(parent: Elem, tmp0: Elem, ghost c: Context, ghost t: Tree, ghost h: nat)
      requires c.InRight? && c.node == parent && c.sibling.Bin? && c.sibling.node == tmp0 && !MovesUp(c)
      requires BlackRoot(c.sibling) && Balanced(c.sibling, h + 1) && Represents(Plug(c, t))
      modifies this`root, Nodes(Plug(c, t))
      ensures Represents(Plug(c.up, Repaired(c, t)))
    {
      var tmp := tmp0;
      ghost var s, q := c.sibling, WithSibling(c, TurnedSibling(c));
      TurnedSiblingKeeps(c, h);
      assert tmp.left == Root(s.left) by { Reads(Across(c, t), s); }
      assert tmp.left != null ==> tmp.left.color == s.left.color by {
        Reads(InLeft(Across(c, t), s.node, s.color, s.right), s.left);
      }
      if tmp.left == null || tmp.left.color == Black {
        TurnSiblingRight(tmp, c, t);
        SameContents(c.up, Climb(c, t), q.up, Climb(q, t));
        assert parent.left == Root(q.sibling) by { Reads(q, t); }
        tmp := parent.left;
      }
      RepairRight(parent, tmp, q, t);
    }

    /** The sibling of a right child, once it is black (lib/tree.h:490-495). */
    method BlackSiblingRight(parent: Elem, ghost c: Context, ghost t: Tree, ghost h: nat) returns (tmp: Elem)
      requires c.InRight? && c.node == parent && Deficient(c, t, h) && Represents(Plug(c, t))
      modifies this`root, Nodes(Plug(c, t))
      ensures var c' := SiblingStep(c);
              c'.InRight? && c'.sibling.Bin? && c'.sibling.node == tmp && Represents(Plug(c', t))
    {
      SiblingStepKeeps(c, t, h);
      assert parent.left == Root(c.sibling) && parent.left.color == c.sibling.color by {
        Reads(c, t);
        Reads(Across(c, t), c.sibling);
      }
      tmp := parent.left;
      if tmp.color == Red {
        RotateSiblingRight(parent, tmp, c, t);
        assert parent.left == Root(SiblingStep(c).sibling) by { Reads(SiblingStep(c), t); }
        tmp := parent.left;
      }
    }

    /** The two outcomes below a black sibling of a right child (lib/tree.h:496-521).  `done` is the break. */
    method ResolveRight(parent0: Elem, tmp: Elem, ghost c: Context, ghost t: Tree, ghost h: nat)
      returns (elm: Elem?, parent: Elem?, done: bool)
      requires c.InRight? && c.node == parent0 && c.sibling.Bin? && c.sibling.node == tmp
      requires BlackRoot(c.sibling) && Balanced(c.sibling, h + 1) && Represents(Plug(c, t))
      modifies this`root, Nodes(Plug(c, t))
      ensures done <==> !MovesUp(c)
      ensures if done then elm == root && Represents(Plug(c.up, Repaired(c, t)))
              else Represents(Plug(c.up, PushedUp(c, t))) && elm == parent0 && parent == ParentOf(c.up)
    {
      parent := parent0;
      ghost var s, a := c.sibling, Across(c, t);
      assert tmp in Nodes(Plug(c, t)) && tmp.left == Root(s.left) && tmp.right == Root(s.right) by { Reads(a, s); }
      assert tmp.left != null ==> tmp.left.color == s.left.color by {
        Reads(InLeft(a, s.node, s.color, s.right), s.left);
      }
      assert tmp.right != null ==> tmp.right.color == s.right.color by {
        Reads(InRight(a, s.node, s.color, s.left), s.right);
      }
      if (tmp.left == null || tmp.left.color == Black) && (tmp.right == null || tmp.right.color == Black) {
        Paint(tmp, Red, a, s);
        assert parent.parent == ParentOf(c.up) by { Reads(c.up, PushedUp(c, t)); }
        elm := parent;
        parent := elm.parent;
        done := false;
      } else {
        FinishRight(parent, tmp, c, t, h);
        elm := root;
        done := true;
      }
    }

    /** One turn of the loop of RB_REMOVE_COLOR (lib/tree.h:456-522); `done` is the break. */
    method RemoveTurn(elm0: Elem?, parent0: Elem, ghost c: Context, ghost t: Tree, ghost h: nat)
      returns (elm: Elem?, parent: Elem?, done: bool)
      requires elm0 == Root(t) && !c.Top? && c.node == parent0
      requires BlackRoot(t) && Deficient(c, t, h) && Represents(Plug(c, t))
      modifies this`root, Nodes(Plug(c, t))
      ensures var s := SiblingStep(c);
              !s.Top? && s.sibling.Bin? && (done <==> !MovesUp(s)) &&
              if done then elm == root && Represents(Plug(s.up, Repaired(s, t)))
              else Represents(Plug(s.up, PushedUp(s, t))) && elm == s.node && parent == ParentOf(s.up)
    {
      parent := parent0;
      ghost var s := SiblingStep(c);
      SiblingStepKeeps(c, t, h);
      SiblingStepContents(c, t);
      LeftOrRight(c, t);
      if parent.left == elm0 {
        var tmp := BlackSiblingLeft(parent, c, t, h);
        elm, parent, done := ResolveLeft(parent, tmp, s, t, h);
      } else {
        var tmp := BlackSiblingRight(parent, c, t, h);
        elm, parent, done := ResolveRight(parent, tmp, s, t, h);
      }
    }

    /** RB_REMOVE_COLOR (lib/tree.h:450-526): restores the black heights after a black node
        was taken out above `elm0`. */
    method RemoveColor(parent0: Elem?, elm0: Elem?, ghost c0: Context, ghost t0: Tree, ghost h0: nat)
      returns (ghost tree': Tree)
      requires elm0 == Root(t0) && parent0 == ParentOf(c0)
      requires Deficient(c0, t0, h0) && Represents(Plug(c0, t0))
      modifies this`root, Nodes(Plug(c0, t0))
      ensures Represents(tree') && IsRedBlack(tree') && InOrder(tree') == InOrder(Plug(c0, t0))
    {
      var parent, elm := parent0, elm0;
      ghost var c, t, h, repaired := c0, t0, h0, false;
      ReadsFocus(c, t);
      while (elm == null || elm.color == Black) && elm != root
        invariant elm == Root(t) && parent == ParentOf(c)
        invariant Deficient(c, t, h) && Represents(Plug(c, t)) && !repaired
        invariant InOrder(Plug(c, t)) == InOrder(Plug(c0, t0)) && Nodes(Plug(c, t)) == Nodes(Plug(c0, t0))
        invariant (elm == root <==> c.Top?) && (elm != null ==> elm.color == t.color)
        decreases BlackRoot(t), c
      {
        ghost var h1, s := h, SiblingStep(c);
        h := RemoveStepKeeps(c, t, h1);
        var done: bool;
        elm, parent, done := RemoveTurn(elm, parent, c, t, h1);
        if done {
          c, t, repaired := Top, Plug(s.up, Repaired(s, t)), true;
          break;
        }
        c, t := s.up, PushedUp(s, t);
        ReadsFocus(c, t);
      }
      if !repaired { RemoveDone(c, t, h); }
      if elm != null {
        ReadsFocus(c, t);
        Paint(elm, Black, c, t);
      }
      tree' := Plug(c, Blackened(t));
    }

    /** The only child of `elm` takes its place (lib/tree.h:544-555 and 578-589). */
    method Cut(elm: Elem, child: Elem?, ghost c: Context, ghost t: Tree) returns (parent: Elem?, color: Color)
      requires t.Bin? && t.node == elm && (t.left.Nil? || t.right.Nil?) && child == Root(OnlyChild(t))
      requires Represents(Plug(c, t))
      modifies this`root, Nodes(Plug(c, t))
      ensures Represents(Plug(c, OnlyChild(t))) && parent == ParentOf(c) && color == t.color
      ensures unchanged(elm)
    {
      ghost var s := OnlyChild(t);
      Reads(c, t);
      CutSite(c, t);
      parent := elm.parent;
      color := elm.color;
      if child != null {
        child.parent := parent;
      }
      if parent != null {
        if parent.left == elm {
          parent.left := child;
        } else {
          parent.right := child;
        }
      } else {
        root := child;
      }
      forall x | x in Nodes(Plug(c, t)) && x != elm
        ensures Cell(x.left, x.right, x.parent, x.color) == CellIn(Plug(c, s), null, x)
      {
        CutCell(c, t, x);
      }
    }

    /** `elm`, no longer linked, takes the links and the colour of `was` (lib/tree.h:558-569). */
    method Swap(was: Elem, elm: Elem, ghost c: Context, ghost t: Tree)
      requires t.Bin? && t.node == was && t.left.Bin? && elm !in Nodes(Plug(c, t)) && Represents(Plug(c, t))
      modifies this`root, Nodes(Plug(c, t)), elm
      ensures Represents(Plug(c, t.(node := elm)))
    {
      Reads(c, t);
      SwapSite(c, t, elm);
      elm.left := was.left;
      elm.right := was.right;
      elm.parent := was.parent;
      elm.color := was.color;
      if was.parent != null {
        if was.parent.left == was {
          was.parent.left := elm;
        } else {
          was.parent.right := elm;
        }
      } else {
        root := elm;
      }
      was.left.parent := elm;
      if was.right != null {
        was.right.parent := elm;
      }
      forall x | x in Nodes(Plug(c, t)) - {was} + {elm}
        ensures Cell(x.left, x.right, x.parent, x.color) == CellIn(Plug(c, t.(node := elm)), null, x)
      {
        SwapCell(c, t, elm, x);
      }
    }

    /** The zero- and one-child cases of RB_REMOVE (lib/tree.h:578-592). */
    method RemoveOuter(elm: Elem, child: Elem?, ghost c: Context, ghost t: Tree)
      requires Valid() && Plug(c, t) == tree && t.Bin? && t.node == elm
      requires (t.left.Nil? || t.right.Nil?) && child == Root(OnlyChild(t))
      modifies this, Nodes(tree)
      ensures Valid() && Without(old(Contents()), elm, Contents())
    {
      ghost var h := UnplugBalanced(c, t, HeightOf(tree));
      CutContents(c, t);
      CutKeeps(c, t, h);
      CutSite(c, t);
      var parent, color := Cut(elm, child, c, t);
      tree := Plug(c, OnlyChild(t));
      if color == Black {
        tree := RemoveColor(parent, child, c, OnlyChild(t), 0);
      }
    }

    /** The walk to the successor of `was` (lib/tree.h:540-542). */
    method Successor(was: Elem, ghost c: Context, ghost t: Tree)
      returns (elm: Elem, ghost inner: Context, ghost m: Tree)
      requires Represents(Plug(c, t)) && t.Bin? && t.node == was && t.right.Bin?
      ensures Represents(Plug(c, t))
      ensures Leftmost(inner) && m.Bin? && m.node == elm && m.left.Nil? && Plug(inner, m) == t.right
    {
      ghost var site := InRight(c, was, t.color, t.left);
      inner, m := Top, t.right;
      Reads(c, t);
      elm := was.right;
      assert elm.left == Root(m.left) by { Reads(site, m); }
      var left := elm.left;
      while left != null
        invariant Represents(Plug(c, t)) && Leftmost(inner) && m.Bin? && m.node == elm
        invariant Plug(inner, m) == t.right && left == Root(m.left)
        decreases m
      {
        elm := left;
        inner, m := InLeft(inner, m.node, m.color, m.right), m.left;
        ComposePlug(site, inner, m);
        assert Plug(site, t.right) == Plug(c, t);
        assert elm.left == Root(m.left) by { Reads(Compose(site, inner), m); }
        left := elm.left;
      }
    }

    /** Cutting the successor out and putting it in the place of `was` (lib/tree.h:543-569). */
    method Exchange(was: Elem, elm: Elem, ghost c: Context, ghost t: Tree, ghost inner: Context, ghost m: Tree)
      returns (parent: Elem?, child: Elem?, color: Color)
      requires t.Bin? && t.node == was && t.left.Bin? && Represents(Plug(c, t))
      requires m.Bin? && m.node == elm && m.left.Nil? && Plug(inner, m) == t.right
      modifies this`root, Nodes(Plug(c, t))
      ensures var site' := Compose(InRight(c, elm, t.color, t.left), inner);
              Represents(Plug(site', m.right)) && parent == ParentOf(site') && child == Root(m.right) &&
              color == m.color
      ensures Nodes(Plug(Compose(InRight(c, elm, t.color, t.left), inner), m.right)) == Nodes(Plug(c, t)) - {was}
    {
      ghost var site := Compose(InRight(c, was, t.color, t.left), inner);
      ghost var t1 := Bin(t.left, was, t.color, Plug(inner, m.right));
      SuccessorSites(c, t, inner, m);
      CutSite(site, m);
      SwapSite(c, t1, elm);
      assert elm.right == Root(m.right) && elm.parent == ParentOf(site) by { Reads(site, m); }
      child := elm.right;
      parent, color := Cut(elm, child, site, m);
      if elm.parent == was {
        parent := elm;
      }
      Swap(was, elm, c, t1);
    }

    /** The two-child case of RB_REMOVE (lib/tree.h:538-577): the successor of `was` is cut
        out and takes the place of `was`. */
    method RemoveInner(was: Elem, ghost c: Context, ghost t: Tree)
      requires Valid() && Plug(c, t) == tree && t.Bin? && t.node == was && t.left.Bin? && t.right.Bin?
      modifies this, Nodes(tree)
      ensures Valid() && Without(old(Contents()), was, Contents())
    {
      var elm;
      ghost var inner, m;
      elm, inner, m := Successor(was, c, t);
      ghost var site' := Compose(InRight(c, elm, t.color, t.left), inner);
      SuccessorContents(c, t, inner, m);
      SuccessorKeeps(c, t, inner, m);
      SuccessorSites(c, t, inner, m);
      var parent, child, color := Exchange(was, elm, c, t, inner, m);
      tree := Plug(site', m.right);
      if color == Black {
        tree := RemoveColor(parent, child, site', m.right, 0);
      }
    }

    /** RB_REMOVE (lib/tree.h:528-594): exactly `elm` leaves the contents. */
    method Remove(elm: Elem) returns (r: Elem)
      requires Valid() && elm in Nodes(tree)
      modifies this, Nodes(tree)
      ensures Valid() && r == elm && Without(old(Contents()), elm, Contents())
    {
      ghost var c, t := Focus(Top, tree, elm);
      Reads(c, t);
      if elm.left == null {
        RemoveOuter(elm, elm.right, c, t);
      } else if elm.right == null {
        RemoveOuter(elm, elm.left, c, t);
      } else {
        RemoveInner(elm, c, t);
      }
      r := elm;
    }

    /** RB_FIND (lib/tree.h:627-644). */
    method Find(key: int) returns (r: Elem?)
      requires Valid()
      ensures r == null ==> forall i :: 0 <= i < |Contents()| ==> Contents()[i].key != key
      ensures r != null ==> r in Contents() && r.key == key
    {
      r := root;
      ghost var c, t := Top, tree;
      while r != null
        invariant Valid() && Plug(c, t) == tree && Brackets(c, key) && r == Root(t)
        decreases t
      {
        Reads(c, t);
        Descend(c, t, key);
        if key < r.key {
          r := r.left;
          c, t := InLeft(c, t.node, t.color, t.right), t.left;
        } else if key > r.key {
          r := r.right;
          c, t := InRight(c, t.node, t.color, t.left), t.right;
        } else {
          NodesInOrder(tree);
          return;
        }
      }
      Absent(c, key);
    }

    /** RB_NFIND (lib/tree.h:646-666): the first element not below the key. */
    method NFind(key: int) returns (res: Elem?)
      requires Valid()
      ensures exists i :: 0 <= i <= |Contents()| && AllLess(Contents()[..i], key) && res == First(Contents()[i..])
      ensures res != null ==> res.key >= key
    {
      var tmp := root;
      res := null;
      ghost var c, t := Top, tree;
      while tmp != null
        invariant Valid() && Plug(c, t) == tree && Brackets(c, key) && tmp == Root(t)
        invariant res == First(After(c))
        decreases t
      {
        Reads(c, t);
        Descend(c, t, key);
        if key < tmp.key {
          res := tmp;
          tmp := tmp.left;
          c, t := InLeft(c, t.node, t.color, t.right), t.left;
        } else if key > tmp.key {
          tmp := tmp.right;
          c, t := InRight(c, t.node, t.color, t.left), t.right;
        } else {
          FoundFirst(c, t);
          return tmp;
        }
      }
      PlugInOrder(c, Nil);
      assert Contents()[..|Before(c)|] == Before(c) && Contents()[|Before(c)|..] == After(c);
    }

    /** RB_MINMAX (lib/tree.h:713-726): the leftmost node for a negative `val`, else the
        rightmost. */
    method MinMax(val: int) returns (parent: Elem?)
      requires Valid()
      ensures Valid()
      ensures parent == if val < 0 then First(Contents()) else Last(Contents())
    {
      var tmp := root;
      parent := null;
      ghost var c, t := Top, tree;
      while tmp != null
        invariant Valid() && Plug(c, t) == tree && tmp == Root(t)
        invariant if val < 0 then Before(c) == [] && parent == First(After(c))
                  else After(c) == [] && parent == Last(Before(c))
        decreases t
      {
        Reads(c, t);
        parent := tmp;
        if val < 0 {
          tmp := tmp.left;
          c, t := InLeft(c, t.node, t.color, t.right), t.left;
        } else {
          tmp := tmp.right;
          c, t := InRight(c, t.node, t.color, t.left), t.right;
        }
      }
      PlugInOrder(c, Nil);
    }

    /** RB_NEXT (lib/tree.h:668-688). */
    method Next(elm0: Elem) returns (elm: Elem?)
      requires Valid() && elm0 in Nodes(tree)
      ensures Valid() && Follows(Contents(), elm0, elm)
    {
      ghost var c, t := Focus(Top, tree, elm0);
      Neighbours(c, t);
      Reads(c, t);
      elm := elm0;
      if elm.right != null {
        c, t := InRight(c, t.node, t.color, t.left), t.right;
        elm := elm.right;
        Reads(c, t);
        ghost var follow := First(InOrder(t) + After(c));
        while elm.left != null
          invariant Valid() && Plug(c, t) == tree && t.Bin? && t.node == elm
          invariant elm.left == Root(t.left) && First(InOrder(t) + After(c)) == follow
          decreases t
        {
          c, t := InLeft(c, t.node, t.color, t.right), t.left;
          elm := elm.left;
          Reads(c, t);
        }
        assert InOrder(t)[0] == elm;
      } else {
        if elm.parent != null && elm == elm.parent.left {
          elm := elm.parent;
        } else {
          ghost var follow := First(After(c));
          while elm.parent != null && elm == elm.parent.right
            invariant Valid() && Plug(c, t) == tree && t.Bin? && t.node == elm
            invariant First(After(c)) == follow
            invariant elm.parent == ParentOf(c) && (!c.Top? ==> (elm == c.node.right <==> c.InRight?))
            decreases c
          {
            elm := elm.parent;
            c, t := c.up, Climb(c, t);
            Reads(c, t);
          }
          elm := elm.parent;
        }
      }
    }

    /** RB_PREV (lib/tree.h:690-711). */
    method Prev(elm0: Elem) returns (elm: Elem?)
      requires Valid() && elm0 in Nodes(tree)
      ensures Precedes(Contents(), elm0, elm)
    {
      ghost var c, t := Focus(Top, tree, elm0);
      Neighbours(c, t);
      Reads(c, t);
      elm := elm0;
      if elm.left != null {
        c, t := InLeft(c, t.node, t.color, t.right), t.left;
        elm := elm.left;
        Reads(c, t);
        ghost var before := Last(Before(c) + InOrder(t));
        while elm.right != null
          invariant Valid() && Plug(c, t) == tree && t.Bin? && t.node == elm
          invariant elm.right == Root(t.right) && Last(Before(c) + InOrder(t)) == before
          decreases t
        {
          c, t := InRight(c, t.node, t.color, t.left), t.right;
          elm := elm.right;
          Reads(c, t);
        }
        assert InOrder(t)[|InOrder(t)| - 1] == elm;
      } else {
        if elm.parent != null && elm == elm.parent.right {
          elm := elm.parent;
        } else {
          ghost var before := Last(Before(c));
          while elm.parent != null && elm == elm.parent.left
            invariant Valid() && Plug(c, t) == tree && t.Bin? && t.node == elm
            invariant Last(Before(c)) == before
            invariant elm.parent == ParentOf(c) && (!c.Top? ==> (elm == c.node.left <==> c.InLeft?))
            decreases c
          {
            elm := elm.parent;
            c, t := c.up, Climb(c, t);
            Reads(c, t);
          }
          elm := elm.parent;
        }
      }
    }

    /** RB_FOREACH (lib/tree.h:740-743) visits exactly the contents, in order. */
    method Foreach() returns (visited: seq<Elem>)
      requires Valid()
      ensures visited == Contents()
    {
      visited := [];
      var x := MinMax(-1);
      assert Contents()[|visited|..] == Contents();
      while x != null
        invariant Valid() && |visited| <= |Contents()| && visited == Contents()[..|visited|]
        invariant x == First(Contents()[|visited|..])
        decreases |Contents()| - |visited|
      {
        NodesInOrder(tree);
        ghost var k := |visited|;
        assert Contents()[k] == x;
        visited := visited + [x];
        x := Next(x);
        SortedIndex(Contents(), k);
      }
    }
  }
}
