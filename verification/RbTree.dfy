/** The red-black tree of include/user_tree.h as generated for the epoll interest set. */
module RbTree {
  import opened RbSpec
  import opened RbShape

  class RbHead {
    var root: Epitem?
    ghost var tree: Tree

    // RB_LEFT, RB_RIGHT, RB_PARENT and RB_COLOR as targets of an assignment

    static method SetLeft(x: Epitem, y: Epitem?, ghost s: set<Epitem>)
      requires x in s
      modifies x`left
      ensures Snap(s) == old(Snap(s))[x := old(Snap(s))[x].(left := y)]
    {
      x.left := y;
    }

    static method SetRight(x: Epitem, y: Epitem?, ghost s: set<Epitem>)
      requires x in s
      modifies x`right
      ensures Snap(s) == old(Snap(s))[x := old(Snap(s))[x].(right := y)]
    {
      x.right := y;
    }

    static method SetParent(x: Epitem, y: Epitem?, ghost s: set<Epitem>)
      requires x in s
      modifies x`parent
      ensures Snap(s) == Reparent(old(Snap(s)), x, y)
    {
      x.parent := y;
    }

    static method SetColor(x: Epitem, red: bool, ghost s: set<Epitem>)
      requires x in s
      modifies x`red
      ensures Snap(s) == old(Snap(s))[x := old(Snap(s))[x].(red := red)]
    {
      x.red := red;
    }

    /** The structure assignment of line 493. */
    static method CopyField(x: Epitem, y: Epitem, ghost s: set<Epitem>)
      requires x in s && y in s
      modifies x`left, x`right, x`parent, x`red
      ensures Snap(s) == old(Snap(s))[x := old(Snap(s))[y]]
    {
      x.left, x.right, x.parent, x.red := y.left, y.right, y.parent, y.red;
    }

    method Redirect(p: Epitem?, x: Epitem, y: Epitem?, ghost s: set<Epitem>)
      requires p != null ==> p in s
      modifies this`root, s`left, s`right
      ensures Snap(s) == Rehang(old(Snap(s)), p, x, y)
      ensures root == if p == null then y else old(root)
    {
      if p != null {
        if p.left == x {
          SetLeft(p, y, s);
        } else {
          SetRight(p, y, s);
        }
      } else {
        root := y;
      }
    }

    ghost predicate At(s: set<Epitem>, c: Ctx, t: Tree)
      reads this`root, s`left, s`right, s`parent, s`red
    {
      Shape(Snap(s), root, c, t)
    }

    method Color(x: Epitem, red: bool, ghost s: set<Epitem>, ghost c: Ctx, ghost t: Tree)
      requires At(s, c, t) && t.Fork? && t.item == x
      modifies s`red
      ensures At(s, c, Paint(t, red))
    {
      PaintShape(Snap(s), root, c, t, red);
      SetColor(x, red, s);
    }

    method ColorLeft(x: Epitem, red: bool, ghost s: set<Epitem>, ghost c: Ctx, ghost t: Tree)
      requires At(s, c, t) && t.Fork? && t.left.Fork? && t.left.item == x
      modifies s`red
      ensures At(s, c, t.(left := Paint(t.left, red)))
    {
      MoveLeft(Snap(s), root, c, t);
      Color(x, red, s, InLeft(t.item, t.red, t.right, c), t.left);
      MoveLeft(Snap(s), root, c, t.(left := Paint(t.left, red)));
    }

    method ColorRight(x: Epitem, red: bool, ghost s: set<Epitem>, ghost c: Ctx, ghost t: Tree)
      requires At(s, c, t) && t.Fork? && t.right.Fork? && t.right.item == x
      modifies s`red
      ensures At(s, c, t.(right := Paint(t.right, red)))
    {
      MoveRight(Snap(s), root, c, t);
      Color(x, red, s, InRight(t.item, t.red, t.left, c), t.right);
      MoveRight(Snap(s), root, c, t.(right := Paint(t.right, red)));
    }

    method TurnLeft(elm: Epitem, ghost s: set<Epitem>, ghost c: Ctx, ghost t: Tree)
      requires At(s, c, t) && t.Fork? && t.item == elm && t.right.Fork?
      modifies this`root, s`left, s`right, s`parent
      ensures At(s, c, RotatedLeft(t))
    {
      RotateLeftShape(Snap(s), root, c, t);
      RotateLeft(elm, s);
    }

    method RotateLeft(elm: Epitem, ghost s: set<Epitem>)
      requires CanRotateLeft(Snap(s), elm)
      modifies this`root, s`left, s`right, s`parent
      ensures Snap(s) == RotateLeftLinks(old(Snap(s)), elm)
      ensures root == if old(elm.parent) == null then old(elm.right) else old(root)
    {
      var tmp := elm.right;
      SetRight(elm, tmp.left, s);
      if tmp.left != null {
        SetParent(tmp.left, elm, s);
      }
      SetParent(tmp, elm.parent, s);
      Redirect(tmp.parent, elm, tmp, s);
      SetLeft(tmp, elm, s);
      SetParent(elm, tmp, s);
    }

    method TurnRight(elm: Epitem, ghost s: set<Epitem>, ghost c: Ctx, ghost t: Tree)
      requires At(s, c, t) && t.Fork? && t.item == elm && t.left.Fork?
      modifies this`root, s`left, s`right, s`parent
      ensures At(s, c, RotatedRight(t))
    {
      RotateRightShape(Snap(s), root, c, t);
      RotateRight(elm, s);
    }

    method RotateRight(elm: Epitem, ghost s: set<Epitem>)
      requires CanRotateRight(Snap(s), elm)
      modifies this`root, s`left, s`right, s`parent
      ensures Snap(s) == RotateRightLinks(old(Snap(s)), elm)
      ensures root == if old(elm.parent) == null then old(elm.left) else old(root)
    {
      var tmp := elm.left;
      SetLeft(elm, tmp.right, s);
      if tmp.right != null {
        SetParent(tmp.right, elm, s);
      }
      SetParent(tmp, elm.parent, s);
      Redirect(tmp.parent, elm, tmp, s);
      SetRight(tmp, elm, s);
      SetParent(elm, tmp, s);
    }

    // ---- RB_INSERT_COLOR

    /** One iteration below a left-hand parent (lines 349-365). */
    method InsertStepLeft(elm0: Epitem, parent0: Epitem, gparent: Epitem, ghost s: set<Epitem>, ghost c: Ctx,
        ghost t: Tree)
      returns (elm: Epitem, ghost c': Ctx, ghost t': Tree)
      requires At(s, c, t) && Growing(c, t) && Root(t) == elm0
      requires CtxRed(c) && c.item == parent0 && c.up.InLeft? && c.up.item == gparent
      modifies this`root, s`left, s`right, s`parent, s`red
      ensures At(s, c', t') && Growing(c', t') && Root(t') == elm && Depth(c') < Depth(c)
      ensures InOrder(Plug(c', t')) == InOrder(Plug(c, t))
    {
      Climb(Snap(s), root, c, t);
      Climb(Snap(s), root, c.up, Above(c, t));
      var tmp := gparent.right;
      if tmp != null && tmp.red {
        RecolorGrows(c, t);
        RecolorLeft(tmp, parent0, gparent, s, c.up.up, Above(c.up, Above(c, t)));
        return gparent, c.up.up, Recolored(c, t);
      }
      elm, c', t' := elm0, c, t;
      var parent := parent0;
      if parent.right == elm {
        assert c.InRight?;
        StraightGrows(c, t);
        TurnLeft(parent, s, c.up, Above(c, t));
        c', t' := StraightCtx(c, t), StraightTree(c, t);
        parent, elm := elm, parent;
        Climb(Snap(s), root, c', t');
        Climb(Snap(s), root, c'.up, Above(c', t'));
      }
      assert c'.InLeft?;
      LiftedGrows(c', t');
      LiftLeft(parent, gparent, s, c'.up.up, Above(c'.up, Above(c', t')));
      c' := LiftedCtx(c');
      Climb(Snap(s), root, c', t');
    }

    method RecolorLeft(tmp: Epitem, parent: Epitem, gparent: Epitem, ghost s: set<Epitem>, ghost c: Ctx, ghost g: Tree)
      requires At(s, c, g) && g.Fork? && g.left.Fork? && g.right.Fork?
      requires g.item == gparent && g.left.item == parent && g.right.item == tmp
      modifies s`red
      ensures At(s, c, Fork(Paint(g.left, false), gparent, true, Paint(g.right, false)))
    {
      ColorRight(tmp, false, s, c, g);
      ColorLeft(parent, false, s, c, g.(right := Paint(g.right, false)));
      Color(gparent, true, s, c, g.(left := Paint(g.left, false), right := Paint(g.right, false)));
    }

    method LiftLeft(parent: Epitem, gparent: Epitem, ghost s: set<Epitem>, ghost c: Ctx, ghost g: Tree)
      requires At(s, c, g) && g.Fork? && g.left.Fork?
      requires g.item == gparent && g.left.item == parent
      modifies this`root, s`left, s`right, s`parent, s`red
      ensures At(s, c, RotatedRight(Fork(Paint(g.left, false), gparent, true, g.right)))
    {
      ColorLeft(parent, false, s, c, g);
      Color(gparent, true, s, c, g.(left := Paint(g.left, false)));
      TurnRight(gparent, s, c, Fork(Paint(g.left, false), gparent, true, g.right));
    }

    /** One iteration below a right-hand parent (lines 366-382). */
    method InsertStepRight(elm0: Epitem, parent0: Epitem, gparent: Epitem, ghost s: set<Epitem>, ghost c: Ctx,
        ghost t: Tree)
      returns (elm: Epitem, ghost c': Ctx, ghost t': Tree)
      requires At(s, c, t) && Growing(c, t) && Root(t) == elm0
      requires CtxRed(c) && c.item == parent0 && c.up.InRight? && c.up.item == gparent
      modifies this`root, s`left, s`right, s`parent, s`red
      ensures At(s, c', t') && Growing(c', t') && Root(t') == elm && Depth(c') < Depth(c)
      ensures InOrder(Plug(c', t')) == InOrder(Plug(c, t))
    {
      Climb(Snap(s), root, c, t);
      Climb(Snap(s), root, c.up, Above(c, t));
      var tmp := gparent.left;
      if tmp != null && tmp.red {
        RecolorGrows(c, t);
        RecolorRight(tmp, parent0, gparent, s, c.up.up, Above(c.up, Above(c, t)));
        return gparent, c.up.up, Recolored(c, t);
      }
      elm, c', t' := elm0, c, t;
      var parent := parent0;
      if parent.left == elm {
        assert c.InLeft?;
        StraightGrows(c, t);
        TurnRight(parent, s, c.up, Above(c, t));
        c', t' := StraightCtx(c, t), StraightTree(c, t);
        parent, elm := elm, parent;
        Climb(Snap(s), root, c', t');
        Climb(Snap(s), root, c'.up, Above(c', t'));
      }
      assert c'.InRight?;
      LiftedGrows(c', t');
      LiftRight(parent, gparent, s, c'.up.up, Above(c'.up, Above(c', t')));
      c' := LiftedCtx(c');
      Climb(Snap(s), root, c', t');
    }

    method RecolorRight(tmp: Epitem, parent: Epitem, gparent: Epitem, ghost s: set<Epitem>, ghost c: Ctx, ghost g: Tree)
      requires At(s, c, g) && g.Fork? && g.left.Fork? && g.right.Fork?
      requires g.item == gparent && g.right.item == parent && g.left.item == tmp
      modifies s`red
      ensures At(s, c, Fork(Paint(g.left, false), gparent, true, Paint(g.right, false)))
    {
      ColorLeft(tmp, false, s, c, g);
      ColorRight(parent, false, s, c, g.(left := Paint(g.left, false)));
      Color(gparent, true, s, c, g.(left := Paint(g.left, false), right := Paint(g.right, false)));
    }

    method LiftRight(parent: Epitem, gparent: Epitem, ghost s: set<Epitem>, ghost c: Ctx, ghost g: Tree)
      requires At(s, c, g) && g.Fork? && g.right.Fork?
      requires g.item == gparent && g.right.item == parent
      modifies this`root, s`left, s`right, s`parent, s`red
      ensures At(s, c, RotatedLeft(Fork(g.left, gparent, true, Paint(g.right, false))))
    {
      ColorRight(parent, false, s, c, g);
      Color(gparent, true, s, c, g.(right := Paint(g.right, false)));
      TurnLeft(gparent, s, c, Fork(g.left, gparent, true, Paint(g.right, false)));
    }

    method InsertColor(elm0: Epitem, ghost s: set<Epitem>, ghost c0: Ctx, ghost t0: Tree)
      requires At(s, c0, t0) && Growing(c0, t0) && Root(t0) == elm0
      modifies this, s`left, s`right, s`parent, s`red
      ensures At(s, Top, tree) && RedBlack(tree) && !Red(tree)
      ensures InOrder(tree) == InOrder(Plug(c0, t0))
    {
      var elm := elm0;
      ghost var c, t := c0, t0;
      var parent := elm.parent;
      while parent != null && parent.red
        invariant At(s, c, t) && Growing(c, t) && Root(t) == elm && parent == elm.parent
        invariant InOrder(Plug(c, t)) == InOrder(Plug(c0, t0))
        decreases Depth(c)
      {
        var gparent := parent.parent;
        Climb(Snap(s), root, c, t);
        WhichSide(Snap(s), root, c.up, Above(c, t));
        if parent == gparent.left {
          elm, c, t := InsertStepLeft(elm, parent, gparent, s, c, t);
        } else {
          elm, c, t := InsertStepRight(elm, parent, gparent, s, c, t);
        }
        parent := elm.parent;
      }
      MoveTop(Snap(s), root, c, t);
      tree := Plug(c, t);
      GrownRules(c, t);
      Color(root, false, s, Top, tree);
      tree := Paint(tree, false);
    }

    // ---- RB_REMOVE_COLOR

    /** One iteration with the short subtree on the left (lines 392-424). */
    method RemoveStepLeft(elm0: Epitem?, parent0: Epitem, ghost s: set<Epitem>, ghost c0: Ctx, ghost t: Tree)
      returns (elm: Epitem?, parent: Epitem?, done: bool, ghost c': Ctx, ghost t': Tree)
      requires At(s, c0, t) && Shrinking(c0, t) && !Red(t) && Root(t) == elm0
      requires c0.InLeft? && c0.item == parent0
      modifies this`root, s`left, s`right, s`parent, s`red
      ensures At(s, c', t') && Shrinking(c', t') && Root(t') == elm
      ensures !done ==> parent == CtxItem(c')
      ensures done ==> c'.Top? && elm == root
      ensures Red(t') || Depth(c') < Depth(c0)
      ensures InOrder(Plug(c', t')) == InOrder(Plug(c0, t))
    {
      ghost var c := c0;
      SiblingRules(c, t);
      Climb(Snap(s), root, c, t);
      ChildColors(Snap(s), Above(c, t), CtxItem(c.up));
      var tmp := parent0.right;
      if tmp.red {
        RedSiblingShrinks(c, t);
        RedSiblingLeft(tmp, parent0, s, c.up, Above(c, t));
        c := RedSiblingCtx(c0);
        Climb(Snap(s), root, c.up, Above(c, t));
        Climb(Snap(s), root, c, t);
        SiblingRules(c, t);
        ChildColors(Snap(s), Above(c, t), CtxItem(c.up));
        tmp := parent0.right;
      }
      elm, parent, done, c', t' := BlackSiblingLeft(tmp, parent0, s, c, t);
    }

    method BlackSiblingLeft(tmp0: Epitem, parent0: Epitem, ghost s: set<Epitem>, ghost c0: Ctx, ghost t: Tree)
      returns (elm: Epitem?, parent: Epitem?, done: bool, ghost c': Ctx, ghost t': Tree)
      requires At(s, c0, t) && Shrinking(c0, t) && !Red(t)
      requires c0.InLeft? && c0.item == parent0 && Sibling(c0).Fork? && !Red(Sibling(c0)) && Sibling(c0).item == tmp0
      modifies this`root, s`left, s`right, s`parent, s`red
      ensures At(s, c', t') && Shrinking(c', t') && Root(t') == elm
      ensures !done ==> parent == CtxItem(c')
      ensures done ==> c'.Top? && elm == root
      ensures c'.Top? || (c' == c0.up && t'.Fork? && t'.red == c0.red)
      ensures InOrder(Plug(c', t')) == InOrder(Plug(c0, t))
    {
      ghost var c, y := c0, Sibling(c0);
      var tmp := tmp0;
      SiblingRules(c, t);
      Climb(Snap(s), root, c, t);
      assert Linked(Snap(s), y, parent0);
      ChildColors(Snap(s), y, parent0);
      if (tmp.left == null || !tmp.left.red) && (tmp.right == null || !tmp.right.red) {
        BlackNephewsShrink(c, t);
        ColorRight(tmp, true, s, c.up, Above(c, t));
        c', t' := c.up, Above(WithSibling(c, Paint(y, true)), t);
        elm := parent0;
        parent := elm.parent;
        done := false;
      } else {
        RebalanceLeft(tmp, parent0, s, c, t);
        elm, parent, done := root, null, true;
        c', t' := Top, Plug(c.up, Repaired(if Red(Far(c)) then c else WithSibling(c, NearLifted(c)), t));
      }
    }

    method RebalanceLeft(tmp0: Epitem, parent: Epitem, ghost s: set<Epitem>, ghost c0: Ctx, ghost t: Tree)
      requires At(s, c0, t) && Shrinking(c0, t) && !Red(t)
      requires c0.InLeft? && c0.item == parent && Sibling(c0).Fork? && !Red(Sibling(c0)) && Sibling(c0).item == tmp0
      requires Red(Near(c0)) || Red(Far(c0))
      modifies this`root, s`left, s`right, s`parent, s`red
      ensures var c := if Red(Far(c0)) then c0 else WithSibling(c0, NearLifted(c0));
        var whole := Plug(c0.up, Repaired(c, t));
        At(s, Top, whole) && RedBlack(whole) && InOrder(whole) == InOrder(Plug(c0, t))
    {
      ghost var c, y := c0, Sibling(c0);
      var tmp := tmp0;
      Climb(Snap(s), root, c, t);
      assert Linked(Snap(s), y, parent);
      ChildColors(Snap(s), y, parent);
      if tmp.right == null || !tmp.right.red {
        NearLiftedShrinks(c, t);
        MoveRight(Snap(s), root, c.up, Above(c, t));
        NearRedLeft(tmp, s, InRight(parent, c.red, t, c.up), y);
        MoveRight(Snap(s), root, c.up, Above(WithSibling(c, NearLifted(c)), t));
        c := WithSibling(c, NearLifted(c));
        tmp := parent.right;
      }
      RepairedRules(c, t);
      RepairLeft(tmp, parent, s, c.up, Above(c, t));
      MoveTop(Snap(s), root, c.up, Repaired(c, t));
    }

    method RedSiblingLeft(tmp: Epitem, parent: Epitem, ghost s: set<Epitem>, ghost c: Ctx, ghost g: Tree)
      requires At(s, c, g) && g.Fork? && g.right.Fork? && g.item == parent && g.right.item == tmp
      modifies this`root, s`left, s`right, s`parent, s`red
      ensures At(s, c, RotatedLeft(g.(right := Paint(g.right, false), red := true)))
    {
      ColorRight(tmp, false, s, c, g);
      Color(parent, true, s, c, g.(right := Paint(g.right, false)));
      TurnLeft(parent, s, c, g.(right := Paint(g.right, false), red := true));
    }

    method NearRedLeft(tmp: Epitem, ghost s: set<Epitem>, ghost c: Ctx, ghost y: Tree)
      requires At(s, c, y) && y.Fork? && y.left.Fork? && y.item == tmp
      modifies this`root, s`left, s`right, s`parent, s`red
      ensures At(s, c, RotatedRight(y.(left := Paint(y.left, false), red := true)))
    {
      var oleft := tmp.left;
      if oleft != null {
        ColorLeft(oleft, false, s, c, y);
      }
      Color(tmp, true, s, c, y.(left := Paint(y.left, false)));
      TurnRight(tmp, s, c, y.(left := Paint(y.left, false), red := true));
    }

    method RepairLeft(tmp: Epitem, parent: Epitem, ghost s: set<Epitem>, ghost c: Ctx, ghost g: Tree)
      requires At(s, c, g) && g.Fork? && g.right.Fork? && g.right.right.Fork? && g.item == parent && g.right.item == tmp
      modifies this`root, s`left, s`right, s`parent, s`red
      ensures At(s, c, RotatedLeft(Above(InRight(parent, false, g.left, c),
        g.right.(red := g.red, right := Paint(g.right.right, false)))))
    {
      ColorRight(tmp, parent.red, s, c, g);
      ghost var y := Paint(g.right, g.red);
      Color(parent, false, s, c, g.(right := y));
      MoveRight(Snap(s), root, c, g.(right := y, red := false));
      ghost var u := InRight(parent, false, g.left, c);
      if tmp.right != null {
        ColorRight(tmp.right, false, s, u, y);
      }
      Climb(Snap(s), root, u, y.(right := Paint(y.right, false)));
      TurnLeft(parent, s, c, Above(u, y.(right := Paint(y.right, false))));
    }

    /** One iteration with the short subtree on the right (lines 425-458). */
    method RemoveStepRight(elm0: Epitem?, parent0: Epitem, ghost s: set<Epitem>, ghost c0: Ctx, ghost t: Tree)
      returns (elm: Epitem?, parent: Epitem?, done: bool, ghost c': Ctx, ghost t': Tree)
      requires At(s, c0, t) && Shrinking(c0, t) && !Red(t) && Root(t) == elm0
      requires c0.InRight? && c0.item == parent0
      modifies this`root, s`left, s`right, s`parent, s`red
      ensures At(s, c', t') && Shrinking(c', t') && Root(t') == elm
      ensures !done ==> parent == CtxItem(c')
      ensures done ==> c'.Top? && elm == root
      ensures Red(t') || Depth(c') < Depth(c0)
      ensures InOrder(Plug(c', t')) == InOrder(Plug(c0, t))
    {
      ghost var c := c0;
      SiblingRules(c, t);
      Climb(Snap(s), root, c, t);
      ChildColors(Snap(s), Above(c, t), CtxItem(c.up));
      var tmp := parent0.left;
      if tmp.red {
        RedSiblingShrinks(c, t);
        RedSiblingRight(tmp, parent0, s, c.up, Above(c, t));
        c := RedSiblingCtx(c0);
        Climb(Snap(s), root, c.up, Above(c, t));
        Climb(Snap(s), root, c, t);
        SiblingRules(c, t);
        ChildColors(Snap(s), Above(c, t), CtxItem(c.up));
        tmp := parent0.left;
      }
      elm, parent, done, c', t' := BlackSiblingRight(tmp, parent0, s, c, t);
    }

    method BlackSiblingRight(tmp0: Epitem, parent0: Epitem, ghost s: set<Epitem>, ghost c0: Ctx, ghost t: Tree)
      returns (elm: Epitem?, parent: Epitem?, done: bool, ghost c': Ctx, ghost t': Tree)
      requires At(s, c0, t) && Shrinking(c0, t) && !Red(t)
      requires c0.InRight? && c0.item == parent0 && Sibling(c0).Fork? && !Red(Sibling(c0)) && Sibling(c0).item == tmp0
      modifies this`root, s`left, s`right, s`parent, s`red
      ensures At(s, c', t') && Shrinking(c', t') && Root(t') == elm
      ensures !done ==> parent == CtxItem(c')
      ensures done ==> c'.Top? && elm == root
      ensures c'.Top? || (c' == c0.up && t'.Fork? && t'.red == c0.red)
      ensures InOrder(Plug(c', t')) == InOrder(Plug(c0, t))
    {
      ghost var c, y := c0, Sibling(c0);
      var tmp := tmp0;
      SiblingRules(c, t);
      Climb(Snap(s), root, c, t);
      assert Linked(Snap(s), y, parent0);
      ChildColors(Snap(s), y, parent0);
      if (tmp.left == null || !tmp.left.red) && (tmp.right == null || !tmp.right.red) {
        BlackNephewsShrink(c, t);
        ColorLeft(tmp, true, s, c.up, Above(c, t));
        c', t' := c.up, Above(WithSibling(c, Paint(y, true)), t);
        elm := parent0;
        parent := elm.parent;
        done := false;
      } else {
        RebalanceRight(tmp, parent0, s, c, t);
        elm, parent, done := root, null, true;
        c', t' := Top, Plug(c.up, Repaired(if Red(Far(c)) then c else WithSibling(c, NearLifted(c)), t));
      }
    }

    method RebalanceRight(tmp0: Epitem, parent: Epitem, ghost s: set<Epitem>, ghost c0: Ctx, ghost t: Tree)
      requires At(s, c0, t) && Shrinking(c0, t) && !Red(t)
      requires c0.InRight? && c0.item == parent && Sibling(c0).Fork? && !Red(Sibling(c0)) && Sibling(c0).item == tmp0
      requires Red(Near(c0)) || Red(Far(c0))
      modifies this`root, s`left, s`right, s`parent, s`red
      ensures var c := if Red(Far(c0)) then c0 else WithSibling(c0, NearLifted(c0));
        var whole := Plug(c0.up, Repaired(c, t));
        At(s, Top, whole) && RedBlack(whole) && InOrder(whole) == InOrder(Plug(c0, t))
    {
      ghost var c, y := c0, Sibling(c0);
      var tmp := tmp0;
      Climb(Snap(s), root, c, t);
      assert Linked(Snap(s), y, parent);
      ChildColors(Snap(s), y, parent);
      if tmp.left == null || !tmp.left.red {
        NearLiftedShrinks(c, t);
        MoveLeft(Snap(s), root, c.up, Above(c, t));
        NearRedRight(tmp, s, InLeft(parent, c.red, t, c.up), y);
        MoveLeft(Snap(s), root, c.up, Above(WithSibling(c, NearLifted(c)), t));
        c := WithSibling(c, NearLifted(c));
        tmp := parent.left;
      }
      RepairedRules(c, t);
      RepairRight(tmp, parent, s, c.up, Above(c, t));
      MoveTop(Snap(s), root, c.up, Repaired(c, t));
    }

    method RedSiblingRight(tmp: Epitem, parent: Epitem, ghost s: set<Epitem>, ghost c: Ctx, ghost g: Tree)
      requires At(s, c, g) && g.Fork? && g.left.Fork? && g.item == parent && g.left.item == tmp
      modifies this`root, s`left, s`right, s`parent, s`red
      ensures At(s, c, RotatedRight(g.(left := Paint(g.left, false), red := true)))
    {
      ColorLeft(tmp, false, s, c, g);
      Color(parent, true, s, c, g.(left := Paint(g.left, false)));
      TurnRight(parent, s, c, g.(left := Paint(g.left, false), red := true));
    }

    method NearRedRight(tmp: Epitem, ghost s: set<Epitem>, ghost c: Ctx, ghost y: Tree)
      requires At(s, c, y) && y.Fork? && y.right.Fork? && y.item == tmp
      modifies this`root, s`left, s`right, s`parent, s`red
      ensures At(s, c, RotatedLeft(y.(right := Paint(y.right, false), red := true)))
    {
      var oright := tmp.right;
      if oright != null {
        ColorRight(oright, false, s, c, y);
      }
      Color(tmp, true, s, c, y.(right := Paint(y.right, false)));
      TurnLeft(tmp, s, c, y.(right := Paint(y.right, false), red := true));
    }

    method RepairRight(tmp: Epitem, parent: Epitem, ghost s: set<Epitem>, ghost c: Ctx, ghost g: Tree)
      requires At(s, c, g) && g.Fork? && g.left.Fork? && g.left.left.Fork? && g.item == parent && g.left.item == tmp
      modifies this`root, s`left, s`right, s`parent, s`red
      ensures At(s, c, RotatedRight(Above(InLeft(parent, false, g.right, c),
        g.left.(red := g.red, left := Paint(g.left.left, false)))))
    {
      ColorLeft(tmp, parent.red, s, c, g);
      ghost var y := Paint(g.left, g.red);
      Color(parent, false, s, c, g.(left := y));
      MoveLeft(Snap(s), root, c, g.(left := y, red := false));
      ghost var u := InLeft(parent, false, g.right, c);
      if tmp.left != null {
        ColorLeft(tmp.left, false, s, u, y);
      }
      Climb(Snap(s), root, u, y.(left := Paint(y.left, false)));
      TurnRight(parent, s, c, Above(u, y.(left := Paint(y.left, false))));
    }

    method RemoveColor(parent0: Epitem?, elm0: Epitem?, ghost s: set<Epitem>, ghost c0: Ctx, ghost t0: Tree)
      requires At(s, c0, t0) && Shrinking(c0, t0) && Root(t0) == elm0 && parent0 == CtxItem(c0)
      modifies this, s`left, s`right, s`parent, s`red
      ensures At(s, Top, tree) && RedBlack(tree) && !Red(tree)
      ensures InOrder(tree) == InOrder(Plug(c0, t0))
    {
      hide InOrder;
      var elm, parent := elm0, parent0;
      ghost var c, t := c0, t0;
      var done := false;
      while !done && (elm == null || !elm.red) && elm != root
        invariant At(s, c, t) && Shrinking(c, t) && Root(t) == elm
        invariant if done then c.Top? else parent == CtxItem(c)
        invariant InOrder(Plug(c, t)) == InOrder(Plug(c0, t0))
        decreases if Red(t) then 0 else Depth(c) + 1
      {
        OnlyTopIsRoot(Snap(s), root, c, t);
        ShortSide(Snap(s), root, c, t);
        if parent.left == elm {
          elm, parent, done, c, t := RemoveStepLeft(elm, parent, s, c, t);
        } else {
          elm, parent, done, c, t := RemoveStepRight(elm, parent, s, c, t);
        }
      }
      OnlyTopIsRoot(Snap(s), root, c, t);
      Blacken(elm, s, c, t);
    }

    /** Lines 460-461. */
    method Blacken(elm: Epitem?, ghost s: set<Epitem>, ghost c: Ctx, ghost t: Tree)
      requires At(s, c, t) && Shrinking(c, t) && Root(t) == elm && (Red(t) || c.Top?)
      modifies this`tree, s`red
      ensures At(s, Top, tree) && RedBlack(tree) && !Red(tree)
      ensures InOrder(tree) == InOrder(Plug(c, t))
    {
      hide InOrder;
      ghost var u := t;
      if elm != null {
        BlackenedRules(c, t);
        Color(elm, false, s, c, t);
        u := Paint(t, false);
      }
      MoveTop(Snap(s), root, c, u);
      tree := Plug(c, u);
    }

    // ---- the interface

    /** Search order, the red-black rules, correct links in both directions, a black root. */
    ghost predicate Valid()
      reads this, Items(tree)`left, Items(tree)`right, Items(tree)`parent, Items(tree)`red
    {
      && At(Items(tree), Top, tree)
      && Ascending(InOrder(tree))
      && RedBlack(tree) && !Red(tree)
    }

    constructor ()
      ensures Valid() && tree == Leaf
    {
      root, tree := null, Leaf;
    }

    /** RB_FIND; `steps` counts the comparisons, of which there are at most 2*log2(n+1). */
    method Find(key: int) returns (r: Epitem?, ghost steps: nat)
      requires Valid()
      ensures FewSteps(steps, |Items(tree)|)
      ensures r != null ==> r in Items(tree) && r.sockfd == key
      ensures r == null ==> forall x :: x in Items(tree) ==> x.sockfd != key
    {
      hide Ascending, Around, FewSteps, InOrder, RedBlack;
      var tmp := root;
      ghost var c, t := Top, tree;
      steps := 0;
      AnyKeyFits(key);
      FewOnAnyPath(tree);
      while tmp != null
        invariant At(Items(tree), c, t) && Plug(c, t) == tree && tmp == Root(t) && Around(c, key) && steps == Depth(c)
        decreases t
      {
        StepDown(c, t, key);
        PlugKeepsItems(c, t);
        steps := steps + 1;
        if key < tmp.sockfd {
          MoveLeft(Snap(Items(tree)), root, c, t);
          tmp, c, t := tmp.left, InLeft(t.item, t.red, t.right, c), t.left;
        } else if key > tmp.sockfd {
          MoveRight(Snap(Items(tree)), root, c, t);
          tmp, c, t := tmp.right, InRight(t.item, t.red, t.left, c), t.right;
        } else {
          StepsOnPath(c, t, steps, |Items(tree)|);
          return tmp, steps;
        }
      }
      NotInLeaf(c, key);
      StepsOnPath(c, t, steps, |Items(tree)|);
      return null, steps;
    }

    /** RB_NFIND: the first item at or above the key. */
    method NFind(key: int) returns (res: Epitem?)
      requires Valid()
      ensures res != null ==> res in Items(tree) && key <= res.sockfd
      ensures forall x :: x in Items(tree) && key <= x.sockfd ==> res != null && res.sockfd <= x.sockfd
    {
      var tmp := root;
      res := null;
      ghost var c, t := Top, tree;
      while tmp != null
        invariant At(Items(tree), c, t) && Plug(c, t) == tree && tmp == Root(t) && Around(c, key)
        invariant res == if After(c) == [] then null else After(c)[0]
        decreases t
      {
        StepDown(c, t, key);
        PlugKeepsOrder(c, t);
        PlugKeepsItems(c, t);
        if key < tmp.sockfd {
          res := tmp;
          MoveLeft(Snap(Items(tree)), root, c, t);
          tmp, c, t := tmp.left, InLeft(t.item, t.red, t.right, c), t.left;
        } else if key > tmp.sockfd {
          MoveRight(Snap(Items(tree)), root, c, t);
          tmp, c, t := tmp.right, InRight(t.item, t.red, t.left, c), t.right;
        } else {
          FoundIsLeast(c, t, key);
          return tmp;
        }
      }
      AfterIsLeast(c, key);
    }

    /** RB_INSERT. Either the equal item is returned and nothing changes, or exactly one item
        is added. */
    method Insert(elm: Epitem) returns (dup: Epitem?)
      requires Valid()
      modifies this, (Items(tree) + {elm})`left, (Items(tree) + {elm})`right, (Items(tree) + {elm})`parent
      modifies (Items(tree) + {elm})`red
      ensures Valid()
      ensures dup == null ==> forall x :: x in old(Items(tree)) ==> x.sockfd != elm.sockfd
      ensures dup != null ==> dup in old(Items(tree)) && dup.sockfd == elm.sockfd && tree == old(tree)
      ensures dup == null ==> Items(tree) == old(Items(tree)) + {elm}
    {
      var parent, below;
      ghost var c;
      assert allocated(Items(tree));
      dup, parent, below, c := InsertionPoint(elm.sockfd);
      if dup != null {
        return;
      }
      NotInLeaf(c, elm.sockfd);
      AddLeaf(elm, parent, below, c);
    }

    method AddLeaf(elm: Epitem, parent: Epitem?, below: bool, ghost c: Ctx)
      requires Valid() && At(Items(tree), c, Leaf) && Plug(c, Leaf) == tree && Around(c, elm.sockfd) &&
        elm !in Items(tree)
      requires parent == CtxItem(c) && (parent != null ==> (below <==> c.InLeft?))
      modifies this, (Items(tree) + {elm})`left, (Items(tree) + {elm})`right, (Items(tree) + {elm})`parent
      modifies (Items(tree) + {elm})`red
      ensures Valid() && Items(tree) == old(Items(tree)) + {elm}
    {
      ghost var s, t := Items(tree) + {elm}, Fork(Leaf, elm, true, Leaf);
      NewLeaf(c, elm);
      HangLeaf(elm, parent, below, c);
      InsertColor(elm, s, c, t);
      SameItems(tree, Plug(c, t));
      assert Items(tree) == s;
    }

    /** The descent of RB_INSERT (lines 537-547). */
    method InsertionPoint(key: int) returns (dup: Epitem?, parent: Epitem?, below: bool, ghost c: Ctx)
      requires Valid()
      ensures dup != null ==> dup in Items(tree) && dup.sockfd == key
      ensures dup == null ==> At(Items(tree), c, Leaf) && Plug(c, Leaf) == tree && Around(c, key)
      ensures dup == null ==> parent == CtxItem(c) && (parent != null ==> (below <==> c.InLeft?))
    {
      var tmp := root;
      parent, below := null, false;
      c := Top;
      ghost var t := tree;
      while tmp != null
        invariant At(Items(tree), c, t) && Plug(c, t) == tree && tmp == Root(t) && Around(c, key)
        invariant parent == CtxItem(c) && (parent != null ==> (below <==> c.InLeft?))
        decreases t
      {
        StepDown(c, t, key);
        PlugKeepsItems(c, t);
        parent := tmp;
        if key < parent.sockfd {
          MoveLeft(Snap(Items(tree)), root, c, t);
          below := true;
          tmp, c, t := tmp.left, InLeft(t.item, t.red, t.right, c), t.left;
        } else if key > parent.sockfd {
          MoveRight(Snap(Items(tree)), root, c, t);
          below := false;
          tmp, c, t := tmp.right, InRight(t.item, t.red, t.left, c), t.right;
        } else {
          return tmp, parent, below, c;
        }
      }
      dup := null;
    }

    /** RB_SET and the link to the new leaf (lines 548-556). */
    method HangLeaf(elm: Epitem, parent: Epitem?, below: bool, ghost c: Ctx)
      requires At(Items(tree), c, Leaf) && Plug(c, Leaf) == tree && elm !in Items(tree)
      requires parent == CtxItem(c) && (parent != null ==> (below <==> c.InLeft?))
      modifies this`root, (Items(tree) + {elm})`left, (Items(tree) + {elm})`right, (Items(tree) + {elm})`parent
      modifies (Items(tree) + {elm})`red
      ensures At(Items(tree) + {elm}, c, Fork(Leaf, elm, true, Leaf))
    {
      ghost var h, s := Snap(Items(tree)), Items(tree) + {elm};
      PlugKeepsItems(c, Leaf);
      elm.parent := parent;
      elm.left, elm.right := null, null;
      elm.red := true;
      if parent != null {
        if below {
          parent.left := elm;
        } else {
          parent.right := elm;
        }
      } else {
        root := elm;
      }
      HungShape(h, Snap(s), old(root), c, elm);
    }

    /** RB_MINMAX. */
    method MinMax(val: int) returns (parent: Epitem?)
      requires Valid()
      ensures InOrder(tree) == [] ==> parent == null
      ensures InOrder(tree) != [] ==> parent == if val < 0 then InOrder(tree)[0] else InOrder(tree)[|InOrder(tree)| - 1]
    {
      var tmp := root;
      parent := null;
      ghost var c, t := Top, tree;
      while tmp != null
        invariant At(Items(tree), c, t) && Plug(c, t) == tree && tmp == Root(t)
        invariant val < 0 ==> Before(c) == [] && (c.Top? || c.InLeft?)
        invariant val >= 0 ==> After(c) == [] && (c.Top? || c.InRight?)
        invariant parent == CtxItem(c)
        decreases t
      {
        parent := tmp;
        if val < 0 {
          MoveLeft(Snap(Items(tree)), root, c, t);
          tmp, c, t := tmp.left, InLeft(t.item, t.red, t.right, c), t.left;
        } else {
          MoveRight(Snap(Items(tree)), root, c, t);
          tmp, c, t := tmp.right, InRight(t.item, t.red, t.left, c), t.right;
        }
      }
      PlugKeepsOrder(c, t);
    }

    // ---- RB_REMOVE

    /** Lines 481-490 and 515-524: a node with at most one child is bypassed. */
    method Splice(elm: Epitem, child: Epitem?, parent: Epitem?, ghost s: set<Epitem>, ghost c: Ctx, ghost t: Tree)
      requires At(s, c, t) && t.Fork? && t.item == elm && parent == CtxItem(c)
      requires t.left.Leaf? || t.right.Leaf?
      requires child == if t.left.Leaf? then Root(t.right) else Root(t.left)
      modifies this`root, s`left, s`right, s`parent
      ensures At(s, c, if t.left.Leaf? then t.right else t.left)
      ensures elm.left == old(elm.left) && elm.right == old(elm.right) && elm.parent == old(elm.parent) &&
        elm.red == old(elm.red)
    {
      SpliceShape(Snap(s), root, c, t);
      if child != null {
        SetParent(child, parent, s);
      }
      Redirect(parent, elm, child, s);
    }

    /** Lines 493-504: a detached node takes the place of `was`. */
    method TakePlace(elm: Epitem, was: Epitem, ghost s: set<Epitem>)
      requires CanTakePlace(Snap(s), elm, was)
      modifies this`root, s`left, s`right, s`parent, s`red
      ensures Snap(s) == TakePlaceLinks(old(Snap(s)), elm, was)
      ensures root == if old(was.parent) == null then elm else old(root)
    {
      CopyField(elm, was, s);
      Redirect(was.parent, was, elm, s);
      SetParent(was.left, elm, s);
      if was.right != null {
        SetParent(was.right, elm, s);
      }
    }

    /** RB_REMOVE. Exactly the given item leaves the tree. */
    method Remove(elm: Epitem) returns (gone: Epitem)
      requires Valid() && elm in Items(tree)
      modifies this, Items(tree)`left, Items(tree)`right, Items(tree)`parent, Items(tree)`red
      ensures gone == elm
      ensures Valid()
      ensures Items(tree) == old(Items(tree)) - {elm}
    {
      ghost var s := Items(tree);
      ghost var c, t := Locate(Top, tree, elm);
      MoveDown(Snap(s), root, c, t);
      UnplugRules(c, t);
      if elm.left == null {
        RemoveOuter(elm, elm.right, s, c, t);
      } else if elm.right == null {
        RemoveOuter(elm, elm.left, s, c, t);
      } else {
        RemoveInner(elm, s, c, t);
      }
      Without(c, t, tree);
      ShapeFrame(Snap(s), Snap(Items(tree)), root, tree);
      return elm;
    }

    /** A node with at most one child (lines 513-527). */
    method RemoveOuter(elm: Epitem, child: Epitem?, ghost s: set<Epitem>, ghost c: Ctx, ghost t: Tree)
      requires At(s, c, t) && t.Fork? && t.item == elm
      requires RedBlack(Plug(c, t)) && !Red(Plug(c, t))
      requires (t.left.Leaf? && child == Root(t.right)) || (t.right.Leaf? && child == Root(t.left))
      modifies this, s`left, s`right, s`parent, s`red
      ensures At(s, Top, tree) && RedBlack(tree) && !Red(tree) && InOrder(tree) == OrderWithout(c, t)
    {
      ghost var x := if t.left.Leaf? then t.right else t.left;
      UnplugRules(c, t);
      BypassRules(c, t);
      BypassOrder(c, t);
      var parent := elm.parent;
      var color := elm.red;
      Splice(elm, child, parent, s, c, t);
      Finish(color, parent, child, s, c, x);
    }

    /** The end of RB_REMOVE, from its label on (lines 525-528). */
    method Finish(color: bool, parent: Epitem?, child: Epitem?, ghost s: set<Epitem>, ghost c: Ctx, ghost x: Tree)
      requires At(s, c, x) && Root(x) == child && parent == CtxItem(c)
      requires if color then RedBlack(x) && !Red(x) && !c.Top? && RedBlackCtx(c, BlackHeight(x)) else Shrinking(c, x)
      modifies this, s`left, s`right, s`parent, s`red
      ensures At(s, Top, tree) && RedBlack(tree) && !Red(tree) && InOrder(tree) == InOrder(Plug(c, x))
    {
      if !color {
        RemoveColor(parent, child, s, c, x);
      } else {
        PlugKeepsRules(c, x);
        MoveTop(Snap(s), root, c, x);
        tree := Plug(c, x);
      }
    }

    /** A node with two children: its successor is spliced out and takes its place. */
    method RemoveInner(was: Epitem, ghost s: set<Epitem>, ghost c: Ctx, ghost t: Tree)
      requires At(s, c, t) && t.Fork? && t.item == was && t.left.Fork? && t.right.Fork?
      requires RedBlack(Plug(c, t)) && !Red(Plug(c, t))
      modifies this, s`left, s`right, s`parent, s`red
      ensures At(s, Top, tree) && RedBlack(tree) && !Red(tree) && InOrder(tree) == OrderWithout(c, t)
    {
      var elm, p, m := Successor(was, s, c, t);
      SuccessorRules(c, t, p, m);
      SuccessorOrder(c, t, p, m);
      var child, parent, color := elm.right, elm.parent, elm.red;
      ghost var c' := Append(p, InRight(elm, t.red, t.left, c));
      PlugAppend(p, InRight(elm, t.red, t.left, c), m.right);
      PlugAppend(p, InRight(was, t.red, t.left, c), m);
      PlugKeepsItems(p, m);
      parent := SwapIn(elm, was, child, parent, s, c, t, p, m);
      Finish(color, parent, child, s, c', m.right);
    }

    /** Lines 481-504. */
    method SwapIn(elm: Epitem, was: Epitem, child: Epitem?, parent0: Epitem?, ghost s: set<Epitem>, ghost c: Ctx,
        ghost t: Tree, ghost p: Ctx, ghost m: Tree)
      returns (parent: Epitem?)
      requires t.Fork? && t.item == was && t.left.Fork? && m.Fork? && m.item == elm && m.left.Leaf? &&
        Plug(p, m) == t.right
      requires At(s, Append(p, InRight(was, t.red, t.left, c)), m) && child == Root(m.right)
      requires parent0 == elm.parent && was !in CtxItems(p)
      modifies this`root, s`left, s`right, s`parent, s`red
      ensures At(s, Append(p, InRight(elm, t.red, t.left, c)), m.right)
      ensures parent == CtxItem(Append(p, InRight(elm, t.red, t.left, c)))
    {
      PlugAppend(p, InRight(was, t.red, t.left, c), m);
      PlugAppend(p, InRight(elm, t.red, t.left, c), m.right);
      SuccessorDistinct(c, t, p, m);
      parent := parent0;
      Splice(elm, child, parent, s, Append(p, InRight(was, t.red, t.left, c)), m);
      if elm.parent == was {
        parent := elm;
      }
      MoveWithin(Snap(s), root, p, InRight(was, t.red, t.left, c), m.right);
      MoveRight(Snap(s), root, c, Fork(t.left, was, t.red, Plug(p, m.right)));
      TakePlaceShape(Snap(s), root, c, Fork(t.left, was, t.red, Plug(p, m.right)), elm);
      TakePlace(elm, was, s);
      MoveRight(Snap(s), root, c, Fork(t.left, elm, t.red, Plug(p, m.right)));
      MoveWithin(Snap(s), root, p, InRight(elm, t.red, t.left, c), m.right);
    }

    /** The leftmost node of the right subtree (lines 475-477). */
    method Successor(was: Epitem, ghost s: set<Epitem>, ghost c: Ctx, ghost t: Tree)
      returns (elm: Epitem, ghost p: Ctx, ghost m: Tree)
      requires At(s, c, t) && t.Fork? && t.item == was && t.left.Fork? && t.right.Fork?
      ensures Plug(p, m) == t.right && Before(p) == [] && m.Fork? && m.item == elm && m.left.Leaf?
      ensures At(s, Append(p, InRight(was, t.red, t.left, c)), m)
    {
      MoveRight(Snap(s), root, c, t);
      elm, p, m := was.right, Top, t.right;
      while elm.left != null
        invariant Plug(p, m) == t.right && Before(p) == [] && m.Fork? && m.item == elm
        invariant At(s, Append(p, InRight(was, t.red, t.left, c)), m)
        decreases m
      {
        MoveLeft(Snap(s), root, Append(p, InRight(was, t.red, t.left, c)), m);
        elm, p, m := elm.left, InLeft(elm, m.red, m.right, p), m.left;
      }
    }

    // ---- traversal

    /** RB_NEXT: what follows the item in key order, or null at the end. */
    method Next(elm0: Epitem) returns (elm: Epitem?)
      requires Valid() && elm0 in Items(tree)
      ensures forall i :: 0 <= i < |InOrder(tree)| && InOrder(tree)[i] == elm0 ==> elm == ItemAt(InOrder(tree), i + 1)
    {
      ghost var c, t := Locate(Top, tree, elm0);
      MoveDown(Snap(Items(tree)), root, c, t);
      ghost var rest := InOrder(t.right) + After(c);
      if elm0.right != null {
        MoveRight(Snap(Items(tree)), root, c, t);
        elm := Leftmost(elm0.right, InRight(t.item, t.red, t.left, c), t.right);
      } else {
        assert [] + After(c) == After(c);
        elm := NextAbove(elm0, c, t);
      }
      assert elm == ItemAt(rest, 0);
      forall i | 0 <= i < |InOrder(tree)| && InOrder(tree)[i] == elm0
        ensures elm == ItemAt(InOrder(tree), i + 1)
      {
        FollowsAt(c, t, i);
      }
    }

    method Leftmost(elm0: Epitem, ghost c0: Ctx, ghost t0: Tree) returns (elm: Epitem)
      requires At(Items(tree), c0, t0) && t0.Fork? && t0.item == elm0
      ensures elm == (InOrder(t0) + After(c0))[0]
    {
      elm := elm0;
      ghost var c, t := c0, t0;
      while elm.left != null
        invariant At(Items(tree), c, t) && t.Fork? && t.item == elm && InOrder(t) + After(c) == InOrder(t0) + After(c0)
        decreases t
      {
        MoveLeft(Snap(Items(tree)), root, c, t);
        LeftOfRest(c, t);
        elm, c, t := elm.left, InLeft(t.item, t.red, t.right, c), t.left;
      }
      LeftOfRest(c, t);
    }

    /** The successor of a node without right child is the item of the nearest context it is
        on the left of (lines 609-616). */
    method NextAbove(elm0: Epitem, ghost c0: Ctx, ghost t0: Tree) returns (elm: Epitem?)
      requires At(Items(tree), c0, t0) && t0.Fork? && t0.item == elm0
      ensures elm == ItemAt(After(c0), 0)
    {
      ghost var c, t := c0, t0;
      Sides(Snap(Items(tree)), root, c, t);
      elm := elm0;
      if elm.parent != null && elm == elm.parent.left {
        elm := elm.parent;
      } else {
        while elm.parent != null && elm == elm.parent.right
          invariant At(Items(tree), c, t) && t.Fork? && t.item == elm && After(c) == After(c0)
          invariant !c.InLeft? || c.item.right != elm
          decreases Depth(c)
        {
          Sides(Snap(Items(tree)), root, c, t);
          elm, t, c := elm.parent, Above(c, t), c.up;
          Sides(Snap(Items(tree)), root, c, t);
        }
        Sides(Snap(Items(tree)), root, c, t);
        elm := elm.parent;
      }
    }

    /** RB_FOREACH: stepping with RB_NEXT from RB_MIN visits every item once, in key order. */
    method ForEach() returns (visited: seq<Epitem>)
      requires Valid()
      ensures visited == InOrder(tree)
    {
      ghost var s := InOrder(tree);
      assert allocated(Items(tree));
      var x := MinMax(-1);
      visited := [];
      while x != null
        invariant Valid() && visited <= s
        invariant x == ItemAt(s, |visited|)
        decreases |s| - |visited|
      {
        assert s[|visited|] == x;
        InOrderItem(tree, x);
        visited := visited + [x];
        x := Next(x);
      }
    }
  }
}
