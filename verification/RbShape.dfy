/** How linked nodes realise a tree in a context: the heap side of RbSpec. */
module RbShape {
  import opened RbSpec

  /** The tree fields of one node. */
  datatype Links = Links(left: Epitem?, right: Epitem?, parent: Epitem?, red: bool)

  type Heap = map<Epitem, Links>

  /** The tree fields of all nodes of `s`, as they stand. */
  ghost function Snap(s: set<Epitem>): Heap
    reads s`left, s`right, s`parent, s`red
  {
    map x | x in s :: Links(x.left, x.right, x.parent, x.red)
  }

  ghost predicate Agree(h: Heap, h': Heap, s: set<Epitem>) {
    forall x :: x in s && x in h ==> x in h' && h'[x] == h[x]
  }

  /** The nodes of `t` are linked exactly as `t` says, below the parent `p`. */
  ghost predicate Linked(h: Heap, t: Tree, p: Epitem?) {
    t.Fork? ==>
      && t.item in h && h[t.item] == Links(Root(t.left), Root(t.right), p, t.red)
      && Linked(h, t.left, t.item) && Linked(h, t.right, t.item)
  }

  /** The nodes of the context are linked as `c` says, with `sub` in its hole. */
  ghost predicate LinkedCtx(h: Heap, c: Ctx, sub: Epitem?) {
    match c
    case Top => true
    case InLeft(item, red, r, up) =>
      && item in h && h[item] == Links(sub, Root(r), CtxItem(up), red)
      && Linked(h, r, item) && LinkedCtx(h, up, item)
    case InRight(item, red, l, up) =>
      && item in h && h[item] == Links(Root(l), sub, CtxItem(up), red)
      && Linked(h, l, item) && LinkedCtx(h, up, item)
  }

  ghost function TopItem(c: Ctx, sub: Epitem?): Epitem? {
    if c.Top? then sub else TopItem(c.up, c.item)
  }

  /** The linked structure below `root` is the subtree `t` in the context `c`. */
  ghost predicate Shape(h: Heap, root: Epitem?, c: Ctx, t: Tree) {
    && DistinctAt(c, t)
    && Linked(h, t, CtxItem(c))
    && LinkedCtx(h, c, Root(t))
    && root == TopItem(c, Root(t))
  }

  lemma {:induction false} LinkedFrame(h: Heap, h': Heap, t: Tree, p: Epitem?)
    requires Linked(h, t, p) && Agree(h, h', Items(t))
    ensures Linked(h', t, p)
  {
    if t.Fork? {
      LinkedFrame(h, h', t.left, t.item);
      LinkedFrame(h, h', t.right, t.item);
    }
  }

  /** A subtree given to a new parent: only its root's parent link changes. */
  lemma Adopted(h: Heap, h': Heap, t: Tree, p: Epitem?, q: Epitem?)
    requires Linked(h, t, p) && Distinct(t)
    requires t.Fork? ==> t.item in h' && h'[t.item] == h[t.item].(parent := q)
    requires Agree(h, h', Items(t) - {Root(t)})
    ensures Linked(h', t, q)
  {
    if t.Fork? {
      LinkedFrame(h, h', t.left, t.item);
      LinkedFrame(h, h', t.right, t.item);
    }
  }

  lemma {:induction false} CtxFrame(h: Heap, h': Heap, c: Ctx, sub: Epitem?)
    requires LinkedCtx(h, c, sub) && Agree(h, h', CtxItems(c))
    ensures LinkedCtx(h', c, sub)
  {
    match c
    case Top =>
    case InLeft(item, red, r, up) => LinkedFrame(h, h', r, item); CtxFrame(h, h', up, item);
    case InRight(item, red, l, up) => LinkedFrame(h, h', l, item); CtxFrame(h, h', up, item);
  }

  /** The parent of `x` holds `y` instead (lines 284-290 and the like). */
  ghost function Rehung(l: Links, x: Epitem, y: Epitem?): Links {
    if l.left == x then l.(left := y) else l.(right := y)
  }

  /** A context given a new child for its hole: only the parent's link to it changes. */
  lemma RehungCtx(h: Heap, h': Heap, c: Ctx, x: Epitem, y: Epitem?)
    requires LinkedCtx(h, c, x) && DistinctCtx(c) && x !in CtxItems(c)
    requires !c.Top? ==> c.item in h' && h'[c.item] == Rehung(h[c.item], x, y)
    requires Agree(h, h', CtxItems(c) - {CtxItem(c)})
    ensures LinkedCtx(h', c, y)
  {
    match c
    case Top =>
    case InLeft(item, red, r, up) => LinkedFrame(h, h', r, item); CtxFrame(h, h', up, item);
    case InRight(item, red, l, up) =>
      LinkedFrame(h, h', l, item);
      CtxFrame(h, h', up, item);
      assert Root(l) != x by { assert l.Fork? ==> l.item in Items(l); }
  }

  ghost function Reparent(h: Heap, x: Epitem?, p: Epitem?): (h': Heap)
    requires x != null ==> x in h
    ensures h'.Keys == h.Keys
  {
    if x == null then h else h[x := h[x].(parent := p)]
  }

  ghost function Rehang(h: Heap, p: Epitem?, x: Epitem, y: Epitem?): (h': Heap)
    requires p != null ==> p in h
    ensures h'.Keys == h.Keys
  {
    if p == null then h else h[p := Rehung(h[p], x, y)]
  }

  // ---- walking and painting

  lemma MoveLeft(h: Heap, root: Epitem?, c: Ctx, t: Tree)
    requires t.Fork?
    ensures Shape(h, root, c, t) <==> Shape(h, root, InLeft(t.item, t.red, t.right, c), t.left)
  {}

  lemma MoveRight(h: Heap, root: Epitem?, c: Ctx, t: Tree)
    requires t.Fork?
    ensures Shape(h, root, c, t) <==> Shape(h, root, InRight(t.item, t.red, t.left, c), t.right)
  {}

  lemma Climb(h: Heap, root: Epitem?, c: Ctx, t: Tree)
    requires !c.Top?
    ensures Shape(h, root, c, t) <==> Shape(h, root, c.up, Above(c, t))
    ensures Plug(c, t) == Plug(c.up, Above(c, t))
  {
    match c
    case InLeft(item, red, r, up) => MoveLeft(h, root, up, Fork(t, item, red, r));
    case InRight(item, red, l, up) => MoveRight(h, root, up, Fork(l, item, red, t));
  }

  /** The comparison with the parent's left link tells which child a node is. */
  lemma WhichSide(h: Heap, root: Epitem?, c: Ctx, t: Tree)
    requires Shape(h, root, c, t) && !c.Top? && t.Fork?
    ensures c.item in h && (h[c.item].left == t.item <==> c.InLeft?) && (h[c.item].right == t.item <==> c.InRight?)
  {
    assert t.item in Items(t);
    if c.InRight? {
      assert c.left.Fork? ==> c.left.item in Items(c.left);
    } else {
      assert c.right.Fork? ==> c.right.item in Items(c.right);
    }
  }

  lemma Sides(h: Heap, root: Epitem?, c: Ctx, t: Tree)
    requires Shape(h, root, c, t) && t.Fork?
    ensures t.item in h && h[t.item].parent == CtxItem(c)
    ensures !c.Top? ==>
      c.item in h && (h[c.item].left == t.item <==> c.InLeft?) && (h[c.item].right == t.item <==> c.InRight?)
    ensures !c.Top? ==> Shape(h, root, c.up, Above(c, t))
  {
    if !c.Top? {
      WhichSide(h, root, c, t);
      Climb(h, root, c, t);
    }
  }

  lemma ChildColors(h: Heap, t: Tree, p: Epitem?)
    requires Linked(h, t, p) && t.Fork?
    ensures h[t.item].left == Root(t.left) && h[t.item].right == Root(t.right)
    ensures t.left.Fork? ==> t.left.item in h && h[t.left.item].red == t.left.red
    ensures t.right.Fork? ==> t.right.item in h && h[t.right.item].red == t.right.red
  {
    assert Linked(h, t.left, t.item) && Linked(h, t.right, t.item);
  }

  lemma {:induction false} TopItemIn(c: Ctx, sub: Epitem?)
    ensures !c.Top? ==> TopItem(c, sub) in CtxItems(c)
  {
    if !c.Top? {
      TopItemIn(c.up, c.item);
    }
  }

  lemma OnlyTopIsRoot(h: Heap, root: Epitem?, c: Ctx, t: Tree)
    requires Shape(h, root, c, t)
    ensures c.Top? <==> root == Root(t)
  {
    TopItemIn(c, Root(t));
    assert t.Fork? ==> t.item in Items(t);
  }

  /** The same for a subtree that is short of a black node and may be empty: its sibling is not. */
  lemma ShortSide(h: Heap, root: Epitem?, c: Ctx, t: Tree)
    requires Shape(h, root, c, t) && Shrinking(c, t) && !c.Top?
    ensures c.item in h && (h[c.item].left == Root(t) <==> c.InLeft?)
  {
    SiblingRules(c, t);
    if t.Fork? {
      WhichSide(h, root, c, t);
    }
  }

  lemma {:induction false} MoveTop(h: Heap, root: Epitem?, c: Ctx, t: Tree)
    requires Shape(h, root, c, t)
    ensures Shape(h, root, Top, Plug(c, t))
    decreases c
  {
    match c
    case Top =>
    case InLeft(item, red, r, up) =>
      MoveLeft(h, root, up, Fork(t, item, red, r));
      MoveTop(h, root, up, Fork(t, item, red, r));
    case InRight(item, red, l, up) =>
      MoveRight(h, root, up, Fork(l, item, red, t));
      MoveTop(h, root, up, Fork(l, item, red, t));
  }

  lemma PaintShape(h: Heap, root: Epitem?, c: Ctx, t: Tree, red: bool)
    requires Shape(h, root, c, t) && t.Fork?
    ensures Shape(h[t.item := h[t.item].(red := red)], root, c, Paint(t, red))
  {
    var h' := h[t.item := h[t.item].(red := red)];
    LinkedFrame(h, h', t.left, t.item);
    LinkedFrame(h, h', t.right, t.item);
    CtxFrame(h, h', c, t.item);
  }

  // ---- rotations

  ghost predicate CanRotateLeft(h: Heap, x: Epitem) {
    && x in h && h[x].right != null && h[x].right in h
    && x != h[x].right && x != h[h[x].right].left && h[x].right != h[h[x].right].left
    && (h[h[x].right].left != null ==> h[h[x].right].left in h)
    && (h[x].parent != null ==> h[x].parent in h)
  }

  ghost predicate CanRotateRight(h: Heap, x: Epitem) {
    && x in h && h[x].left != null && h[x].left in h
    && x != h[x].left && x != h[h[x].left].right && h[x].left != h[h[x].left].right
    && (h[h[x].left].right != null ==> h[h[x].left].right in h)
    && (h[x].parent != null ==> h[x].parent in h)
  }

  /** RB_ROTATE_LEFT as a change of the tree fields. */
  ghost function RotateLeftLinks(h: Heap, x: Epitem): (h': Heap)
    requires CanRotateLeft(h, x)
  {
    var y, p := h[x].right, h[x].parent;
    var h1 := h[x := h[x].(right := h[y].left)];
    var h2 := Reparent(h1, h[y].left, x);
    var h3 := Rehang(Reparent(h2, y, p), p, x, y);
    var h4 := h3[y := h3[y].(left := x)];
    Reparent(h4, x, y)
  }

  lemma RotatableLeft(h: Heap, root: Epitem?, c: Ctx, t: Tree)
    requires Shape(h, root, c, t) && t.Fork? && t.right.Fork?
    ensures CanRotateLeft(h, t.item)
  {
    assert Linked(h, t.right, t.item) && Linked(h, t.right.left, t.right.item) && Distinct(t.right);
    assert t.right.left.Fork? ==> t.right.left.item in Items(t.right.left);
  }

  lemma RotateLeftShape(h: Heap, root: Epitem?, c: Ctx, t: Tree)
    requires Shape(h, root, c, t) && t.Fork? && t.right.Fork?
    ensures CanRotateLeft(h, t.item)
    ensures Shape(RotateLeftLinks(h, t.item), if c.Top? then t.right.item else root, c, RotatedLeft(t))
  {
    var x, y := t.item, t.right;
    assert Linked(h, y, x) && Distinct(y) && Distinct(t);
    RotatableLeft(h, root, c, t);
    var h' := RotateLeftLinks(h, x);
    LinkedFrame(h, h', t.left, x);
    Adopted(h, h', y.left, y.item, x);
    LinkedFrame(h, h', y.right, y.item);
    RehungCtx(h, h', c, x, y.item);
    RotationKeepsDistinct(c, t);
  }

  /** RB_ROTATE_RIGHT as a change of the tree fields. */
  ghost function RotateRightLinks(h: Heap, x: Epitem): (h': Heap)
    requires CanRotateRight(h, x)
  {
    var y, p := h[x].left, h[x].parent;
    var h1 := h[x := h[x].(left := h[y].right)];
    var h2 := Reparent(h1, h[y].right, x);
    var h3 := Rehang(Reparent(h2, y, p), p, x, y);
    var h4 := h3[y := h3[y].(right := x)];
    Reparent(h4, x, y)
  }

  lemma RotatableRight(h: Heap, root: Epitem?, c: Ctx, t: Tree)
    requires Shape(h, root, c, t) && t.Fork? && t.left.Fork?
    ensures CanRotateRight(h, t.item)
  {
    assert Linked(h, t.left, t.item) && Linked(h, t.left.right, t.left.item) && Distinct(t.left);
    assert t.left.right.Fork? ==> t.left.right.item in Items(t.left.right);
  }

  lemma RotateRightShape(h: Heap, root: Epitem?, c: Ctx, t: Tree)
    requires Shape(h, root, c, t) && t.Fork? && t.left.Fork?
    ensures CanRotateRight(h, t.item)
    ensures Shape(RotateRightLinks(h, t.item), if c.Top? then t.left.item else root, c, RotatedRight(t))
  {
    var x, y := t.item, t.left;
    assert Linked(h, y, x) && Distinct(y) && Distinct(t);
    RotatableRight(h, root, c, t);
    var h' := RotateRightLinks(h, x);
    LinkedFrame(h, h', t.right, x);
    Adopted(h, h', y.right, y.item, x);
    LinkedFrame(h, h', y.left, y.item);
    RehungCtx(h, h', c, x, y.item);
    RotationKeepsDistinct(c, t);
  }

  lemma {:induction false} MoveDown(h: Heap, root: Epitem?, c: Ctx, t: Tree)
    requires Shape(h, root, Top, Plug(c, t))
    ensures Shape(h, root, c, t)
    decreases c
  {
    if !c.Top? {
      MoveDown(h, root, c.up, Above(c, t));
      Climb(h, root, c, t);
    }
  }

  // ---- hanging a new leaf

  /** RB_SET and the link from the parent (lines 548-556) put a red node into an empty hole. */
  lemma HungShape(h: Heap, h': Heap, root: Epitem?, c: Ctx, x: Epitem)
    requires Shape(h, root, c, Leaf) && x !in CtxItems(c)
    requires Agree(h, h', CtxItems(c) - {CtxItem(c)})
    requires x in h' && h'[x] == Links(null, null, CtxItem(c), true)
    requires !c.Top? ==> c.item in h' && h'[c.item] == if c.InLeft? then h[c.item].(left := x)
      else h[c.item].(right := x)
    ensures Shape(h', if c.Top? then x else root, c, Fork(Leaf, x, true, Leaf))
  {
    match c
    case Top =>
    case InLeft(item, red, r, up) => LinkedFrame(h, h', r, item); CtxFrame(h, h', up, item);
    case InRight(item, red, l, up) => LinkedFrame(h, h', l, item); CtxFrame(h, h', up, item);
  }

  // ---- taking a node out

  lemma SpliceShape(h: Heap, root: Epitem?, c: Ctx, t: Tree)
    requires Shape(h, root, c, t) && t.Fork? && (t.left.Leaf? || t.right.Leaf?)
    ensures var x := if t.left.Leaf? then t.right else t.left;
      && (Root(x) != null ==> Root(x) in h) && (CtxItem(c) != null ==> CtxItem(c) in h)
      && Shape(Rehang(Reparent(h, Root(x), CtxItem(c)), CtxItem(c), t.item, Root(x)),
               if c.Top? then Root(x) else root, c, x)
  {
    var x := if t.left.Leaf? then t.right else t.left;
    assert Linked(h, x, t.item) && Distinct(x);
    var h' := Rehang(Reparent(h, Root(x), CtxItem(c)), CtxItem(c), t.item, Root(x));
    assert x.Fork? ==> x.item in Items(x);
    Adopted(h, h', x, t.item, CtxItem(c));
    RehungCtx(h, h', c, t.item, Root(x));
  }

  ghost predicate CanTakePlace(h: Heap, x: Epitem, was: Epitem) {
    && x in h && was in h && x != was
    && h[was].left != null && h[was].left in h && h[was].left != was && h[was].parent != was
    && (h[was].right != null ==> h[was].right in h && h[was].right != was)
    && (h[was].parent != null ==> h[was].parent in h)
  }

  /** Lines 493-504 as a change of the tree fields. */
  ghost function TakePlaceLinks(h: Heap, x: Epitem, was: Epitem): Heap
    requires CanTakePlace(h, x, was)
  {
    var h1 := Rehang(h[x := h[was]], h[was].parent, was, x);
    Reparent(Reparent(h1, h[was].left, x), h[was].right, x)
  }

  lemma TakePlaceShape(h: Heap, root: Epitem?, c: Ctx, t: Tree, x: Epitem)
    requires Shape(h, root, c, t) && t.Fork? && t.left.Fork? && x in h && x !in Items(t) && x !in CtxItems(c)
    ensures CanTakePlace(h, x, t.item)
    ensures Shape(TakePlaceLinks(h, x, t.item), if c.Top? then x else root, c, t.(item := x))
  {
    var l, r := t.left, t.right;
    assert Linked(h, l, t.item) && Linked(h, r, t.item);
    assert l.item in Items(l) && (r.Fork? ==> r.item in Items(r));
    assert CanTakePlace(h, x, t.item);
    var h' := TakePlaceLinks(h, x, t.item);
    Adopted(h, h', l, t.item, x);
    Adopted(h, h', r, t.item, x);
    RehungCtx(h, h', c, t.item, x);
  }

  lemma {:induction false} MoveWithin(h: Heap, root: Epitem?, p: Ctx, b: Ctx, t: Tree)
    ensures Shape(h, root, Append(p, b), t) <==> Shape(h, root, b, Plug(p, t))
    decreases p
  {
    if !p.Top? {
      Climb(h, root, Append(p, b), t);
      MoveWithin(h, root, p.up, b, Above(p, t));
    }
  }

  lemma ShapeFrame(h: Heap, h': Heap, root: Epitem?, t: Tree)
    requires Shape(h, root, Top, t) && Agree(h, h', Items(t))
    ensures Shape(h', root, Top, t)
  {
    LinkedFrame(h, h', t, null);
  }
}
