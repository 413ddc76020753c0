/** The shape of the red-black tree behind the epoll interest set, as values.

    A `Tree` mirrors a linked subtree; a `Ctx` is the rest of the tree around it, read
    from the subtree upwards (a zipper). The loops of the tree code walk along parent
    links, so every loop state is a subtree in a context. All that is said here is about
    these values; module RbTree ties them to linked nodes. */
module RbSpec {

  /** One registered socket: the tree links of RB_ENTRY, the key, and the readiness fields. */
  class Epitem {
    var left: Epitem?
    var right: Epitem?
    var parent: Epitem?
    var red: bool
    const sockfd: int
    var rdy: bool
    var events: bv32

    constructor (sockfd: int, events: bv32)
      ensures this.sockfd == sockfd && this.events == events && !rdy
    {
      this.sockfd, this.events, rdy := sockfd, events, false;
      left, right, parent, red := null, null, null, false;
    }
  }

  datatype Tree = Leaf | Fork(left: Tree, item: Epitem, red: bool, right: Tree)

  datatype Ctx =
    | Top
    | InLeft(item: Epitem, red: bool, right: Tree, up: Ctx)
    | InRight(item: Epitem, red: bool, left: Tree, up: Ctx)

  ghost function Root(t: Tree): Epitem? {
    if t.Leaf? then null else t.item
  }

  ghost function CtxItem(c: Ctx): Epitem? {
    if c.Top? then null else c.item
  }

  ghost predicate Red(t: Tree) {
    t.Fork? && t.red
  }

  ghost predicate CtxRed(c: Ctx) {
    !c.Top? && c.red
  }

  ghost function Items(t: Tree): set<Epitem> {
    if t.Leaf? then {} else Items(t.left) + {t.item} + Items(t.right)
  }

  ghost function CtxItems(c: Ctx): set<Epitem> {
    match c
    case Top => {}
    case InLeft(item, _, r, up) => {item} + Items(r) + CtxItems(up)
    case InRight(item, _, l, up) => {item} + Items(l) + CtxItems(up)
  }

  ghost function InOrder(t: Tree): seq<Epitem> {
    if t.Leaf? then [] else InOrder(t.left) + [t.item] + InOrder(t.right)
  }

  /** What the context puts in front of its hole, in key order, and what it puts behind. */
  ghost function Before(c: Ctx): seq<Epitem> {
    match c
    case Top => []
    case InLeft(_, _, _, up) => Before(up)
    case InRight(item, _, l, up) => Before(up) + (InOrder(l) + [item])
  }

  ghost function After(c: Ctx): seq<Epitem> {
    match c
    case Top => []
    case InLeft(item, _, r, up) => ([item] + InOrder(r)) + After(up)
    case InRight(_, _, _, up) => After(up)
  }

  ghost function Plug(c: Ctx, t: Tree): Tree {
    match c
    case Top => t
    case InLeft(item, red, r, up) => Plug(up, Fork(t, item, red, r))
    case InRight(item, red, l, up) => Plug(up, Fork(l, item, red, t))
  }

  /** The subtree of the parent of the hole. */
  ghost function Above(c: Ctx, t: Tree): Tree
    requires !c.Top?
  {
    match c
    case InLeft(item, red, r, _) => Fork(t, item, red, r)
    case InRight(item, red, l, _) => Fork(l, item, red, t)
  }

  ghost function Depth(c: Ctx): nat {
    if c.Top? then 0 else 1 + Depth(c.up)
  }

  /** No item twice. */
  ghost predicate Distinct(t: Tree) {
    t.Fork? ==>
      && Items(t.left) !! Items(t.right)
      && t.item !in Items(t.left) && t.item !in Items(t.right)
      && Distinct(t.left) && Distinct(t.right)
  }

  ghost predicate DistinctCtx(c: Ctx) {
    match c
    case Top => true
    case InLeft(item, _, r, up) =>
      && item !in Items(r) && item !in CtxItems(up) && Items(r) !! CtxItems(up)
      && Distinct(r) && DistinctCtx(up)
    case InRight(item, _, l, up) =>
      && item !in Items(l) && item !in CtxItems(up) && Items(l) !! CtxItems(up)
      && Distinct(l) && DistinctCtx(up)
  }

  ghost predicate DistinctAt(c: Ctx, t: Tree) {
    Items(t) !! CtxItems(c) && Distinct(t) && DistinctCtx(c)
  }

  /** Strictly ascending socket descriptors: search order, read off the in-order sequence. */
  ghost predicate Ascending(s: seq<Epitem>) {
    forall i, j :: 0 <= i < j < |s| ==> s[i].sockfd < s[j].sockfd
  }

  /** Black nodes on the leftmost path; in a balanced tree, on every path. */
  ghost function BlackHeight(t: Tree): nat {
    if t.Leaf? then 0 else BlackHeight(t.left) + if t.red then 0 else 1
  }

  /** The red-black rules: equal black counts on all paths, no red child of a red node. */
  ghost predicate RedBlack(t: Tree) {
    t.Fork? ==>
      && RedBlack(t.left) && RedBlack(t.right)
      && BlackHeight(t.left) == BlackHeight(t.right)
      && (t.red ==> !Red(t.left) && !Red(t.right))
  }

  /** The same, except that the root may clash with its own children. */
  ghost predicate NearlyRedBlack(t: Tree) {
    t.Fork? ==> RedBlack(t.left) && RedBlack(t.right) && BlackHeight(t.left) == BlackHeight(t.right)
  }

  /** Around a hole that wants black height `h`, all rules hold except between the hole and
      its parent; a red node on the path has a black parent (so it is never the root). */
  ghost predicate RedBlackCtx(c: Ctx, h: nat) {
    match c
    case Top => true
    case InLeft(_, red, r, up) =>
      && RedBlack(r) && BlackHeight(r) == h
      && (red ==> !Red(r) && up != Top && !CtxRed(up))
      && RedBlackCtx(up, h + if red then 0 else 1)
    case InRight(_, red, l, up) =>
      && RedBlack(l) && BlackHeight(l) == h
      && (red ==> !Red(l) && up != Top && !CtxRed(up))
      && RedBlackCtx(up, h + if red then 0 else 1)
  }

  ghost function Paint(t: Tree, red: bool): Tree
    requires t.Fork?
  {
    t.(red := red)
  }

  ghost function RotatedLeft(t: Tree): Tree
    requires t.Fork? && t.right.Fork?
  {
    var y := t.right;
    Fork(Fork(t.left, t.item, t.red, y.left), y.item, y.red, y.right)
  }

  ghost function RotatedRight(t: Tree): Tree
    requires t.Fork? && t.left.Fork?
  {
    var y := t.left;
    Fork(y.left, y.item, y.red, Fork(y.right, t.item, t.red, t.right))
  }

  // ---- what plugging keeps

  lemma Regroup<T>(a: seq<T>, b: seq<T>, c: seq<T>, d: seq<T>, e: seq<T>)
    ensures (a + b + c) + d + e == a + b + (c + d + e)
    ensures (a + (b + c)) + d + e == a + (b + c + d) + e
    ensures a + (b + c + d) + e == a + b + ((c + d) + e)
    ensures a + (b + c + d) + e == (a + b) + c + (d + e)
  {}

  lemma {:induction false} PlugKeepsOrder(c: Ctx, t: Tree)
    ensures InOrder(Plug(c, t)) == Before(c) + InOrder(t) + After(c)
  {
    match c
    case Top =>
    case InLeft(item, red, r, up) =>
      PlugKeepsOrder(up, Fork(t, item, red, r));
      Regroup(Before(up), InOrder(t), [item], InOrder(r), After(up));
    case InRight(item, red, l, up) =>
      PlugKeepsOrder(up, Fork(l, item, red, t));
      Regroup(Before(up), InOrder(l), [item], InOrder(t), After(up));
  }

  lemma {:induction false} PlugKeepsItems(c: Ctx, t: Tree)
    ensures Items(Plug(c, t)) == CtxItems(c) + Items(t)
  {
    match c
    case Top =>
    case InLeft(item, red, r, up) => PlugKeepsItems(up, Fork(t, item, red, r));
    case InRight(item, red, l, up) => PlugKeepsItems(up, Fork(l, item, red, t));
  }

  lemma {:induction false} PlugKeepsRules(c: Ctx, t: Tree)
    requires RedBlack(t) && RedBlackCtx(c, BlackHeight(t)) && (Red(t) ==> !CtxRed(c))
    ensures RedBlack(Plug(c, t))
    ensures c.Top? || !Red(Plug(c, t))
  {
    match c
    case Top =>
    case InLeft(item, red, r, up) => PlugKeepsRules(up, Fork(t, item, red, r));
    case InRight(item, red, l, up) => PlugKeepsRules(up, Fork(l, item, red, t));
  }

  lemma RotationKeepsOrder(t: Tree)
    requires t.Fork?
    ensures t.right.Fork? ==> InOrder(RotatedLeft(t)) == InOrder(t)
    ensures t.left.Fork? ==> InOrder(RotatedRight(t)) == InOrder(t)
  {
    if t.right.Fork? {
      Regroup(InOrder(t.left), [t.item], InOrder(t.right.left), [t.right.item], InOrder(t.right.right));
    }
    if t.left.Fork? {
      Regroup(InOrder(t.left.left), [t.left.item], InOrder(t.left.right), [t.item], InOrder(t.right));
    }
  }

  lemma RotationKeepsDistinct(c: Ctx, t: Tree)
    requires t.Fork? && DistinctAt(c, t)
    ensures t.right.Fork? ==> DistinctAt(c, RotatedLeft(t))
    ensures t.left.Fork? ==> DistinctAt(c, RotatedRight(t))
  {
    if t.right.Fork? {
      assert Distinct(t.right);
      assert Items(RotatedLeft(t)) == Items(t);
    }
    if t.left.Fork? {
      assert Distinct(t.left);
      assert Items(RotatedRight(t)) == Items(t);
    }
  }

  /** Subtrees with the same in-order sequence are interchangeable in any context. */
  lemma SameOrder(c: Ctx, t: Tree, t': Tree)
    requires InOrder(t) == InOrder(t')
    ensures InOrder(Plug(c, t)) == InOrder(Plug(c, t'))
  {
    PlugKeepsOrder(c, t);
    PlugKeepsOrder(c, t');
  }

  // ---- insertion

  /** The loop invariant of RB_INSERT_COLOR: a red subtree that may clash with its parent. */
  ghost predicate Growing(c: Ctx, t: Tree) {
    Red(t) && RedBlack(t) && RedBlackCtx(c, BlackHeight(t))
  }

  /** The other child of the parent. */
  ghost function Sibling(c: Ctx): Tree
    requires !c.Top?
  {
    if c.InLeft? then c.right else c.left
  }

  lemma ClimbTwice(c: Ctx, t: Tree)
    requires !c.Top? && !c.up.Top?
    ensures Plug(c, t) == Plug(c.up.up, Above(c.up, Above(c, t)))
  {}

  /** Parent and uncle black, grandparent red: the clash moves two levels up. */
  ghost function Recolored(c: Ctx, t: Tree): Tree
    requires !c.Top? && !c.up.Top? && Sibling(c.up).Fork?
  {
    var g := Above(c.up, Above(c, t));
    Fork(Paint(g.left, false), g.item, true, Paint(g.right, false))
  }

  lemma Neighbours(c: Ctx, t: Tree)
    requires Growing(c, t) && CtxRed(c)
    ensures RedBlack(Sibling(c)) && BlackHeight(Sibling(c)) == BlackHeight(t) && !Red(Sibling(c))
    ensures !c.up.Top? && !c.up.red && RedBlackCtx(c.up, BlackHeight(t))
    ensures RedBlack(Sibling(c.up)) && BlackHeight(Sibling(c.up)) == BlackHeight(t)
    ensures RedBlackCtx(c.up.up, BlackHeight(t) + 1)
  {
    assert RedBlackCtx(c.up, BlackHeight(t));
  }

  lemma RecolorGrows(c: Ctx, t: Tree)
    requires Growing(c, t) && CtxRed(c) && Red(Sibling(c.up))
    ensures Growing(c.up.up, Recolored(c, t))
    ensures InOrder(Plug(c.up.up, Recolored(c, t))) == InOrder(Plug(c, t))
  {
    Neighbours(c, t);
    var p := Paint(Above(c, t), false);
    assert RedBlack(p) && BlackHeight(p) == BlackHeight(t) + 1;
    assert RedBlack(Paint(Sibling(c.up), false));
    ClimbTwice(c, t);
    SameOrder(c.up.up, Above(c.up, Above(c, t)), Recolored(c, t));
  }

  /** The bent path parent-child is straightened by a rotation of the parent. */
  ghost function StraightCtx(c: Ctx, t: Tree): Ctx
    requires !c.Top? && t.Fork?
  {
    match c
    case InLeft(_, _, _, up) => InRight(t.item, t.red, t.left, up)
    case InRight(_, _, _, up) => InLeft(t.item, t.red, t.right, up)
  }

  ghost function StraightTree(c: Ctx, t: Tree): Tree
    requires !c.Top? && t.Fork?
  {
    match c
    case InLeft(item, red, r, _) => Fork(t.right, item, red, r)
    case InRight(item, red, l, _) => Fork(l, item, red, t.left)
  }

  lemma StraightGrows(c: Ctx, t: Tree)
    requires Growing(c, t) && CtxRed(c)
    ensures Growing(StraightCtx(c, t), StraightTree(c, t))
    ensures Above(StraightCtx(c, t), StraightTree(c, t)) == if c.InLeft? then RotatedRight(Above(c, t))
      else RotatedLeft(Above(c, t))
    ensures InOrder(Plug(StraightCtx(c, t), StraightTree(c, t))) == InOrder(Plug(c, t))
  {
    RotationKeepsOrder(Above(c, t));
    SameOrder(c.up, Above(c, t), Above(StraightCtx(c, t), StraightTree(c, t)));
  }

  /** Parent black over a red grandparent, rotated into its place: no clash is left. */
  ghost function LiftedCtx(c: Ctx): Ctx
    requires !c.Top? && !c.up.Top?
  {
    match c
    case InLeft(item, _, r, up) => InLeft(item, false, Fork(r, up.item, true, Sibling(up)), up.up)
    case InRight(item, _, l, up) => InRight(item, false, Fork(Sibling(up), up.item, true, l), up.up)
  }

  lemma LiftedGrows(c: Ctx, t: Tree)
    requires Growing(c, t) && CtxRed(c) && !Red(Sibling(c.up)) && (c.InLeft? <==> c.up.InLeft?)
    ensures Growing(LiftedCtx(c), t) && !CtxRed(LiftedCtx(c))
    ensures var g := Paint(Above(c.up, Paint(Above(c, t), false)), true);
      Above(LiftedCtx(c), t) == if c.InLeft? then RotatedRight(g) else RotatedLeft(g)
    ensures InOrder(Plug(LiftedCtx(c), t)) == InOrder(Plug(c, t))
  {
    Neighbours(c, t);
    ClimbTwice(c, t);
    var g := Above(c.up, Above(c, t));
    RotationKeepsOrder(Paint(Above(c.up, Paint(Above(c, t), false)), true));
    SameOrder(c.up.up, g, Above(LiftedCtx(c), t));
  }

  /** At the loop exit the parent is black or missing, and the root is painted black. */
  lemma GrownRules(c: Ctx, t: Tree)
    requires Growing(c, t) && !CtxRed(c)
    ensures Plug(c, t).Fork? && RedBlack(Paint(Plug(c, t), false))
    ensures InOrder(Paint(Plug(c, t), false)) == InOrder(Plug(c, t))
  {
    PlugKeepsRules(c, t);
    PlugIsFork(c, t);
  }

  lemma {:induction false} PlugIsFork(c: Ctx, t: Tree)
    requires t.Fork?
    ensures Plug(c, t).Fork?
  {
    if !c.Top? {
      PlugIsFork(c.up, Above(c, t));
    }
  }

  // ---- removal

  /** The loop invariant of RB_REMOVE_COLOR: the subtree is one black node short, and its
      root may clash with its children. */
  ghost predicate Shrinking(c: Ctx, t: Tree) {
    NearlyRedBlack(t) && RedBlackCtx(c, BlackHeight(t) + 1)
  }

  ghost function Far(c: Ctx): Tree
    requires !c.Top? && Sibling(c).Fork?
  {
    if c.InLeft? then c.right.right else c.left.left
  }

  ghost function Near(c: Ctx): Tree
    requires !c.Top? && Sibling(c).Fork?
  {
    if c.InLeft? then c.right.left else c.left.right
  }

  ghost function WithSibling(c: Ctx, sib: Tree): Ctx
    requires !c.Top?
  {
    if c.InLeft? then c.(right := sib) else c.(left := sib)
  }

  lemma SiblingRules(c: Ctx, t: Tree)
    requires Shrinking(c, t) && !c.Top?
    ensures Sibling(c).Fork? && RedBlack(Sibling(c)) && BlackHeight(Sibling(c)) == BlackHeight(t) + 1
    ensures RedBlackCtx(c.up, BlackHeight(t) + if c.red then 1 else 2)
    ensures c.red ==> !Red(Sibling(c)) && !CtxRed(c.up) && !c.up.Top?
  {}

  /** A red sibling is rotated above the parent, which becomes red. */
  ghost function RedSiblingCtx(c: Ctx): Ctx
    requires !c.Top? && Sibling(c).Fork?
  {
    var y := Sibling(c);
    match c
    case InLeft(item, _, _, up) => InLeft(item, true, y.left, InLeft(y.item, false, y.right, up))
    case InRight(item, _, _, up) => InRight(item, true, y.right, InRight(y.item, false, y.left, up))
  }

  lemma RedSiblingShrinks(c: Ctx, t: Tree)
    requires Shrinking(c, t) && !Red(t) && !c.Top? && Red(Sibling(c))
    ensures Shrinking(RedSiblingCtx(c), t) && !Red(Sibling(RedSiblingCtx(c)))
    ensures var g := Paint(Above(WithSibling(c, Paint(Sibling(c), false)), t), true);
      Above(RedSiblingCtx(c).up, Above(RedSiblingCtx(c), t)) == if c.InLeft? then RotatedLeft(g) else RotatedRight(g)
    ensures InOrder(Plug(RedSiblingCtx(c), t)) == InOrder(Plug(c, t))
    ensures Depth(RedSiblingCtx(c).up) == Depth(c)
  {
    SiblingRules(c, t);
    var g := Paint(Above(WithSibling(c, Paint(Sibling(c), false)), t), true);
    RotationKeepsOrder(g);
    ClimbTwice(RedSiblingCtx(c), t);
    SameOrder(c.up, Above(c, t), Above(RedSiblingCtx(c).up, Above(RedSiblingCtx(c), t)));
  }

  /** A black sibling with black children turns red: the shortage moves one level up. */
  lemma BlackNephewsShrink(c: Ctx, t: Tree)
    requires Shrinking(c, t) && !Red(t) && !c.Top? && !Red(Sibling(c))
    requires Sibling(c).Fork? && !Red(Near(c)) && !Red(Far(c))
    ensures Shrinking(c.up, Above(WithSibling(c, Paint(Sibling(c), true)), t))
    ensures InOrder(Plug(c.up, Above(WithSibling(c, Paint(Sibling(c), true)), t))) == InOrder(Plug(c, t))
  {
    SiblingRules(c, t);
    var y := Paint(Sibling(c), true);
    assert RedBlack(y) && BlackHeight(y) == BlackHeight(t);
    assert InOrder(y) == InOrder(Sibling(c));
    SameOrder(c.up, Above(c, t), Above(WithSibling(c, Paint(Sibling(c), true)), t));
  }

  /** A red near nephew is rotated above the sibling, so that the far nephew is red. */
  ghost function NearLifted(c: Ctx): Tree
    requires !c.Top? && Sibling(c).Fork? && Near(c).Fork?
  {
    var y := Sibling(c);
    if c.InLeft? then RotatedRight(Fork(Paint(y.left, false), y.item, true, y.right))
    else RotatedLeft(Fork(y.left, y.item, true, Paint(y.right, false)))
  }

  lemma NearLiftedShrinks(c: Ctx, t: Tree)
    requires Shrinking(c, t) && !c.Top? && !Red(Sibling(c)) && Sibling(c).Fork?
    requires Red(Near(c)) && !Red(Far(c))
    ensures Shrinking(WithSibling(c, NearLifted(c)), t)
    ensures Red(Far(WithSibling(c, NearLifted(c)))) && !Red(NearLifted(c))
    ensures InOrder(NearLifted(c)) == InOrder(Sibling(c))
    ensures InOrder(Plug(WithSibling(c, NearLifted(c)), t)) == InOrder(Plug(c, t))
  {
    SiblingRules(c, t);
    var y := Sibling(c);
    RotationKeepsOrder(if c.InLeft? then Fork(Paint(y.left, false), y.item, true, y.right)
                       else Fork(y.left, y.item, true, Paint(y.right, false)));
    assert InOrder(NearLifted(c)) == InOrder(y);
    SameOrder(c.up, Above(c, t), Above(WithSibling(c, NearLifted(c)), t));
  }

  /** With a red far nephew the sibling takes the parent's place and colour; nothing is short. */
  ghost function Repaired(c: Ctx, t: Tree): Tree
    requires !c.Top? && Sibling(c).Fork? && Far(c).Fork?
  {
    var y := Sibling(c);
    match c
    case InLeft(item, red, _, _) => Fork(Fork(t, item, false, y.left), y.item, red, Paint(y.right, false))
    case InRight(item, red, _, _) => Fork(Paint(y.left, false), y.item, red, Fork(y.right, item, false, t))
  }

  lemma RepairedRules(c: Ctx, t: Tree)
    requires Shrinking(c, t) && !Red(t) && !c.Top? && Sibling(c).Fork? && !Red(Sibling(c)) && Red(Far(c))
    ensures RedBlack(Plug(c.up, Repaired(c, t))) && !Red(Plug(c.up, Repaired(c, t)))
    ensures InOrder(Plug(c.up, Repaired(c, t))) == InOrder(Plug(c, t))
  {
    SiblingRules(c, t);
    var y := Sibling(c);
    var g := Above(c, t);
    RotationKeepsOrder(g);
    SameOrder(c.up, g, Repaired(c, t));
    PlugKeepsRules(c.up, Repaired(c, t));
  }

  /** What the loop exit does: a red root of the subtree, or the root of the tree, turns black. */
  lemma BlackenedRules(c: Ctx, t: Tree)
    requires Shrinking(c, t) && t.Fork? && (Red(t) || c.Top?)
    ensures RedBlack(Plug(c, Paint(t, false))) && !Red(Plug(c, Paint(t, false)))
    ensures InOrder(Plug(c, Paint(t, false))) == InOrder(Plug(c, t))
  {
    SameOrder(c, t, Paint(t, false));
    if Red(t) {
      PlugKeepsRules(c, Paint(t, false));
    }
  }

  // ---- searching

  /** Everything before the hole is below `key`, everything behind it above. */
  ghost predicate Around(c: Ctx, key: int) {
    && (forall x :: x in Before(c) ==> x.sockfd < key)
    && (forall x :: x in After(c) ==> key < x.sockfd)
  }

  lemma AnyKeyFits(key: int)
    ensures Around(Top, key)
  {}

  lemma {:induction false} InOrderItem(t: Tree, x: Epitem)
    ensures x in InOrder(t) <==> x in Items(t)
  {
    if t.Fork? {
      InOrderItem(t.left, x);
      InOrderItem(t.right, x);
    }
  }

  /** One step down keeps the key between what is left behind on either side. */
  lemma StepDown(c: Ctx, t: Tree, key: int)
    requires t.Fork? && Ascending(InOrder(Plug(c, t))) && Around(c, key)
    ensures key < t.item.sockfd ==> Around(InLeft(t.item, t.red, t.right, c), key)
    ensures t.item.sockfd < key ==> Around(InRight(t.item, t.red, t.left, c), key)
  {
    hide Ascending, Plug;
    PlugKeepsOrder(c, t);
    AscendingMiddle(Before(c), InOrder(t.left), t.item, InOrder(t.right), After(c));
  }

  lemma AscendingMiddle(b: seq<Epitem>, l: seq<Epitem>, m: Epitem, r: seq<Epitem>, a: seq<Epitem>)
    requires Ascending(b + (l + [m] + r) + a)
    ensures forall x :: x in l ==> x.sockfd < m.sockfd
    ensures forall x :: x in r ==> m.sockfd < x.sockfd
  {
    var whole, at := b + (l + [m] + r) + a, |b| + |l|;
    assert whole[at] == m;
    forall k | 0 <= k < |l|
      ensures l[k].sockfd < m.sockfd
    {
      assert whole[|b| + k] == l[k];
    }
    forall k | 0 <= k < |r|
      ensures m.sockfd < r[k].sockfd
    {
      assert whole[at + 1 + k] == r[k];
    }
  }

  lemma NotInLeaf(c: Ctx, key: int)
    requires Around(c, key)
    ensures forall x :: x in Items(Plug(c, Leaf)) ==> x.sockfd != key
  {
    PlugKeepsOrder(c, Leaf);
    forall x | x in Items(Plug(c, Leaf))
      ensures x.sockfd != key
    {
      InOrderItem(Plug(c, Leaf), x);
    }
  }

  lemma AfterIsLeast(c: Ctx, key: int)
    requires Around(c, key) && Ascending(InOrder(Plug(c, Leaf)))
    ensures forall x :: x in Items(Plug(c, Leaf)) && key <= x.sockfd ==>
      After(c) != [] && After(c)[0].sockfd <= x.sockfd
    ensures After(c) != [] ==> After(c)[0] in Items(Plug(c, Leaf)) && key <= After(c)[0].sockfd
  {
    PlugKeepsOrder(c, Leaf);
    assert InOrder(Leaf) == [];
    hide InOrder, Items, Plug, Before, After;
    var b, whole := Before(c), InOrder(Plug(c, Leaf));
    assert whole == b + After(c);
    forall x | x in Items(Plug(c, Leaf)) && key <= x.sockfd
      ensures After(c) != [] && After(c)[0].sockfd <= x.sockfd
    {
      InOrderItem(Plug(c, Leaf), x);
      var i :| 0 <= i < |whole| && whole[i] == x;
      assert forall k :: 0 <= k < |b| ==> b[k] in b && whole[k] == b[k];
      assert whole[|b|] == After(c)[0];
    }
    if After(c) != [] {
      assert whole[|b|] == After(c)[0];
      InOrderItem(Plug(c, Leaf), After(c)[0]);
    }
  }

  lemma FoundIsLeast(c: Ctx, t: Tree, key: int)
    requires t.Fork? && t.item.sockfd == key
    ensures t.item in Items(Plug(c, t))
    ensures forall x :: x in Items(Plug(c, t)) && key <= x.sockfd ==> t.item.sockfd <= x.sockfd
  {
    PlugKeepsItems(c, t);
  }

  /** Every item of a tree is the root of some subtree of it. */
  lemma {:induction false} Locate(c: Ctx, t: Tree, x: Epitem) returns (c': Ctx, t': Tree)
    requires x in Items(t)
    ensures Plug(c', t') == Plug(c, t) && t'.Fork? && t'.item == x
    decreases t
  {
    if x == t.item {
      return c, t;
    } else if x in Items(t.left) {
      c', t' := Locate(InLeft(t.item, t.red, t.right, c), t.left, x);
    } else {
      c', t' := Locate(InRight(t.item, t.red, t.left, c), t.right, x);
    }
  }

  /** In a valid tree every hole meets the loop invariants' demands on its surroundings. */
  lemma {:induction false} UnplugRules(c: Ctx, t: Tree)
    requires RedBlack(Plug(c, t)) && !Red(Plug(c, t))
    ensures RedBlack(t) && RedBlackCtx(c, BlackHeight(t))
    ensures Red(t) ==> !c.Top? && !CtxRed(c)
    decreases c
  {
    if !c.Top? {
      UnplugRules(c.up, Above(c, t));
    }
  }

  // ---- height

  ghost function Height(t: Tree): nat {
    if t.Leaf? then 0 else 1 + if Height(t.left) < Height(t.right) then Height(t.right) else Height(t.left)
  }

  function Pow2(n: nat): nat {
    if n == 0 then 1 else 2 * Pow2(n - 1)
  }

  lemma {:induction false} HeightByBlackHeight(t: Tree)
    requires RedBlack(t)
    ensures Height(t) <= 2 * BlackHeight(t) + if Red(t) then 1 else 0
    ensures Pow2(BlackHeight(t)) <= |InOrder(t)| + 1
  {
    if t.Fork? {
      HeightByBlackHeight(t.left);
      HeightByBlackHeight(t.right);
    }
  }

  lemma {:induction false} Pow2Monotone(m: nat, n: nat)
    requires m <= n
    ensures Pow2(m) <= Pow2(n)
  {
    if m < n {
      Pow2Monotone(m, n - 1);
    }
  }

  lemma {:induction false} Pow2Square(n: nat)
    ensures Pow2(2 * n) == Pow2(n) * Pow2(n)
  {
    if n > 0 {
      Pow2Square(n - 1);
      assert Pow2(2 * n) == 2 * (2 * Pow2(2 * (n - 1)));
    }
  }

  lemma SquareMonotone(p: nat, n: nat)
    requires p <= n
    ensures p * p <= n * n
  {
    assert p * p <= n * p <= n * n;
  }

  /** A valid tree of n items is at most 2*log2(n+1) high. */
  lemma HeightBound(t: Tree)
    requires RedBlack(t) && !Red(t)
    ensures Pow2(Height(t)) <= (|InOrder(t)| + 1) * (|InOrder(t)| + 1)
  {
    HeightByBlackHeight(t);
    Pow2Monotone(Height(t), 2 * BlackHeight(t));
    Pow2Square(BlackHeight(t));
    SquareMonotone(Pow2(BlackHeight(t)), |InOrder(t)| + 1);
  }

  lemma {:induction false} SizeIsLength(t: Tree)
    requires Distinct(t)
    ensures |Items(t)| == |InOrder(t)|
  {
    if t.Fork? {
      SizeIsLength(t.left);
      SizeIsLength(t.right);
      assert |Items(t.left) + {t.item}| == |Items(t.left)| + 1;
      assert |Items(t)| == |Items(t.left) + {t.item}| + |Items(t.right)|;
    }
  }

  /** A path down to a subtree and on inside it is no longer than the tree is high. */
  lemma {:induction false} PathFits(c: Ctx, t: Tree)
    ensures Depth(c) + Height(t) <= Height(Plug(c, t))
  {
    if !c.Top? {
      PathFits(c.up, Above(c, t));
    }
  }

  /** The number of nodes on a path in a valid tree. */
  ghost predicate FewSteps(steps: nat, n: nat) {
    Pow2(steps) <= (n + 1) * (n + 1)
  }

  /** A valid tree of n items has no path of more than 2*log2(n+1) nodes. */
  lemma FewOnAnyPath(t: Tree)
    requires RedBlack(t) && !Red(t) && Distinct(t)
    ensures FewSteps(Height(t), |Items(t)|)
  {
    hide Pow2, Height, InOrder, Items, RedBlack, Distinct;
    HeightBound(t);
    SizeIsLength(t);
  }

  lemma StepsOnPath(c: Ctx, t: Tree, steps: nat, n: nat)
    requires FewSteps(Height(Plug(c, t)), n) && steps <= Depth(c) + Height(t)
    ensures FewSteps(steps, n)
  {
    PathFits(c, t);
    Pow2Monotone(steps, Height(Plug(c, t)));
  }

  // ---- growing and shrinking the in-order sequence

  lemma AscendingInsert(b: seq<Epitem>, x: Epitem, a: seq<Epitem>)
    requires Ascending(b + a)
    requires (forall y :: y in b ==> y.sockfd < x.sockfd) && (forall y :: y in a ==> x.sockfd < y.sockfd)
    ensures Ascending(b + [x] + a)
  {
    var s, s' := b + a, b + [x] + a;
    forall i, j | 0 <= i < j < |s'|
      ensures s'[i].sockfd < s'[j].sockfd
    {
      assert i < |b| ==> s'[i] == s[i] && s[i] in b;
      assert j > |b| ==> s'[j] == s[j - 1] && s[j - 1] in a;
      assert i > |b| ==> s'[i] == s[i - 1];
      assert j < |b| ==> s'[j] == s[j];
    }
  }

  /** A new item in a hole that its key belongs into keeps the order strict. */
  lemma InsertOrder(c: Ctx, x: Epitem)
    requires Ascending(InOrder(Plug(c, Leaf))) && Around(c, x.sockfd)
    ensures InOrder(Plug(c, Fork(Leaf, x, true, Leaf))) == Before(c) + [x] + After(c)
    ensures Ascending(Before(c) + [x] + After(c))
  {
    PlugKeepsOrder(c, Leaf);
    PlugKeepsOrder(c, Fork(Leaf, x, true, Leaf));
    assert InOrder(Fork(Leaf, x, true, Leaf)) == [x];
    assert Before(c) + [] + After(c) == Before(c) + After(c);
    AscendingInsert(Before(c), x, After(c));
  }

  lemma NewLeaf(c: Ctx, x: Epitem)
    requires RedBlack(Plug(c, Leaf)) && !Red(Plug(c, Leaf))
    requires Ascending(InOrder(Plug(c, Leaf))) && Around(c, x.sockfd)
    ensures Growing(c, Fork(Leaf, x, true, Leaf))
    ensures Ascending(InOrder(Plug(c, Fork(Leaf, x, true, Leaf))))
    ensures Items(Plug(c, Fork(Leaf, x, true, Leaf))) == Items(Plug(c, Leaf)) + {x}
  {
    InsertOrder(c, x);
    UnplugRules(c, Leaf);
    PlugKeepsItems(c, Fork(Leaf, x, true, Leaf));
    PlugKeepsItems(c, Leaf);
  }

  lemma SameItems(s: Tree, t: Tree)
    requires InOrder(s) == InOrder(t)
    ensures Items(s) == Items(t)
  {
    forall x | x in Items(s)
      ensures x in Items(t)
    {
      InOrderItem(s, x);
      InOrderItem(t, x);
    }
    forall x | x in Items(t)
      ensures x in Items(s)
    {
      InOrderItem(s, x);
      InOrderItem(t, x);
    }
  }

  lemma AscendingDrop(b: seq<Epitem>, x: Epitem, a: seq<Epitem>)
    requires Ascending(b + [x] + a)
    ensures Ascending(b + a)
    ensures x !in b + a
  {
    var s, s' := b + [x] + a, b + a;
    assert forall k :: 0 <= k < |s'| ==> s'[k] == s[if k < |b| then k else k + 1];
    assert s[|b|] == x;
  }

  /** The in-order sequence around an item, without it. */
  ghost function OrderWithout(c: Ctx, t: Tree): seq<Epitem>
    requires t.Fork?
  {
    (Before(c) + InOrder(t.left)) + (InOrder(t.right) + After(c))
  }

  /** A tree with that sequence has lost exactly this item. */
  lemma Without(c: Ctx, t: Tree, t': Tree)
    requires t.Fork? && Ascending(InOrder(Plug(c, t))) && InOrder(t') == OrderWithout(c, t)
    ensures Ascending(InOrder(t'))
    ensures Items(t') == Items(Plug(c, t)) - {t.item}
  {
    PlugKeepsOrder(c, t);
    var b, a, s := Before(c) + InOrder(t.left), InOrder(t.right) + After(c), InOrder(Plug(c, t));
    Regroup(Before(c), InOrder(t.left), [t.item], InOrder(t.right), After(c));
    assert s == b + [t.item] + a;
    AscendingDrop(b, t.item, a);
    SameBut(t', Plug(c, t), b, t.item, a);
  }

  lemma SameBut(t: Tree, u: Tree, b: seq<Epitem>, x: Epitem, a: seq<Epitem>)
    requires InOrder(t) == b + a && InOrder(u) == b + [x] + a && x !in b + a
    ensures Items(t) == Items(u) - {x}
  {
    forall y | y in Items(t)
      ensures y in Items(u) && y != x
    {
      InOrderItem(t, y);
      InOrderItem(u, y);
    }
    forall y | y in Items(u) && y != x
      ensures y in Items(t)
    {
      InOrderItem(t, y);
      InOrderItem(u, y);
    }
  }

  lemma BypassOrder(c: Ctx, t: Tree)
    requires t.Fork? && (t.left.Leaf? || t.right.Leaf?)
    ensures InOrder(Plug(c, if t.left.Leaf? then t.right else t.left)) == OrderWithout(c, t)
  {
    PlugKeepsOrder(c, if t.left.Leaf? then t.right else t.left);
  }

  lemma BypassRules(c: Ctx, t: Tree)
    requires t.Fork? && (t.left.Leaf? || t.right.Leaf?) && RedBlack(t) && RedBlackCtx(c, BlackHeight(t))
    ensures var x := if t.left.Leaf? then t.right else t.left;
      if t.red then RedBlack(x) && !Red(x) && RedBlackCtx(c, BlackHeight(x)) else Shrinking(c, x)
  {}

  // ---- the successor of an inner node

  /** The path `p` inside a subtree, continued by the context `b` of that subtree. */
  ghost function Append(p: Ctx, b: Ctx): Ctx {
    match p
    case Top => b
    case InLeft(item, red, r, up) => InLeft(item, red, r, Append(up, b))
    case InRight(item, red, l, up) => InRight(item, red, l, Append(up, b))
  }

  lemma {:induction false} PlugAppend(p: Ctx, b: Ctx, t: Tree)
    ensures Plug(Append(p, b), t) == Plug(b, Plug(p, t))
    ensures CtxItems(Append(p, b)) == CtxItems(p) + CtxItems(b)
    ensures CtxItem(Append(p, b)) == if p.Top? then CtxItem(b) else p.item
  {
    if !p.Top? {
      PlugAppend(p.up, b, Above(p, t));
    }
  }

  /** The rules do not look at the item at the joint. */
  lemma {:induction false} RelabelRules(p: Ctx, x: Epitem, y: Epitem, red: bool, l: Tree, c: Ctx, h: nat)
    requires RedBlackCtx(Append(p, InRight(x, red, l, c)), h)
    ensures RedBlackCtx(Append(p, InRight(y, red, l, c)), h)
    ensures CtxRed(Append(p, InRight(y, red, l, c))) == CtxRed(Append(p, InRight(x, red, l, c)))
  {
    if !p.Top? {
      RelabelRules(p.up, x, y, red, l, c, h + if p.red then 0 else 1);
    }
  }

  /** The leftmost item m of a right subtree moves into the inner node's place. */
  lemma SuccessorOrder(c: Ctx, t: Tree, p: Ctx, m: Tree)
    requires t.Fork? && m.Fork? && m.left.Leaf? && Plug(p, m) == t.right && Before(p) == []
    ensures InOrder(Plug(Append(p, InRight(m.item, t.red, t.left, c)), m.right)) == OrderWithout(c, t)
  {
    var l, q, i := InOrder(t.left), InOrder(Plug(p, m.right)), [m.item];
    var u := Fork(t.left, m.item, t.red, Plug(p, m.right));
    PlugAppend(p, InRight(m.item, t.red, t.left, c), m.right);
    PlugKeepsOrder(c, u);
    LeftmostOrder(p, m);
    assert InOrder(u) == l + i + q;
    Regroup(Before(c), l, i, q, After(c));
    assert Before(c) + (l + i + q) + After(c) == (Before(c) + l) + ((i + q) + After(c));
  }

  lemma LeftmostOrder(p: Ctx, m: Tree)
    requires m.Fork? && m.left.Leaf? && Before(p) == []
    ensures InOrder(Plug(p, m)) == [m.item] + InOrder(Plug(p, m.right))
  {
    hide Plug, Before, After, InOrder;
    PlugKeepsOrder(p, m.right);
    PlugKeepsOrder(p, m);
    RootFirst(m);
    assert [] + ([m.item] + InOrder(m.right)) + After(p) == [m.item] + ([] + InOrder(m.right) + After(p));
  }

  lemma RootFirst(m: Tree)
    requires m.Fork? && m.left.Leaf?
    ensures InOrder(m) == [m.item] + InOrder(m.right)
  {}

  /** The successor occurs nowhere else. */
  lemma SuccessorDistinct(c: Ctx, t: Tree, p: Ctx, m: Tree)
    requires t.Fork? && m.Fork? && m.left.Leaf? && Plug(p, m) == t.right
    requires DistinctAt(Append(p, InRight(t.item, t.red, t.left, c)), m)
    ensures m.item !in CtxItems(c) && m.item !in Items(Fork(t.left, t.item, t.red, Plug(p, m.right)))
  {
    PlugAppend(p, InRight(t.item, t.red, t.left, c), m);
    PlugKeepsItems(p, m.right);
    assert m.item in Items(m) && m.item !in Items(m.right);
  }

  lemma SuccessorRules(c: Ctx, t: Tree, p: Ctx, m: Tree)
    requires RedBlack(Plug(c, t)) && !Red(Plug(c, t))
    requires t.Fork? && m.Fork? && m.left.Leaf? && Plug(p, m) == t.right
    ensures var c' := Append(p, InRight(m.item, t.red, t.left, c));
      if m.red then RedBlack(m.right) && !Red(m.right) && RedBlackCtx(c', BlackHeight(m.right))
        else Shrinking(c', m.right)
  {
    var b := InRight(t.item, t.red, t.left, c);
    PlugAppend(p, b, m);
    UnplugRules(Append(p, b), m);
    RelabelRules(p, t.item, m.item, t.red, t.left, c, BlackHeight(m));
    BypassRules(Append(p, InRight(m.item, t.red, t.left, c)), m);
  }

  // ---- successors

  ghost function ItemAt(s: seq<Epitem>, i: nat): Epitem? {
    if i < |s| then s[i] else null
  }

  /** In strict order an item has one place; what follows it starts the rest. */
  lemma FollowsAt(c: Ctx, t: Tree, i: nat)
    requires t.Fork? && Ascending(InOrder(Plug(c, t)))
    requires i < |InOrder(Plug(c, t))| && InOrder(Plug(c, t))[i] == t.item
    ensures ItemAt(InOrder(Plug(c, t)), i + 1) == ItemAt(InOrder(t.right) + After(c), 0)
  {
    PlugKeepsOrder(c, t);
    Regroup(Before(c), InOrder(t.left), [t.item], InOrder(t.right), After(c));
    var b, rest, s := Before(c) + InOrder(t.left), InOrder(t.right) + After(c), InOrder(Plug(c, t));
    assert s == b + [t.item] + rest;
    assert s[|b|] == t.item;
    assert i == |b|;
  }

  lemma LeftOfRest(c: Ctx, t: Tree)
    requires t.Fork?
    ensures InOrder(t) + After(c) == InOrder(t.left) + After(InLeft(t.item, t.red, t.right, c))
    ensures t.left.Leaf? ==> (InOrder(t) + After(c))[0] == t.item
  {
    Regroup([], InOrder(t.left), [t.item], InOrder(t.right), After(c));
    assert InOrder(t.left) + [t.item] + InOrder(t.right) + After(c) ==
      InOrder(t.left) + (([t.item] + InOrder(t.right)) + After(c));
  }
}
