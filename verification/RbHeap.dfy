/** The routines of include/fskit/sglib.h in place: child and colour fields of the records are
    rewritten, and every routine leaves the records in the shape that module RbTree computes.
    Each C parameter `type **tree` is an in-parameter and an out-parameter here. */
module RbHeap {
  import opened Names
  import opened RbTree

  ghost function Nodes<V>(t: Tree<V>): set<Node<V>>
  {
    match t
    case Leaf => {}
    case Fork(_, l, x, r) => Nodes(l) + {x} + Nodes(r)
  }

  /** No record occurs twice. */
  ghost predicate Distinct<V>(t: Tree<V>)
  {
    match t
    case Leaf => true
    case Fork(_, l, x, r) =>
      Distinct(l) && Distinct(r) && x !in Nodes(l) && x !in Nodes(r) && Nodes(l) !! Nodes(r)
  }

  ghost predicate NoDup<T>(s: seq<T>)
  {
    forall i, j :: 0 <= i < j < |s| ==> s[i] != s[j]
  }

  /** The records at and below n are laid out exactly as t says. */
  ghost predicate Shape<V>(n: Node?<V>, t: Tree<V>)
    reads Nodes(t)
  {
    match t
    case Leaf => n == null
    case Fork(red, l, x, r) => n == x && x.red == red && Shape(x.left, l) && Shape(x.right, r)
  }

  ghost function Elems<T>(s: seq<T>): set<T>
  {
    set x | x in s
  }

  lemma NoDupParts<T>(a: seq<T>, y: T, b: seq<T>)
    ensures NoDup(a + [y] + b) <==>
      NoDup(a) && NoDup(b) && y !in a && y !in b && Elems(a) !! Elems(b)
  {
    var s := a + [y] + b;
    assert forall k :: 0 <= k < |a| ==> s[k] == a[k];
    assert s[|a|] == y;
    assert forall k :: 0 <= k < |b| ==> s[|a| + 1 + k] == b[k];
    if NoDup(a) && NoDup(b) && y !in a && y !in b && Elems(a) !! Elems(b) {
      forall i, j | 0 <= i < j < |s| ensures s[i] != s[j] {
        if i < |a| && j > |a| { assert s[i] in Elems(a) && s[j] == b[j - |a| - 1] && s[j] in Elems(b); }
      }
    }
    if NoDup(s) {
      forall x | x in a ensures x !in b {
        var i :| 0 <= i < |a| && a[i] == x;
        assert s[i] == x && forall j :: 0 <= j < |b| ==> b[j] == s[|a| + 1 + j];
      }
    }
  }

  lemma {:induction false} NodesInorder<V>(t: Tree<V>)
    ensures Nodes(t) == Elems(Inorder(t))
  {
    if t.Fork? {
      NodesInorder(t.left);
      NodesInorder(t.right);
    }
  }

  lemma {:induction false} DistinctInorder<V>(t: Tree<V>)
    ensures Distinct(t) <==> NoDup(Inorder(t))
  {
    if t.Fork? {
      var l, x, r := t.left, t.node, t.right;
      DistinctInorder(l);
      DistinctInorder(r);
      NodesInorder(l);
      NodesInorder(r);
      NoDupParts(Inorder(l), x, Inorder(r));
    }
  }

  lemma SameInorder<V>(t: Tree<V>, u: Tree<V>)
    requires Inorder(t) == Inorder(u) && Distinct(t)
    ensures Nodes(t) == Nodes(u) && Distinct(u)
  {
    NodesInorder(t);
    NodesInorder(u);
    DistinctInorder(t);
    DistinctInorder(u);
  }

  function NearOf<V>(flip: bool, n: Node<V>): Node?<V>
    reads n
  {
    if flip then n.right else n.left
  }

  function FarOf<V>(flip: bool, n: Node<V>): Node?<V>
    reads n
  {
    if flip then n.left else n.right
  }

  /** The layout at n, seen through the near and far fields. */
  lemma Look<V>(flip: bool, n: Node?<V>, t: Tree<V>)
    requires t.Fork? && Shape(n, t) && Distinct(t)
    ensures n == t.node && n.red == t.red
    ensures Shape(NearOf(flip, n), Near(flip, t)) && Shape(FarOf(flip, n), Far(flip, t))
    ensures Distinct(Near(flip, t)) && Distinct(Far(flip, t))
    ensures Nodes(t) == Nodes(Near(flip, t)) + {n} + Nodes(Far(flip, t))
  {
  }

  /** a's left child b takes a's place, with a as its right child; both are recoloured. */
  method RotateRight<V>(a: Node<V>, aRed: bool, bRed: bool, ghost t: Tree<V>) returns (b: Node<V>)
    requires Shape(a, t) && Distinct(t) && t.Fork? && t.left.Fork?
    modifies a, t.left.node
    ensures Shape(b, Fork(bRed, t.left.left, t.left.node, Fork(aRed, t.left.right, a, t.right)))
  {
    b := a.left;
    ghost var l, m, r := t.left.left, t.left.right, t.right;
    assert Shape(b.left, l) && Shape(b.right, m) && Shape(a.right, r);
    assert a !in Nodes(l) && b !in Nodes(l) && a !in Nodes(m) && b !in Nodes(m) && a !in Nodes(r) && b !in Nodes(r);
    var br := b.right;
    a.left := br;
    b.right := a;
    a.red := aRed;
    b.red := bRed;
    assert Shape(b.left, l) && Shape(br, m) && Shape(a.right, r);
  }

  method RotateLeft<V>(a: Node<V>, aRed: bool, bRed: bool, ghost t: Tree<V>) returns (b: Node<V>)
    requires Shape(a, t) && Distinct(t) && t.Fork? && t.right.Fork?
    modifies a, t.right.node
    ensures Shape(b, Fork(bRed, Fork(aRed, t.left, a, t.right.left), t.right.node, t.right.right))
  {
    b := a.right;
    ghost var l, m, r := t.left, t.right.left, t.right.right;
    assert Shape(a.left, l) && Shape(b.left, m) && Shape(b.right, r);
    assert a !in Nodes(l) && b !in Nodes(l) && a !in Nodes(m) && b !in Nodes(m) && a !in Nodes(r) && b !in Nodes(r);
    var bl := b.left;
    a.right := bl;
    b.left := a;
    a.red := aRed;
    b.red := bRed;
    assert Shape(a.left, l) && Shape(bl, m) && Shape(b.right, r);
  }

  /** The near child b of a takes a's place. */
  method RotateOnce<V>(flip: bool, a: Node<V>, aRed: bool, bRed: bool, ghost t: Tree<V>) returns (b: Node<V>)
    requires Shape(a, t) && Distinct(t) && t.Fork? && Near(flip, t).Fork?
    modifies a, Near(flip, t).node
    ensures var n := Near(flip, t); Shape(b, Mk(flip, bRed, Near(flip, n), n.node, Mk(flip, aRed, Far(flip, n), a, Far(flip, t))))
  {
    if flip { b := RotateLeft(a, aRed, bRed, t); } else { b := RotateRight(a, aRed, bRed, t); }
  }

  ghost predicate Avoids<V>(a: Node<V>, b: Node<V>, c: Node<V>, t: Tree<V>)
  {
    a !in Nodes(t) && b !in Nodes(t) && c !in Nodes(t)
  }

  /** b's right child c is put above b and above a, whose left child was b. */
  method RelinkLeftRight<V>(a: Node<V>, b: Node<V>, c: Node<V>, aRed: bool, cRed: bool,
                            ghost bl: Tree<V>, ghost cl: Tree<V>, ghost cr: Tree<V>, ghost r: Tree<V>)
    requires a != b && b != c && a != c
    requires Shape(b.left, bl) && Shape(c.left, cl) && Shape(c.right, cr) && Shape(a.right, r)
    requires Avoids(a, b, c, bl) && Avoids(a, b, c, cl) && Avoids(a, b, c, cr) && Avoids(a, b, c, r)
    modifies a, b, c
    ensures Shape(c, Fork(cRed, Fork(old(b.red), bl, b, cl), c, Fork(aRed, cr, a, r)))
  {
    b.right, a.left := c.left, c.right;
    c.left, c.right := b, a;
    c.red, a.red := cRed, aRed;
    assert Shape(b.left, bl);
    assert Shape(b.right, cl);
    assert Shape(a.left, cr);
    assert Shape(a.right, r);
  }

  method RelinkRightLeft<V>(a: Node<V>, b: Node<V>, c: Node<V>, aRed: bool, cRed: bool,
                            ghost br: Tree<V>, ghost cl: Tree<V>, ghost cr: Tree<V>, ghost l: Tree<V>)
    requires a != b && b != c && a != c
    requires Shape(b.right, br) && Shape(c.left, cl) && Shape(c.right, cr) && Shape(a.left, l)
    requires Avoids(a, b, c, br) && Avoids(a, b, c, cl) && Avoids(a, b, c, cr) && Avoids(a, b, c, l)
    modifies a, b, c
    ensures Shape(c, Fork(cRed, Fork(aRed, l, a, cl), c, Fork(old(b.red), cr, b, br)))
  {
    b.left, a.right := c.right, c.left;
    c.left, c.right := a, b;
    c.red, a.red := cRed, aRed;
    assert Shape(b.right, br);
    assert Shape(b.left, cr);
    assert Shape(a.right, cl);
    assert Shape(a.left, l);
  }

  /** The far child of a's near child takes a's place, between the two. */
  method RotateTwice<V>(flip: bool, a: Node<V>, aRed: bool, cRed: bool, ghost t: Tree<V>) returns (c: Node<V>)
    requires Shape(a, t) && Distinct(t) && t.Fork? && Near(flip, t).Fork? && Far(flip, Near(flip, t)).Fork?
    modifies a, Near(flip, t).node, Far(flip, Near(flip, t)).node
    ensures var (n, d) := (Near(flip, t), Far(flip, Near(flip, t)));
      Shape(c, Mk(flip, cRed, Mk(flip, n.red, Near(flip, n), n.node, Near(flip, d)), d.node, Mk(flip, aRed, Far(flip, d), a, Far(flip, t))))
  {
    ghost var n, far := Near(flip, t), Far(flip, t);
    ghost var d := Far(flip, n);
    Look(flip, a, t);
    var b := NearOf(flip, a);
    Look(flip, b, n);
    c := FarOf(flip, b);
    Look(flip, c, d);
    if flip {
      RelinkRightLeft(a, b, c, aRed, cRed, n.right, d.left, d.right, far);
    } else {
      RelinkLeftRight(a, b, c, aRed, cRed, n.left, d.left, d.right, far);
    }
  }

  /** Recolours the root of a tree. */
  method SetRed<V>(n: Node<V>, red: bool, ghost t: Tree<V>)
    requires Shape(n, t) && Distinct(t) && t.Fork?
    modifies n`red
    ensures Shape(n, Paint(t, red))
  {
    n.red := red;
    assert Shape(n.left, t.left) && Shape(n.right, t.right);
  }

  method FixInsertionDiscrepancy<V>(flip: bool, tree: Node<V>, ghost t: Tree<V>) returns (root: Node<V>)
    requires t.Fork? && Near(flip, t).Fork? && !t.red && Shape(tree, t) && Distinct(t)
    modifies Nodes(t)
    ensures Shape(root, FixInsertion(flip, t))
    ensures Nodes(FixInsertion(flip, t)) == Nodes(t) && Distinct(FixInsertion(flip, t))
  {
    FixInsertionInorder(flip, t);
    SameInorder(t, FixInsertion(flip, t));
    root := tree;
    var b, far := NearOf(flip, tree), FarOf(flip, tree);
    Look(flip, tree, t);
    Look(flip, b, Near(flip, t));
    var bl, br := NearOf(flip, b), FarOf(flip, b);
    if far != null && far.red {
      if b.red && ((bl != null && bl.red) || (br != null && br.red)) {
        PaintThree(flip, tree, t);
      }
    } else if b.red {
      if bl != null && bl.red {
        root := RotateOnce(flip, tree, true, false, t);
      } else if br != null && br.red {
        root := RotateTwice(flip, tree, true, false, t);
      }
    }
  }

  method PaintThree<V>(flip: bool, tree: Node<V>, ghost t: Tree<V>)
    requires Shape(tree, t) && Distinct(t) && t.Fork? && t.left.Fork? && t.right.Fork?
    modifies tree`red, t.left.node`red, t.right.node`red
    ensures Shape(tree, Mk(flip, true, Paint(Near(flip, t), false), tree, Paint(Far(flip, t), false)))
  {
    var b, c := tree.left, tree.right;
    assert Shape(b.left, t.left.left) && Shape(b.right, t.left.right);
    assert Shape(c.left, t.right.left) && Shape(c.right, t.right.right);
    b.red := false;
    c.red := false;
    tree.red := true;
    assert Shape(b.left, t.left.left) && Shape(b.right, t.left.right);
    assert Shape(c.left, t.right.left) && Shape(c.right, t.right.right);
  }

  lemma CloseAt<V>(flip: bool, n: Node<V>, red: bool, near: Tree<V>, far: Tree<V>)
    requires n.red == red && Shape(NearOf(flip, n), near) && Shape(FarOf(flip, n), far)
    ensures Shape(n, Mk(flip, red, near, n, far))
  {
  }

  /** Recolours the near child of n. */
  method PaintNear<V>(flip: bool, n: Node<V>, red: bool, ghost t: Tree<V>)
    requires Shape(n, t) && Distinct(t) && t.Fork? && Near(flip, t).Fork?
    modifies Near(flip, t).node`red
    ensures Shape(n, Mk(flip, t.red, Paint(Near(flip, t), red), n, Far(flip, t)))
  {
    Look(flip, n, t);
    var b := NearOf(flip, n);
    Look(flip, b, Near(flip, t));
    ghost var bl, br, far := Near(flip, Near(flip, t)), Far(flip, Near(flip, t)), Far(flip, t);
    assert b !in Nodes(bl) && b !in Nodes(br) && b !in Nodes(far);
    b.red := red;
    assert Shape(NearOf(flip, b), bl);
    assert Shape(FarOf(flip, b), br);
    assert Shape(FarOf(flip, n), far);
    CloseAt(flip, b, red, bl, br);
    CloseAt(flip, n, t.red, Paint(Near(flip, t), red), far);
  }

  lemma AllAllocated<V>(t: Tree<V>)
    ensures forall x :: x in Nodes(t) ==> allocated(x)
  {
  }

  /** Recolours the near child of n's far child c (or the far one), seen from n. */
  method PaintGrandchild<V>(flip: bool, n: Node<V>, side: bool, red: bool, ghost t: Tree<V>)
    requires Shape(n, t) && Distinct(t) && t.Fork? && Near(flip, t).Fork? && Near(side, Near(flip, t)).Fork?
    modifies Near(side, Near(flip, t)).node`red
    ensures var b := Near(flip, t);
      Shape(n, Mk(flip, t.red, Mk(side, b.red, Paint(Near(side, b), red), b.node, Far(side, b)), n, Far(flip, t)))
  {
    Look(flip, n, t);
    AllAllocated(t);
    var b := NearOf(flip, n);
    PaintNear(side, b, red, Near(flip, t));
    assert Shape(FarOf(flip, n), Far(flip, t));
    CloseAt(flip, n, t.red, Mk(side, b.red, Paint(Near(side, Near(flip, t)), red), b, Far(side, Near(flip, t))), Far(flip, t));
  }

  /** The result of a fixer has the records of its argument, each once. */
  lemma FixDeletionNodes<V>(flip: bool, t: Tree<V>)
    requires t.Fork? && Distinct(t)
    ensures Nodes(FixDeletion(flip, t).0) == Nodes(t) && Distinct(FixDeletion(flip, t).0)
  {
    FixDeletionInorder(flip, t);
    SameInorder(t, FixDeletion(flip, t).0);
  }

  /** Near child b black with a red outer grandchild and no red inner one. */
  method FixDeletionOuter<V>(flip: bool, tree: Node<V>, ghost t: Tree<V>) returns (root: Node<V>)
    requires t.Fork? && Near(flip, t).Fork? && Near(flip, Near(flip, t)).Fork? && Shape(tree, t) && Distinct(t)
    modifies Nodes(t)
    ensures var n := Near(flip, t);
      Shape(root, Mk(flip, t.red, Paint(Near(flip, n), false), n.node, Mk(flip, false, Far(flip, n), tree, Far(flip, t))))
  {
    ghost var n := Near(flip, t);
    ghost var n' := Mk(flip, n.red, Paint(Near(flip, n), false), n.node, Far(flip, n));
    Look(flip, tree, t);
    PaintGrandchild(flip, tree, flip, false, t);
    root := RotateOnce(flip, tree, false, tree.red, Mk(flip, t.red, n', tree, Far(flip, t)));
  }

  /** Near child b black, and no red grandchild on that side. */
  method FixDeletionPush<V>(flip: bool, tree: Node<V>, ghost t: Tree<V>)
    requires t.Fork? && Near(flip, t).Fork? && Shape(tree, t) && Distinct(t)
    modifies Nodes(t)
    ensures Shape(tree, Mk(flip, false, Paint(Near(flip, t), true), tree, Far(flip, t)))
  {
    PaintNear(flip, tree, true, t);
    SetRed(tree, false, Mk(flip, t.red, Paint(Near(flip, t), true), tree, Far(flip, t)));
  }

  /** Near child b black. */
  method FixDeletionBlack<V>(flip: bool, tree: Node<V>, ghost t: Tree<V>) returns (root: Node<V>, dropped: bool)
    requires FarIsShort(flip, t) && Near(flip, t).Fork? && !Near(flip, t).red && Shape(tree, t) && Distinct(t)
    modifies Nodes(t)
    ensures Shape(root, FixDeletion(flip, t).0) && dropped == FixDeletion(flip, t).1
  {
    root, dropped := tree, false;
    Look(flip, tree, t);
    var b := NearOf(flip, tree);
    Look(flip, b, Near(flip, t));
    var bl, br := NearOf(flip, b), FarOf(flip, b);
    if (bl == null || !bl.red) && (br == null || !br.red) {
      dropped := !tree.red;
      FixDeletionPush(flip, tree, t);
    } else if br == null || !br.red {
      root := FixDeletionOuter(flip, tree, t);
    } else {
      root := RotateTwice(flip, tree, false, tree.red, t);
    }
  }

  /** Near child b red, and no red child of its far child c. */
  method FixDeletionRedPush<V>(flip: bool, tree: Node<V>, ghost t: Tree<V>) returns (root: Node<V>)
    requires t.Fork? && Near(flip, t).Fork? && Far(flip, Near(flip, t)).Fork? && Shape(tree, t) && Distinct(t)
    modifies Nodes(t)
    ensures var n := Near(flip, t);
      Shape(root, Mk(flip, false, Near(flip, n), n.node, Mk(flip, t.red, Paint(Far(flip, n), true), tree, Far(flip, t))))
  {
    ghost var n := Near(flip, t);
    ghost var n' := Mk(flip, n.red, Near(flip, n), n.node, Paint(Far(flip, n), true));
    Look(flip, tree, t);
    PaintGrandchild(flip, tree, !flip, true, t);
    root := RotateOnce(flip, tree, tree.red, false, Mk(flip, t.red, n', tree, Far(flip, t)));
  }

  method SetFar<V>(flip: bool, b: Node<V>, d: Node?<V>, ghost near: Tree<V>, ghost far: Tree<V>)
    requires Shape(NearOf(flip, b), near) && Shape(d, far) && b !in Nodes(near) && b !in Nodes(far)
    modifies b`left, b`right
    ensures Shape(b, Mk(flip, b.red, near, b, far))
  {
    if flip { b.left := d; } else { b.right := d; }
    assert Shape(d, far);
    assert Shape(NearOf(flip, b), near);
    CloseAt(flip, b, b.red, near, far);
  }

  /** Below b, the far child d of b's far child c takes c's place. */
  method LiftFar<V>(flip: bool, b: Node<V>, ghost n: Tree<V>)
    requires n.Fork? && Far(flip, n).Fork? && Far(flip, Far(flip, n)).Fork? && Shape(b, n) && Distinct(n)
    modifies Nodes(n)
    ensures var m := Far(flip, n); var e := Far(flip, m);
      Shape(b, Mk(flip, n.red, Near(flip, n), b, Mk(flip, e.red, Mk(flip, m.red, Near(flip, m), m.node, Near(flip, e)), e.node, Far(flip, e))))
  {
    ghost var m := Far(flip, n);
    ghost var e := Far(flip, m);
    ghost var m' := Mk(flip, e.red, Mk(flip, m.red, Near(flip, m), m.node, Near(flip, e)), e.node, Far(flip, e));
    Look(flip, b, n);
    var c := FarOf(flip, b);
    Look(flip, c, m);
    Look(flip, FarOf(flip, c), e);
    AllAllocated(Near(flip, n));
    var d := RotateOnce(!flip, c, c.red, FarOf(flip, c).red, m);
    assert Shape(NearOf(flip, b), Near(flip, n));
    RotatedNodes(flip, n, m, e);
    SetFar(flip, b, d, Near(flip, n), m');
  }

  /** Near child b red, and a red far child d of its far child c: d comes up twice. */
  method FixDeletionRedFar<V>(flip: bool, tree: Node<V>, ghost t: Tree<V>) returns (root: Node<V>)
    requires t.Fork? && Near(flip, t).Fork? && Far(flip, Near(flip, t)).Fork? && Far(flip, Far(flip, Near(flip, t))).Fork?
    requires Shape(tree, t) && Distinct(t)
    modifies Nodes(t)
    ensures var n := Near(flip, t); var c := Far(flip, n); var d := Far(flip, c);
      Shape(root, Mk(flip, false,
        Mk(flip, n.red, Near(flip, n), n.node, Mk(flip, c.red, Near(flip, c), c.node, Near(flip, d))), d.node,
        Mk(flip, t.red, Far(flip, d), tree, Far(flip, t))))
  {
    ghost var n, far := Near(flip, t), Far(flip, t);
    ghost var m := Far(flip, n);
    ghost var e := Far(flip, m);
    ghost var m' := Mk(flip, e.red, Mk(flip, m.red, Near(flip, m), m.node, Near(flip, e)), e.node, Far(flip, e));
    ghost var n' := Mk(flip, n.red, Near(flip, n), n.node, m');
    Look(flip, tree, t);
    AllAllocated(t);
    var b := NearOf(flip, tree);
    LiftFar(flip, b, n);
    assert Shape(FarOf(flip, tree), far);
    CloseAt(flip, tree, t.red, n', far);
    RotatedNodes(flip, n, m, e);
    SameInorder(n, n');
    root := RotateTwice(flip, tree, tree.red, false, Mk(flip, t.red, n', tree, far));
  }

  lemma RotatedNodes<V>(flip: bool, n: Tree<V>, m: Tree<V>, e: Tree<V>)
    requires n.Fork? && m == Far(flip, n) && m.Fork? && e == Far(flip, m) && e.Fork? && Distinct(n)
    ensures var m' := Mk(flip, e.red, Mk(flip, m.red, Near(flip, m), m.node, Near(flip, e)), e.node, Far(flip, e));
      Nodes(m') == Nodes(m) && Inorder(Mk(flip, n.red, Near(flip, n), n.node, m')) == Inorder(n)
  {
    var m' := Mk(flip, e.red, Mk(flip, m.red, Near(flip, m), m.node, Near(flip, e)), e.node, Far(flip, e));
    Unfold(flip, m);
    Unfold(flip, e);
    Unfold(flip, n);
    Rotation(flip, m.red, e.red, e.red, m.red, Near(flip, m), m.node, Near(flip, e), e.node, Far(flip, e));
    Rotation(flip, e.red, m.red, m.red, e.red, Near(flip, m), m.node, Near(flip, e), e.node, Far(flip, e));
    SameInorder(m, m');
    MkInorder(flip, n.red, Near(flip, n), n.node, m');
    MkInorder(flip, n.red, Near(flip, n), n.node, m);
  }

  /** Near child b red, and only the near child of its far child c red. */
  method FixDeletionRedNear<V>(flip: bool, tree: Node<V>, ghost t: Tree<V>) returns (root: Node<V>)
    requires t.Fork? && Near(flip, t).Fork? && Far(flip, Near(flip, t)).Fork? && Near(flip, Far(flip, Near(flip, t))).Fork?
    requires Shape(tree, t) && Distinct(t)
    modifies Nodes(t)
    ensures var n := Near(flip, t); var c := Far(flip, n);
      Shape(root, Mk(flip, c.red, Mk(flip, n.red, Near(flip, n), n.node, Paint(Near(flip, c), false)), c.node,
                     Mk(flip, t.red, Far(flip, c), tree, Far(flip, t))))
  {
    ghost var n, far := Near(flip, t), Far(flip, t);
    ghost var m := Far(flip, n);
    ghost var m' := Mk(flip, m.red, Paint(Near(flip, m), false), m.node, Far(flip, m));
    ghost var n' := Mk(flip, n.red, Near(flip, n), n.node, m');
    Look(flip, tree, t);
    var b := NearOf(flip, tree);
    Look(flip, b, n);
    var c := FarOf(flip, b);
    Look(flip, c, m);
    AllAllocated(t);
    PaintGrandchild(!flip, b, flip, false, n);
    assert Shape(FarOf(flip, tree), far);
    CloseAt(flip, tree, t.red, n', far);
    assert Inorder(m') == Inorder(m);
    SameInorder(m, m');
    root := RotateTwice(flip, tree, tree.red, c.red, Mk(flip, t.red, n', tree, far));
  }

  /** Near child b red: its far child c exists and is black. */
  method FixDeletionRed<V>(flip: bool, tree: Node<V>, ghost t: Tree<V>) returns (root: Node<V>)
    requires FarIsShort(flip, t) && IsRed(Near(flip, t)) && Shape(tree, t) && Distinct(t)
    modifies Nodes(t)
    ensures Shape(root, FixDeletion(flip, t).0) && !FixDeletion(flip, t).1
  {
    FixDeletionBalancedRed(flip, t);
    Look(flip, tree, t);
    var b := NearOf(flip, tree);
    Look(flip, b, Near(flip, t));
    var c := FarOf(flip, b);
    Look(flip, c, Far(flip, Near(flip, t)));
    assert c != null && !c.red;
    var cl, cr := NearOf(flip, c), FarOf(flip, c);
    if (cl == null || !cl.red) && (cr == null || !cr.red) {
      root := FixDeletionRedPush(flip, tree, t);
    } else if cr != null && cr.red {
      root := FixDeletionRedFar(flip, tree, t);
    } else {
      root := FixDeletionRedNear(flip, tree, t);
    }
  }

  method FixDeletionDiscrepancy<V>(flip: bool, tree: Node<V>, ghost t: Tree<V>) returns (root: Node<V>, dropped: bool)
    requires FarIsShort(flip, t) && Shape(tree, t) && Distinct(t)
    modifies Nodes(t)
    ensures Shape(root, FixDeletion(flip, t).0) && dropped == FixDeletion(flip, t).1
    ensures Nodes(FixDeletion(flip, t).0) == Nodes(t) && Distinct(FixDeletion(flip, t).0)
  {
    FixDeletionNodes(flip, t);
    Look(flip, tree, t);
    var b := NearOf(flip, tree);
    assert b != null by { assert Bh(Near(flip, t)) > 0; }
    Look(flip, b, Near(flip, t));
    if b.red {
      root := FixDeletionRed(flip, tree, t);
      dropped := false;
    } else {
      root, dropped := FixDeletionBlack(flip, tree, t);
    }
  }

  // ---------- the recursive routines ----------

  lemma OpenNodes<V>(flip: bool, t: Tree<V>)
    requires t.Fork? && Distinct(t)
    ensures Nodes(t) == Nodes(Near(flip, t)) + {t.node} + Nodes(Far(flip, t))
    ensures t.node !in Nodes(Near(flip, t)) && t.node !in Nodes(Far(flip, t)) && Nodes(Near(flip, t)) !! Nodes(Far(flip, t))
    ensures Distinct(Near(flip, t)) && Distinct(Far(flip, t))
  {
  }

  lemma MkNodes<V>(flip: bool, red: bool, near: Tree<V>, x: Node<V>, far: Tree<V>)
    requires Distinct(near) && Distinct(far) && x !in Nodes(near) && x !in Nodes(far) && Nodes(near) !! Nodes(far)
    ensures Distinct(Mk(flip, red, near, x, far))
    ensures Nodes(Mk(flip, red, near, x, far)) == Nodes(near) + {x} + Nodes(far)
  {
  }

  /** Puts a new near child below n. */
  method Hang<V>(flip: bool, n: Node<V>, child: Node?<V>, ghost near: Tree<V>, ghost far: Tree<V>)
    requires Shape(child, near) && Shape(FarOf(flip, n), far) && n !in Nodes(near) && n !in Nodes(far)
    modifies n`left, n`right
    ensures Shape(n, Mk(flip, n.red, near, n, far))
  {
    if flip { n.right := child; } else { n.left := child; }
    assert Shape(child, near);
    assert Shape(FarOf(flip, n), far);
    CloseAt(flip, n, n.red, near, far);
  }

  method AddRecursive<V>(tree: Node?<V>, elem: Node<V>, ghost t: Tree<V>) returns (root: Node<V>)
    requires Shape(tree, t) && Distinct(t) && elem !in Nodes(t) && elem.left == null && elem.right == null
    modifies Nodes(t), elem
    ensures Shape(root, AddRec(t, elem))
    ensures Nodes(AddRec(t, elem)) == Nodes(t) + {elem} && Distinct(AddRec(t, elem))
    decreases t, 1
  {
    if tree == null {
      elem.red := true;
      root := elem;
    } else {
      var cmp := StrCmp(elem.name, tree.name);
      StrCmpZero(elem.name, tree.name);
      if cmp < 0 || (cmp == 0 && elem.addr < tree.addr) {
        root := AddBelow(false, tree, elem, t);
      } else {
        root := AddBelow(true, tree, elem, t);
      }
    }
  }

  /** Adds elem on the near side of tree, then mends a black tree. */
  method AddBelow<V>(flip: bool, tree: Node<V>, elem: Node<V>, ghost t: Tree<V>) returns (root: Node<V>)
    requires t.Fork? && Shape(tree, t) && Distinct(t) && elem !in Nodes(t) && elem.left == null && elem.right == null
    modifies Nodes(t), elem
    ensures var t' := Mk(flip, t.red, AddRec(Near(flip, t), elem), t.node, Far(flip, t));
      var r := if t.red then t' else FixInsertion(flip, t');
      Shape(root, r) && Nodes(r) == Nodes(t) + {elem} && Distinct(r)
    decreases t, 0
  {
    ghost var near, far := AddRec(Near(flip, t), elem), Far(flip, t);
    Look(flip, tree, t);
    OpenNodes(flip, t);
    AllAllocated(far);
    var child := AddRecursive(NearOf(flip, tree), elem, Near(flip, t));
    assert Shape(FarOf(flip, tree), far);
    Hang(flip, tree, child, near, far);
    MkNodes(flip, t.red, near, tree, far);
    root := tree;
    if !tree.red {
      root := FixInsertionDiscrepancy(flip, tree, Mk(flip, t.red, near, tree, far));
    }
  }

  /** sglib_add: links elem, whose fields are overwritten, into the tree. */
  method AddNode<V>(tree: Node?<V>, elem: Node<V>, ghost t: Tree<V>) returns (root: Node<V>)
    requires Shape(tree, t) && Distinct(t) && elem !in Nodes(t)
    modifies Nodes(t), elem
    ensures Shape(root, Add(t, elem))
    ensures Nodes(Add(t, elem)) == Nodes(t) + {elem} && Distinct(Add(t, elem))
  {
    elem.left, elem.right := null, null;
    assert Shape(tree, t);
    root := AddRecursive(tree, elem, t);
    SetRed(root, false, AddRec(t, elem));
    assert Inorder(Add(t, elem)) == Inorder(AddRec(t, elem));
    SameInorder(AddRec(t, elem), Add(t, elem));
  }

  /** Hangs what a deletion left of the near subtree below tree, and mends the tree if the black
      height of that subtree dropped. */
  method DeletedBelow<V>(flip: bool, tree: Node<V>, child: Node?<V>, deepDropped: bool,
                         ghost red: bool, ghost near: Tree<V>, ghost far: Tree<V>) returns (root: Node<V>, dropped: bool)
    requires Shape(child, near) && Shape(FarOf(flip, tree), far) && tree.red == red
    requires Distinct(near) && Distinct(far) && tree !in Nodes(near) && tree !in Nodes(far) && Nodes(near) !! Nodes(far)
    requires deepDropped ==> FarIsShort(!flip, Mk(flip, red, near, tree, far))
    modifies tree, Nodes(near), Nodes(far)
    ensures var t' := Mk(flip, red, near, tree, far);
      var (r, d) := if deepDropped then FixDeletion(!flip, t') else (t', false);
      Shape(root, r) && dropped == d && Nodes(r) == Nodes(near) + {tree} + Nodes(far) && Distinct(r)
  {
    ghost var t' := Mk(flip, red, near, tree, far);
    MkNodes(flip, red, near, tree, far);
    Hang(flip, tree, child, near, far);
    root, dropped := tree, false;
    if deepDropped {
      root, dropped := FixDeletionDiscrepancy(!flip, tree, t');
    }
  }

  /** What DeleteMax promises of nodes. */
  lemma {:induction false} DeleteMaxNodes<V>(t: Tree<V>)
    requires t.Fork? && Distinct(t)
    ensures var (r, x, _) := DeleteMax(t); Nodes(t) == Nodes(r) + {x} && x !in Nodes(r) && Distinct(r)
  {
    var (r, x, _) := DeleteMax(t);
    DeleteMaxInorder(t);
    NodesInorder(t);
    NodesInorder(r);
    DistinctInorder(t);
    DistinctInorder(r);
    assert Inorder(t) == Inorder(r) + [x] + [];
    NoDupParts(Inorder(r), x, []);
  }

  method DeleteRightmostLeaf<V>(tree: Node<V>, ghost t: Tree<V>) returns (root: Node?<V>, leaf: Node<V>, dropped: bool)
    requires t.Fork? && Shape(tree, t) && Distinct(t) && Balanced(t)
    modifies Nodes(t)
    ensures Shape(root, DeleteMax(t).0) && leaf == DeleteMax(t).1 && dropped == DeleteMax(t).2
    decreases t
  {
    dropped := false;
    Look(true, tree, t);
    if tree.right == null {
      leaf := tree;
      if tree.left != null {
        Look(false, tree.left, t.left);
        if !tree.red && !tree.left.red { dropped := true; }
        root := tree.left;
        SetRed(root, false, t.left);
      } else {
        root := null;
        dropped := !tree.red;
      }
    } else {
      OpenNodes(true, t);
      AllAllocated(t.left);
      DeleteMaxBalanced(t.right);
      DeleteMaxNodes(t.right);
      var child, deepDropped;
      child, leaf, deepDropped := DeleteRightmostLeaf(tree.right, t.right);
      assert Shape(tree.left, t.left);
      root, dropped := DeletedBelow(true, tree, child, deepDropped, t.red, DeleteMax(t.right).0, t.left);
    }
  }

  /** On which side of the root a member is found. */
  lemma MemberSide<V>(t: Tree<V>, x: Node<V>)
    requires t.Fork? && Sorted(Inorder(t)) && x in Inorder(t)
    ensures Sorted(Inorder(t.left)) && Sorted(Inorder(t.right))
    ensures if Less(x, t.node) then x in Inorder(t.left) else if Less(t.node, x) then x in Inorder(t.right) else x == t.node
  {
    SortedParts(Inorder(t.left), t.node, Inorder(t.right));
    LessTotal(x, t.node);
  }

  lemma RemoveOne<T>(s: seq<T>, i: nat)
    requires NoDup(s) && i < |s|
    ensures NoDup(s[..i] + s[i + 1..]) && Elems(s[..i] + s[i + 1..]) == Elems(s) - {s[i]}
  {
    var s' := s[..i] + s[i + 1..];
    assert forall k :: 0 <= k < |s'| ==> s'[k] == s[if k < i then k else k + 1];
    forall y | y in Elems(s) - {s[i]} ensures y in Elems(s') {
      var k :| 0 <= k < |s| && s[k] == y;
      assert s'[if k < i then k else k - 1] == y;
    }
  }

  lemma DeleteRecNodes<V>(t: Tree<V>, x: Node<V>)
    requires Sorted(Inorder(t)) && x in Inorder(t) && Distinct(t)
    ensures Nodes(DeleteRec(t, x).0) == Nodes(t) - {x} && Distinct(DeleteRec(t, x).0)
  {
    var s := Inorder(t);
    var i :| 0 <= i < |s| && s[i] == x;
    DeleteRecInorder(t, x, i);
    NodesInorder(t);
    NodesInorder(DeleteRec(t, x).0);
    DistinctInorder(t);
    DistinctInorder(DeleteRec(t, x).0);
    RemoveOne(s, i);
  }

  /** sglib's delete_recursive.  Its two assertions hold: the search never runs off the tree,
      and a record that compares equal is the one to delete. */
  method DeleteRecursive<V>(tree: Node?<V>, elem: Node<V>, ghost t: Tree<V>) returns (root: Node?<V>, dropped: bool)
    requires Shape(tree, t) && Distinct(t) && Balanced(t) && Sorted(Inorder(t)) && elem in Inorder(t)
    modifies Nodes(t)
    ensures Shape(root, DeleteRec(t, elem).0) && dropped == DeleteRec(t, elem).1
    decreases t, 1
  {
    assert tree != null;
    MemberSide(t, elem);
    Look(false, tree, t);
    var cmp := StrCmp(elem.name, tree.name);
    StrCmpZero(elem.name, tree.name);
    StrCmpAntisymmetric(elem.name, tree.name);
    if cmp < 0 || (cmp == 0 && elem.addr < tree.addr) {
      root, dropped := DeleteBelow(false, tree, elem, t);
    } else if cmp > 0 || (cmp == 0 && elem.addr > tree.addr) {
      root, dropped := DeleteBelow(true, tree, elem, t);
    } else {
      assert elem == tree;
      root, dropped := DeleteHere(tree, t);
    }
  }

  method DeleteBelow<V>(flip: bool, tree: Node<V>, elem: Node<V>, ghost t: Tree<V>) returns (root: Node?<V>, dropped: bool)
    requires t.Fork? && Shape(tree, t) && Distinct(t) && Balanced(t)
    requires Sorted(Inorder(Near(flip, t))) && elem in Inorder(Near(flip, t))
    modifies Nodes(t)
    ensures var (near, deep) := DeleteRec(Near(flip, t), elem);
      var t' := Mk(flip, t.red, near, t.node, Far(flip, t));
      var (r, d) := if deep then FixDeletion(!flip, t') else (t', false);
      Shape(root, r) && dropped == d
    decreases t, 0
  {
    ghost var near, far := DeleteRec(Near(flip, t), elem).0, Far(flip, t);
    Look(flip, tree, t);
    OpenNodes(flip, t);
    AllAllocated(far);
    DeleteRecBalanced(Near(flip, t), elem);
    DeleteRecNodes(Near(flip, t), elem);
    var child, deepDropped := DeleteRecursive(NearOf(flip, tree), elem, Near(flip, t));
    assert Shape(FarOf(flip, tree), far);
    root, dropped := DeletedBelow(flip, tree, child, deepDropped, t.red, near, far);
  }

  /** What takes the place of the root of t. */
  method DeleteHere<V>(tree: Node<V>, ghost t: Tree<V>) returns (root: Node?<V>, dropped: bool)
    requires t.Fork? && Shape(tree, t) && Distinct(t) && Balanced(t)
    modifies Nodes(t)
    ensures Shape(root, DeleteRec(t, tree).0) && dropped == DeleteRec(t, tree).1
  {
    LessTotal(tree, tree);
    Look(false, tree, t);
    dropped := false;
    if tree.left == null {
      if tree.right == null {
        root := null;
        dropped := !tree.red;
      } else {
        Look(false, tree.right, t.right);
        if !tree.red && !tree.right.red { dropped := true; }
        root := tree.right;
        SetRed(root, false, t.right);
      }
    } else {
      ghost var (l', m, _) := DeleteMax(t.left);
      OpenNodes(false, t);
      AllAllocated(t.right);
      AllAllocated(t.left);
      DeleteMaxBalanced(t.left);
      DeleteMaxNodes(t.left);
      var child, leaf, deepDropped := DeleteRightmostLeaf(tree.left, t.left);
      assert leaf == m && Shape(tree.right, t.right);
      root, dropped := Substitute(tree, child, leaf, deepDropped, t.red, l', t.right);
    }
  }

  /** The leaf taken from the left subtree takes over the links and the colour of tree. */
  method Substitute<V>(tree: Node<V>, child: Node?<V>, leaf: Node<V>, deepDropped: bool,
                       ghost red: bool, ghost l: Tree<V>, ghost r: Tree<V>) returns (root: Node<V>, dropped: bool)
    requires Shape(child, l) && Shape(tree.right, r) && tree.red == red && tree != leaf
    requires Distinct(l) && Distinct(r) && leaf !in Nodes(l) && leaf !in Nodes(r) && Nodes(l) !! Nodes(r)
    requires tree !in Nodes(l) && tree !in Nodes(r)
    requires deepDropped ==> FarIsShort(true, Fork(red, l, leaf, r))
    modifies tree, leaf, Nodes(l), Nodes(r)
    ensures var t' := Fork(red, l, leaf, r);
      var (u, d) := if deepDropped then FixDeletion(true, t') else (t', false);
      Shape(root, u) && dropped == d
  {
    leaf.right := tree.right;
    leaf.red := tree.red;
    assert Shape(child, l) && Shape(leaf.right, r);
    root, dropped := DeletedBelow(false, leaf, child, deepDropped, red, l, r);
  }

  /** sglib_delete. */
  method DeleteNode<V>(tree: Node?<V>, elem: Node<V>, ghost t: Tree<V>) returns (root: Node?<V>)
    requires Shape(tree, t) && Distinct(t) && Valid(t) && elem in Inorder(t)
    modifies Nodes(t)
    ensures Shape(root, Delete(t, elem))
    ensures Nodes(Delete(t, elem)) == Nodes(t) - {elem} && Distinct(Delete(t, elem))
  {
    ghost var u := DeleteRec(t, elem).0;
    DeleteRecNodes(t, elem);
    var dropped;
    root, dropped := DeleteRecursive(tree, elem, t);
    if root != null {
      SetRed(root, false, u);
      assert Inorder(Delete(t, elem)) == Inorder(u);
      SameInorder(u, Delete(t, elem));
    }
  }

  /** sglib_find_member: the loop goes down one path. */
  method FindMember<V>(tree: Node?<V>, name: Name, ghost t: Tree<V>) returns (member: Node?<V>)
    requires Shape(tree, t)
    ensures member == Root(Find(t, name)) && Shape(tree, t)
  {
    member := tree;
    ghost var u := t;
    while member != null
      invariant Shape(member, u) && Find(u, name) == Find(t, name)
      decreases u
    {
      var c := StrCmp(name, member.name);
      if c < 0 {
        member, u := member.left, u.left;
      } else if c > 0 {
        member, u := member.right, u.right;
      } else {
        break;
      }
    }
  }

  ghost function Root<V>(t: Tree<V>): Node?<V>
  {
    if t.Leaf? then null else t.node
  }
}
