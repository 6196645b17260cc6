/** The red-black trees of include/fskit/sglib.h, as values: what the recursive insert and
    delete and their two discrepancy fixers compute, and why the result is again a valid tree.
    The macros take the names of the near and far child fields; here `flip` swaps them. */
module RbTree {
  import opened Powers
  import opened Names

  /** One tree record.  `addr` stands for the record's address, which breaks ties of name. */
  class Node<V> {
    const name: Name
    const addr: nat
    const value: V
    var left: Node?<V>
    var right: Node?<V>
    var red: bool

    constructor (name: Name, addr: nat, value: V)
      ensures this.name == name && this.addr == addr && this.value == value
      ensures left == null && right == null && !red
    {
      this.name, this.addr, this.value := name, addr, value;
      left, right, red := null, null, false;
    }
  }

  datatype Tree<V> = Leaf | Fork(red: bool, left: Tree<V>, node: Node<V>, right: Tree<V>)

  /** What the insertion and deletion routines compare: the name, then the address. */
  predicate Less<V>(x: Node<V>, y: Node<V>)
  {
    NameLess(x.name, y.name) || (x.name == y.name && x.addr < y.addr)
  }

  lemma LessTransitive<V>(x: Node<V>, y: Node<V>, z: Node<V>)
    requires Less(x, y) && Less(y, z)
    ensures Less(x, z)
  {
    if NameLess(x.name, y.name) && NameLess(y.name, z.name) {
      NameLessTransitive(x.name, y.name, z.name);
    }
  }

  lemma LessTotal<V>(x: Node<V>, y: Node<V>)
    ensures !(Less(x, y) && Less(y, x))
    ensures x.addr != y.addr ==> Less(x, y) || Less(y, x)
  {
    StrCmpZero(x.name, y.name);
    StrCmpZero(y.name, x.name);
    StrCmpAntisymmetric(x.name, y.name);
  }

  // ---------- shape ----------

  function Inorder<V>(t: Tree<V>): seq<Node<V>>
  {
    match t
    case Leaf => []
    case Fork(_, l, x, r) => Inorder(l) + [x] + Inorder(r)
  }

  predicate IsRed<V>(t: Tree<V>)
  {
    t.Fork? && t.red
  }

  /** Black nodes on the leftmost path. */
  function Bh<V>(t: Tree<V>): nat
  {
    match t
    case Leaf => 0
    case Fork(red, l, _, _) => Bh(l) + if red then 0 else 1
  }

  /** No red node has a red child, and every path from a node down to a missing child has the
      same number of black nodes. */
  predicate Balanced<V>(t: Tree<V>)
  {
    match t
    case Leaf => true
    case Fork(red, l, _, r) =>
      Balanced(l) && Balanced(r) && Bh(l) == Bh(r) && (red ==> !IsRed(l) && !IsRed(r))
  }

  predicate Sorted<V>(s: seq<Node<V>>)
  {
    forall i, j :: 0 <= i < j < |s| ==> Less(s[i], s[j])
  }

  /** What sglib's consistency check asks of a tree, with the strict (name, address) order. */
  predicate Valid<V>(t: Tree<V>)
  {
    Balanced(t) && !IsRed(t) && Sorted(Inorder(t))
  }

  function Near<V>(flip: bool, t: Tree<V>): Tree<V>
    requires t.Fork?
  {
    if flip then t.right else t.left
  }

  function Far<V>(flip: bool, t: Tree<V>): Tree<V>
    requires t.Fork?
  {
    if flip then t.left else t.right
  }

  function Mk<V>(flip: bool, red: bool, near: Tree<V>, x: Node<V>, far: Tree<V>): (t: Tree<V>)
    ensures t.Fork? && t.red == red && t.node == x && Near(flip, t) == near && Far(flip, t) == far
  {
    if flip then Fork(red, far, x, near) else Fork(red, near, x, far)
  }

  lemma MkBalanced<V>(flip: bool, red: bool, near: Tree<V>, x: Node<V>, far: Tree<V>)
    requires Balanced(near) && Balanced(far) && Bh(near) == Bh(far) && (red ==> !IsRed(near) && !IsRed(far))
    ensures Balanced(Mk(flip, red, near, x, far)) && Bh(Mk(flip, red, near, x, far)) == Bh(near) + if red then 0 else 1
  {
  }

  lemma MkInorder<V>(flip: bool, red: bool, near: Tree<V>, x: Node<V>, far: Tree<V>)
    ensures Inorder(Mk(flip, red, near, x, far))
         == if flip then Inorder(far) + [x] + Inorder(near) else Inorder(near) + [x] + Inorder(far)
  {
  }

  /** The tree with its root recoloured. */
  function Paint<V>(t: Tree<V>, red: bool): Tree<V>
  {
    match t
    case Leaf => Leaf
    case Fork(_, l, x, r) => Fork(red, l, x, r)
  }

  // ---------- insertion ----------

  /** SGLIB___RBTREE_FIX_INSERTION_DISCREPANCY at the black node t, after its near child grew. */
  function FixInsertion<V>(flip: bool, t: Tree<V>): Tree<V>
    requires t.Fork? && Near(flip, t).Fork?
  {
    var b, far := Near(flip, t), Far(flip, t);
    if !b.red then t
    else if IsRed(far) then
      if IsRed(Near(flip, b)) || IsRed(Far(flip, b)) then
        Mk(flip, true, Paint(b, false), t.node, Paint(far, false))
      else t
    else if IsRed(Near(flip, b)) then
      Mk(flip, false, Near(flip, b), b.node, Mk(flip, true, Far(flip, b), t.node, far))
    else if IsRed(Far(flip, b)) then
      var c := Far(flip, b);
      Mk(flip, false, Mk(flip, b.red, Near(flip, b), b.node, Near(flip, c)), c.node,
         Mk(flip, true, Far(flip, c), t.node, far))
    else t
  }

  function AddRec<V>(t: Tree<V>, x: Node<V>): (r: Tree<V>)
    ensures r.Fork?
  {
    match t
    case Leaf => Fork(true, Leaf, x, Leaf)
    case Fork(red, l, y, r) =>
      if Less(x, y) then
        var t' := Fork(red, AddRec(l, x), y, r);
        if red then t' else FixInsertion(false, t')
      else
        var t' := Fork(red, l, y, AddRec(r, x));
        if red then t' else FixInsertion(true, t')
  }

  function Add<V>(t: Tree<V>, x: Node<V>): Tree<V>
  {
    Paint(AddRec(t, x), false)
  }

  /** Balanced, except that a red root may have one red child. */
  predicate AlmostBalanced<V>(t: Tree<V>)
  {
    t.Fork? ==> Balanced(t.left) && Balanced(t.right) && Bh(t.left) == Bh(t.right) && !(t.red && IsRed(t.left) && IsRed(t.right))
  }

  lemma FixInsertionBalanced<V>(flip: bool, t: Tree<V>)
    requires t.Fork? && !t.red && Near(flip, t).Fork?
    requires AlmostBalanced(Near(flip, t)) && Balanced(Far(flip, t)) && Bh(t.left) == Bh(t.right)
    ensures Balanced(FixInsertion(flip, t)) && Bh(FixInsertion(flip, t)) == Bh(t)
  {
  }

  lemma {:induction false} AddRecBalanced<V>(t: Tree<V>, x: Node<V>)
    requires Balanced(t)
    ensures AlmostBalanced(AddRec(t, x)) && Bh(AddRec(t, x)) == Bh(t)
    ensures !IsRed(t) ==> Balanced(AddRec(t, x))
  {
    match t
    case Leaf =>
    case Fork(red, l, y, r) =>
      if Less(x, y) {
        AddRecBalanced(l, x);
        if !red { FixInsertionBalanced(false, Fork(red, AddRec(l, x), y, r)); }
      } else {
        AddRecBalanced(r, x);
        if !red { FixInsertionBalanced(true, Fork(red, l, y, AddRec(r, x))); }
      }
  }

  // ---------- deletion ----------

  /** SGLIB___RBTREE_FIX_DELETION_DISCREPANCY at t, after the black height of its far child
      dropped by one; the flag says whether that of t drops too. */
  function FixDeletion<V>(flip: bool, t: Tree<V>): (Tree<V>, bool)
    requires t.Fork?
  {
    var b, far := Near(flip, t), Far(flip, t);
    if b.Leaf? then (Paint(t, false), false)
    else
      var bl, br := Near(flip, b), Far(flip, b);
      if b.red then
        if br.Leaf? then
          (Mk(flip, false, bl, b.node, Mk(flip, t.red, br, t.node, far)), false)
        else
          var cl, cr := Near(flip, br), Far(flip, br);
          if !IsRed(cl) && !IsRed(cr) then
            (Mk(flip, false, bl, b.node, Mk(flip, t.red, Paint(br, true), t.node, far)), false)
          else if IsRed(cr) then
            (Mk(flip, false,
                Mk(flip, b.red, bl, b.node, Mk(flip, br.red, cl, br.node, Near(flip, cr))), cr.node,
                Mk(flip, t.red, Far(flip, cr), t.node, far)), false)
          else
            (Mk(flip, br.red, Mk(flip, b.red, bl, b.node, Paint(cl, false)), br.node,
                Mk(flip, t.red, cr, t.node, far)), false)
      else if !IsRed(bl) && !IsRed(br) then
        (Mk(flip, false, Paint(b, true), t.node, far), !t.red)
      else if !IsRed(br) then
        (Mk(flip, t.red, Paint(bl, false), b.node, Mk(flip, false, br, t.node, far)), false)
      else
        (Mk(flip, t.red, Mk(flip, b.red, bl, b.node, Near(flip, br)), br.node,
            Mk(flip, false, Far(flip, br), t.node, far)), false)
  }

  /** Takes out the rightmost node: the tree left, that node, and whether black height dropped. */
  function DeleteMax<V>(t: Tree<V>): (Tree<V>, Node<V>, bool)
    requires t.Fork?
  {
    if t.right.Leaf? then
      if t.left.Fork? then (Paint(t.left, false), t.node, !t.red && !t.left.red)
      else (Leaf, t.node, !t.red)
    else
      var (r, x, dropped) := DeleteMax(t.right);
      var t' := Fork(t.red, t.left, t.node, r);
      if dropped then
        var (t'', d) := FixDeletion(false, t');
        (t'', x, d)
      else (t', x, false)
  }

  function DeleteRec<V>(t: Tree<V>, x: Node<V>): (Tree<V>, bool)
  {
    match t
    case Leaf => (Leaf, false)
    case Fork(red, l, y, r) =>
      if Less(x, y) then
        var (l', dropped) := DeleteRec(l, x);
        var t' := Fork(red, l', y, r);
        if dropped then FixDeletion(true, t') else (t', false)
      else if Less(y, x) then
        var (r', dropped) := DeleteRec(r, x);
        var t' := Fork(red, l, y, r');
        if dropped then FixDeletion(false, t') else (t', false)
      else if l.Leaf? then
        if r.Leaf? then (Leaf, !red) else (Paint(r, false), !red && !r.red)
      else
        var (l', m, dropped) := DeleteMax(l);
        var t' := Fork(red, l', m, r);
        if dropped then FixDeletion(true, t') else (t', false)
  }

  function Delete<V>(t: Tree<V>, x: Node<V>): Tree<V>
  {
    Paint(DeleteRec(t, x).0, false)
  }

  /** What holds when the deletion fixer is called.  Then none of its assertions can fail: in
      particular the near child exists, and if it is red its far child exists and is black. */
  predicate FarIsShort<V>(flip: bool, t: Tree<V>)
  {
    t.Fork? && Balanced(Near(flip, t)) && Balanced(Far(flip, t)) &&
    Bh(Near(flip, t)) == Bh(Far(flip, t)) + 1 && (t.red ==> !IsRed(Near(flip, t)))
  }

  /** The promise of the deletion fixer: the tree is balanced again, its black height is what
      the flag says, and no red root appears where there was none. */
  predicate Mended<V>(flip: bool, t: Tree<V>, r: Tree<V>, dropped: bool)
    requires t.Fork?
  {
    Balanced(r) && Bh(r) + (if dropped then 1 else 0) == Bh(Near(flip, t)) + (if t.red then 0 else 1) &&
    (IsRed(r) ==> t.red) && (dropped ==> !IsRed(r))
  }

  lemma FixDeletionBalanced<V>(flip: bool, t: Tree<V>)
    requires FarIsShort(flip, t)
    ensures Mended(flip, t, FixDeletion(flip, t).0, FixDeletion(flip, t).1)
  {
    var b, a, far := Near(flip, t), t.node, Far(flip, t);
    assert Bh(b) > 0;
    if b.red {
      FixDeletionBalancedRed(flip, t);
    } else {
      var bl, br := Near(flip, b), Far(flip, b);
      assert Balanced(bl) && Balanced(br) && Bh(bl) == Bh(br);
      if !IsRed(bl) && !IsRed(br) {
        MkBalanced(flip, false, Paint(b, true), a, far);
      } else if !IsRed(br) {
        MkBalanced(flip, false, br, a, far);
        MkBalanced(flip, t.red, Paint(bl, false), b.node, Mk(flip, false, br, a, far));
      } else {
        var cl, cr := Near(flip, br), Far(flip, br);
        assert Balanced(cl) && Balanced(cr) && Bh(cl) == Bh(cr);
        MkBalanced(flip, false, cr, a, far);
        MkBalanced(flip, false, bl, b.node, cl);
        MkBalanced(flip, t.red, Mk(flip, false, bl, b.node, cl), br.node, Mk(flip, false, cr, a, far));
      }
    }
  }

  lemma FixDeletionBalancedRed<V>(flip: bool, t: Tree<V>)
    requires FarIsShort(flip, t) && IsRed(Near(flip, t))
    ensures Far(flip, Near(flip, t)).Fork? && !IsRed(Far(flip, Near(flip, t))) && !t.red
    ensures Mended(flip, t, FixDeletion(flip, t).0, FixDeletion(flip, t).1)
  {
    var b, a, far := Near(flip, t), t.node, Far(flip, t);
    var bl, c := Near(flip, b), Far(flip, b);
    assert Balanced(bl) && Balanced(c) && Bh(bl) == Bh(c) && !IsRed(bl) && !IsRed(c);
    assert Bh(c) > 0;
    var cl, cr := Near(flip, c), Far(flip, c);
    assert Balanced(cl) && Balanced(cr) && Bh(cl) == Bh(cr);
    if !IsRed(cl) && !IsRed(cr) {
      MkBalanced(flip, false, Paint(c, true), a, far);
      MkBalanced(flip, false, bl, b.node, Mk(flip, false, Paint(c, true), a, far));
    } else if IsRed(cr) {
      var dl, dr := Near(flip, cr), Far(flip, cr);
      assert Balanced(dl) && Balanced(dr) && Bh(dl) == Bh(dr);
      MkBalanced(flip, false, dr, a, far);
      MkBalanced(flip, false, cl, c.node, dl);
      MkBalanced(flip, true, bl, b.node, Mk(flip, false, cl, c.node, dl));
      MkBalanced(flip, false, Mk(flip, true, bl, b.node, Mk(flip, false, cl, c.node, dl)), cr.node, Mk(flip, false, dr, a, far));
    } else {
      MkBalanced(flip, false, cr, a, far);
      MkBalanced(flip, true, bl, b.node, Paint(cl, false));
      MkBalanced(flip, false, Mk(flip, true, bl, b.node, Paint(cl, false)), c.node, Mk(flip, false, cr, a, far));
    }
  }

  lemma {:induction false} DeleteMaxBalanced<V>(t: Tree<V>)
    requires t.Fork? && Balanced(t)
    ensures var (r, _, dropped) := DeleteMax(t);
      Balanced(r) && Bh(r) + (if dropped then 1 else 0) == Bh(t) && (IsRed(r) ==> t.red) && (dropped ==> !IsRed(r))
  {
    if t.right.Leaf? {
      assert t.left.Fork? ==> t.left.red;
    } else {
      DeleteMaxBalanced(t.right);
      var (r, x, dropped) := DeleteMax(t.right);
      if dropped { FixDeletionBalanced(false, Fork(t.red, t.left, t.node, r)); }
    }
  }

  /** Deletion keeps a tree balanced, and its flag says exactly whether black height dropped. */
  lemma {:induction false} DeleteRecBalanced<V>(t: Tree<V>, x: Node<V>)
    requires Balanced(t)
    ensures var (r, dropped) := DeleteRec(t, x);
      Balanced(r) && Bh(r) + (if dropped then 1 else 0) == Bh(t) &&
      (IsRed(r) ==> IsRed(t)) && (dropped ==> !IsRed(r))
  {
    match t
    case Leaf =>
    case Fork(red, l, y, r) =>
      if Less(x, y) {
        DeleteRecBalanced(l, x);
        var (l', dropped) := DeleteRec(l, x);
        if dropped { FixDeletionBalanced(true, Fork(red, l', y, r)); }
      } else if Less(y, x) {
        DeleteRecBalanced(r, x);
        var (r', dropped) := DeleteRec(r, x);
        if dropped { FixDeletionBalanced(false, Fork(red, l, y, r')); }
      } else if l.Leaf? {
        assert r.Fork? ==> r.red;
      } else {
        DeleteMaxBalanced(l);
        var (l', m, dropped) := DeleteMax(l);
        if dropped { FixDeletionBalanced(true, Fork(red, l', m, r)); }
      }
  }

  // ---------- order ----------

  /** Turning the near child upwards keeps the order, whatever the colours. */
  lemma Rotation<V>(flip: bool, p: bool, q: bool, p': bool, q': bool,
                    bl: Tree<V>, b: Node<V>, br: Tree<V>, a: Node<V>, far: Tree<V>)
    ensures Inorder(Mk(flip, p, Mk(flip, q, bl, b, br), a, far)) == Inorder(Mk(flip, p', bl, b, Mk(flip, q', br, a, far)))
  {
    var BL, BR, F := Inorder(bl), Inorder(br), Inorder(far);
    if flip {
      assert F + [a] + (BR + [b] + BL) == (F + [a] + BR) + [b] + BL;
    } else {
      assert (BL + [b] + BR) + [a] + F == BL + [b] + (BR + [a] + F);
    }
  }

  lemma DoubleRotation<V>(flip: bool, p: bool, q: bool, o: bool, p': bool, q': bool, o': bool,
                          bl: Tree<V>, b: Node<V>, cl: Tree<V>, c: Node<V>, cr: Tree<V>, a: Node<V>, far: Tree<V>)
    ensures Inorder(Mk(flip, p, Mk(flip, q, bl, b, Mk(flip, o, cl, c, cr)), a, far))
         == Inorder(Mk(flip, p', Mk(flip, q', bl, b, cl), c, Mk(flip, o', cr, a, far)))
  {
    Rotation(flip, q, o, o, q, bl, b, cl, c, cr);
    Rotation(flip, p, o, p', o', Mk(flip, q', bl, b, cl), c, cr, a, far);
    assert Inorder(Mk(flip, q, bl, b, Mk(flip, o, cl, c, cr))) == Inorder(Mk(flip, o, Mk(flip, q', bl, b, cl), c, cr));
  }

  lemma Unfold<V>(flip: bool, t: Tree<V>)
    requires t.Fork?
    ensures t == Mk(flip, t.red, Near(flip, t), t.node, Far(flip, t))
  {
  }

  lemma FixInsertionInorder<V>(flip: bool, t: Tree<V>)
    requires t.Fork? && Near(flip, t).Fork?
    ensures Inorder(FixInsertion(flip, t)) == Inorder(t)
  {
    var b, far := Near(flip, t), Far(flip, t);
    Unfold(flip, t);
    Unfold(flip, b);
    Rotation(flip, t.red, b.red, false, true, Near(flip, b), b.node, Far(flip, b), t.node, far);
    if Far(flip, b).Fork? {
      var c := Far(flip, b);
      Unfold(flip, c);
      DoubleRotation(flip, t.red, b.red, c.red, false, b.red, true,
                     Near(flip, b), b.node, Near(flip, c), c.node, Far(flip, c), t.node, far);
    }
  }

  lemma FixDeletionInorder<V>(flip: bool, t: Tree<V>)
    requires t.Fork?
    ensures Inorder(FixDeletion(flip, t).0) == Inorder(t)
  {
    var b, far := Near(flip, t), Far(flip, t);
    Unfold(flip, t);
    if b.Fork? {
      var bl, br := Near(flip, b), Far(flip, b);
      Unfold(flip, b);
      if b.red {
        FixDeletionInorderRed(flip, t);
      } else if !IsRed(br) {
        Rotation(flip, t.red, b.red, t.red, false, bl, b.node, br, t.node, far);
        Rotation(flip, t.red, b.red, t.red, false, Paint(bl, false), b.node, br, t.node, far);
      } else {
        Unfold(flip, br);
        DoubleRotation(flip, t.red, b.red, br.red, t.red, b.red, false,
                       bl, b.node, Near(flip, br), br.node, Far(flip, br), t.node, far);
      }
    }
  }

  lemma FixDeletionInorderRed<V>(flip: bool, t: Tree<V>)
    requires t.Fork? && Near(flip, t).Fork? && Near(flip, t).red
    ensures Inorder(FixDeletion(flip, t).0) == Inorder(t)
  {
    var b, a, far := Near(flip, t), t.node, Far(flip, t);
    var bl, c := Near(flip, b), Far(flip, b);
    Unfold(flip, t);
    Unfold(flip, b);
    if c.Leaf? {
      Rotation(flip, t.red, b.red, false, t.red, bl, b.node, c, a, far);
    } else {
      Unfold(flip, c);
      var cl, cr := Near(flip, c), Far(flip, c);
      if !IsRed(cl) && !IsRed(cr) {
        Rotation(flip, t.red, b.red, false, t.red, bl, b.node, Paint(c, true), a, far);
        assert Inorder(Paint(c, true)) == Inorder(c);
        assert Inorder(Mk(flip, b.red, bl, b.node, Paint(c, true))) == Inorder(b);
      } else if IsRed(cr) {
        Unfold(flip, cr);
        var dl, dr := Near(flip, cr), Far(flip, cr);
        Rotation(flip, c.red, cr.red, cr.red, c.red, cl, c.node, dl, cr.node, dr);
        DoubleRotation(flip, t.red, b.red, cr.red, false, b.red, t.red, bl, b.node, Mk(flip, c.red, cl, c.node, dl), cr.node, dr, a, far);
        assert Inorder(c) == Inorder(Mk(flip, cr.red, Mk(flip, c.red, cl, c.node, dl), cr.node, dr));
      } else {
        DoubleRotation(flip, t.red, b.red, c.red, c.red, b.red, t.red, bl, b.node, cl, c.node, cr, a, far);
        assert Inorder(Mk(flip, b.red, bl, b.node, Paint(cl, false))) == Inorder(Mk(flip, b.red, bl, b.node, cl));
      }
    }
  }

  lemma SortedParts<V>(a: seq<Node<V>>, y: Node<V>, b: seq<Node<V>>)
    requires Sorted(a + [y] + b)
    ensures Sorted(a) && Sorted(b)
    ensures forall k :: 0 <= k < |a| ==> Less(a[k], y)
    ensures forall k :: 0 <= k < |b| ==> Less(y, b[k])
  {
    var s := a + [y] + b;
    forall i, j | 0 <= i < j < |a| ensures Less(a[i], a[j]) { assert s[i] == a[i] && s[j] == a[j]; }
    forall i, j | 0 <= i < j < |b| ensures Less(b[i], b[j]) {
      assert s[|a| + 1 + i] == b[i] && s[|a| + 1 + j] == b[j];
    }
    forall k | 0 <= k < |a| ensures Less(a[k], y) { assert s[k] == a[k] && s[|a|] == y; }
    forall k | 0 <= k < |b| ensures Less(y, b[k]) { assert s[|a| + 1 + k] == b[k] && s[|a|] == y; }
  }

  /** i is where x belongs in s: all before it are less, all from it on are greater. */
  predicate PlaceOf<V>(s: seq<Node<V>>, x: Node<V>, i: nat)
  {
    i <= |s| && (forall k :: 0 <= k < i ==> Less(s[k], x)) && (forall k :: i <= k < |s| ==> Less(x, s[k]))
  }

  lemma {:induction false} FindPlace<V>(s: seq<Node<V>>, x: Node<V>) returns (i: nat)
    requires Sorted(s) && forall y :: y in s ==> y.addr != x.addr
    ensures PlaceOf(s, x, i)
  {
    if s == [] {
      i := 0;
    } else {
      i := FindPlace(s[1..], x);
      LessTotal(x, s[0]);
      if Less(s[0], x) {
        i := i + 1;
      } else {
        forall k | 0 <= k < |s| ensures Less(x, s[k]) {
          if k > 0 { LessTransitive(x, s[0], s[k]); }
        }
        i := 0;
      }
    }
  }

  lemma SpliceIn<T>(L: seq<T>, y: T, R: seq<T>, x: T, i: nat)
    requires i <= |L + [y] + R|
    ensures var s := L + [y] + R;
      s[..i] + [x] + s[i..] == if i <= |L| then (L[..i] + [x] + L[i..]) + [y] + R
                               else var j := i - |L| - 1; L + [y] + (R[..j] + [x] + R[j..])
  {
    var s := L + [y] + R;
    if i <= |L| {
      assert s[..i] == L[..i] && s[i..] == L[i..] + [y] + R;
    } else {
      var j := i - |L| - 1;
      assert s[..i] == L + [y] + R[..j] && s[i..] == R[j..];
    }
  }

  lemma SpliceOut<T>(L: seq<T>, y: T, R: seq<T>, i: nat)
    requires i < |L + [y] + R|
    ensures var s := L + [y] + R;
      s[..i] + s[i + 1..] == if i < |L| then (L[..i] + L[i + 1..]) + [y] + R
                             else if i == |L| then L + R
                             else var j := i - |L| - 1; L + [y] + (R[..j] + R[j + 1..])
  {
    var s := L + [y] + R;
    if i < |L| {
      assert s[..i] == L[..i] && s[i + 1..] == L[i + 1..] + [y] + R;
    } else if i == |L| {
      assert s[..i] == L && s[i + 1..] == R;
    } else {
      var j := i - |L| - 1;
      assert s[..i] == L + [y] + R[..j] && s[i + 1..] == R[j + 1..];
    }
  }

  /** Where an index of L + [y] + R lies, from how its element compares with y. */
  lemma PlaceInParts<V>(L: seq<Node<V>>, y: Node<V>, R: seq<Node<V>>, x: Node<V>, i: nat)
    requires Sorted(L + [y] + R) && PlaceOf(L + [y] + R, x, i)
    ensures if Less(x, y) then i <= |L| && PlaceOf(L, x, i) else i > |L| && PlaceOf(R, x, i - |L| - 1)
  {
    var s := L + [y] + R;
    assert s[|L|] == y;
    LessTotal(x, y);
    assert forall k :: 0 <= k < |L| ==> s[k] == L[k];
    assert forall k :: 0 <= k < |R| ==> s[|L| + 1 + k] == R[k];
  }

  lemma {:induction false} AddRecInorder<V>(t: Tree<V>, x: Node<V>, i: nat)
    requires Sorted(Inorder(t)) && PlaceOf(Inorder(t), x, i)
    ensures Inorder(AddRec(t, x)) == Inorder(t)[..i] + [x] + Inorder(t)[i..]
  {
    match t
    case Leaf =>
    case Fork(red, l, y, r) =>
      SortedParts(Inorder(l), y, Inorder(r));
      PlaceInParts(Inorder(l), y, Inorder(r), x, i);
      SpliceIn(Inorder(l), y, Inorder(r), x, i);
      if Less(x, y) {
        AddRecInorder(l, x, i);
        FixInsertionInorder(false, Fork(red, AddRec(l, x), y, r));
      } else {
        AddRecInorder(r, x, i - |Inorder(l)| - 1);
        FixInsertionInorder(true, Fork(red, l, y, AddRec(r, x)));
      }
  }

  /** Insertion of any new node into any valid tree gives a valid tree that lists the old nodes
      and the new one, at its place. */
  lemma AddCorrect<V>(t: Tree<V>, x: Node<V>)
    requires Valid(t) && forall y :: y in Inorder(t) ==> y.addr != x.addr
    ensures Valid(Add(t, x))
    ensures exists i: nat :: PlaceOf(Inorder(t), x, i) && Inorder(Add(t, x)) == Inorder(t)[..i] + [x] + Inorder(t)[i..]
  {
    var s := Inorder(t);
    var i := FindPlace(s, x);
    AddRecBalanced(t, x);
    AddRecInorder(t, x, i);
    InsertedSorted(s, x, i);
  }

  lemma InsertedSorted<V>(s: seq<Node<V>>, x: Node<V>, i: nat)
    requires PlaceOf(s, x, i) && Sorted(s)
    ensures Sorted(s[..i] + [x] + s[i..])
  {
    hide Less;
    var s' := s[..i] + [x] + s[i..];
    forall p, q | 0 <= p < q < |s'| ensures Less(s'[p], s'[q]) {
      assert s'[p] == (if p < i then s[p] else if p == i then x else s[p - 1]);
      assert s'[q] == (if q < i then s[q] else if q == i then x else s[q - 1]);
    }
  }

  lemma {:induction false} DeleteMaxInorder<V>(t: Tree<V>)
    requires t.Fork?
    ensures Inorder(DeleteMax(t).0) + [DeleteMax(t).1] == Inorder(t)
  {
    if t.right.Fork? {
      DeleteMaxInorder(t.right);
      var (r, x, dropped) := DeleteMax(t.right);
      var t' := Fork(t.red, t.left, t.node, r);
      FixDeletionInorder(false, t');
      assert Inorder(DeleteMax(t).0) == Inorder(t');
      assert Inorder(t') + [x] == Inorder(t.left) + [t.node] + (Inorder(r) + [x]);
    }
  }

  lemma {:induction false} DeleteRecInorder<V>(t: Tree<V>, x: Node<V>, i: nat)
    requires Sorted(Inorder(t)) && i < |Inorder(t)| && Inorder(t)[i] == x
    ensures Inorder(DeleteRec(t, x).0) == Inorder(t)[..i] + Inorder(t)[i + 1..]
  {
    var y, l, r := t.node, t.left, t.right;
    var L, R := Inorder(l), Inorder(r);
    SortedParts(L, y, R);
    SpliceOut(L, y, R, i);
    LessTotal(x, y);
    if Less(x, y) {
      assert i < |L|;
      DeleteRecInorder(l, x, i);
      FixDeletionInorder(true, Fork(t.red, DeleteRec(l, x).0, y, r));
    } else if Less(y, x) {
      assert i > |L|;
      DeleteRecInorder(r, x, i - |L| - 1);
      FixDeletionInorder(false, Fork(t.red, l, y, DeleteRec(r, x).0));
    } else {
      assert i == |L|;
      if l.Fork? {
        DeleteMaxInorder(l);
        var (l', m, _) := DeleteMax(l);
        FixDeletionInorder(true, Fork(t.red, l', m, r));
      }
    }
  }

  lemma SortedWithout<V>(s: seq<Node<V>>, i: nat)
    requires Sorted(s) && i < |s|
    ensures Sorted(s[..i] + s[i + 1..])
  {
    var s' := s[..i] + s[i + 1..];
    forall p, q | 0 <= p < q < |s'| ensures Less(s'[p], s'[q]) {
      assert s'[p] == s[if p < i then p else p + 1] && s'[q] == s[if q < i then q else q + 1];
    }
  }

  /** Deletion of any member of any valid tree gives a valid tree that lists exactly the others,
      in the same order. */
  lemma DeleteCorrect<V>(t: Tree<V>, x: Node<V>, i: nat)
    requires Valid(t) && i < |Inorder(t)| && Inorder(t)[i] == x
    ensures Valid(Delete(t, x)) && Inorder(Delete(t, x)) == Inorder(t)[..i] + Inorder(t)[i + 1..]
  {
    DeleteRecBalanced(t, x);
    DeleteRecInorder(t, x, i);
    SortedWithout(Inorder(t), i);
  }

  /** What SGLIB___BIN_TREE_FIND_MEMBER returns for a name: the subtree at the first match. */
  function Find<V>(t: Tree<V>, name: Name): Tree<V>
  {
    match t
    case Leaf => Leaf
    case Fork(_, l, x, r) =>
      if StrCmp(name, x.name) < 0 then Find(l, name)
      else if StrCmp(name, x.name) > 0 then Find(r, name)
      else t
  }

  /** Search finds a node of that name exactly when the tree holds one. */
  lemma {:induction false} FindCorrect<V>(t: Tree<V>, name: Name)
    requires Sorted(Inorder(t))
    ensures Find(t, name).Leaf? <==> forall x :: x in Inorder(t) ==> x.name != name
    ensures Find(t, name).Fork? ==> Find(t, name).node in Inorder(t) && Find(t, name).node.name == name
  {
    match t
    case Leaf =>
    case Fork(_, l, y, r) =>
      var L, R := Inorder(l), Inorder(r);
      SortedParts(L, y, R);
      StrCmpZero(name, y.name);
      StrCmpAntisymmetric(name, y.name);
      if NameLess(name, y.name) {
        FindCorrect(l, name);
        forall x | x in R ensures x.name != name {
          assert Less(y, x);
          LessTotal(x, y);
        }
      } else if NameLess(y.name, name) {
        FindCorrect(r, name);
        forall x | x in L ensures x.name != name {
          assert Less(x, y);
          LessTotal(x, y);
        }
      }
  }

  // ---------- height ----------

  function Height<V>(t: Tree<V>): nat
  {
    match t
    case Leaf => 0
    case Fork(_, l, _, r) => 1 + if Height(l) < Height(r) then Height(r) else Height(l)
  }

  lemma {:induction false} HeightAndSize<V>(t: Tree<V>)
    requires Balanced(t)
    ensures Height(t) <= 2 * Bh(t) + if IsRed(t) then 1 else 0
    ensures |Inorder(t)| + 1 >= Pow2(Bh(t))
  {
    if t.Fork? {
      HeightAndSize(t.left);
      HeightAndSize(t.right);
    }
  }

  /** A valid tree with fewer than 2^64 - 1 nodes is at most 126 deep, so no 128-slot path array
      is overrun by a walk down it. */
  lemma HeightFitsPath<V>(t: Tree<V>)
    requires Valid(t) && |Inorder(t)| < SIZE_LIMIT
    ensures Height(t) <= 126
  {
    HeightAndSize(t);
    if Bh(t) >= 64 { Pow2Large(Bh(t)); }
  }
}
