/** SGLIB___BIN_TREE_MAP_ON_ELEMENTS: the traversal behind sglib's element count, with its own
    three 128-slot arrays. */
module RbTraverse {
  import opened Powers
  import opened RbTree
  import opened RbHeap
  import opened RbIterator

  /** What the traversal still visits once it is back at a path slot: on the first return the
      record and its right subtree, on the second the record alone. */
  ghost function Owed<V>(f: Frame<V>, order: int): seq<Node<V>>
  {
    if f.pass == 0 then At(f.node, order == 1) + (Listing(f.right, order) + At(f.node, order == 2))
    else At(f.node, order == 2)
  }

  ghost function AllOwed<V>(fs: seq<Frame<V>>, order: int): seq<Node<V>>
  {
    if fs == [] then [] else Owed(fs[|fs| - 1], order) + AllOwed(fs[..|fs| - 1], order)
  }

  /** Records not yet reached: those of the right subtrees still on the path. */
  ghost function Unreached<V>(fs: seq<Frame<V>>): nat
  {
    if fs == [] then 0
    else (if fs[|fs| - 1].pass == 0 then |Inorder(fs[|fs| - 1].right)| else 0) + Unreached(fs[..|fs| - 1])
  }

  /** What remains of a slot's due once it has been returned to. */
  ghost function Later<V>(f: Frame<V>, order: int): seq<Node<V>>
  {
    if f.pass == 0 && f.right.Fork? then Listing(f.right, order) + At(f.node, order == 2) else []
  }

  lemma OwedTop<V>(below: seq<Frame<V>>, f: Frame<V>, order: int)
    ensures AllOwed(below + [f], order) == Owed(f, order) + AllOwed(below, order)
    ensures Unreached(below + [f]) == (if f.pass == 0 then |Inorder(f.right)| else 0) + Unreached(below)
  {
    assert (below + [f])[..|below|] == below;
  }

  /** The state of the macro's local variables. */
  class Traversal<V> {
    const order: int
    ghost const tree: Tree<V>
    var path: array<Node?<V>>
    var right: array<Node?<V>>
    var pass: array<int>
    var pathi: int
    var visited: seq<Node<V>>
    ghost var frames: seq<Frame<V>>

    ghost predicate Wf()
      reads this, path, right, pass
    {
      path.Length == right.Length == pass.Length == MAX_TREE_DEEP && path != right &&
      pathi == |frames| < MAX_TREE_DEEP && 0 <= order <= 2 &&
      (forall i :: 0 <= i < |frames| ==> SlotAt(i, frames[i]))
    }

    ghost predicate SlotAt(i: int, f: Frame<V>)
      requires 0 <= i < path.Length == right.Length == pass.Length
      reads this, path, right, pass
    {
      path[i] == f.node && pass[i] == f.pass <= 1 && right[i] == (if f.pass == 0 then Root(f.right) else null) &&
      Links(f.right) <= Links(tree) && i + 1 + Height(f.right) < MAX_TREE_DEEP
    }

    constructor (order: int, ghost tree: Tree<V>)
      requires 0 <= order <= 2 && Linked(Links(tree))
      ensures Linked(Links(tree))
      ensures Wf() && frames == [] && visited == [] && this.order == order && this.tree == tree
      ensures fresh(path) && fresh(right) && fresh(pass)
    {
      this.order, this.tree := order, tree;
      path := new Node?<V>[MAX_TREE_DEEP](_ => null);
      right := new Node?<V>[MAX_TREE_DEEP](_ => null);
      pass := new int[MAX_TREE_DEEP](_ => 0);
      pathi, visited, frames := 0, [], [];
    }

    /** One turn of the loop that goes down to the leftmost node. */
    method PushOne(cn: Node<V>, ghost c: Tree<V>) returns (next: Node?<V>)
      requires Wf() && c.Fork? && cn == c.node && Links(c) <= Links(tree) && Linked(Links(tree))
      requires pathi + Height(c) < MAX_TREE_DEEP
      modifies this`pathi, this`visited, this`frames, path, right, pass
      ensures Wf() && Linked(Links(tree)) && next == Root(c.left)
      ensures frames == old(frames) + [Frame(c.left, c.node, c.right, 0)]
      ensures visited == old(visited) + At(c.node, order == 0)
    {
      ghost var fs, f := frames, Frame(c.left, c.node, c.right, 0);
      assert Link(c.node, c.left, c.right) in Links(tree);
      path[pathi] := cn;
      right[pathi] := cn.right;
      pass[pathi] := 0;
      next := cn.left;
      if order == 0 {
        visited := visited + [path[pathi]];
      }
      pathi := pathi + 1;
      frames := fs + [f];
      forall k | 0 <= k < |frames| ensures SlotAt(k, frames[k]) {
        if k < |fs| { assert frames[k] == fs[k] && old(SlotAt(k, fs[k])); }
      }
    }

    /** Visit the slot's record if its turn has come. */
    method VisitSlot(k: nat, ghost f: Frame<V>)
      requires k < path.Length == right.Length == pass.Length && SlotAt(k, f) && 0 <= order <= 2 && Linked(Links(tree))
      modifies this`visited
      ensures Linked(Links(tree)) && visited + Later(f, order) == old(visited) + Owed(f, order)
    {
      hide Links, Height;
      if (order == 1 && pass[k] == 0) || (order == 2 && (pass[k] == 1 || right[k] == null)) {
        visited := visited + [path[k]];
      }
    }

    /** One turn of the do loop. */
    method PopOne(ghost f: Frame<V>)
      requires Wf() && pathi > 0 && f == frames[pathi - 1] && Linked(Links(tree))
      modifies this`pathi, this`visited, this`frames, pass
      ensures pathi == old(pathi) - 1 && frames == old(frames)[..pathi] && Wf() && Linked(Links(tree)) && Back(f)
      ensures visited + Later(f, order) == old(visited) + Owed(f, order)
    {
      hide Listing, Owed, Later;
      ghost var fs := frames;
      pathi := pathi - 1;
      assert SlotAt(pathi, f);
      VisitSlot(pathi, f);
      pass[pathi] := pass[pathi] + 1;
      frames := fs[..pathi];
      forall k | 0 <= k < |frames| ensures SlotAt(k, frames[k]) {
        assert frames[k] == fs[k] && old(SlotAt(k, fs[k]));
      }
    }

    /** The slot of f has just been returned to. */
    ghost predicate Back(f: Frame<V>)
      requires 0 <= pathi < path.Length == right.Length == pass.Length
      reads this, path, right, pass
    {
      right[pathi] == (if f.pass == 0 then Root(f.right) else null) &&
      path[pathi] == f.node && pass[pathi] == f.pass + 1 <= 2 && Links(f.right) <= Links(tree) &&
      pathi + 1 + Height(f.right) < MAX_TREE_DEEP
    }

    /** The do loop: back up to the nearest slot with a right subtree left, or to the root's. */
    method PopUp() returns (ghost f: Frame<V>)
      requires Wf() && pathi > 0 && Linked(Links(tree))
      modifies this`pathi, this`visited, this`frames, pass
      ensures Wf() && pathi < old(pathi) && (pathi > 0 ==> right[pathi] != null) && Linked(Links(tree))
      ensures Back(f)
      ensures visited + (Later(f, order) + AllOwed(frames, order)) == old(visited + AllOwed(frames, order))
      ensures (if f.pass == 0 then |Inorder(f.right)| else 0) + Unreached(frames) <= old(Unreached(frames))
    {
      f := PopTop();
      while pathi > 0 && right[pathi] == null
        invariant Wf() && pathi < old(pathi) && Linked(Links(tree))
        invariant Back(f)
        invariant visited + (Later(f, order) + AllOwed(frames, order)) == old(visited + AllOwed(frames, order))
        invariant (if f.pass == 0 then |Inorder(f.right)| else 0) + Unreached(frames) <= old(Unreached(frames))
        decreases pathi
      {
        assert Later(f, order) == [] && [] + AllOwed(frames, order) == AllOwed(frames, order);
        f := PopTop();
      }
    }

    method PopTop() returns (ghost f: Frame<V>)
      requires Wf() && pathi > 0 && Linked(Links(tree))
      modifies this`pathi, this`visited, this`frames, pass
      ensures Wf() && pathi == old(pathi) - 1 && Linked(Links(tree))
      ensures Back(f)
      ensures visited + (Later(f, order) + AllOwed(frames, order)) == old(visited + AllOwed(frames, order))
      ensures (if f.pass == 0 then |Inorder(f.right)| else 0) + Unreached(frames) == old(Unreached(frames))
    {
      f := frames[pathi - 1];
      ghost var below, v := frames[..pathi - 1], visited;
      assert frames == below + [f];
      OwedTop(below, f, order);
      PopOne(f);
      assert frames == below;
      SameFront(visited, Later(f, order), v, Owed(f, order), AllOwed(below, order));
    }

    /** Takes the right subtree of the slot just returned to, if it has one. */
    method TakeRight(ghost f: Frame<V>) returns (next: Node?<V>)
      requires Wf() && Linked(Links(tree)) && Back(f)
      modifies this`pathi, this`frames, right
      ensures Linked(Links(tree)) && next == old(right[pathi]) && visited == old(visited)
      ensures next != null ==> Wf() && frames == old(frames) + [Frame(f.left, f.node, f.right, 1)]
    {
      ghost var fs, f' := frames, Frame(f.left, f.node, f.right, 1);
      next := right[pathi];
      right[pathi] := null;
      pathi := pathi + 1;
      frames := fs + [f'];
      forall k | 0 <= k < |frames| && next != null ensures SlotAt(k, frames[k]) {
        if k < |fs| { assert frames[k] == fs[k] && old(SlotAt(k, fs[k])); }
      }
    }

    /** The inner while loop. */
    method PushDown(cn: Node<V>, ghost c: Tree<V>)
      requires Wf() && c.Fork? && cn == c.node && Links(c) <= Links(tree) && Linked(Links(tree))
      requires pathi + Height(c) < MAX_TREE_DEEP
      modifies this`pathi, this`visited, this`frames, path, right, pass
      ensures Wf() && Linked(Links(tree)) && pathi > 0
      ensures visited + AllOwed(frames, order) == old(visited) + (Listing(c, order) + AllOwed(old(frames), order))
      ensures Unreached(frames) < |Inorder(c)| + Unreached(old(frames))
    {
      var n: Node?<V> := cn;
      ghost var u, all, most := c, visited + (Listing(c, order) + AllOwed(frames, order)), |Inorder(c)| + Unreached(frames);
      while n != null
        invariant Wf() && n == Root(u) && Links(u) <= Links(tree) && Linked(Links(tree)) && pathi + Height(u) < MAX_TREE_DEEP
        invariant visited + (Listing(u, order) + AllOwed(frames, order)) == all
        invariant if u == c then |Inorder(u)| + Unreached(frames) == most else |Inorder(u)| + Unreached(frames) < most && pathi > 0
        decreases u
      {
        ghost var f := Frame(u.left, u.node, u.right, 0);
        OwedTop(frames, f, order);
        PushListing(u, visited, AllOwed(frames, order), order);
        n := PushOne(n, u);
        u := u.left;
      }
      assert [] + AllOwed(frames, order) == AllOwed(frames, order);
    }

    /** One turn of the outer while loop. */
    method Turn(cn: Node<V>, ghost c: Tree<V>) returns (next: Node?<V>, ghost d: Tree<V>)
      requires Wf() && c.Fork? && cn == c.node && Links(c) <= Links(tree) && Linked(Links(tree))
      requires pathi + Height(c) < MAX_TREE_DEEP
      modifies this`pathi, this`visited, this`frames, path, right, pass
      ensures Linked(Links(tree)) && next == Root(d) && Links(d) <= Links(tree)
      ensures next != null ==> Wf() && pathi + Height(d) < MAX_TREE_DEEP
      ensures old(visited + (Listing(c, order) + AllOwed(frames, order)))
           == if next == null then visited else visited + (Listing(d, order) + AllOwed(frames, order))
      ensures next != null ==> |Inorder(d)| + Unreached(frames) < |Inorder(c)| + old(Unreached(frames))
    {
      PushDown(cn, c);
      next, d := PopAndTake();
    }

    method PopAndTake() returns (next: Node?<V>, ghost d: Tree<V>)
      requires Wf() && Linked(Links(tree)) && pathi > 0
      modifies this`pathi, this`visited, this`frames, right, pass
      ensures Linked(Links(tree)) && next == Root(d) && Links(d) <= Links(tree)
      ensures next != null ==> Wf() && pathi + Height(d) < MAX_TREE_DEEP
      ensures old(visited + AllOwed(frames, order))
           == if next == null then visited else visited + (Listing(d, order) + AllOwed(frames, order))
      ensures next != null ==> |Inorder(d)| + Unreached(frames) <= old(Unreached(frames))
    {
      ghost var f := PopUp();
      ghost var fs := frames;
      next := TakeRight(f);
      d := if f.pass == 0 then f.right else Leaf;
      if next != null {
        AfterRight(f, fs, order);
      } else {
        Nothing(f, fs, visited, order);
      }
    }
  }

  lemma AfterRight<V>(f: Frame<V>, fs: seq<Frame<V>>, order: int)
    requires f.pass == 0 && f.right.Fork?
    ensures var fs' := fs + [Frame(f.left, f.node, f.right, 1)];
      Later(f, order) + AllOwed(fs, order) == Listing(f.right, order) + AllOwed(fs', order) && Unreached(fs') == Unreached(fs)
  {
    OwedTop(fs, Frame(f.left, f.node, f.right, 1), order);
    var owed, last := AllOwed(fs, order), At(f.node, order == 2);
    assert (Listing(f.right, order) + last) + owed == Listing(f.right, order) + (last + owed);
  }

  lemma Nothing<V>(f: Frame<V>, fs: seq<Frame<V>>, visited: seq<Node<V>>, order: int)
    requires fs == [] && (f.pass == 0 ==> f.right.Leaf?)
    ensures visited + (Later(f, order) + AllOwed(fs, order)) == visited
  {
  }

  lemma PushListing<V>(u: Tree<V>, visited: seq<Node<V>>, owed: seq<Node<V>>, order: int)
    requires u.Fork?
    ensures var f := Frame(u.left, u.node, u.right, 0);
      visited + (Listing(u, order) + owed) == (visited + At(u.node, order == 0)) + (Listing(u.left, order) + (Owed(f, order) + owed))
  {
    var f := Frame(u.left, u.node, u.right, 0);
    var first, l := At(u.node, order == 0), Listing(u.left, order);
    assert Listing(u, order) == first + (l + Owed(f, order));
    FourParts(visited, first, l, Owed(f, order), owed);
  }

  lemma SameFront<T>(a: seq<T>, b: seq<T>, c: seq<T>, d: seq<T>, e: seq<T>)
    requires a + b == c + d
    ensures a + (b + e) == c + (d + e)
  {
    assert a + (b + e) == (a + b) + e;
    assert c + (d + e) == (c + d) + e;
  }

  lemma FourParts<T>(a: seq<T>, b: seq<T>, c: seq<T>, d: seq<T>, e: seq<T>)
    ensures a + ((b + (c + d)) + e) == (a + b) + (c + (d + e))
  {
  }

  /** Every node is visited, in the order asked for, and no array is overrun. */
  method MapOnElements<V>(tree: Node?<V>, order: int, ghost t: Tree<V>) returns (visited: seq<Node<V>>)
    requires Shape(tree, t) && Height(t) < MAX_TREE_DEEP && 0 <= order <= 2
    ensures visited == Listing(t, order)
  {
    ShapeLinked(tree, t);
    var tr := new Traversal(order, t);
    var cn := tree;
    ghost var c, all := t, Listing(t, order);
    assert all == [] + (Listing(c, order) + []);
    while cn != null
      invariant tr.order == order && tr.tree == t && fresh(tr) && fresh(tr.path) && fresh(tr.right) && fresh(tr.pass)
      invariant Linked(Links(t)) && cn == Root(c) && Links(c) <= Links(t)
      invariant cn != null ==> tr.Wf() && tr.pathi + Height(c) < MAX_TREE_DEEP
      invariant all == if cn == null then tr.visited else tr.visited + (Listing(c, order) + AllOwed(tr.frames, order))
      decreases if cn == null then 0 else 1 + |Inorder(c)| + Unreached(tr.frames)
    {
      cn, c := tr.Turn(cn, c);
    }
    visited := tr.visited;
  }

  /** sglib's len: the in-order traversal that counts. */
  method Len<V>(tree: Node?<V>, ghost t: Tree<V>) returns (n: nat)
    requires Shape(tree, t) && Valid(t) && |Inorder(t)| < SIZE_LIMIT
    ensures n == |Inorder(t)|
  {
    HeightFitsPath(t);
    ListingInorder(t);
    var visited := MapOnElements(tree, 1, t);
    n := |visited|;
  }
}
