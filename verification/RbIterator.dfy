/** The resumable iterator of include/fskit/sglib.h, which replaces recursion by fixed 128-slot arrays. */
module RbIterator {
  import opened RbTree
  import opened RbHeap
  import opened Powers

  const MAX_TREE_DEEP := 128

  /** Pre-, in- and post-order listing, for order 0, 1 and 2. */
  ghost function Listing<V>(t: Tree<V>, order: int): seq<Node<V>>
  {
    match t
    case Leaf => []
    case Fork(_, l, x, r) =>
      At(x, order == 0) + (Listing(l, order) + (At(x, order == 1) + (Listing(r, order) + At(x, order == 2))))
  }

  ghost function At<T>(x: T, here: bool): seq<T>
  {
    if here then [x] else []
  }

  lemma {:induction false} ListingInorder<V>(t: Tree<V>)
    ensures Listing(t, 1) == Inorder(t)
  {
    if t.Fork? {
      ListingInorder(t.left);
      ListingInorder(t.right);
      var L, R := Inorder(t.left), Inorder(t.right);
      assert [] + (L + ([t.node] + (R + []))) == L + [t.node] + R;
    }
  }

  /** One slot of the path: a record with its subtrees, and how many of these were tried. */
  datatype Frame<V> = Frame(left: Tree<V>, node: Node<V>, right: Tree<V>, pass: nat)

  /** What a frame at the top of the path still lists after its own check. */
  ghost function Todo<V>(f: Frame<V>, order: int): seq<Node<V>>
  {
    if f.pass == 0 then
      Listing(f.left, order) + (At(f.node, order == 1) + (Listing(f.right, order) + At(f.node, order == 2)))
    else if f.pass == 1 then Listing(f.right, order) + At(f.node, order == 2)
    else []
  }

  /** What the frames list, from the top down, when the top frame has yet to be checked. */
  ghost function Unchecked<V>(fs: seq<Frame<V>>, order: int): seq<Node<V>>
  {
    if fs == [] then []
    else
      var f := fs[|fs| - 1];
      At(f.node, order == f.pass) + (Todo(f, order) + Unchecked(fs[..|fs| - 1], order))
  }

  /** What is still to come after the current element. */
  ghost function Rest<V>(fs: seq<Frame<V>>, order: int): seq<Node<V>>
  {
    if fs == [] then [] else Todo(fs[|fs| - 1], order) + Unchecked(fs[..|fs| - 1], order)
  }

  /** A record that may still be read, and where its child links must lead. */
  datatype Link<V> = Link(node: Node<V>, left: Tree<V>, right: Tree<V>)

  ghost function Links<V>(t: Tree<V>): set<Link<V>>
  {
    match t
    case Leaf => {}
    case Fork(_, l, x, r) => {Link(x, l, r)} + Links(l) + Links(r)
  }

  /** The links that a frame may still make the iterator follow. */
  ghost function FrameLinks<V>(f: Frame<V>): set<Link<V>>
  {
    if f.pass == 0 then {Link(f.node, f.left, f.right)} + Links(f.left) + Links(f.right)
    else if f.pass == 1 then {Link(f.node, f.left, f.right)} + Links(f.right)
    else {}
  }

  ghost function PathLinks<V>(fs: seq<Frame<V>>): set<Link<V>>
  {
    if fs == [] then {} else FrameLinks(fs[|fs| - 1]) + PathLinks(fs[..|fs| - 1])
  }

  ghost function LinkNodes<V>(s: set<Link<V>>): set<Node<V>>
  {
    set k | k in s :: k.node
  }

  ghost predicate Linked<V>(s: set<Link<V>>)
    reads LinkNodes(s)
  {
    forall k :: k in s ==> k.node.left == Root(k.left) && k.node.right == Root(k.right)
  }

  lemma {:induction false} ShapeLinked<V>(n: Node?<V>, t: Tree<V>)
    requires Shape(n, t)
    ensures n == Root(t) && Linked(Links(t))
  {
    if t.Fork? {
      ShapeLinked(n.left, t.left);
      ShapeLinked(n.right, t.right);
    }
  }

  /** Loop turns the frames are good for. */
  ghost function Steps<V>(f: Frame<V>): nat
  {
    if f.pass == 0 then 3 + 3 * |Inorder(f.left)| + 3 * |Inorder(f.right)|
    else if f.pass == 1 then 2 + 3 * |Inorder(f.right)|
    else 1
  }

  ghost function PathSteps<V>(fs: seq<Frame<V>>): nat
  {
    if fs == [] then 0 else Steps(fs[|fs| - 1]) + PathSteps(fs[..|fs| - 1])
  }

  ghost function ChildOf<V>(f: Frame<V>): Tree<V>
  {
    if f.pass == 0 then f.left else f.right
  }

  ghost function First<V>(t: Tree<V>): Frame<V>
    requires t.Fork?
  {
    Frame(t.left, t.node, t.right, 0)
  }

  /** One turn of the iterator's loop, on the path. */
  ghost function Turn<V>(fs: seq<Frame<V>>): seq<Frame<V>>
    requires fs != []
  {
    var below, f := fs[..|fs| - 1], fs[|fs| - 1];
    if f.pass >= 2 then below
    else
      var fs' := below + [f.(pass := f.pass + 1)];
      if ChildOf(f).Leaf? then fs' else fs' + [First(ChildOf(f))]
  }

  lemma Reassociate<T>(a: seq<T>, b: seq<T>, c: seq<T>, d: seq<T>, e: seq<T>)
    ensures ((a + b) + (c + d)) + e == a + (b + (c + (d + e)))
    ensures ([] + (c + d)) + e == c + (d + e)
  {
  }

  /** The path functions at a path that ends in f. */
  lemma Top<V>(below: seq<Frame<V>>, f: Frame<V>, order: int)
    ensures Unchecked(below + [f], order) == At(f.node, order == f.pass) + (Todo(f, order) + Unchecked(below, order))
    ensures PathLinks(below + [f]) == FrameLinks(f) + PathLinks(below)
    ensures PathSteps(below + [f]) == Steps(f) + PathSteps(below)
  {
    assert (below + [f])[..|below|] == below;
  }

  lemma TurnDown<V>(below: seq<Frame<V>>, f: Frame<V>, order: int)
    requires f.pass < 2
    ensures var fs' := below + [f.(pass := f.pass + 1)];
      Todo(f, order) + Unchecked(below, order)
      == Unchecked(if ChildOf(f).Leaf? then fs' else fs' + [First(ChildOf(f))], order)
  {
    var c, f', u := ChildOf(f), f.(pass := f.pass + 1), Unchecked(below, order);
    var mine, rest := At(f.node, order == f'.pass), Todo(f', order);
    Top(below, f', order);
    assert Todo(f, order) == Listing(c, order) + (mine + rest);
    if c.Fork? {
      var first, more := At(c.node, order == 0), Todo(First(c), order);
      Top(below + [f'], First(c), order);
      Reassociate(first, more, mine, rest, u);
    } else {
      Reassociate([], [], mine, rest, u);
    }
  }

  /** A turn loses nothing that is still to be listed, follows a link of the top record at most,
      and comes nearer to the end. */
  lemma TurnKeepsRest<V>(fs: seq<Frame<V>>, order: int)
    requires fs != []
    ensures Unchecked(Turn(fs), order) == Rest(fs, order)
  {
    hide Unchecked, Listing;
    var below, f := fs[..|fs| - 1], fs[|fs| - 1];
    if f.pass < 2 {
      TurnDown(below, f, order);
    } else {
      assert [] + Unchecked(below, order) == Unchecked(below, order);
    }
  }

  lemma FrameDown<V>(f: Frame<V>)
    requires f.pass < 2
    ensures FrameLinks(f.(pass := f.pass + 1)) + Links(ChildOf(f)) <= FrameLinks(f)
    ensures Steps(f.(pass := f.pass + 1)) + 3 * |Inorder(ChildOf(f))| < Steps(f)
    ensures ChildOf(f).Fork? ==> FrameLinks(First(ChildOf(f))) == Links(ChildOf(f)) && Steps(First(ChildOf(f))) == 3 * |Inorder(ChildOf(f))|
  {
  }

  /** The path functions at the path after a turn that goes down. */
  lemma TurnTop<V>(below: seq<Frame<V>>, f: Frame<V>)
    requires f.pass < 2
    ensures var (f', fs') := (f.(pass := f.pass + 1), Turn(below + [f]));
      PathLinks(fs') == (if ChildOf(f).Fork? then FrameLinks(First(ChildOf(f))) else {}) + FrameLinks(f') + PathLinks(below) &&
      PathSteps(fs') == (if ChildOf(f).Fork? then Steps(First(ChildOf(f))) else 0) + Steps(f') + PathSteps(below)
  {
    hide FrameLinks, Steps, Unchecked, PathLinks, PathSteps;
    var f' := f.(pass := f.pass + 1);
    assert (below + [f])[..|below|] == below;
    Top(below, f', 0);
    if ChildOf(f).Fork? {
      Top(below + [f'], First(ChildOf(f)), 0);
    }
  }

  lemma TurnDownLinks<V>(below: seq<Frame<V>>, f: Frame<V>)
    requires f.pass < 2
    ensures PathLinks(Turn(below + [f])) <= PathLinks(below + [f]) && PathSteps(Turn(below + [f])) < PathSteps(below + [f])
  {
    hide FrameLinks, Steps, Unchecked, Turn, PathLinks, PathSteps, Links;
    Top(below, f, 0);
    TurnTop(below, f);
    FrameDown(f);
  }

  lemma TurnUpLinks<V>(below: seq<Frame<V>>, f: Frame<V>)
    requires f.pass >= 2
    ensures PathLinks(Turn(below + [f])) <= PathLinks(below + [f]) && PathSteps(Turn(below + [f])) < PathSteps(below + [f])
  {
    hide Unchecked;
    assert (below + [f])[..|below|] == below;
    Top(below, f, 0);
  }

  lemma TopLink<V>(below: seq<Frame<V>>, f: Frame<V>)
    requires f.pass < 2
    ensures Link(f.node, f.left, f.right) in PathLinks(below + [f])
  {
    hide Links, Unchecked, Steps;
    Top(below, f, 0);
  }

  lemma TurnLinks<V>(fs: seq<Frame<V>>)
    requires fs != []
    ensures PathLinks(Turn(fs)) <= PathLinks(fs) && PathSteps(Turn(fs)) < PathSteps(fs)
    ensures var f := fs[|fs| - 1]; f.pass < 2 ==> Link(f.node, f.left, f.right) in PathLinks(fs)
  {
    hide PathLinks, PathSteps, Turn;
    var below, f := fs[..|fs| - 1], fs[|fs| - 1];
    assert fs == below + [f];
    if f.pass < 2 {
      TurnDownLinks(below, f);
      TopLink(below, f);
    } else {
      TurnUpLinks(below, f);
    }
  }

  class Iterator<V> {
    var current: Node?<V>
    var pass: array<int>
    var path: array<Node?<V>>
    var pathi: int
    var order: int
    ghost var frames: seq<Frame<V>>

    ghost predicate Wf()
      reads this, path, pass
    {
      path.Length == MAX_TREE_DEEP && pass.Length == MAX_TREE_DEEP && 0 <= order <= 2 &&
      pathi == |frames| <= MAX_TREE_DEEP &&
      (forall i :: 0 <= i < |frames| ==> FrameAt(i, frames[i]))
    }

    ghost predicate FrameAt(i: int, f: Frame<V>)
      requires 0 <= i < path.Length == pass.Length
      reads this, path, pass
    {
      path[i] == f.node && pass[i] == f.pass && (i < pathi - 1 ==> f.pass > 0) &&
      i + 1 + Height(f.left) <= MAX_TREE_DEEP && i + 1 + Height(f.right) <= MAX_TREE_DEEP
    }

    /** The links that may still be followed.  A client may do as it likes with all other records. */
    ghost function Pending(): set<Link<V>>
      reads this
    {
      PathLinks(frames)
    }

    ghost predicate Valid()
      reads this, path, pass, LinkNodes(Pending())
    {
      Wf() && Linked(Pending())
    }

    ghost function Remaining(): seq<Node<V>>
      reads this
    {
      Rest(frames, order)
    }

    /** Between calls the current element is the record on top, on the pass that lists it. */
    ghost predicate AtRest()
      reads this
    {
      if current == null then frames == []
      else frames != [] && frames[|frames| - 1].node == current && frames[|frames| - 1].pass == order
    }

    /** Puts s on the path. */
    method Enter(s: Node<V>, ghost t: Tree<V>, ghost linked: set<Link<V>>)
      requires Wf() && t.Fork? && s == t.node && pathi + Height(t) <= MAX_TREE_DEEP
      requires pathi > 0 ==> frames[pathi - 1].pass > 0
      requires Linked(linked)
      modifies this`pathi, this`frames, path, pass
      ensures Wf() && frames == old(frames) + [First(t)] && Linked(linked)
    {
      ghost var fs := frames;
      path[pathi] := s;
      pass[pathi] := 0;
      pathi := pathi + 1;
      frames := fs + [First(t)];
      forall k | 0 <= k < |frames| ensures FrameAt(k, frames[k]) {
        if k < |fs| { assert frames[k] == fs[k]; }
      }
    }

    /** Tries the left child on the first pass over a record, the right one on the second. */
    method Descend(ghost below: seq<Frame<V>>, ghost f: Frame<V>, ghost linked: set<Link<V>>)
      requires Wf() && pathi > 0 && frames == below + [f] && f.pass < 2
      requires Linked(linked) && Link(f.node, f.left, f.right) in linked
      modifies this`pathi, this`frames, path, pass
      ensures Wf() && Linked(linked) && frames == Turn(below + [f])
    {
      var i := pathi - 1;
      assert frames[i] == f && FrameAt(i, f);
      var s;
      if pass[i] == 0 { s := path[i].left; } else { s := path[i].right; }
      pass[i] := pass[i] + 1;
      ghost var f' := f.(pass := f.pass + 1);
      frames := below + [f'];
      forall k | 0 <= k < |frames| ensures FrameAt(k, frames[k]) {
        if k < i { assert frames[k] == below[k] == old(frames)[k] && old(FrameAt(k, frames[k])); }
      }
      if s != null {
        Enter(s, ChildOf(f), linked);
      }
    }

    /** One turn of the loop: pop, or try the next child of the top. */
    method Advance(ghost linked: set<Link<V>>)
      requires Wf() && pathi > 0 && Linked(linked)
      requires var f := frames[pathi - 1]; f.pass < 2 ==> Link(f.node, f.left, f.right) in linked
      modifies this`pathi, this`frames, path, pass
      ensures Wf() && Linked(linked) && frames == Turn(old(frames))
    {
      var i := pathi - 1;
      ghost var below, f := frames[..i], frames[i];
      assert frames == below + [f] && FrameAt(i, f);
      if pass[i] >= 2 {
        pathi := pathi - 1;
        frames := below;
        forall k | 0 <= k < |frames| ensures FrameAt(k, frames[k]) {
          assert old(FrameAt(k, frames[k]));
        }
      } else {
        Descend(below, f, linked);
      }
    }

    /** The check whether the record now on top is the next element. */
    method Look(ghost linked: set<Link<V>>)
      requires Wf() && Linked(linked) && current == null
      modifies this`current
      ensures Wf() && Linked(linked) && (current != null ==> AtRest())
      ensures Unchecked(frames, order) == (if current == null then [] else [current]) + Remaining()
    {
      hide Links, Todo;
      if pathi > 0 && order == pass[pathi - 1] {
        assert FrameAt(pathi - 1, frames[pathi - 1]);
        current := path[pathi - 1];
      }
    }

    /** A turn, and then the check. */
    method Step(ghost linked: set<Link<V>>)
      requires Wf() && pathi > 0 && Linked(linked) && Pending() <= linked && current == null
      modifies this`current, this`pathi, this`frames, path, pass
      ensures Wf() && Linked(linked) && Pending() <= linked && PathSteps(frames) < old(PathSteps(frames))
      ensures old(Remaining()) == (if current == null then [] else [current]) + Remaining()
      ensures current != null ==> AtRest()
    {
      hide Turn, PathLinks, PathSteps, Links, Unchecked, Rest;
      TurnKeepsRest(frames, order);
      TurnLinks(frames);
      Advance(linked);
      Look(linked);
    }

    /** compute_current_elem */
    method ComputeCurrentElem(ghost linked: set<Link<V>>)
      requires Wf() && Linked(linked) && Pending() <= linked
      modifies this`current, this`pathi, this`frames, path, pass
      ensures Wf() && Linked(linked) && Pending() <= linked && AtRest()
      ensures old(Remaining()) == (if current == null then [] else [current]) + Remaining()
    {
      current := null;
      while pathi > 0 && current == null
        invariant Wf() && Linked(linked) && Pending() <= linked
        invariant old(Remaining()) == (if current == null then [] else [current]) + Remaining()
        invariant current != null ==> AtRest()
        decreases PathSteps(frames)
      {
        Step(linked);
      }
    }

    /** it_init, for a tree that is not too deep for the arrays. */
    constructor (tree: Node?<V>, order: int, ghost t: Tree<V>)
      requires Shape(tree, t) && Height(t) <= MAX_TREE_DEEP && 0 <= order <= 2
      ensures Valid() && AtRest() && this.order == order && fresh(path) && fresh(pass)
      ensures if current == null then Remaining() == [] && Listing(t, order) == [] else Listing(t, order) == [current] + Remaining()
      ensures Pending() <= Links(t)
    {
      ShapeLinked(tree, t);
      this.order := order;
      path := new Node?<V>[MAX_TREE_DEEP](_ => null);
      pass := new int[MAX_TREE_DEEP](_ => 0);
      pathi := 0;
      current := null;
      frames := [];
      new;
      if tree != null {
        Start(tree, t);
      }
    }

    method Start(tree: Node<V>, ghost t: Tree<V>)
      requires Wf() && frames == [] && current == null && t.Fork? && tree == t.node
      requires Linked(Links(t)) && Height(t) <= MAX_TREE_DEEP
      modifies this`current, this`pathi, this`frames, path, pass
      ensures Valid() && AtRest() && Pending() <= Links(t)
      ensures (if current == null then [] else [current]) + Remaining() == Listing(t, order)
    {
      Enter(tree, t, Links(t));
      Top([], First(t), order);
      assert frames == [] + [First(t)];
      assert Remaining() == Todo(First(t), order);
      if order == 0 {
        current := tree;
      } else {
        ComputeCurrentElem(Links(t));
      }
    }

    /** it_next */
    method Next() returns (next: Node?<V>)
      requires Valid()
      modifies this`current, this`pathi, this`frames, path, pass
      ensures Valid() && AtRest() && next == current && Pending() <= old(Pending())
      ensures if next == null then old(Remaining()) == [] && Remaining() == [] else old(Remaining()) == [next] + Remaining()
    {
      ComputeCurrentElem(Pending());
      next := current;
    }

    /** In-order, the only records whose links may still be followed are the current one and
        those still to come. */
    lemma ReadsAheadOnly()
      requires Valid() && AtRest() && order == 1
      ensures forall x :: x in LinkNodes(Pending()) ==> x == current || x in Remaining()
    {
      if frames != [] {
        var below, f := frames[..|frames| - 1], frames[|frames| - 1];
        assert frames == below + [f];
        forall k | 0 <= k < |below| ensures below[k].pass > 0 {
          assert FrameAt(k, frames[k]);
        }
        BelowListed(below);
        LinksListed(f.right);
        Top(below, f, 1);
      }
    }
  }

  lemma {:induction false} LinksListed<V>(t: Tree<V>)
    ensures forall k :: k in Links(t) ==> k.node in Listing(t, 1)
  {
    if t.Fork? {
      LinksListed(t.left);
      LinksListed(t.right);
    }
  }

  lemma {:induction false} BelowListed<V>(fs: seq<Frame<V>>)
    requires forall k :: 0 <= k < |fs| ==> fs[k].pass > 0
    ensures forall k :: k in PathLinks(fs) ==> k.node in Unchecked(fs, 1)
  {
    if fs != [] {
      BelowListed(fs[..|fs| - 1]);
      LinksListed(fs[|fs| - 1].right);
    }
  }

  /** Every order, from the first element to the end. */
  method Walk<V>(tree: Node?<V>, order: int, ghost t: Tree<V>) returns (listed: seq<Node<V>>)
    requires Shape(tree, t) && Valid(t) && |Inorder(t)| < SIZE_LIMIT && 0 <= order <= 2
    ensures listed == Listing(t, order)
  {
    HeightFitsPath(t);
    var itr := new Iterator(tree, order, t);
    var e := itr.current;
    listed := [];
    ghost var rest := itr.Remaining();
    while e != null
      invariant itr.Valid() && fresh(itr) && fresh(itr.path) && fresh(itr.pass) && rest == itr.Remaining()
      invariant if e == null then rest == [] && listed == Listing(t, order) else listed + ([e] + rest) == Listing(t, order)
      decreases |rest|, e != null
    {
      listed, rest := Append(listed, e, rest), itr.Remaining();
      e := itr.Next();
      rest := itr.Remaining();
    }
  }

  function Append<T>(listed: seq<T>, e: T, ghost rest: seq<T>): (r: seq<T>)
    ensures r + rest == listed + ([e] + rest)
  {
    listed + [e]
  }

  /** One turn of the freeing loops: the iterator moves on before the record it stood on is
      freed.  Its new position does not depend on the freed record. */
  method NextThenFree<V>(itr: Iterator<V>) returns (dp: Node?<V>)
    requires itr.Valid() && itr.AtRest() && itr.order == 1 && itr.current != null && itr.current !in itr.Remaining()
    modifies itr`current, itr`pathi, itr`frames, itr.path, itr.pass, itr.current
    ensures itr.Valid() && itr.AtRest() && dp == itr.current
    ensures if dp == null then old(itr.Remaining()) == [] && itr.Remaining() == []
            else old(itr.Remaining()) == [dp] + itr.Remaining()
  {
    var old_dp := itr.current;
    dp := itr.Next();
    itr.ReadsAheadOnly();
    Free(old_dp, itr.Pending());
  }

  /** The loops of fskit_entry_set_free and fskit_xattr_set_free.  After a record is freed its
      fields may hold anything; every record is freed exactly once, in order, and none is read
      again. */
  method FreeAll<V>(tree: Node?<V>, ghost t: Tree<V>) returns (freed: seq<Node<V>>)
    requires Shape(tree, t) && Distinct(t) && Valid(t) && |Inorder(t)| < SIZE_LIMIT
    modifies Nodes(t)
    ensures freed == Inorder(t)
  {
    HeightFitsPath(t);
    ghost var all := Listing(t, 1);
    var itr := new Iterator(tree, 1, t);
    assert all == Inorder(t) && NoDup(all) && Nodes(t) == Elems(all) by {
      ListingInorder(t);
      DistinctInorder(t);
      NodesInorder(t);
    }
    freed := FreeLoop(itr, all);
  }

  method FreeLoop<V>(itr: Iterator<V>, ghost all: seq<Node<V>>) returns (freed: seq<Node<V>>)
    requires itr.Valid() && itr.AtRest() && itr.order == 1 && NoDup(all)
    requires if itr.current == null then itr.Remaining() == [] && all == [] else all == [itr.current] + itr.Remaining()
    modifies itr`current, itr`pathi, itr`frames, itr.path, itr.pass, Elems(all)
    ensures freed == all
  {
    var dp := itr.current;
    freed := [];
    ghost var rest := itr.Remaining();
    while dp != null
      invariant itr.Valid() && itr.AtRest() && dp == itr.current && rest == itr.Remaining()
      invariant if dp == null then rest == [] && freed == all else freed + ([dp] + rest) == all
      decreases |rest|, dp != null
    {
      OnlyOnce(freed, dp, rest, all);
      freed := Append(freed, dp, rest);
      dp := NextThenFree(itr);
      rest := itr.Remaining();
    }
  }

  lemma OnlyOnce<T>(freed: seq<T>, e: T, rest: seq<T>, all: seq<T>)
    requires freed + ([e] + rest) == all && NoDup(all)
    ensures e in Elems(all) && e !in rest
  {
    assert freed + [e] + rest == all;
    NoDupParts(freed, e, rest);
    assert all[|freed|] == e;
  }

  /** free(3): the fields of x hold no meaning from here on. */
  method Free<V>(x: Node<V>, ghost linked: set<Link<V>>)
    requires Linked(linked) && x !in LinkNodes(linked)
    modifies x
    ensures Linked(linked)
  {
    assert forall k :: k in linked ==> k.node in LinkNodes(linked);
    x.left, x.right, x.red := *, *, *;
  }
}
