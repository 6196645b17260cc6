/** Directory entry sets and xattr sets: libfskit/entry.c on top of the red-black tree.  While
    names are unique, each operation acts on the set as on a map. */
module EntrySet {
  import opened Names
  import opened Wrappers
  import opened Powers
  import Listing
  import opened RbTree
  import opened RbHeap
  import opened RbIterator
  import opened RbTraverse

  /** No two records of a listing have the same name. */
  ghost predicate Unique<V>(s: seq<Node<V>>)
  {
    forall i, j :: 0 <= i < j < |s| ==> s[i].name != s[j].name
  }

  ghost function ToMap<V>(s: seq<Node<V>>): map<Name, V>
  {
    if s == [] then map[] else map[s[0].name := s[0].value] + ToMap(s[1..])
  }

  lemma Elems<V>(s: seq<Node<V>>, x: Node<V>)
    requires s != []
    ensures x in s <==> x == s[0] || x in s[1..]
  {
    assert s == [s[0]] + s[1..];
  }

  lemma {:induction false} ToMapHas<V>(s: seq<Node<V>>, n: Name)
    ensures n in ToMap(s) <==> exists x :: x in s && x.name == n
  {
    if s != [] {
      ToMapHas(s[1..], n);
      forall x | x in s && x.name == n ensures x == s[0] || x in s[1..] {
        Elems(s, x);
      }
      forall x | x in s[1..] ensures x in s {
        Elems(s, x);
      }
    }
  }

  lemma {:induction false} ToMapAt<V>(s: seq<Node<V>>, x: Node<V>)
    requires Unique(s) && x in s
    ensures x.name in ToMap(s) && ToMap(s)[x.name] == x.value
  {
    Elems(s, x);
    if x != s[0] {
      ToMapAt(s[1..], x);
    } else if x.name in ToMap(s[1..]) {
      ToMapHas(s[1..], x.name);
    }
  }

  lemma {:induction false} ToMapSize<V>(s: seq<Node<V>>)
    requires Unique(s)
    ensures |ToMap(s)| == |s|
  {
    if s != [] {
      ToMapSize(s[1..]);
      ToMapHas(s[1..], s[0].name);
      assert ToMap(s).Keys == ToMap(s[1..]).Keys + {s[0].name};
    }
  }

  lemma ToMapKeys<V>(s: seq<Node<V>>)
    ensures forall n :: n in ToMap(s) <==> exists x :: x in s && x.name == n
    ensures Unique(s) ==> |ToMap(s)| == |s| && forall x :: x in s ==> ToMap(s)[x.name] == x.value
  {
    hide ToMap;
    forall n ensures n in ToMap(s) <==> exists x :: x in s && x.name == n {
      ToMapHas(s, n);
    }
    if Unique(s) {
      ToMapSize(s);
      forall x | x in s ensures x.name in ToMap(s) && ToMap(s)[x.name] == x.value {
        ToMapAt(s, x);
      }
    }
  }

  lemma ToMapIs<V>(s: seq<Node<V>>, m: map<Name, V>)
    requires Unique(s) && (forall x :: x in s ==> x.name in m && m[x.name] == x.value)
    requires forall n :: n in m ==> exists x :: x in s && x.name == n
    ensures ToMap(s) == m
  {
    ToMapKeys(s);
  }

  lemma SpliceElems<V>(s: seq<Node<V>>, x: Node<V>, i: nat)
    requires Unique(s) && i <= |s| && forall y :: y in s ==> y.name != x.name
    ensures Unique(s[..i] + [x] + s[i..]) && forall y :: y in s[..i] + [x] + s[i..] <==> y in s || y == x
  {
    var s' := s[..i] + [x] + s[i..];
    assert s == s[..i] + s[i..];
    assert forall k :: 0 <= k < |s'| ==> s'[k] == (if k < i then s[k] else if k == i then x else s[k - 1]);
  }

  lemma WithElem<V>(s: seq<Node<V>>, x: Node<V>, s': seq<Node<V>>)
    requires Unique(s) && Unique(s') && x.name !in ToMap(s) && forall y :: y in s' <==> y in s || y == x
    ensures ToMap(s') == ToMap(s)[x.name := x.value]
  {
    ToMapKeys(s);
    var m := ToMap(s)[x.name := x.value];
    forall n | n in m ensures exists y :: y in s' && y.name == n {
      if n == x.name {
        assert x in s';
      } else {
        var y :| y in s && y.name == n;
        assert y in s';
      }
    }
    ToMapIs(s', m);
  }

  lemma WithoutElem<V>(s: seq<Node<V>>, name: Name, s': seq<Node<V>>)
    requires Unique(s) && Unique(s') && forall y :: y in s' <==> y in s && y.name != name
    ensures ToMap(s') == ToMap(s) - {name}
  {
    ToMapKeys(s);
    var m := ToMap(s) - {name};
    forall n | n in m ensures exists y :: y in s' && y.name == n {
      var y :| y in s && y.name == n;
      assert y in s';
    }
    ToMapIs(s', m);
  }

  lemma ToMapInsert<V>(s: seq<Node<V>>, x: Node<V>, i: nat)
    requires Unique(s) && i <= |s| && x.name !in ToMap(s)
    ensures Unique(s[..i] + [x] + s[i..]) && ToMap(s[..i] + [x] + s[i..]) == ToMap(s)[x.name := x.value]
  {
    ToMapKeys(s);
    SpliceElems(s, x, i);
    WithElem(s, x, s[..i] + [x] + s[i..]);
  }

  lemma CutElems<V>(s: seq<Node<V>>, i: nat)
    requires Unique(s) && i < |s|
    ensures Unique(s[..i] + s[i + 1..]) && forall y :: y in s[..i] + s[i + 1..] <==> y in s && y.name != s[i].name
  {
    var s' := s[..i] + s[i + 1..];
    assert s == s[..i] + [s[i]] + s[i + 1..];
    assert forall k :: 0 <= k < |s'| ==> s'[k] == s[if k < i then k else k + 1];
  }

  lemma ToMapDelete<V>(s: seq<Node<V>>, i: nat)
    requires Unique(s) && i < |s|
    ensures Unique(s[..i] + s[i + 1..]) && ToMap(s[..i] + s[i + 1..]) == ToMap(s) - {s[i].name}
  {
    CutElems(s, i);
    WithoutElem(s, s[i].name, s[..i] + s[i + 1..]);
  }

  ghost function NamesOf<V>(s: seq<Node<V>>): seq<Name>
  {
    seq(|s|, i requires 0 <= i < |s| => s[i].name)
  }

  /** Records in order whose names are unique have their names in order. */
  lemma NamesIncrease<V>(s: seq<Node<V>>)
    requires Sorted(s) && Unique(s)
    ensures Listing.Increasing(NamesOf(s)) && forall n :: n in NamesOf(s) <==> n in ToMap(s)
  {
    hide ToMap;
    forall i, j | 0 <= i < j < |s| ensures NameLess(s[i].name, s[j].name) {
      assert Less(s[i], s[j]);
      StrCmpZero(s[i].name, s[j].name);
    }
    ToMapKeys(s);
    forall n ensures n in NamesOf(s) <==> exists x :: x in s && x.name == n {
      forall x | x in s && x.name == n ensures n in NamesOf(s) {
        var i :| 0 <= i < |s| && s[i] == x;
        assert NamesOf(s)[i] == n;
      }
    }
  }

  const EEXIST := -17
  const ENOATTR := -61

  class EntrySet<V> {
    var root: Node?<V>
    ghost var tree: Tree<V>

    ghost predicate Valid()
      reads this, Nodes(tree)
    {
      Shape(root, tree) && Distinct(tree) && RbTree.Valid(tree) && Unique(Inorder(tree))
    }

    ghost function Contents(): map<Name, V>
      reads this
    {
      ToMap(Inorder(tree))
    }

    constructor ()
      ensures Valid() && Contents() == map[] && tree == Leaf
    {
      root := null;
      tree := Leaf;
    }

    /** What the search for a name finds, in terms of the contents. */
    lemma Found(name: Name)
      requires Valid()
      ensures Find(tree, name).Fork? <==> name in Contents()
      ensures Find(tree, name).Fork? ==>
        var x := Find(tree, name).node; x in Inorder(tree) && x.name == name && Contents()[name] == x.value
    {
      FindCorrect(tree, name);
      ToMapKeys(Inorder(tree));
    }

    /** fskit_entry_set_find_name, fskit_xattr_set_find */
    method FindName(name: Name) returns (r: Option<V>)
      requires Valid()
      ensures r == if name in Contents() then Some(Contents()[name]) else None
    {
      Found(name);
      var member := FindMember(root, name, tree);
      r := if member == null then None else Some(member.value);
    }

    /** fskit_entry_set_insert: no check for a record of that name. */
    method Insert(name: Name, value: V, addr: nat)
      requires Valid() && name !in Contents() && forall x :: x in Nodes(tree) ==> x.addr != addr
      modifies this, Nodes(tree)
      ensures Valid() && Contents() == old(Contents())[name := value]
      ensures fresh(Nodes(tree) - old(Nodes(tree))) && forall x :: x in Nodes(tree) ==> x in old(Nodes(tree)) || x.addr == addr
    {
      ghost var t := tree;
      AllAllocated(t);
      var entry := new Node<V>(name, addr, value);
      assert Shape(root, t);
      ListingAfterAdd(t, entry);
      root := AddNode(root, entry, t);
      tree := Add(t, entry);
    }

    lemma ListingAfterAdd(t: Tree<V>, x: Node<V>)
      requires RbTree.Valid(t) && Unique(Inorder(t)) && x.name !in ToMap(Inorder(t))
      requires forall y :: y in Nodes(t) ==> y.addr != x.addr
      ensures RbTree.Valid(Add(t, x)) && Unique(Inorder(Add(t, x)))
      ensures ToMap(Inorder(Add(t, x))) == ToMap(Inorder(t))[x.name := x.value]
    {
      NodesInorder(t);
      AddCorrect(t, x);
      var i: nat :| PlaceOf(Inorder(t), x, i) && Inorder(Add(t, x)) == Inorder(t)[..i] + [x] + Inorder(t)[i..];
      ToMapInsert(Inorder(t), x, i);
    }

    /** sglib's delete_if_member, as fskit_xattr_set_remove calls it. */
    method Remove(name: Name) returns (removed: bool)
      requires Valid()
      modifies this, Nodes(tree)
      ensures Valid() && removed == (name in old(Contents())) && Contents() == old(Contents()) - {name}
      ensures Nodes(tree) <= old(Nodes(tree))
    {
      Found(name);
      var member := FindMember(root, name, tree);
      if member == null {
        removed := false;
      } else {
        ghost var t := tree;
        ListingAfterDelete(t, member);
        root := DeleteNode(root, member, t);
        tree := Delete(t, member);
        removed := true;
      }
    }

    lemma ListingAfterDelete(t: Tree<V>, x: Node<V>)
      requires RbTree.Valid(t) && Unique(Inorder(t)) && x in Inorder(t)
      ensures RbTree.Valid(Delete(t, x)) && Unique(Inorder(Delete(t, x)))
      ensures ToMap(Inorder(Delete(t, x))) == ToMap(Inorder(t)) - {x.name}
    {
      var s := Inorder(t);
      var i: nat :| i < |s| && s[i] == x;
      DeleteCorrect(t, x, i);
      ToMapDelete(s, i);
    }

    /** fskit_entry_set_remove: the dot entries stay. */
    method RemoveEntry(name: Name) returns (removed: bool)
      requires Valid()
      modifies this, Nodes(tree)
      ensures Valid() && removed == (name in old(Contents()) && name != "." && name != "..")
      ensures Contents() == if removed then old(Contents()) - {name} else old(Contents())
      ensures Nodes(tree) <= old(Nodes(tree))
    {
      if name == "." || name == ".." {
        removed := false;
      } else {
        removed := Remove(name);
      }
    }

    /** fskit_xattr_set_insert.  The flags are heeded only when the set holds something. */
    method InsertXattr(name: Name, value: V, create: bool, replace: bool, addr: nat) returns (rc: int)
      requires Valid() && forall x :: x in Nodes(tree) ==> x.addr != addr
      modifies this, Nodes(tree)
      ensures Valid()
      ensures rc == if old(Contents()) != map[] && create && name in old(Contents()) then EEXIST
                    else if old(Contents()) != map[] && replace && name !in old(Contents()) then ENOATTR
                    else 0
      ensures Contents() == if rc == 0 then old(Contents())[name := value] else old(Contents())
    {
      rc := 0;
      if root != null {
        assert root.name in Contents() by {
          ToMapKeys(Inorder(tree));
          NodesInorder(tree);
          assert root in Nodes(tree);
        }
        Found(name);
        var member := FindMember(root, name, tree);
        if member != null && create { return EEXIST; }
        if member == null && replace { return ENOATTR; }
        var _ := Remove(name);
      }
      Insert(name, value, addr);
    }

    /** fskit_entry_set_count */
    method Count() returns (n: nat)
      requires Valid() && |Contents()| < SIZE_LIMIT
      ensures n == |Contents()|
    {
      ToMapKeys(Inorder(tree));
      n := Len(root, tree);
    }

    /** fskit_entry_set_begin and fskit_entry_set_next, to the end: the names in order. */
    method ListNames() returns (names: seq<Name>)
      requires Valid() && |Contents()| < SIZE_LIMIT
      ensures names == Listing.SortedNames(Contents().Keys)
    {
      ghost var all := Inorder(tree);
      ToMapKeys(all);
      ListingInorder(tree);
      NamesIncrease(all);
      Listing.SortedNamesFacts(Contents().Keys);
      Listing.SortedIsUnique(NamesOf(all), Listing.SortedNames(Contents().Keys));
      var listed := Walk(root, 1, tree);
      names := seq(|listed|, i requires 0 <= i < |listed| => listed[i].name);
    }

    /** fskit_entry_set_free and fskit_xattr_set_free: every record is freed once, in order. Nothing refers to them after. */
    method FreeSet() returns (freed: seq<Node<V>>)
      requires Valid() && |Contents()| < SIZE_LIMIT
      modifies this, Nodes(tree)
      ensures freed == old(Inorder(tree)) && Valid() && Contents() == map[]
    {
      ToMapKeys(Inorder(tree));
      freed := FreeAll(root, tree);
      root := null;
      tree := Leaf;
    }
  }
}
