/** What every state of the file system keeps, and that each API call keeps it. */
module FsInvariant {
  import opened Names
  import opened FsGraph
  import opened Fs

  ghost function HandlesOf(handles: map<nat, Ino>, e: Ino): set<nat>
  {
    set h | h in handles && handles[h] == e
  }

  /** An open count is the number of handles on the inode, plus the references in loose that no handle holds. */
  ghost predicate RefsOk(s: State, loose: multiset<Ino>)
    requires Keyed(s)
  {
    (forall h :: h in s.handles ==> s.handles[h] in s.g) &&
    (forall e :: e in loose ==> e in s.g) &&
    forall e :: e in s.g ==> s.opens[e] == |HandlesOf(s.handles, e)| + loose[e]
  }

  ghost function RealNames(r: Rec): set<Name>
  {
    set n | n in r.kids && !Dot(n)
  }

  /** num_children never exceeds the number of entries. */
  ghost predicate NumOk(s: State)
    requires Keyed(s)
  {
    forall d :: d in s.g ==> s.num[d] <= |RealNames(s.g[d])|
  }

  /** A directory that is unlinked, or tagged as garbage, is empty. */
  predicate GoneIsEmpty(r: Rec)
  {
    r.links <= 0 || r.deleting ==> forall n :: n in r.kids ==> Dot(n)
  }

  /** Apart from those in busy, every inode is linked or open, and is empty if it is gone. */
  ghost predicate Settled(s: State, busy: set<Ino>)
    requires Keyed(s)
  {
    forall e :: e in s.g && e !in busy ==> (s.g[e].links > 0 || s.opens[e] > 0) && GoneIsEmpty(s.g[e])
  }

  /** What holds between the steps of a call. */
  ghost predicate Mid(s: State, loose: multiset<Ino>, busy: set<Ino>)
  {
    Keyed(s) && Sound(s.g, s.root) && RefsOk(s, loose) && NumOk(s) && Settled(s, busy)
  }

  /** What holds between calls. */
  ghost predicate Inv(s: State, loose: multiset<Ino>)
  {
    Mid(s, loose, {})
  }

  ghost predicate Below(s: State, a: Ino, d: Ino)
  {
    Under(s.g, LinkMap(s.g), a, d)
  }

  lemma SelfBelow(s: State, a: Ino)
    ensures Below(s, a, a)
  {
    assert UnderWithin(s.g, LinkMap(s.g), a, a, 0);
  }

  lemma RealNamesOf(r: Rec, r': Rec, n: Name, child: Ino)
    requires !Dot(n)
    ensures r'.kids == r.kids[n := child] && n !in r.kids ==> |RealNames(r')| == |RealNames(r)| + 1
    ensures r'.kids == r.kids - {n} && n in r.kids ==> |RealNames(r')| == |RealNames(r)| - 1
    ensures ".." in r.kids && r'.kids == r.kids[".." := child] ==> RealNames(r') == RealNames(r)
  {
    if r'.kids == r.kids[n := child] && n !in r.kids {
      assert RealNames(r') == RealNames(r) + {n};
    }
    if r'.kids == r.kids - {n} && n in r.kids {
      assert RealNames(r') == RealNames(r) - {n};
    }
    if ".." in r.kids && r'.kids == r.kids[".." := child] {
      assert RealNames(r') == RealNames(r);
    }
  }

  lemma AttachNum(s: State, parent: Ino, child: Ino, name: Name)
    requires Keyed(s) && NumOk(s) && parent in s.g && child in s.g && child != parent && !Dot(name) && name !in s.g[parent].kids
    ensures NumOk(Attach(s, parent, child, name))
  {
    var s' := Attach(s, parent, child, name);
    RealNamesOf(s.g[parent], s'.g[parent], name, child);
    RealNamesOf(s.g[child], s'.g[child], name, parent);
    forall d | d in s'.g ensures s'.num[d] <= |RealNames(s'.g[d])| {
    }
  }

  lemma AttachSettled(s: State, busy: set<Ino>, parent: Ino, child: Ino, name: Name)
    requires Keyed(s) && Settled(s, busy) && parent !in busy && Live(s, parent) && child in s.g && child != parent
    requires s.g[child].links >= 0 && GoneIsEmpty(s.g[child].(links := 1))
    ensures Settled(Attach(s, parent, child, name), busy - {child})
  {
    var s' := Attach(s, parent, child, name);
    forall e | e in s'.g && e !in busy - {child} ensures (s'.g[e].links > 0 || s'.opens[e] > 0) && GoneIsEmpty(s'.g[e]) {
    }
  }

  /** Put an inode that is not above parent under a name that is free. */
  lemma AttachMid(s: State, loose: multiset<Ino>, busy: set<Ino>, parent: Ino, child: Ino, name: Name)
    requires Mid(s, loose, busy) && Live(s, parent) && s.g[parent].kind == Dir && parent !in busy
    requires child in s.g && child != s.root && child != parent && !Dot(name) && name !in s.g[parent].kids
    requires s.g[child].kind == Dir ==> s.g[child].links <= 0 && !Below(s, child, parent)
    requires s.g[child].links >= 0 && GoneIsEmpty(s.g[child].(links := 1))
    ensures Mid(Attach(s, parent, child, name), loose, busy - {child})
  {
    AttachSound(s.g, s.root, parent, child, name);
    AttachNum(s, parent, child, name);
    AttachSettled(s, busy, parent, child, name);
  }

  lemma DetachNum(s: State, parent: Ino, name: Name)
    requires Keyed(s) && NumOk(s) && parent in s.g && name in s.g[parent].kids && s.g[parent].kids[name] in s.g
    requires s.g[parent].kids[name] != parent && !Dot(name)
    ensures NumOk(Detach(s, parent, name).0)
  {
    var s' := Detach(s, parent, name).0;
    RealNamesOf(s.g[parent], s'.g[parent], name, parent);
    forall d | d in s'.g ensures s'.num[d] <= |RealNames(s'.g[d])| {
      if d != parent {
        assert s'.g[d].kids == s.g[d].kids;
        assert RealNames(s'.g[d]) == RealNames(s.g[d]);
      }
    }
  }

  lemma DetachSettled(s: State, busy: set<Ino>, parent: Ino, name: Name)
    requires Keyed(s) && Settled(s, busy) && parent in s.g && name in s.g[parent].kids && s.g[parent].kids[name] in s.g
    ensures Settled(Detach(s, parent, name).0, busy + {s.g[parent].kids[name]})
  {
    var s' := Detach(s, parent, name).0;
    forall e | e in s'.g && e !in busy + {s.g[parent].kids[name]}
      ensures (s'.g[e].links > 0 || s'.opens[e] > 0) && GoneIsEmpty(s'.g[e])
    {
    }
  }

  /** Take a name away, if detaching agrees to. */
  lemma DetachMid(s: State, loose: multiset<Ino>, busy: set<Ino>, parent: Ino, name: Name)
    requires Mid(s, loose, busy) && parent in s.g && name in s.g[parent].kids && !Dot(name)
    ensures var child := s.g[parent].kids[name];
      child in s.g && child != s.root && child != parent && s.g[child].links > 0
    ensures Mid(Detach(s, parent, name).0, loose, busy + {s.g[parent].kids[name]})
  {
    DetachSound(s.g, s.root, parent, name);
    DetachNum(s, parent, name);
    DetachSettled(s, busy, parent, name);
  }

  function Dropped(s: State, e: Ino): State
  {
    s.(g := s.g - {e}, opens := s.opens - {e}, num := s.num - {e})
  }

  lemma DropRest(s: State, loose: multiset<Ino>, busy: set<Ino>, e: Ino)
    requires Keyed(s) && RefsOk(s, loose) && NumOk(s) && Settled(s, busy) && e in s.g && s.opens[e] <= 0
    ensures var s' := Dropped(s, e); Keyed(s') && RefsOk(s', loose) && NumOk(s') && Settled(s', busy - {e})
  {
    assert loose[e] == 0;
    assert HandlesOf(s.handles, e) == {};
    forall h | h in s.handles ensures s.handles[h] != e {
      assert h in HandlesOf(s.handles, s.handles[h]);
    }
  }

  /** Destroy what nothing holds; what is left is settled. */
  lemma TryDestroyMid(s: State, loose: multiset<Ino>, busy: set<Ino>, e: Ino)
    requires Mid(s, loose, busy) && e in s.g && GoneIsEmpty(s.g[e])
    ensures Mid(TryDestroy(s, e).0, loose, busy - {e})
  {
    hide Sound, RefsOk, NumOk;
    if s.g[e].links <= 0 && s.opens[e] <= 0 {
      assert Sound(s.g - {e}, s.root) by {
        RootFacts(s.g, s.root);
        DropSound(s.g, s.root, e);
      }
      DropRest(s, loose, busy, e);
    }
  }

  lemma NoHandles(handles: map<nat, Ino>, e: Ino)
    requires forall h :: h in handles ==> handles[h] != e
    ensures HandlesOf(handles, e) == {}
  {
  }

  lemma AddRefs(s: State, loose: multiset<Ino>, e: Ino, r: Rec, opens: int)
    requires Keyed(s) && RefsOk(s, loose) && e !in s.g && 0 <= opens <= 1
    ensures RefsOk(Add(s, e, r, opens), if opens == 1 then loose + multiset{e} else loose)
  {
    NoHandles(s.handles, e);
    hide HandlesOf;
  }

  lemma AddSettled(s: State, busy: set<Ino>, e: Ino, r: Rec, opens: int)
    requires Keyed(s) && Settled(s, busy) && e !in s.g
    ensures Settled(Add(s, e, r, opens), busy + {e})
  {
    hide GoneIsEmpty;
  }

  lemma AddNum(s: State, e: Ino, r: Rec, opens: int)
    requires Keyed(s) && NumOk(s) && e !in s.g
    ensures NumOk(Add(s, e, r, opens))
  {
    hide RealNames;
  }

  /** A new inode, with one reference or none. */
  lemma AddMid(s: State, loose: multiset<Ino>, busy: set<Ino>, e: Ino, r: Rec, opens: int)
    requires Mid(s, loose, busy) && e !in s.g && FreshRec(e, r) && 0 <= opens <= 1
    ensures Mid(Add(s, e, r, opens), if opens == 1 then loose + multiset{e} else loose, busy + {e})
  {
    hide Sound, RefsOk, NumOk, Settled;
    AddSound(s.g, s.root, e, r);
    AddRefs(s, loose, e, r, opens);
    AddSettled(s, busy, e, r, opens);
    AddNum(s, e, r, opens);
  }

  lemma RefRest(s: State, loose: multiset<Ino>, busy: set<Ino>, e: Ino)
    requires Keyed(s) && RefsOk(s, loose) && NumOk(s) && Settled(s, busy) && e in s.g
    ensures RefsOk(Ref(s, e), loose + multiset{e}) && NumOk(Ref(s, e)) && Settled(Ref(s, e), busy)
  {
  }

  /** Take a reference that no handle holds. */
  lemma RefMid(s: State, loose: multiset<Ino>, busy: set<Ino>, e: Ino)
    requires Mid(s, loose, busy) && e in s.g
    ensures Mid(Ref(s, e), loose + multiset{e}, busy)
  {
    hide Sound, RefsOk, NumOk, Settled;
    RefRest(s, loose, busy, e);
  }

  lemma UnrefRest(s: State, loose: multiset<Ino>, busy: set<Ino>, e: Ino)
    requires Keyed(s) && RefsOk(s, loose) && NumOk(s) && Settled(s, busy) && e in loose
    ensures var s' := s.(opens := s.opens[e := s.opens[e] - 1]);
      Keyed(s') && RefsOk(s', loose - multiset{e}) && NumOk(s') && Settled(s', busy + {e})
  {
  }

  lemma UnrefMid(s: State, loose: multiset<Ino>, busy: set<Ino>, e: Ino)
    requires Mid(s, loose, busy) && e in loose && e in s.g && GoneIsEmpty(s.g[e])
    ensures Mid(Unref(s, e), loose - multiset{e}, busy - {e})
  {
    hide Sound, RefsOk, NumOk, Settled;
    var s1 := s.(opens := s.opens[e := s.opens[e] - 1]);
    assert Mid(s1, loose - multiset{e}, busy + {e}) by {
      UnrefRest(s, loose, busy, e);
    }
    TryDestroyMid(s1, loose - multiset{e}, busy + {e}, e);
    assert busy + {e} - {e} == busy - {e};
  }

  lemma HandleCount(handles: map<nat, Ino>, h: nat, e: Ino, x: Ino)
    requires h !in handles
    ensures |HandlesOf(handles[h := e], x)| == |HandlesOf(handles, x)| + if x == e then 1 else 0
  {
    assert HandlesOf(handles[h := e], x) == HandlesOf(handles, x) + if x == e then {h} else {};
  }

  lemma HandleRest(s: State, loose: multiset<Ino>, h: nat, e: Ino)
    requires Keyed(s) && RefsOk(s, loose) && h !in s.handles && e in loose
    ensures RefsOk(s.(handles := s.handles[h := e]), loose - multiset{e})
  {
    hide HandlesOf;
    forall x | x in s.g ensures s.opens[x] == |HandlesOf(s.handles[h := e], x)| + (loose - multiset{e})[x] {
      HandleCount(s.handles, h, e, x);
    }
  }

  /** A new handle takes over a reference. */
  lemma HandleMid(s: State, loose: multiset<Ino>, busy: set<Ino>, h: nat, e: Ino)
    requires Mid(s, loose, busy) && h !in s.handles && e in loose
    ensures Mid(s.(handles := s.handles[h := e]), loose - multiset{e}, busy)
  {
    hide Sound, RefsOk;
    HandleRest(s, loose, h, e);
  }

  lemma UnhandleCount(handles: map<nat, Ino>, h: nat, x: Ino)
    requires h in handles
    ensures |HandlesOf(handles - {h}, x)| == |HandlesOf(handles, x)| - if x == handles[h] then 1 else 0
  {
    assert HandlesOf(handles - {h}, x) == HandlesOf(handles, x) - if x == handles[h] then {h} else {};
    assert h in HandlesOf(handles, handles[h]);
  }

  lemma UnhandleRest(s: State, loose: multiset<Ino>, h: nat)
    requires Keyed(s) && RefsOk(s, loose) && h in s.handles
    ensures RefsOk(s.(handles := s.handles - {h}), loose + multiset{s.handles[h]})
  {
    hide HandlesOf;
    forall x | x in s.g ensures s.opens[x] == |HandlesOf(s.handles - {h}, x)| + (loose + multiset{s.handles[h]})[x] {
      UnhandleCount(s.handles, h, x);
    }
  }

  /** A handle that goes away leaves its reference behind. */
  lemma UnhandleMid(s: State, loose: multiset<Ino>, busy: set<Ino>, h: nat)
    requires Mid(s, loose, busy) && h in s.handles
    ensures Mid(s.(handles := s.handles - {h}), loose + multiset{s.handles[h]}, busy)
  {
    hide Sound, RefsOk;
    UnhandleRest(s, loose, h);
  }
}
