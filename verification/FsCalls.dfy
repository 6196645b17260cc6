/** Every API call keeps the invariant, or exactly when it does not. */
module FsCalls {
  import opened Names
  import opened Wrappers
  import opened FsGraph
  import opened Fs
  import opened FsInvariant

  lemma EmptyHasNoNames(r: Rec)
    requires OnlyDots(r)
    ensures RealNames(r) == {}
  {
  }

  /** What the invariant says of one inode. */
  lemma MidFacts(s: State, loose: multiset<Ino>, busy: set<Ino>, e: Ino)
    requires Mid(s, loose, busy) && e in s.g
    ensures Wf(s) && s.opens[e] >= 0 && s.g[e].links >= 0 && s.num[e] <= |RealNames(s.g[e])|
    ensures e !in busy ==> (s.g[e].links > 0 || s.opens[e] > 0) && GoneIsEmpty(s.g[e])
  {
    hide Sound;
    EntriesExist(s.g, s.root);
    LinkCount(s.g, s.root, e);
  }

  lemma InvWf(s: State, loose: multiset<Ino>)
    requires Inv(s, loose)
    ensures Wf(s)
  {
    hide Sound, RefsOk, NumOk, Settled;
    EntriesExist(s.g, s.root);
  }

  lemma HoldersAreDirs(s: State, loose: multiset<Ino>, d: Ino, n: Name)
    requires Inv(s, loose) && d in s.g && n in s.g[d].kids
    ensures s.g[d].kind == Dir
  {
  }

  lemma ClosedAt(s: State, loose: multiset<Ino>, d: Ino)
    requires Inv(s, loose) && d in s.g
    ensures if s.g[d].kind == Dir then "." in s.g[d].kids && s.g[d].kids["."] == d && ".." in s.g[d].kids else s.g[d].kids == map[]
  {
  }

  lemma NumMid(s: State, loose: multiset<Ino>, busy: set<Ino>, d: Ino, k: int)
    requires Mid(s, loose, busy) && d in s.g && k <= s.num[d]
    ensures Mid(s.(num := s.num[d := k]), loose, busy)
  {
    hide Sound;
  }

  /** A directory that has a name has one, and its ".." is the directory that holds it, which has a name itself. */
  lemma OneHolder(s: State, loose: multiset<Ino>, d: Ino) returns (q: Entry)
    requires Inv(s, loose) && d in s.g && s.g[d].kind == Dir && s.g[d].links > 0 && d != s.root
    ensures Live(s, q.0) && s.g[q.0].kind == Dir && Links(s.g, d) == {q}
    ensures Kid(s.g, q.0, q.1) == Some(d) && !Dot(q.1) && Kid(s.g, d, "..") == Some(q.0)
  {
    hide Sound, RefsOk, NumOk;
    LinkCount(s.g, s.root, d);
    q :| q in Links(s.g, d);
    HolderIsDir(s.g, s.root, d, q);
    ChildOnce(s.g, s.root, d, q);
    MidFacts(s, loose, {}, q.0);
  }

  /** What a dot name of a directory that has a name leads to: itself or its parent. */
  lemma DotLeads(s: State, loose: multiset<Ino>, d: Ino, n: Name) returns (e: Ino)
    requires Inv(s, loose) && Live(s, d) && n in s.g[d].kids && Dot(n)
    ensures e == s.g[d].kids[n] && Live(s, e) && s.g[d].kind == s.g[e].kind == Dir && Below(s, e, d)
    ensures n == "." ==> e == d
    ensures n == ".." && d != s.root ==> exists m :: (e, m) in Links(s.g, d)
    ensures n == ".." && d == s.root ==> e == d
  {
    hide Sound, RefsOk, NumOk, Settled, Under, Links;
    ClosedAt(s, loose, d);
    RootFacts(s.g, s.root);
    SelfBelow(s, d);
    e := s.g[d].kids[n];
    if n == ".." && d != s.root {
      var q := OneHolder(s, loose, d);
      assert q == (e, q.1) && q in Links(s.g, d);
      SelfBelow(s, e);
      assert LinkMap(s.g)[d] == Links(s.g, d);
      if e != d {
        UnderStep(s.g, LinkMap(s.g), e, d);
      }
    }
  }

  /** A name held by garbage is freed, and the inode goes with it unless it is linked or open elsewhere. */
  lemma GarbageCollectKeeps(s: State, loose: multiset<Ino>, parent: Ino, name: Name)
    requires Inv(s, loose) && Live(s, parent) && s.g[parent].kind == Dir && !Dot(name) && name in s.g[parent].kids
    ensures Wf(s) && s.g[parent].kids[name] in s.g
    ensures var ((s1, rc), child) := (GarbageCollect(s, parent, name), s.g[parent].kids[name]);
      Inv(s1, loose) &&
      (if !s.g[child].deleting then s1 == s && rc == EEXIST
       else
         name !in s1.g[parent].kids && Live(s1, parent) && s1.g[parent].kind == Dir &&
         rc == (if s.g[child].links == 1 && s.opens[child] == 0 then 1 else 0) && (child in s1.g <==> rc == 0) &&
         (child in s1.g ==> s1.g[child].links == s.g[child].links - 1 && s1.opens[child] == s.opens[child]))
  {
    hide Sound, RefsOk, Settled, NumOk, RealNames;
    MidFacts(s, loose, {}, parent);
    var child := s.g[parent].kids[name];
    MidFacts(s, loose, {}, child);
    if s.g[child].deleting {
      EmptyHasNoNames(s.g[child]);
      DetachMid(s, loose, {}, parent, name);
      var s1 := Detach(s, parent, name).0;
      TryDestroyMid(s1, loose, {child}, child);
      var (s2, destroyed) := TryDestroy(s1, child);
      if destroyed {
        NumMid(s2, loose, {}, parent, s2.num[parent] - 1);
      }
    }
  }

  lemma DotsTaken(s: State, loose: multiset<Ino>, d: Ino, name: Name)
    requires Inv(s, loose) && d in s.g && s.g[d].kind == Dir && Dot(name)
    ensures name in s.g[d].kids
  {
  }

  /** The name is free or garbage holds it. */
  predicate Vacant(s: State, parent: Ino, name: Name)
    requires parent in s.g
  {
    name in s.g[parent].kids ==> s.g[parent].kids[name] in s.g && s.g[s.g[parent].kids[name]].deleting
  }

  /** A name is free for a new inode exactly when nothing but garbage holds it; EIO never comes up. */
  lemma FreeNameKeeps(s: State, loose: multiset<Ino>, parent: Ino, name: Name)
    requires Inv(s, loose) && Live(s, parent) && s.g[parent].kind == Dir
    ensures Wf(s)
    ensures var (s1, rc) := FreeName(s, parent, name);
      Inv(s1, loose) &&
      if Vacant(s, parent, name) then
        rc == 0 && !Dot(name) && name !in s1.g[parent].kids && Live(s1, parent) && s1.g[parent].kind == Dir
      else rc == EEXIST && s1 == s
  {
    hide Sound, RefsOk, Settled, NumOk, RealNames, Below, Links;
    MidFacts(s, loose, {}, parent);
    if Dot(name) {
      DotsTaken(s, loose, parent, name);
      var e := DotLeads(s, loose, parent, name);
    } else if name in s.g[parent].kids {
      GarbageCollectKeeps(s, loose, parent, name);
    }
  }

  /** Attach an inode that was just added. */
  lemma AttachNew(s: State, loose: multiset<Ino>, parent: Ino, name: Name, e: Ino, r: Rec, opens: int)
    requires Inv(s, loose) && Live(s, parent) && s.g[parent].kind == Dir && !Dot(name) && name !in s.g[parent].kids
    requires e !in s.g && FreshRec(e, r) && 0 <= opens <= 1
    ensures Inv(Attach(Add(s, e, r, opens), parent, e, name), if opens == 1 then loose + multiset{e} else loose)
  {
    hide Sound, RefsOk, Settled, NumOk, Under;
    AddMid(s, loose, {}, e, r, opens);
    var s1 := Add(s, e, r, opens);
    assert e != s.root by {
      RootFacts(s.g, s.root);
    }
    EmptyNotAbove(s1.g, s1.root, e, parent);
    AttachMid(s1, if opens == 1 then loose + multiset{e} else loose, {} + {e}, parent, e, name);
    assert {} + {e} - {e} == {};
  }

  /** mkdir succeeds exactly when the name is vacant in a writable directory. */
  lemma MkdirKeeps(s: State, loose: multiset<Ino>, parent: Ino, name: Name, writable: bool, e: Ino, cb: int)
    requires Inv(s, loose) && Live(s, parent) && e !in s.g
    ensures Wf(s)
    ensures var (s', rc) := Mkdir(s, parent, name, writable, e, cb);
      Inv(s', loose) && (rc == 0 <==> s.g[parent].kind == Dir && writable && cb == 0 && Vacant(s, parent, name))
  {
    hide Inv, Wf, FreeName, Attach, Add, Vacant;
    InvWf(s, loose);
    if s.g[parent].kind == Dir && writable {
      FreeNameKeeps(s, loose, parent, name);
      var (s1, rc) := FreeName(s, parent, name);
      if rc == 0 && cb == 0 {
        AttachNew(s1, loose, parent, name, e, NewDir(e, parent), 0);
      }
    }
  }

  /** name in parent leads to e, which is as r says. */
  predicate Bound(s: State, parent: Ino, name: Name, e: Ino, r: Rec)
  {
    parent in s.g && name in s.g[parent].kids && s.g[parent].kids[name] == e && e in s.g && s.g[e] == r
  }

  lemma AttachBinds(s: State, parent: Ino, name: Name, e: Ino, r: Rec, opens: int)
    requires Keyed(s) && parent in s.g && e != parent && (r.kind == Dir ==> r.kids == map["." := e, ".." := parent])
    ensures Bound(Attach(Add(s, e, r, opens), parent, e, name), parent, name, e, r.(links := r.links + 1))
  {
    if r.kind == Dir {
      assert r.kids[".." := parent] == r.kids;
    }
  }

  /** mkdir binds a fresh directory to a vacant name, even if garbage held it. */
  lemma MkdirBinds(s: State, loose: multiset<Ino>, parent: Ino, name: Name, e: Ino)
    requires Inv(s, loose) && Live(s, parent) && s.g[parent].kind == Dir && Vacant(s, parent, name) && e !in s.g
    ensures Wf(s)
    ensures Bound(Mkdir(s, parent, name, true, e, 0).0, parent, name, e, NewDir(e, parent).(links := 1))
  {
    hide Inv, Wf, FreeName, GarbageCollect, Attach, Add, Vacant;
    FreeNameKeeps(s, loose, parent, name);
    AttachBinds(FreeName(s, parent, name).0, parent, name, e, NewDir(e, parent), 0);
  }

  /** References that a call leaves behind without a handle: a file whose truncation failed right after create. */
  function Leaked(s: State, parent: Ino, name: Name, a: OpenArgs): (leaked: multiset<Ino>)
    requires parent in s.g
  {
    if a.flagsOk && s.g[parent].kind == Dir && a.searchable && a.creat && a.writable && a.createCb == 0 && a.trunc &&
       a.truncCb != 0 && Vacant(s, parent, name)
    then multiset{a.e} else multiset{}
  }

  lemma DoCreateKeeps(s: State, loose: multiset<Ino>, parent: Ino, name: Name, a: OpenArgs)
    requires Inv(s, loose) && Live(s, parent) && s.g[parent].kind == Dir && !Dot(name) && name !in s.g[parent].kids
    requires a.e !in s.g && a.h !in s.handles
    ensures var s' := DoCreate(s, parent, name, a).0;
      Inv(s', loose + if a.createCb == 0 && a.trunc && a.truncCb != 0 then multiset{a.e} else multiset{})
  {
    hide Sound, RefsOk, Settled, NumOk, RealNames;
    if a.createCb == 0 {
      AttachNew(s, loose, parent, name, a.e, NewFile, 1);
      var s1 := Attach(Add(s, a.e, NewFile, 1), parent, a.e, name);
      if !(a.trunc && a.truncCb != 0) {
        HandleMid(s1, loose + multiset{a.e}, {}, a.h, a.e);
        assert loose + multiset{a.e} - multiset{a.e} == loose + multiset{};
      }
    } else {
      assert loose + multiset{} == loose;
    }
  }

  lemma UnrefRef(s: State, e: Ino)
    requires Keyed(s) && e in s.g && s.g[e].links > 0
    ensures Unref(Ref(s, e), e) == s
  {
    assert s.opens[e := s.opens[e] + 1][e := s.opens[e]] == s.opens;
  }

  /** A reference that a new handle takes over. */
  lemma OpenRefKeeps(s: State, loose: multiset<Ino>, e: Ino, h: nat)
    requires Inv(s, loose) && e in s.g && h !in s.handles
    ensures Inv(Ref(s, e).(handles := s.handles[h := e]), loose)
    ensures s.g[e].links > 0 ==> Unref(Ref(s, e), e) == s
  {
    hide Sound, RefsOk, Settled, NumOk;
    RefMid(s, loose, {}, e);
    HandleMid(Ref(s, e), loose + multiset{e}, {}, h, e);
    assert loose + multiset{e} - multiset{e} == loose;
    if s.g[e].links > 0 {
      UnrefRef(s, e);
    }
  }

  /** Opening what is there. */
  lemma DoOpenKeeps(s: State, loose: multiset<Ino>, parent: Ino, name: Name, a: OpenArgs)
    requires Inv(s, loose) && Live(s, parent) && name in s.g[parent].kids && a.h !in s.handles
    ensures s.g[parent].kids[name] in s.g && Inv(DoOpen(s, s.g[parent].kids[name], a).0, loose)
  {
    hide Sound, RefsOk, Settled, NumOk, RealNames, Ref, Unref;
    MidFacts(s, loose, {}, parent);
    var child := s.g[parent].kids[name];
    MidFacts(s, loose, {}, child);
    OpenRefKeeps(s, loose, child, a.h);
  }

  /** open keeps the invariant; the one reference it can leave behind is that of a created file that is not truncated. */
  lemma OpenKeeps(s: State, loose: multiset<Ino>, parent: Ino, name: Name, a: OpenArgs)
    requires Inv(s, loose) && Live(s, parent) && a.e !in s.g && a.h !in s.handles
    ensures Wf(s) && Inv(Open(s, parent, name, a).0, loose + Leaked(s, parent, name, a))
  {
    hide Inv, DoOpen, DoCreate, FreeName;
    InvWf(s, loose);
    assert loose + multiset{} == loose;
    if a.flagsOk && s.g[parent].kind == Dir && a.searchable {
      if a.creat && a.writable {
        FreeNameKeeps(s, loose, parent, name);
        var (s1, rc) := FreeName(s, parent, name);
        if rc == 0 {
          DoCreateKeeps(s1, loose, parent, name, a);
        }
      } else if !a.creat && name in s.g[parent].kids {
        DoOpenKeeps(s, loose, parent, name, a);
      }
    }
  }

  /** open with O_CREAT binds a fresh file, held by the new handle alone, to a vacant name. */
  lemma CreateBinds(s: State, loose: multiset<Ino>, parent: Ino, name: Name, a: OpenArgs)
    requires Inv(s, loose) && Live(s, parent) && s.g[parent].kind == Dir && Vacant(s, parent, name)
    requires a.flagsOk && a.creat && a.searchable && a.writable && a.createCb == 0 && (a.trunc ==> a.truncCb == 0)
    requires a.e !in s.g && a.h !in s.handles
    ensures Wf(s)
    ensures var (s', rc) := Open(s, parent, name, a);
      rc == 0 && Bound(s', parent, name, a.e, NewFile.(links := 1)) && a.h in s'.handles && s'.handles[a.h] == a.e &&
      a.e in s'.opens && s'.opens[a.e] == 1
  {
    hide Inv, FreeName, GarbageCollect;
    FreeNameKeeps(s, loose, parent, name);
    AttachBinds(FreeName(s, parent, name).0, parent, name, a.e, NewFile, 1);
  }

  lemma OpendirKeeps(s: State, loose: multiset<Ino>, e: Ino, h: nat, cb: int)
    requires Inv(s, loose) && Live(s, e) && h !in s.handles
    ensures Inv(Opendir(s, e, h, cb).0, loose)
  {
    hide Inv, Ref, Unref;
    InvWf(s, loose);
    OpenRefKeeps(s, loose, e, h);
  }

  /** close and closedir destroy the inode exactly when that was the last reference and no name is left. */
  lemma CloseKeeps(s: State, loose: multiset<Ino>, h: nat, cb: int)
    requires Inv(s, loose)
    ensures h in s.handles ==> s.handles[h] in s.g
    ensures var (s', rc) := Close(s, h, cb);
      Inv(s', loose) && (rc == 0 <==> h in s.handles && cb == 0) && (rc != 0 ==> s' == s) &&
      (rc == 0 ==> h !in s'.handles && var e := s.handles[h]; (e !in s'.g <==> s.g[e].links == 0 && s.opens[e] == 1))
  {
    hide Sound, Settled, NumOk;
    if h in s.handles && cb == 0 {
      var e := s.handles[h];
      MidFacts(s, loose, {}, e);
      UnhandleMid(s, loose, {}, h);
      assert {} - {e} == {};
      UnrefMid(s.(handles := s.handles - {h}), loose + multiset{e}, {}, e);
      assert loose + multiset{e} - multiset{e} == loose;
    }
  }

  /** Attaching a name and detaching it again changes nothing. */
  lemma AttachDetach(s: State, e: Ino, parent: Ino, name: Name)
    requires Keyed(s) && e in s.g && parent in s.g && s.g[e].kind != Dir && e != parent && name !in s.g[parent].kids && !Dot(name)
    requires s.g[e].links >= 0
    ensures Detach(Attach(s, parent, e, name), parent, name) == (s, 0)
  {
    var s1 := Attach(s, parent, e, name);
    assert s1.g[parent].kids - {name} == s.g[parent].kids;
    assert DetachG(s1.g, parent, name) == s.g;
    assert s1.num[parent := s1.num[parent] - 1] == s.num;
  }

  /** link binds the new name exactly when nothing objects, and else leaves everything as it was. */
  lemma LinkKeeps(s: State, loose: multiset<Ino>, e: Ino, parent: Ino, name: Name, writable: bool, cb: int)
    requires Inv(s, loose) && Live(s, e) && Live(s, parent)
    ensures Wf(s)
    ensures var (s', rc) := Link(s, e, parent, name, writable, cb);
      Inv(s', loose) &&
      (rc == 0 <==> s.g[e].kind != Dir && s.g[parent].kind == Dir && writable && name !in s.g[parent].kids && cb == 0) &&
      if rc != 0 then s' == s
      else s'.opens == s.opens && Bound(s', parent, name, e, s.g[e].(links := s.g[e].links + 1))
  {
    hide Inv, Unref, Attach, Detach;
    InvWf(s, loose);
    if s.g[e].kind != Dir && s.g[parent].kind == Dir && writable && name !in s.g[parent].kids {
      if Dot(name) {
        DotsTaken(s, loose, parent, name);
      }
      var s1 := Attach(s, parent, e, name);
      LinkAttach(s, loose, e, parent, name);
      LinkBinds(s, e, parent, name);
      UnrefRef(s1, e);
      if cb != 0 {
        AttachDetach(Ref(s, e), e, parent, name);
        UnrefRef(s, e);
      }
    }
  }

  lemma LinkBinds(s: State, e: Ino, parent: Ino, name: Name)
    requires Keyed(s) && e in s.g && parent in s.g && s.g[e].kind != Dir && e != parent
    ensures var s1 := Attach(s, parent, e, name);
      s1.opens == s.opens && Bound(s1, parent, name, e, s.g[e].(links := s.g[e].links + 1)) &&
      Ref(s1, e) == Attach(Ref(s, e), parent, e, name)
  {
  }

  lemma LinkAttach(s: State, loose: multiset<Ino>, e: Ino, parent: Ino, name: Name)
    requires Inv(s, loose) && Live(s, e) && Live(s, parent) && s.g[e].kind != Dir && s.g[parent].kind == Dir
    requires name !in s.g[parent].kids && !Dot(name)
    ensures Inv(Attach(s, parent, e, name), loose)
  {
    hide Sound, RefsOk, Settled, NumOk, AttachG;
    assert GoneIsEmpty(s.g[e]) by {
      MidFacts(s, loose, {}, e);
    }
    assert e != s.root by {
      RootFacts(s.g, s.root);
    }
    AttachMid(s, loose, {}, parent, e, name);
    assert {} - {e} == {};
  }
}
