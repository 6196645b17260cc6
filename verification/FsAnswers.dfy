/** What every API call answers, and what it changes, told from the state before the call and its arguments alone. */
module FsAnswers {
  import opened Names
  import opened Wrappers
  import opened FsGraph
  import opened Fs
  import opened FsInvariant
  import opened FsCalls
  import opened FsRemove
  import opened FsRename

  // ---------- a name that goes, and a name that comes ----------

  predicate LastHold(s: State, e: Ino)
    requires Keyed(s) && e in s.g
  {
    s.g[e].links == 1 && s.opens[e] == 0
  }

  /** s' is s without a name; the parent counts k children less. */
  ghost predicate Unnamed(s: State, s': State, parent: Ino, name: Name, k: int)
    requires Keyed(s) && parent in s.g && name in s.g[parent].kids
  {
    NameRemoved(s, s', parent, name, s.g[parent].kids[name]) && s'.root == s.root &&
    forall x :: x in s'.g ==> s'.num[x] == s.num[x] - if x == parent then k else 0
  }

  /** s with a fresh inode e, named for the first time and open as often as opens says. */
  function WithNew(s: State, parent: Ino, name: Name, e: Ino, r: Rec, opens: int): (s': State)
    requires Keyed(s) && parent in s.g
    ensures Keyed(s')
  {
    s.(g := s.g[e := r.(links := 1)][parent := s.g[parent].(kids := s.g[parent].kids[name := e])],
       opens := s.opens[e := opens], num := s.num[e := 0][parent := s.num[parent] + 1])
  }

  lemma AttachesNew(s: State, parent: Ino, name: Name, e: Ino, r: Rec, opens: int)
    requires Keyed(s) && parent in s.g && e !in s.g && r.links == 0
    requires r.kind == Dir ==> r.kids == map["." := e, ".." := parent]
    ensures Attach(Add(s, e, r, opens), parent, e, name) == WithNew(s, parent, name, e, r, opens)
  {
    if r.kind == Dir {
      assert r.kids[".." := parent] == r.kids;
    }
  }

  lemma DetachDestroyNum(s: State, parent: Ino, name: Name)
    requires Keyed(s) && parent in s.g && name in s.g[parent].kids && s.g[parent].kids[name] in s.g
    requires s.g[parent].kids[name] != parent && Detach(s, parent, name).1 == 0
    ensures var s' := TryDestroy(Detach(s, parent, name).0, s.g[parent].kids[name]).0;
      Keyed(s') && s'.root == s.root && forall x :: x in s'.g ==> x in s.g && s'.num[x] == s.num[x] - if x == parent then 1 else 0
  {
  }

  lemma Removed(s: State, loose: multiset<Ino>, parent: Ino, name: Name)
    requires Inv(s, loose) && parent in s.g && name in s.g[parent].kids && !Dot(name) && Detach(s, parent, name).1 == 0
    ensures s.g[parent].kids[name] in s.g
    ensures Unnamed(s, TryDestroy(Detach(s, parent, name).0, s.g[parent].kids[name]).0, parent, name, 1)
  {
    hide Inv, Detach, TryDestroy, NameRemoved;
    InvWf(s, loose);
    ChildFacts(s, loose, parent, name);
    DetachDestroyRemoves(s, parent, name);
    DetachDestroyNum(s, parent, name);
  }

  /** What mkdir and open leave of a name that was free, or held by garbage: it is free. */
  ghost predicate Freed(s: State, mid: State, parent: Ino, name: Name)
    requires Keyed(s) && parent in s.g
  {
    if name in s.g[parent].kids then
      s.g[parent].kids[name] in s.g && Unnamed(s, mid, parent, name, if LastHold(s, s.g[parent].kids[name]) then 2 else 1)
    else mid == s
  }

  lemma FinishCounts(s: State, parent: Ino, child: Ino)
    requires Keyed(s) && parent in s.g && child in s.g && parent != child
    ensures var ((s1, rc), s2) := (FinishCollect(s, parent, child), TryDestroy(s, child).0);
      s1.root == s2.root && s1.g == s2.g && s1.opens == s2.opens && s1.handles == s2.handles && Keyed(s2) &&
      forall x :: x in s1.g ==> s1.num[x] == s2.num[x] - if x == parent && child !in s2.g then 1 else 0
  {
  }

  lemma CollectsName(s: State, loose: multiset<Ino>, parent: Ino, name: Name)
    requires Inv(s, loose) && Live(s, parent) && s.g[parent].kind == Dir && !Dot(name) && name in s.g[parent].kids
    requires s.g[parent].kids[name] in s.g && s.g[s.g[parent].kids[name]].deleting
    ensures Wf(s) && Freed(s, GarbageCollect(s, parent, name).0, parent, name)
  {
    hide Sound, RefsOk, NumOk, Settled, Detach, TryDestroy, FinishCollect, RealNames, NameRemoved;
    var child := s.g[parent].kids[name];
    InvWf(s, loose);
    GarbageDetaches(s, loose, parent, name);
    Removed(s, loose, parent, name);
    FinishCounts(Detach(s, parent, name).0, parent, child);
    SameBut(s, TryDestroy(Detach(s, parent, name).0, child).0, GarbageCollect(s, parent, name).0, parent, name);
  }

  lemma GarbageDetaches(s: State, loose: multiset<Ino>, parent: Ino, name: Name)
    requires Inv(s, loose) && parent in s.g && !Dot(name) && name in s.g[parent].kids
    requires s.g[parent].kids[name] in s.g && s.g[s.g[parent].kids[name]].deleting
    ensures Detach(s, parent, name).1 == 0 && s.g[parent].kids[name] != parent
  {
    hide Sound, RefsOk, Settled;
    var child := s.g[parent].kids[name];
    ChildFacts(s, loose, parent, name);
    MidFacts(s, loose, {}, child);
    EmptyHasNoNames(s.g[child]);
    DetachOk(s, parent, name);
  }

  lemma SameBut(s: State, s2: State, s1: State, parent: Ino, name: Name)
    requires Keyed(s) && parent in s.g && name in s.g[parent].kids && s.g[parent].kids[name] in s.g
    requires Unnamed(s, s2, parent, name, 1) && Keyed(s1)
    requires s1.root == s2.root && s1.g == s2.g && s1.opens == s2.opens && s1.handles == s2.handles
    requires forall x :: x in s1.g ==> s1.num[x] == s2.num[x] - if x == parent && s.g[parent].kids[name] !in s2.g then 1 else 0
    ensures Freed(s, s1, parent, name)
  {
  }

  lemma FreesName(s: State, loose: multiset<Ino>, parent: Ino, name: Name) returns (mid: State)
    requires Inv(s, loose) && Live(s, parent) && s.g[parent].kind == Dir
    ensures Wf(s) && FreeName(s, parent, name) == if Vacant(s, parent, name) then (mid, 0) else (s, EEXIST)
    ensures Vacant(s, parent, name) ==> !Dot(name) && Freed(s, mid, parent, name) && Keyed(mid) && parent in mid.g
    ensures Vacant(s, parent, name) ==> mid.g.Keys <= s.g.Keys && mid.handles == s.handles && name !in mid.g[parent].kids
  {
    hide Inv, GarbageCollect, NameRemoved;
    FreeNameKeeps(s, loose, parent, name);
    mid := FreeName(s, parent, name).0;
    if Vacant(s, parent, name) && name in s.g[parent].kids {
      CollectsName(s, loose, parent, name);
    }
  }

  // ---------- the calls ----------

  /** mkdir: every answer, and the whole state after it. mid is the state once the name is free. */
  lemma MkdirAnswers(s: State, loose: multiset<Ino>, parent: Ino, name: Name, writable: bool, e: Ino, cb: int) returns (mid: State)
    requires Inv(s, loose) && Live(s, parent) && e !in s.g
    ensures Wf(s)
    ensures var (s', rc) := Mkdir(s, parent, name, writable, e, cb);
      var (dir, vacant) := (s.g[parent].kind == Dir, Vacant(s, parent, name));
      (!dir ==> (s', rc) == (s, ENOTDIR)) &&
      (dir && !writable ==> (s', rc) == (s, EACCES)) &&
      (dir && writable && !vacant ==> (s', rc) == (s, EEXIST)) &&
      (dir && writable && vacant ==>
         Freed(s, mid, parent, name) && rc == cb && Keyed(mid) && parent in mid.g &&
         s' == if cb == 0 then WithNew(mid, parent, name, e, NewDir(e, parent), 0) else mid)
  {
    hide Inv, FreeName, Attach, Add, Vacant, Freed, WithNew;
    InvWf(s, loose);
    mid := s;
    if s.g[parent].kind == Dir && writable {
      mid := FreesName(s, loose, parent, name);
      if Vacant(s, parent, name) {
        AttachesNew(mid, parent, name, e, NewDir(e, parent), 0);
      }
    }
  }

  /** open with O_CREAT: every answer, and the whole state after it. */
  lemma CreateAnswers(s: State, loose: multiset<Ino>, parent: Ino, name: Name, a: OpenArgs) returns (mid: State)
    requires Inv(s, loose) && Live(s, parent) && a.creat && a.e !in s.g
    ensures Wf(s)
    ensures var (s', rc) := Open(s, parent, name, a);
      var (dir, may, vacant) := (s.g[parent].kind == Dir, a.searchable && a.writable, Vacant(s, parent, name));
      (!a.flagsOk ==> (s', rc) == (s, EINVAL)) &&
      (a.flagsOk && !dir ==> (s', rc) == (s, ENOTDIR)) &&
      (a.flagsOk && dir && !may ==> (s', rc) == (s, EACCES)) &&
      (a.flagsOk && dir && may && !vacant ==> (s', rc) == (s, EEXIST)) &&
      (a.flagsOk && dir && may && vacant ==> Freed(s, mid, parent, name) && Keyed(mid) && parent in mid.g) &&
      (a.flagsOk && dir && may && vacant ==>
         (a.createCb != 0 ==> (s', rc) == (mid, a.createCb)) &&
         (a.createCb == 0 && a.trunc && a.truncCb != 0 ==> (s', rc) == (WithNew(mid, parent, name, a.e, NewFile, 1), a.truncCb)) &&
         (a.createCb == 0 && (a.trunc ==> a.truncCb == 0) ==>
            rc == 0 && s' == WithNew(mid, parent, name, a.e, NewFile, 1).(handles := s.handles[a.h := a.e])))
  {
    hide Inv, FreeName, Attach, Add, Vacant, Freed, WithNew;
    InvWf(s, loose);
    mid := s;
    if a.flagsOk && s.g[parent].kind == Dir && a.searchable && a.writable {
      mid := FreesName(s, loose, parent, name);
      if Vacant(s, parent, name) {
        AttachesNew(mid, parent, name, a.e, NewFile, 1);
        NewHandles(mid, parent, name, a.e, NewFile, 1);
      }
    }
  }

  lemma NewHandles(s: State, parent: Ino, name: Name, e: Ino, r: Rec, opens: int)
    requires Keyed(s) && parent in s.g
    ensures WithNew(s, parent, name, e, r, opens).handles == s.handles
  {
  }

  /** s with one more handle on e. */
  function WithHandle(s: State, h: nat, e: Ino): State
    requires Keyed(s) && e in s.g
  {
    s.(opens := s.opens[e := s.opens[e] + 1], handles := s.handles[h := e])
  }

  lemma RefsAndHandles(s: State, h: nat, e: Ino)
    requires Keyed(s) && e in s.g
    ensures Ref(s, e).(handles := Ref(s, e).handles[h := e]) == WithHandle(s, h, e) && Ref(s, e).handles == s.handles
    ensures s.g[e].links > 0 ==> Unref(Ref(s, e), e) == s
  {
    if s.g[e].links > 0 {
      UnrefRef(s, e);
    }
  }

  /** open without O_CREAT: it succeeds exactly when nothing objects, and then the handle is on the file that the name
      leads to, and counted; a call that fails changes nothing. */
  lemma OpenAnswers(s: State, loose: multiset<Ino>, parent: Ino, name: Name, a: OpenArgs)
    requires Inv(s, loose) && Live(s, parent) && !a.creat
    ensures Wf(s) && (name in s.g[parent].kids ==> s.g[parent].kids[name] in s.g)
    ensures var ((s', rc), there) := (Open(s, parent, name, a), name in s.g[parent].kids);
      (rc == 0 <==> a.flagsOk && s.g[parent].kind == Dir && a.searchable && there && Live(s, s.g[parent].kids[name]) &&
                    s.g[s.g[parent].kids[name]].kind != Dir && a.mayOpen && (a.trunc ==> a.truncCb == 0) && a.openCb == 0) &&
      (rc == 0 ==> s' == WithHandle(s, a.h, s.g[parent].kids[name])) && (rc != 0 ==> s' == s)
    ensures var ((s', rc), may) := (Open(s, parent, name, a), a.flagsOk && s.g[parent].kind == Dir && a.searchable);
      (!a.flagsOk ==> rc == EINVAL) && (a.flagsOk && s.g[parent].kind != Dir ==> rc == ENOTDIR) &&
      (a.flagsOk && s.g[parent].kind == Dir && !a.searchable ==> rc == EACCES) &&
      (may && name !in s.g[parent].kids ==> rc == ENOENT) &&
      (may && name in s.g[parent].kids ==>
         var child := s.g[s.g[parent].kids[name]];
         if a.trunc && a.truncCb != 0 then rc == a.truncCb
         else (child.deleting ==> rc == ENOENT) && (!child.deleting && child.kind == Dir ==> rc == EISDIR) &&
              (!child.deleting && child.kind != Dir && !a.mayOpen ==> rc == EACCES) &&
              (!child.deleting && child.kind != Dir && a.mayOpen ==> rc == a.openCb))
  {
    hide Sound, RefsOk, NumOk, Settled, Ref, Unref, WithHandle;
    InvWf(s, loose);
    if name in s.g[parent].kids {
      var child := s.g[parent].kids[name];
      NamedIsLinked(s, loose, parent, name);
      RefsAndHandles(s, a.h, child);
    }
  }

  lemma NamedIsLinked(s: State, loose: multiset<Ino>, parent: Ino, name: Name)
    requires Inv(s, loose) && Live(s, parent) && name in s.g[parent].kids
    ensures s.g[parent].kids[name] in s.g && s.g[s.g[parent].kids[name]].links > 0
  {
    hide Inv, Below, Links;
    if Dot(name) {
      var e := DotLeads(s, loose, parent, name);
    } else {
      ChildFacts(s, loose, parent, name);
    }
  }

  /** opendir: the same for directories. */
  lemma OpendirAnswers(s: State, loose: multiset<Ino>, e: Ino, h: nat, cb: int)
    requires Inv(s, loose) && Live(s, e)
    ensures Keyed(s)
    ensures var (s', rc) := Opendir(s, e, h, cb);
      (rc == 0 <==> s.g[e].kind == Dir && cb == 0) && (s.g[e].kind != Dir ==> rc == ENOTDIR) && (s.g[e].kind == Dir ==> rc == cb) &&
      s' == if rc == 0 then WithHandle(s, h, e) else s
  {
    hide Inv, Ref, Unref, WithHandle;
    InvWf(s, loose);
    RefsAndHandles(s, h, e);
  }

  /** close and closedir: the handle goes, with one reference, and with the inode exactly when nothing else holds it. */
  lemma CloseAnswers(s: State, loose: multiset<Ino>, h: nat, cb: int)
    requires Inv(s, loose)
    ensures Keyed(s) && (h in s.handles ==> s.handles[h] in s.g)
    ensures var (s', rc) := Close(s, h, cb);
      (h !in s.handles ==> (s', rc) == (s, EBADF)) && (h in s.handles ==> rc == cb && (cb != 0 ==> s' == s)) &&
      (h in s.handles && cb == 0 ==>
         var e := s.handles[h];
         s' == if s.g[e].links == 0 && s.opens[e] == 1 then
                 State(s.root, s.g - {e}, s.opens - {e}, s.num - {e}, s.handles - {h})
               else s.(opens := s.opens[e := s.opens[e] - 1], handles := s.handles - {h}))
  {
    hide Sound, NumOk, Settled;
    if h in s.handles {
      var e := s.handles[h];
      MidFacts(s, loose, {}, e);
      assert h in HandlesOf(s.handles, e);
      Unrefs(s, h);
    }
  }

  lemma Unrefs(s: State, h: nat)
    requires Keyed(s) && h in s.handles && s.handles[h] in s.g && s.g[s.handles[h]].links >= 0 && s.opens[s.handles[h]] > 0
    ensures var e := s.handles[h];
      Unref(s.(handles := s.handles - {h}), e) ==
      if s.g[e].links == 0 && s.opens[e] == 1 then State(s.root, s.g - {e}, s.opens - {e}, s.num - {e}, s.handles - {h})
      else s.(opens := s.opens[e := s.opens[e] - 1], handles := s.handles - {h})
  {
    var e := s.handles[h];
    assert s.opens[e := s.opens[e] - 1] - {e} == s.opens - {e};
  }

  /** unlink: every answer, and the whole state after it. A dot name is never taken away, although unlink may answer 0. */
  lemma UnlinkAnswers(s: State, loose: multiset<Ino>, parent: Ino, name: Name)
    requires Inv(s, loose) && Live(s, parent)
    ensures Wf(s)
    ensures var ((s', rc), dir, there) := (Unlink(s, parent, name), s.g[parent].kind == Dir, name in s.g[parent].kids);
      (!dir ==> (s', rc) == (s, ENOTDIR)) && (dir && !there ==> (s', rc) == (s, ENOENT)) &&
      (dir && there ==>
         var child := s.g[parent].kids[name];
         var full := s.g[child].kind == Dir && s.num[child] > 2;
         (Dot(name) ==> (s', rc) == (s, if full || child == parent then ENOTEMPTY else 0)) &&
         (!Dot(name) && full ==> (s', rc) == (s, ENOTEMPTY)) &&
         (!Dot(name) && !full ==> rc == 0 && Unnamed(s, s', parent, name, 1)))
  {
    hide Inv, Detach, TryDestroy, Unnamed, Below, Links;
    InvWf(s, loose);
    if s.g[parent].kind == Dir && name in s.g[parent].kids {
      NamedIsLinked(s, loose, parent, name);
      DetachAnswers(s, parent, name);
      if Dot(name) {
        StaysLinked(s, s.g[parent].kids[name]);
        DotIsDir(s, loose, parent, name);
      } else {
        ChildFacts(s, loose, parent, name);
        if Detach(s, parent, name).1 == 0 {
          Removed(s, loose, parent, name);
        }
      }
    }
  }

  lemma DotIsDir(s: State, loose: multiset<Ino>, parent: Ino, name: Name)
    requires Inv(s, loose) && Live(s, parent) && name in s.g[parent].kids && Dot(name)
    ensures s.g[parent].kids[name] in s.g && s.g[s.g[parent].kids[name]].kind == Dir
  {
    hide Inv, Below, Links;
    var e := DotLeads(s, loose, parent, name);
  }

  lemma StaysLinked(s: State, e: Ino)
    requires Keyed(s) && e in s.g && s.g[e].links > 0
    ensures TryDestroy(s, e) == (s, false)
  {
  }

  lemma DetachAnswers(s: State, parent: Ino, name: Name)
    requires Keyed(s) && parent in s.g && name in s.g[parent].kids && s.g[parent].kids[name] in s.g
    ensures var ((s', rc), child) := (Detach(s, parent, name), s.g[parent].kids[name]);
      (rc != 0 ==> s' == s) &&
      rc == if child == parent || (s.g[child].kind == Dir && s.num[child] > 2) then ENOTEMPTY else if Dot(name) then ENOENT else 0
  {
  }

  /** rmdir: every answer, and the whole state after it. */
  lemma RmdirAnswers(s: State, loose: multiset<Ino>, parent: Ino, name: Name)
    requires Inv(s, loose) && Live(s, parent)
    ensures Wf(s)
    ensures var ((s', rc), dir, there) := (Rmdir(s, parent, name), s.g[parent].kind == Dir, name in s.g[parent].kids);
      (!dir ==> (s', rc) == (s, ENOTDIR)) && (dir && !there ==> (s', rc) == (s, ENOENT)) &&
      (dir && there ==>
         var child := s.g[s.g[parent].kids[name]];
         (child.kind != Dir ==> (s', rc) == (s, ENOTDIR)) &&
         (child.kind == Dir && (Dot(name) || !OnlyDots(child)) ==> (s', rc) == (s, ENOTEMPTY)) &&
         (child.kind == Dir && !Dot(name) && OnlyDots(child) ==> rc == 0 && Unnamed(s, s', parent, name, 1)))
  {
    hide Inv, Detach, TryDestroy, Unnamed, RealNames;
    InvWf(s, loose);
    if s.g[parent].kind == Dir && name in s.g[parent].kids {
      NamedIsLinked(s, loose, parent, name);
      if s.g[s.g[parent].kids[name]].kind == Dir {
        RmdirOfDir(s, loose, parent, name);
      }
    }
  }

  /** The entries of a directory, and what detaching it answers. */
  lemma RmdirOfDir(s: State, loose: multiset<Ino>, parent: Ino, name: Name)
    requires Inv(s, loose) && Live(s, parent) && s.g[parent].kind == Dir && name in s.g[parent].kids
    requires s.g[parent].kids[name] in s.g && s.g[s.g[parent].kids[name]].kind == Dir
    ensures var child := s.g[parent].kids[name];
      (|s.g[child].kids| > 2 <==> !OnlyDots(s.g[child])) && (Dot(name) && child != parent ==> !OnlyDots(s.g[child])) &&
      (Dot(name) && child == parent ==> Detach(s, parent, name) == (s, ENOTEMPTY)) &&
      (!Dot(name) && OnlyDots(s.g[child]) ==>
         Detach(s, parent, name).1 == 0 && Unnamed(s, TryDestroy(Detach(s, parent, name).0, child).0, parent, name, 1))
  {
    hide Sound, RefsOk, NumOk, Settled, Detach, TryDestroy, Unnamed, Below, Links;
    var child := s.g[parent].kids[name];
    EmptyCounts(s, loose, child);
    DetachAnswers(s, parent, name);
    if Dot(name) {
      if child != parent {
        var q := HolderOfDots(s, loose, parent, name);
      }
    } else {
      ChildFacts(s, loose, parent, name);
      if OnlyDots(s.g[child]) {
        Removed(s, loose, parent, name);
      }
    }
  }

  /** The other dot name of a directory leads to the one that holds it. */
  lemma HolderOfDots(s: State, loose: multiset<Ino>, d: Ino, n: Name) returns (q: Entry)
    requires Inv(s, loose) && Live(s, d) && s.g[d].kind == Dir && n in s.g[d].kids && Dot(n) && s.g[d].kids[n] != d
    ensures q.0 == s.g[d].kids[n] && q.0 in s.g && q.1 in s.g[q.0].kids && !Dot(q.1)
  {
    hide Inv, Below, Links;
    var e := DotLeads(s, loose, d, n);
    if d != s.root {
      q := OneHolder(s, loose, d);
    }
  }

  /** s with one more name, and link, for e. */
  function WithLink(s: State, e: Ino, parent: Ino, name: Name): State
    requires Keyed(s) && e in s.g && parent in s.g && e != parent
  {
    s.(g := s.g[e := s.g[e].(links := s.g[e].links + 1)][parent := s.g[parent].(kids := s.g[parent].kids[name := e])],
       num := s.num[parent := s.num[parent] + 1])
  }

  /** link: every answer, and the whole state after it. */
  lemma LinkAnswers(s: State, loose: multiset<Ino>, e: Ino, parent: Ino, name: Name, writable: bool, cb: int)
    requires Inv(s, loose) && Live(s, e) && Live(s, parent)
    ensures Wf(s)
    ensures var ((s', rc), file, dir) := (Link(s, e, parent, name, writable, cb), s.g[e].kind != Dir, s.g[parent].kind == Dir);
      (rc == 0 <==> file && dir && writable && name !in s.g[parent].kids && cb == 0) && (rc != 0 ==> s' == s) &&
      (!file ==> rc == EPERM) && (file && !dir ==> rc == ENOTDIR) && (file && dir && !writable ==> rc == EACCES) &&
      (file && dir && writable && name in s.g[parent].kids ==> rc == EEXIST) &&
      (file && dir && writable && name !in s.g[parent].kids ==> rc == cb) &&
      (rc == 0 ==> s' == WithLink(s, e, parent, name))
  {
    hide Inv, Link, Bound, WithLink;
    LinkKeeps(s, loose, e, parent, name, writable, cb);
    LinkErrors(s, e, parent, name, writable, cb);
    if s.g[e].kind != Dir && s.g[parent].kind == Dir && writable && name !in s.g[parent].kids && cb == 0 {
      LinkMakes(s, e, parent, name);
    }
  }

  lemma LinkErrors(s: State, e: Ino, parent: Ino, name: Name, writable: bool, cb: int)
    requires Wf(s) && Live(s, e) && Live(s, parent)
    ensures var (rc, file, dir) := (Link(s, e, parent, name, writable, cb).1, s.g[e].kind != Dir, s.g[parent].kind == Dir);
      (!file ==> rc == EPERM) && (file && !dir ==> rc == ENOTDIR) && (file && dir && !writable ==> rc == EACCES) &&
      (file && dir && writable && name in s.g[parent].kids ==> rc == EEXIST) &&
      (file && dir && writable && name !in s.g[parent].kids ==> rc == cb)
  {
    hide Attach, Detach, Ref, Unref;
  }

  lemma LinkMakes(s: State, e: Ino, parent: Ino, name: Name)
    requires Wf(s) && Live(s, e) && Live(s, parent) && s.g[e].kind != Dir && s.g[parent].kind == Dir && name !in s.g[parent].kids
    ensures Link(s, e, parent, name, true, 0).0 == WithLink(s, e, parent, name)
  {
    AttachesLink(s, e, parent, name);
    hide Attach, Detach, Ref, Unref, Wf;
  }

  lemma AttachesLink(s: State, e: Ino, parent: Ino, name: Name)
    requires Keyed(s) && e in s.g && parent in s.g && s.g[e].kind != Dir && e != parent && s.g[e].links > 0
    ensures Unref(Ref(Attach(s, parent, e, name), e), e) == WithLink(s, e, parent, name)
  {
    UnrefRef(Attach(s, parent, e, name), e);
  }

  // ---------- rename ----------

  /** The target, if there is one, may be replaced: within one directory, by an inode of its kind, and counting no
      children if it is a directory. */
  ghost predicate Replaceable(s: State, a: RenameArgs)
    requires RenameWf(s, a) && a.on in s.g[a.op].kids && a.nn in s.g[a.np].kids
  {
    var (old_, new_) := (s.g[a.op].kids[a.on], s.g[a.np].kids[a.nn]);
    a.op == a.np && old_ in s.g && new_ in s.g && s.g[old_].kind == s.g[new_].kind && (s.g[new_].kind == Dir ==> s.num[new_] <= 0)
  }

  /** rename: when it succeeds, and that it changes nothing when it fails, or when both names lead to one inode. */
  lemma RenameAnswers(s: State, a: RenameArgs)
    requires RenameWf(s, a)
    ensures var ((s', rc), old_, new_) := (Rename(s, a), a.on in s.g[a.op].kids, a.nn in s.g[a.np].kids);
      var same := old_ && new_ && s.g[a.op].kids[a.on] == s.g[a.np].kids[a.nn];
      (rc == 0 <==> a.permitted && old_ && (same || (a.cb == 0 && (new_ ==> Replaceable(s, a))))) && (rc != 0 || same ==> s' == s)
  {
    hide Accumulated, Swap;
    NamesLead(s, a);
    WayHasZero(a.way);
  }

  /** Which error it is. */
  lemma RenameErrors(s: State, a: RenameArgs)
    requires RenameWf(s, a)
    ensures var (rc, old_, new_) := (Rename(s, a).1, a.on in s.g[a.op].kids, a.nn in s.g[a.np].kids);
      (!a.permitted ==> rc == EACCES) && (a.permitted && !old_ ==> rc == ENOENT) && (a.permitted && old_ && !new_ ==> rc == a.cb) &&
      (a.permitted && old_ && new_ && s.g[a.op].kids[a.on] != s.g[a.np].kids[a.nn] ==>
         s.g[a.op].kids[a.on] in s.g && s.g[a.np].kids[a.nn] in s.g &&
         var (o, n) := (s.g[s.g[a.op].kids[a.on]], s.g[s.g[a.np].kids[a.nn]]);
         var full := n.kind == Dir && s.num[s.g[a.np].kids[a.nn]] > 0;
         (full ==> rc == ENOTEMPTY) && (!full && n.kind != o.kind ==> rc == if n.kind == Dir then EISDIR else ENOTDIR) &&
         (!full && n.kind == o.kind && a.op != a.np ==> rc == EINVAL) && (Replaceable(s, a) ==> rc == a.cb))
  {
    hide Accumulated, Swap;
    NamesLead(s, a);
    WayHasZero(a.way);
  }

  lemma WayHasZero(ids: seq<nat>)
    ensures ids != [] && Accumulated(ids).Some? ==> 0 in Accumulated(ids).value
  {
  }

  lemma DetachNum1(s: State, parent: Ino, name: Name, x: Ino)
    requires Keyed(s) && parent in s.g && name in s.g[parent].kids && s.g[parent].kids[name] in s.g && x in s.g
    ensures var (s', rc) := Detach(s, parent, name); s'.num[x] == s.num[x] - if rc == 0 && x == parent then 1 else 0
  {
  }

  lemma AttachNum1(s: State, parent: Ino, child: Ino, name: Name, x: Ino)
    requires Keyed(s) && parent in s.g && child in s.g && x in s.g
    ensures Attach(s, parent, child, name).num[x] == s.num[x] + if x == parent then 1 else 0
  {
  }

  lemma DestroyNum1(s: State, e: Ino, x: Ino)
    requires Keyed(s) && x in TryDestroy(s, e).0.g
    ensures x in s.g && TryDestroy(s, e).0.num[x] == s.num[x]
  {
  }

  /** The counts of children after a safe rename: one more in the new parent, one less in the old one, and one less for a
      target. */
  lemma RenameCounts(s: State, loose: multiset<Ino>, a: RenameArgs, x: Ino)
    requires Inv(s, loose) && RenameWf(s, a) && Proceeds(s, a) && Safe(s, a) && x in Rename(s, a).0.g
    ensures Keyed(Rename(s, a).0) && x in s.g
    ensures Rename(s, a).0.num[x] ==
      s.num[x] + (if x == a.np && a.nn !in s.g[a.np].kids then 1 else 0) - if x == a.op then 1 else 0
  {
    hide Inv, Detach, Attach, TryDestroy, Accumulated, Below;
    NamesLead(s, a);
    GoesThrough(s, loose, a);
    var s1, old_ := Detach(s, a.op, a.on).0, s.g[a.op].kids[a.on];
    if a.nn in s.g[a.np].kids {
      var new_ := s.g[a.np].kids[a.nn];
      SecondDetach(s, a);
      FirstAt(s, loose, a, a.np, a.nn);
      assert Replaced(s, a).g.Keys == s.g.Keys;
      var s2 := Detach(s1, a.np, a.nn).0;
      DestroyNum1(Attach(s2, a.np, old_, a.nn), new_, x);
      AttachNum1(s2, a.np, old_, a.nn, x);
      DetachNum1(s1, a.np, a.nn, x);
    } else {
      AttachNum1(s1, a.np, old_, a.nn, x);
    }
    DetachNum1(s, a.op, a.on, x);
  }
}
