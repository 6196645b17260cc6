/** The API calls of fskit as steps over inodes, reference counts and handles. */
module Fs {
  import opened Names
  import opened Wrappers
  import opened FsGraph

  /** opens and num are the inodes' open_count and num_children; handles are the open handles. */
  datatype State = State(root: Ino, g: Graph, opens: map<Ino, int>, num: map<Ino, int>, handles: map<nat, Ino>)

  ghost predicate Keyed(s: State)
  {
    s.opens.Keys == s.g.Keys && s.num.Keys == s.g.Keys
  }

  /** Entries name inodes that are there; the dot entries do as long as their directory has a name. */
  ghost predicate Wf(s: State)
  {
    Keyed(s) && (forall d, n :: d in s.g && n in s.g[d].kids && !Dot(n) ==> s.g[d].kids[n] in s.g) &&
    forall d :: d in s.g && s.g[d].links > 0 ==> forall n :: n in s.g[d].kids ==> s.g[d].kids[n] in s.g
  }

  /** What resolving a path returns: neither unlinked nor garbage. */
  predicate Live(s: State, e: Ino)
  {
    e in s.g && !s.g[e].deleting && s.g[e].links > 0
  }

  /** All that a state says of one inode. */
  datatype Cell = Cell(rec: Rec, opens: int, num: int)

  function At(s: State, e: Ino): Option<Cell>
    requires Keyed(s)
  {
    if e in s.g then Some(Cell(s.g[e], s.opens[e], s.num[e])) else None
  }

  lemma SameState(r: State, r': State)
    requires Keyed(r) && Keyed(r') && r.root == r'.root && r.handles == r'.handles && forall e :: At(r, e) == At(r', e)
    ensures r == r'
  {
    forall e ensures e in r.g <==> e in r'.g {
      assert At(r, e) == At(r', e);
    }
    forall e | e in r.g ensures r.g[e] == r'.g[e] && r.opens[e] == r'.opens[e] && r.num[e] == r'.num[e] {
      assert At(r, e) == At(r', e);
    }
    assert r.g == r'.g && r.opens == r'.opens && r.num == r'.num;
  }

  // ---------- low-level steps ----------

  function Attach(s: State, parent: Ino, child: Ino, name: Name): (s': State)
    requires Keyed(s) && parent in s.g && child in s.g
    ensures Keyed(s') && s'.g.Keys == s.g.Keys
  {
    s.(g := AttachG(s.g, parent, child, name), num := s.num[parent := s.num[parent] + 1])
  }

  function Detach(s: State, parent: Ino, name: Name): (r: (State, int))
    requires Keyed(s) && parent in s.g && (name in s.g[parent].kids && !Dot(name) ==> s.g[parent].kids[name] in s.g)
    ensures Keyed(r.0) && r.0.g.Keys == s.g.Keys
  {
    var err := DetachError(s.g, s.num, parent, name);
    if err != 0 then (s, err)
    else (s.(g := DetachG(s.g, parent, name), num := s.num[parent := s.num[parent] - 1]), 0)
  }

  function TryDestroy(s: State, e: Ino): (r: (State, bool))
    requires Keyed(s)
    ensures Keyed(r.0)
  {
    if e in s.g && s.g[e].links <= 0 && s.opens[e] <= 0 then
      (s.(g := s.g - {e}, opens := s.opens - {e}, num := s.num - {e}), true)
    else (s, false)
  }

  function Ref(s: State, e: Ino): (s': State)
    requires Keyed(s) && e in s.g
    ensures Keyed(s')
  {
    s.(opens := s.opens[e := s.opens[e] + 1])
  }

  /** Drop a reference, and the inode with it if that was the last thing that held it. */
  function Unref(s: State, e: Ino): (s': State)
    requires Keyed(s) && e in s.g
    ensures Keyed(s')
  {
    TryDestroy(s.(opens := s.opens[e := s.opens[e] - 1]), e).0
  }

  /** The name is free: destroy what it named if nothing holds it, and count it off once more. */
  function FinishCollect(s: State, parent: Ino, child: Ino): (r: (State, int))
    requires Keyed(s) && parent in s.g && parent != child
    ensures Keyed(r.0) && parent in r.0.g && r.0.g.Keys <= s.g.Keys && r.0.handles == s.handles && r.0.root == s.root
  {
    var (s1, destroyed) := TryDestroy(s, child);
    if destroyed then (s1.(num := s1.num[parent := s1.num[parent] - 1]), 1) else (s1, 0)
  }

  /** Free a name that is held by garbage: 1 if the inode is gone, 0 if only the name is, or why not. */
  function GarbageCollect(s: State, parent: Ino, name: Name): (r: (State, int))
    requires Wf(s) && Live(s, parent) && name in s.g[parent].kids
    ensures Keyed(r.0) && parent in r.0.g && r.0.g.Keys <= s.g.Keys && r.0.handles == s.handles && r.0.root == s.root
  {
    var child := s.g[parent].kids[name];
    if !s.g[child].deleting then (s, EEXIST)
    else
      var (s1, rc) := Detach(s, parent, name);
      if rc != 0 && rc != ENOENT then (s1, rc)
      else FinishCollect(s1, parent, child)
  }

  // ---------- API calls, from the point where the paths are resolved ----------

  function NewDir(e: Ino, parent: Ino): Rec
  {
    Rec(Dir, 0, false, map["." := e, ".." := parent])
  }

  const NewFile := Rec(File, 0, false, map[])

  function Add(s: State, e: Ino, r: Rec, opens: int): (s': State)
    requires Keyed(s)
    ensures Keyed(s')
  {
    s.(g := s.g[e := r], opens := s.opens[e := opens], num := s.num[e := 0])
  }

  /** The name is free, or was held by garbage. Otherwise EEXIST, or EIO for anything else. */
  function FreeName(s: State, parent: Ino, name: Name): (r: (State, int))
    requires Wf(s) && Live(s, parent)
    ensures Keyed(r.0) && parent in r.0.g && r.0.g.Keys <= s.g.Keys && r.0.handles == s.handles && r.0.root == s.root
  {
    if name !in s.g[parent].kids then (s, 0)
    else
      var (s1, rc) := GarbageCollect(s, parent, name);
      (s1, if rc >= 0 then 0 else if rc == EEXIST then EEXIST else EIO)
  }

  function Mkdir(s: State, parent: Ino, name: Name, writable: bool, e: Ino, cb: int): (State, int)
    requires Wf(s) && Live(s, parent)
  {
    if s.g[parent].kind != Dir then (s, ENOTDIR)
    else if !writable then (s, EACCES)
    else
      var (s1, rc) := FreeName(s, parent, name);
      if rc != 0 then (s1, rc)
      else if cb != 0 then (s1, cb)
      else (Attach(Add(s1, e, NewDir(e, parent), 0), parent, e, name), 0)
  }

  /** The arguments of open, what the permission checks say, and what the callbacks answer. */
  datatype OpenArgs = OpenArgs(flagsOk: bool, creat: bool, trunc: bool, searchable: bool, writable: bool, mayOpen: bool,
                               e: Ino, h: nat, createCb: int, truncCb: int, openCb: int)

  function DoOpen(s: State, child: Ino, a: OpenArgs): (State, int)
    requires Keyed(s) && child in s.g
  {
    var r := s.g[child];
    if r.links == 0 || r.deleting then (s, ENOENT)
    else if r.kind == Dir then (s, EISDIR)
    else if !a.mayOpen then (s, EACCES)
    else if a.openCb != 0 then (Unref(Ref(s, child), child), a.openCb)
    else (Ref(s, child).(handles := s.handles[a.h := child]), 0)
  }

  /** Create a file that is attached and referenced once, then hand the reference to a handle. */
  function DoCreate(s: State, parent: Ino, name: Name, a: OpenArgs): (State, int)
    requires Keyed(s) && parent in s.g
  {
    if a.createCb != 0 then (s, a.createCb)
    else
      var s1 := Attach(Add(s, a.e, NewFile, 1), parent, a.e, name);
      if a.trunc && a.truncCb != 0 then (s1, a.truncCb)
      else (s1.(handles := s1.handles[a.h := a.e]), 0)
  }

  function Open(s: State, parent: Ino, name: Name, a: OpenArgs): (State, int)
    requires Wf(s) && Live(s, parent)
  {
    if !a.flagsOk then (s, EINVAL)
    else if s.g[parent].kind != Dir then (s, ENOTDIR)
    else if !a.searchable || (a.creat && !a.writable) then (s, EACCES)
    else if a.creat then
      var (s1, rc) := FreeName(s, parent, name);
      if rc != 0 then (s1, rc) else DoCreate(s1, parent, name, a)
    else if name !in s.g[parent].kids then (s, ENOENT)
    else if a.trunc && a.truncCb != 0 then (s, a.truncCb)
    else DoOpen(s, s.g[parent].kids[name], a)
  }

  function Opendir(s: State, e: Ino, h: nat, cb: int): (State, int)
    requires Keyed(s) && e in s.g
  {
    if s.g[e].kind != Dir then (s, ENOTDIR)
    else if cb != 0 then (Unref(Ref(s, e), e), cb)
    else (Ref(s, e).(handles := s.handles[h := e]), 0)
  }

  /** close and closedir. */
  function Close(s: State, h: nat, cb: int): (State, int)
    requires Keyed(s) && (h in s.handles ==> s.handles[h] in s.g)
  {
    if h !in s.handles then (s, EBADF)
    else if cb != 0 then (s, cb)
    else (Unref(s.(handles := s.handles - {h}), s.handles[h]), 0)
  }

  function Link(s: State, e: Ino, parent: Ino, name: Name, writable: bool, cb: int): (State, int)
    requires Wf(s) && e in s.g && parent in s.g
  {
    if s.g[e].kind == Dir then (s, EPERM)
    else if s.g[parent].kind != Dir then (s, ENOTDIR)
    else if !writable then (s, EACCES)
    else if name in s.g[parent].kids then (s, EEXIST)
    else
      var s1 := Ref(Attach(s, parent, e, name), e);
      var s2 := if cb != 0 then Detach(s1, parent, name).0 else s1;
      (Unref(s2, e), cb)
  }

  function Unlink(s: State, parent: Ino, name: Name): (State, int)
    requires Wf(s) && parent in s.g
  {
    if s.g[parent].kind != Dir then (s, ENOTDIR)
    else if name !in s.g[parent].kids then (s, ENOENT)
    else
      var (s1, rc) := Detach(s, parent, name);
      if rc != 0 && rc != ENOENT then (s1, rc)
      else (TryDestroy(s1, s.g[parent].kids[name]).0, 0)
  }

  function Rmdir(s: State, parent: Ino, name: Name): (State, int)
    requires Wf(s) && Live(s, parent)
  {
    if s.g[parent].kind != Dir then (s, ENOTDIR)
    else if name !in s.g[parent].kids then (s, ENOENT)
    else
      var child := s.g[parent].kids[name];
      if s.g[child].kind != Dir then (s, ENOTDIR)
      else if |s.g[child].kids| > 2 then (s, ENOTEMPTY)
      else
        var (s1, rc) := Detach(s, parent, name);
        if rc != 0 then (s1, rc) else (TryDestroy(s1, child).0, 0)
  }

  /** One inode on the way to the new parent: the set of inode numbers met so far, as a list, and the number of this one.
      The members are never given their number, which stays 0. Without a set, the program has exited over a loop. */
  function Accumulate(found: seq<nat>, id: nat): (r: Option<seq<nat>>)
    ensures r.Some? && 0 in found ==> 0 in r.value
  {
    if found == [] then Some([0, 0])
    else if id in found then None
    else Some(found + [0])
  }

  /** The set at the end of a walk over inodes with these numbers. */
  function Accumulated(ids: seq<nat>): (r: Option<seq<nat>>)
    ensures r.Some? && ids != [] ==> 0 in r.value
  {
    if ids == [] then Some([])
    else
      var found := Accumulated(ids[..|ids| - 1]);
      if found.None? then None else Accumulate(found.value, ids[|ids| - 1])
  }

  /** Whether the set contains an inode: its number is not looked at, 0 is looked up. */
  predicate InSet(found: seq<nat>)
  {
    0 in found
  }

  /** The two parents as the caller names them, the two names, what permissions and the callback say, and the inode
      numbers on the way to the new parent. */
  datatype RenameArgs = RenameArgs(op: Ino, on: Name, np: Ino, nn: Name, permitted: bool, cb: int, way: seq<nat>)

  /** When the parents differ, the way to the new one begins at the root and was walked to its end. */
  predicate WayOk(a: RenameArgs)
  {
    a.op != a.np ==> a.way != [] && Accumulated(a.way).Some?
  }

  /** Both parents were resolved. */
  ghost predicate RenameWf(s: State, a: RenameArgs)
  {
    Wf(s) && WayOk(a) && Live(s, a.op) && Live(s, a.np)
  }

  /** Why the entry under the new name may not be replaced, or 0. */
  function ReplaceError(s: State, a: RenameArgs, old_: Ino, new_: Ino): int
    requires Keyed(s) && WayOk(a) && old_ in s.g && new_ in s.g
  {
    if s.g[new_].kind == Dir && s.num[new_] > 0 then ENOTEMPTY
    else if s.g[new_].kind != s.g[old_].kind then if s.g[new_].kind == Dir then EISDIR else ENOTDIR
    else if a.op != a.np && InSet(Accumulated(a.way).value) then EINVAL
    else 0
  }

  function RenameError(s: State, a: RenameArgs): int
    requires RenameWf(s, a)
  {
    if !a.permitted then EACCES
    else if a.on !in s.g[a.op].kids then ENOENT
    else if a.nn in s.g[a.np].kids && s.g[a.np].kids[a.nn] != s.g[a.op].kids[a.on] then
      var err := ReplaceError(s, a, s.g[a.op].kids[a.on], s.g[a.np].kids[a.nn]);
      if err != 0 then err else a.cb
    else if a.nn !in s.g[a.np].kids then a.cb
    else 0
  }

  /** Two names of one inode: nothing to do. */
  ghost predicate SameInode(s: State, a: RenameArgs)
    requires RenameWf(s, a)
  {
    a.on in s.g[a.op].kids && a.nn in s.g[a.np].kids && s.g[a.np].kids[a.nn] == s.g[a.op].kids[a.on]
  }

  /** The inode under the new name makes way for the one under the old name. */
  function Swap(s: State, a: RenameArgs): (s': State)
    requires RenameWf(s, a) && a.on in s.g[a.op].kids && a.nn in s.g[a.np].kids
    ensures Keyed(s')
  {
    var s1 := Detach(s, a.op, a.on).0;
    var s2 := Detach(s1, a.np, a.nn).0;
    TryDestroy(Attach(s2, a.np, s.g[a.op].kids[a.on], a.nn), s.g[a.np].kids[a.nn]).0
  }

  function Rename(s: State, a: RenameArgs): (State, int)
    requires RenameWf(s, a)
  {
    var err := RenameError(s, a);
    if err != 0 then (s, err)
    else
      var old_ := s.g[a.op].kids[a.on];
      if a.nn !in s.g[a.np].kids then
        (Attach(Detach(s, a.op, a.on).0, a.np, old_, a.nn), 0)
      else
        if s.g[a.np].kids[a.nn] == old_ then (s, 0) else (Swap(s, a), 0)
  }
}
