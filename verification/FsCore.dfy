/** The inodes as objects, and the operations on them in the order in which fskit performs their steps. */
module FsCore {
  import opened Names
  import opened Wrappers
  import opened FsGraph
  import opened Fs
  import opened FsInvariant
  import opened FsCalls
  import opened FsRemove
  import opened FsRename
  import opened FsDetach
  import opened FsRun
  import opened Listing

  // ---------- states as maps of cells ----------

  type Cells = map<Ino, Cell>

  function StateOf(root: Ino, cells: Cells, handles: map<nat, Ino>): (s: State)
    ensures Keyed(s) && s.g.Keys == cells.Keys && s.root == root && s.handles == handles
  {
    State(root, map e | e in cells :: cells[e].rec, map e | e in cells :: cells[e].opens, map e | e in cells :: cells[e].num, handles)
  }

  /** What attaching does to the inode at e. */
  function AttachedCell(x: Cell, e: Ino, parent: Ino, child: Ino, name: Name): Cell
  {
    var kids := if e == child && x.rec.kind == Dir && ".." in x.rec.kids then x.rec.kids[".." := parent] else x.rec.kids;
    Cell(Rec(x.rec.kind, if e == child && parent != child then x.rec.links + 1 else x.rec.links, x.rec.deleting,
             if e == parent then kids[name := child] else kids),
         x.opens, if e == parent then x.num + 1 else x.num)
  }

  function AttachedCells(cells: Cells, parent: Ino, child: Ino, name: Name): (r: Cells)
  {
    map e | e in cells :: AttachedCell(cells[e], e, parent, child, name)
  }

  /** What detaching does to the inode at e. */
  function DetachedCell(x: Cell, e: Ino, parent: Ino, child: Ino, name: Name): Cell
  {
    Cell(Rec(x.rec.kind, if e == child then if x.rec.links - 1 < 0 then 0 else x.rec.links - 1 else x.rec.links, x.rec.deleting,
             if e == parent then x.rec.kids - {name} else x.rec.kids),
         x.opens, if e == parent then x.num - 1 else x.num)
  }

  function DetachedCells(cells: Cells, parent: Ino, child: Ino, name: Name): (r: Cells)
  {
    map e | e in cells :: DetachedCell(cells[e], e, parent, child, name)
  }

  lemma AttachRecs(root: Ino, cells: Cells, handles: map<nat, Ino>, parent: Ino, child: Ino, name: Name)
    requires parent in cells && child in cells
    ensures StateOf(root, AttachedCells(cells, parent, child, name), handles).g == AttachG(StateOf(root, cells, handles).g, parent, child, name)
  {
  }

  lemma AttachState(root: Ino, cells: Cells, handles: map<nat, Ino>, parent: Ino, child: Ino, name: Name)
    requires parent in cells && child in cells
    ensures StateOf(root, AttachedCells(cells, parent, child, name), handles) == Attach(StateOf(root, cells, handles), parent, child, name)
  {
    hide AttachG;
    AttachRecs(root, cells, handles, parent, child, name);
    var s, s' := StateOf(root, cells, handles), StateOf(root, AttachedCells(cells, parent, child, name), handles);
    assert s'.opens == s.opens;
    assert s'.num == s.num[parent := s.num[parent] + 1];
  }

  lemma DetachRecs(root: Ino, cells: Cells, handles: map<nat, Ino>, parent: Ino, name: Name)
    requires parent in cells && name in cells[parent].rec.kids && cells[parent].rec.kids[name] in cells
    requires cells[parent].rec.kids[name] != parent
    ensures StateOf(root, DetachedCells(cells, parent, cells[parent].rec.kids[name], name), handles).g ==
      DetachG(StateOf(root, cells, handles).g, parent, name)
  {
  }

  lemma DetachSplit(s: State, parent: Ino, name: Name)
    requires Keyed(s) && parent in s.g && (name in s.g[parent].kids && !Dot(name) ==> s.g[parent].kids[name] in s.g)
    ensures var (s', err) := Detach(s, parent, name); err == DetachError(s.g, s.num, parent, name) && (err != 0 ==> s' == s)
  {
  }

  lemma DetachState(root: Ino, cells: Cells, handles: map<nat, Ino>, parent: Ino, name: Name)
    requires parent in cells && name in cells[parent].rec.kids && cells[parent].rec.kids[name] in cells
    requires cells[parent].rec.kids[name] != parent && Detach(StateOf(root, cells, handles), parent, name).1 == 0
    ensures StateOf(root, DetachedCells(cells, parent, cells[parent].rec.kids[name], name), handles) ==
      Detach(StateOf(root, cells, handles), parent, name).0
  {
    hide DetachG, DetachError;
    DetachRecs(root, cells, handles, parent, name);
    var child := cells[parent].rec.kids[name];
    var s, s' := StateOf(root, cells, handles), StateOf(root, DetachedCells(cells, parent, child, name), handles);
    assert s'.opens == s.opens;
    assert s'.num == s.num[parent := s.num[parent] - 1];
  }

  function Places(queue: seq<Work>): (r: seq<Entry>)
    ensures |r| == |queue|
  {
    seq(|queue|, i requires 0 <= i < |queue| => queue[i].from)
  }

  /** Every queued inode is what its name led to. */
  ghost predicate Leads(g: Graph, queue: seq<Work>)
  {
    forall w :: w in queue ==> Kid(g, w.from.0, w.from.1) == Some(w.ent)
  }

  lemma NoPlaces(queue: seq<Work>)
    requires |queue| == 0
    ensures Places(queue) == []
  {
  }

  lemma FirstPlace(queue: seq<Work>)
    requires |queue| > 0
    ensures Places(queue)[0] == queue[0].from
  {
  }

  lemma WorkFacts(s: State, e: Ino, names: seq<Name>)
    requires e in s.g && Lists(s.g[e].kids, names)
    ensures var work := WorkOf(e, s.g[e].kids, names); Places(work) == PairsOf(e, names) && Leads(s.g, work)
  {
  }

  lemma StartWork(s: State, t: Ino, names: seq<Name>)
    requires t in s.g && s.g[t].kind == Dir && Lists(s.g[t].kids, names)
    ensures var queue := [] + WorkOf(t, s.g[t].kids, names); Queued(s, t, {t}, {}, Places(queue)) && Leads(s.g, queue)
  {
    hide Queued, WorkOf, Places, Leads;
    assert [] + WorkOf(t, s.g[t].kids, names) == WorkOf(t, s.g[t].kids, names);
    WorkFacts(s, t, names);
    StartQueue(s, t, names);
  }

  /** The queue after a turn, as the turn of the places has it. */
  lemma NextWork(s: State, queue: seq<Work>, e: Ino, children: map<Name, Ino>, names: seq<Name>)
    requires e in s.g && |queue| > 0 && Leads(s.g, queue) && children == (if s.g[e].kind == Dir then s.g[e].kids else map[])
    requires Lists(children, names)
    ensures var queue' := (queue + WorkOf(e, children, names))[1..];
      Places(queue') == Places(queue)[1..] + Released(s, e, names) && Leads(s.g, queue')
  {
    if s.g[e].kind == Dir {
      WorkFacts(s, e, names);
    } else {
      NoNames(names);
    }
  }

  lemma NoNames(names: seq<Name>)
    requires Lists(map[], names)
    ensures names == []
  {
    FirstIn(names);
  }

  lemma HeadLinked(s: State, loose: multiset<Ino>, D: set<Ino>, done: set<Entry>, q: Entry, e: Ino)
    requires Inv(s, loose) && Keyed(s) && e in s.g && q in Links(s.g, e) && q !in done && e !in D && Lives(s, done, e)
    ensures var r := Reaped(s, D, done);
      e in r.g && r.g[e].kind == s.g[e].kind && r.g[e].kids == s.g[e].kids && r.g[e].links > 0 && r.opens[e] >= 0
  {
    hide Sound, RefsOk, NumOk, Settled, Lost;
    LinksLeft(s.g, s.root, e, done, q);
    MidFacts(s, loose, {}, e);
  }

  /** The inode at the head of the queue, in the state at that turn. */
  lemma HeadOf(s: State, loose: multiset<Ino>, t: Ino, D: set<Ino>, done: set<Entry>, queue: seq<Work>)
    requires Inv(s, loose) && Keyed(s) && Queued(s, t, D, done, Places(queue)) && Leads(s.g, queue) && |queue| > 0
    ensures var (e, q) := (queue[0].ent, queue[0].from);
      Kid(s.g, q.0, q.1) == Some(e) && e in s.g && e !in D && q in Links(s.g, e) && q !in done && Lives(s, done, e) &&
      (s.g[e].kind == Dir ==> "." in s.g[e].kids && s.g[e].kids["."] == e && ".." in s.g[e].kids)
    ensures var (e, r) := (queue[0].ent, Reaped(s, D, done));
      e in r.g && r.g[e].kind == s.g[e].kind && r.g[e].kids == s.g[e].kids && r.g[e].links > 0 && r.opens[e] >= 0
  {
    hide Inv;
    var e, q := queue[0].ent, queue[0].from;
    assert queue[0] in queue;
    FirstPlace(queue);
    HeadFresh(s, loose, t, D, done, Places(queue));
    ClosedAt(s, loose, e);
    HeadLinked(s, loose, D, done, q, e);
  }

  /** An entry of the queue: where the name was, and the inode it led to. */
  datatype Work = Work(from: Entry, ent: Ino)

  function WorkOf(dir: Ino, children: map<Name, Ino>, names: seq<Name>): (r: seq<Work>)
    requires forall n :: n in names ==> n in children
    ensures |r| == |names|
  {
    seq(|names|, i requires 0 <= i < |names| => Work((dir, names[i]), children[names[i]]))
  }

  function RealOf(names: seq<Name>): seq<Name>
  {
    if names == [] then [] else RealOf(names[..|names| - 1]) + if Dot(names[|names| - 1]) then [] else [names[|names| - 1]]
  }

  lemma RealSnoc(names: seq<Name>, i: nat)
    requires i < |names|
    ensures RealOf(names[..i + 1]) == RealOf(names[..i]) + if Dot(names[i]) then [] else [names[i]]
  {
    assert names[..i + 1][..i] == names[..i];
  }

  lemma WorkSnoc(dir: Ino, children: map<Name, Ino>, names: seq<Name>, n: Name)
    requires n in children && forall m :: m in names ==> m in children
    ensures WorkOf(dir, children, names + [n]) == WorkOf(dir, children, names) + [Work((dir, n), children[n])]
  {
  }

  lemma {:induction false} RealElems(names: seq<Name>)
    requires Increasing(names)
    ensures Increasing(RealOf(names)) && forall n :: n in RealOf(names) <==> n in names && !Dot(n)
  {
    hide NameLess, Dot;
    if names != [] {
      var last := |names| - 1;
      RealElems(names[..last]);
      Snoc(names);
      hide Increasing;
      if !Dot(names[last]) {
        Append(RealOf(names[..last]), names[last]);
      }
    }
  }

  lemma RealLists(children: map<Name, Ino>, all: seq<Name>)
    requires Increasing(all) && forall n :: n in all <==> n in children
    ensures Lists(children, RealOf(all))
  {
    RealElems(all);
    forall i, j | 0 <= i < j < |RealOf(all)| ensures RealOf(all)[i] != RealOf(all)[j] {
      StrCmpZero(RealOf(all)[i], RealOf(all)[i]);
    }
  }

  function TaggedCell(x: Cell): Cell
  {
    if x.rec.kind == Dir then Cell(x.rec.(deleting := true, kids := DotsOf(x.rec.kids)), x.opens, 0)
    else x.(rec := x.rec.(deleting := true))
  }

  function CountedOff(x: Cell): Cell
  {
    x.(rec := x.rec.(links := x.rec.links - 1, deleting := x.rec.deleting || x.rec.kind == Dir))
  }

  function TakenApart(x: Cell): Cell
  {
    CountedOff(if x.rec.kind == Dir then TaggedCell(x) else x)
  }

  lemma ReapState(root: Ino, cells: Cells, handles: map<nat, Ino>, e: Ino)
    requires e in cells
    ensures TryDestroy(StateOf(root, cells[e := TakenApart(cells[e])], handles), e).0 == Reap(StateOf(root, cells, handles), e)
  {
    hide DotsOf, TryDestroy;
    var s := StateOf(root, cells, handles);
    var s', s1 := StateOf(root, cells[e := TakenApart(cells[e])], handles), if s.g[e].kind == Dir then Tag(s, e) else s;
    assert s'.g == s1.g[e := s1.g[e].(links := s1.g[e].links - 1)];
    assert s'.opens == s1.opens;
    assert s'.num == s1.num;
  }

  lemma TagState(root: Ino, cells: Cells, handles: map<nat, Ino>, e: Ino)
    requires e in cells
    ensures StateOf(root, cells[e := TaggedCell(cells[e])], handles) == Tag(StateOf(root, cells, handles), e)
  {
    hide DotsOf;
    var s, s' := StateOf(root, cells, handles), StateOf(root, cells[e := TaggedCell(cells[e])], handles);
    assert s'.g == Tag(s, e).g;
    assert s'.opens == s.opens;
    assert s'.num == Tag(s, e).num;
  }

  lemma AllowedFacts(s: State, a: RenameArgs)
    requires RenameWf(s, a) && RenameError(s, a) == 0
    ensures a.on in s.g[a.op].kids
  {
  }

  /** The new name is free once the old one is detached. */
  lemma MoveFree(s: State, loose: multiset<Ino>, a: RenameArgs)
    requires Inv(s, loose) && RenameWf(s, a) && Proceeds(s, a) && a.nn !in s.g[a.np].kids
    ensures s.g[a.op].kids[a.on] in s.g && a.nn !in Detach(s, a.op, a.on).0.g[a.np].kids
  {
    hide Inv, Detach;
    FirstAt(s, loose, a, a.np, a.nn);
  }

  lemma ProceedsFacts(s: State, a: RenameArgs)
    requires RenameWf(s, a) && Proceeds(s, a)
    ensures a.on in s.g[a.op].kids
    ensures a.nn in s.g[a.np].kids ==> s.g[a.np].kids[a.nn] != s.g[a.op].kids[a.on]
  {
  }

  /** What detaching the old name leaves of the target: still under its name, and replaceable. */
  lemma ClearOld(s: State, loose: multiset<Ino>, a: RenameArgs)
    requires Inv(s, loose) && RenameWf(s, a) && Proceeds(s, a) && a.nn in s.g[a.np].kids
    ensures s.g[a.op].kids[a.on] in s.g && s.g[a.np].kids[a.nn] in s.g
    ensures Replaceable(Detach(s, a.op, a.on).0, a, s.g[a.np].kids[a.nn])
  {
    hide Sound, RefsOk, NumOk, Settled, Detach;
    var new_ := s.g[a.np].kids[a.nn];
    MidFacts(s, loose, {}, new_);
    if !Dot(a.nn) {
      ChildFacts(s, loose, a.np, a.nn);
    }
    FirstAt(s, loose, a, a.np, a.nn);
    FirstAt(s, loose, a, new_, a.nn);
    DetachKeepsCounts(s, a.op, a.on, new_);
  }

  ghost predicate Replaceable(s: State, a: RenameArgs, new_: Ino)
  {
    Keyed(s) && a.np in s.g && a.nn in s.g[a.np].kids && s.g[a.np].kids[a.nn] == new_ && new_ in s.g &&
    s.g[new_].links >= 0 && s.opens[new_] >= 0 && (!Dot(a.nn) ==> new_ != a.np && (s.g[new_].kind == Dir ==> s.num[new_] <= 2))
  }

  lemma DetachKeepsCounts(s: State, parent: Ino, name: Name, x: Ino)
    requires Keyed(s) && parent in s.g && (name in s.g[parent].kids && !Dot(name) ==> s.g[parent].kids[name] in s.g) && x in s.g
    ensures var s' := Detach(s, parent, name).0; s'.opens == s.opens && (x != parent ==> s'.num[x] == s.num[x])
  {
  }

  lemma ClearNew(s: State, a: RenameArgs, new_: Ino)
    requires Replaceable(s, a, new_)
    ensures var s' := Detach(s, a.np, a.nn).0; (a.nn !in s'.g[a.np].kids || Dot(a.nn)) && s'.g[new_].links >= 0 && s'.opens[new_] >= 0
  {
  }

  lemma AttachKeepsCounts(s: State, parent: Ino, child: Ino, name: Name, x: Ino)
    requires Keyed(s) && parent in s.g && child in s.g && x in s.g && s.g[x].links >= 0 && s.opens[x] >= 0
    ensures var s' := Attach(s, parent, child, name); s'.g[x].links >= 0 && s'.opens[x] >= 0
  {
  }

  /** The counts of a file on the way through link. */
  lemma LinkStays(s: State, loose: multiset<Ino>, e: Ino, parent: Ino, name: Name, cb: int)
    requires Inv(s, loose) && Live(s, e) && Live(s, parent) && s.g[e].kind != Dir && s.g[parent].kind == Dir && name !in s.g[parent].kids
    ensures Keyed(s)
    ensures var s1 := Ref(Attach(s, parent, e, name), e);
      name in s1.g[parent].kids && s1.g[parent].kids[name] == e && e in s1.g && parent in s1.g && s1.g[e].links > 0 && s1.opens[e] > 0
    ensures var s2 := Detach(Ref(Attach(s, parent, e, name), e), parent, name).0; e in s2.g && s2.g[e].links >= 0 && s2.opens[e] > 0
  {
    hide Sound, RefsOk, NumOk, Settled;
    MidFacts(s, loose, {}, e);
  }

  /** The counts of an inode that loses a name. */
  lemma UnlinkStays(s: State, loose: multiset<Ino>, parent: Ino, name: Name)
    requires Inv(s, loose) && parent in s.g && name in s.g[parent].kids
    ensures Keyed(s) && (!Dot(name) ==> s.g[parent].kids[name] in s.g)
    ensures var ((s1, rc), child) := (Detach(s, parent, name), s.g[parent].kids[name]);
      s1.opens == s.opens && (child in s1.g ==> s1.g[child].links >= 0 && s1.opens[child] >= 0)
  {
    hide Sound, RefsOk, NumOk, Settled;
    InvWf(s, loose);
    var child := s.g[parent].kids[name];
    if child in s.g {
      MidFacts(s, loose, {}, child);
    }
    if !Dot(name) {
      ChildFacts(s, loose, parent, name);
    }
  }

  lemma SameInodes(root: Ino, cells: Cells, handles: map<nat, Ino>, handles': map<nat, Ino>)
    ensures StateOf(root, cells, handles') == StateOf(root, cells, handles).(handles := handles')
  {
  }

  lemma RefCounts(s: State, e: Ino)
    requires Keyed(s) && e in s.g
    ensures Ref(s, e).g == s.g && Ref(s, e).opens[e] == s.opens[e] + 1 && Ref(s, e).handles == s.handles
  {
  }

  lemma InvFacts(s: State, loose: multiset<Ino>, e: Ino)
    requires Inv(s, loose) && e in s.g
    ensures s.opens[e] >= 0 && s.g[e].links >= 0
  {
    MidFacts(s, loose, {}, e);
  }

  /** What a handle refers to is there, and counts the handle. */
  lemma HandleFacts(s: State, loose: multiset<Ino>, h: nat)
    requires Inv(s, loose) && h in s.handles
    ensures var e := s.handles[h]; e in s.g && s.opens[e] > 0 && s.g[e].links >= 0
  {
    hide Sound, Settled, NumOk;
    MidFacts(s, loose, {}, s.handles[h]);
    assert h in HandlesOf(s.handles, s.handles[h]);
  }

  function Counted1(x: Cell): Cell
  {
    x.(num := x.num - 1)
  }

  lemma NumState(root: Ino, cells: Cells, handles: map<nat, Ino>, e: Ino)
    requires e in cells
    ensures var s := StateOf(root, cells, handles);
      StateOf(root, cells[e := Counted1(cells[e])], handles) == s.(num := s.num[e := s.num[e] - 1])
  {
    var s, s' := StateOf(root, cells, handles), StateOf(root, cells[e := Counted1(cells[e])], handles);
    assert s'.g == s.g;
    assert s'.opens == s.opens;
    assert s'.num == s.num[e := s.num[e] - 1];
  }

  /** What detaching leaves of the two inodes. */
  lemma DetachFacts(s: State, parent: Ino, name: Name)
    requires Keyed(s) && parent in s.g && name in s.g[parent].kids && s.g[parent].kids[name] in s.g && !Dot(name)
    requires var child := s.g[parent].kids[name]; child != parent && s.g[child].links > 0
    ensures var ((s', err), child) := (Detach(s, parent, name), s.g[parent].kids[name]);
      s'.opens == s.opens && 0 <= s'.g[child].links <= s.g[child].links && err != ENOENT && err <= 0 &&
      (err == 0 ==> name !in s'.g[parent].kids)
  {
  }

  function Referenced(x: Cell, k: int): Cell
  {
    x.(opens := x.opens + k)
  }

  lemma RefState(root: Ino, cells: Cells, handles: map<nat, Ino>, e: Ino)
    requires e in cells
    ensures StateOf(root, cells[e := Referenced(cells[e], 1)], handles) == Ref(StateOf(root, cells, handles), e)
  {
    var s, s' := StateOf(root, cells, handles), StateOf(root, cells[e := Referenced(cells[e], 1)], handles);
    assert s'.g == s.g;
    assert s'.num == s.num;
    assert s'.opens == s.opens[e := s.opens[e] + 1];
  }

  lemma UnrefState(root: Ino, cells: Cells, handles: map<nat, Ino>, e: Ino)
    requires e in cells
    ensures TryDestroy(StateOf(root, cells[e := Referenced(cells[e], -1)], handles), e).0 == Unref(StateOf(root, cells, handles), e)
  {
    hide TryDestroy;
    var s, s' := StateOf(root, cells, handles), StateOf(root, cells[e := Referenced(cells[e], -1)], handles);
    assert s'.g == s.g;
    assert s'.num == s.num;
    assert s'.opens == s.opens[e := s.opens[e] - 1];
  }

  lemma AddState(root: Ino, cells: Cells, handles: map<nat, Ino>, e: Ino, x: Cell)
    requires e !in cells && x.num == 0
    ensures StateOf(root, cells[e := x], handles) == Add(StateOf(root, cells, handles), e, x.rec, x.opens)
  {
    var s, s' := StateOf(root, cells, handles), StateOf(root, cells[e := x], handles);
    assert s'.g == s.g[e := x.rec];
    assert s'.num == s.num[e := 0];
    assert s'.opens == s.opens[e := x.opens];
  }

  lemma NotThere(s: State, e: Ino)
    requires Keyed(s) && e !in s.g
    ensures TryDestroy(s, e) == (s, false)
  {
  }

  lemma StillHeld(s: State, e: Ino)
    requires Keyed(s) && e in s.g && (s.g[e].links > 0 || s.opens[e] > 0)
    ensures TryDestroy(s, e) == (s, false)
  {
  }

  lemma DropState(root: Ino, cells: Cells, handles: map<nat, Ino>, e: Ino)
    requires e in cells && cells[e].rec.links <= 0 && cells[e].opens <= 0
    ensures TryDestroy(StateOf(root, cells, handles), e) == (StateOf(root, cells - {e}, handles), true)
  {
    var s, s' := StateOf(root, cells, handles), StateOf(root, cells - {e}, handles);
    assert s'.g == s.g - {e};
    assert s'.opens == s.opens - {e};
    assert s'.num == s.num - {e};
  }

  lemma ChildFound(s: State, loose: multiset<Ino>, parent: Ino, name: Name)
    requires Inv(s, loose) && Live(s, parent) && name in s.g[parent].kids
    ensures var child := s.g[parent].kids[name];
      child in s.g && s.g[child].links >= 0 && s.opens[child] >= 0 &&
      if Dot(name) then !s.g[child].deleting else child != parent && s.g[child].links > 0
  {
    hide Inv, Below, Links;
    if Dot(name) {
      var e := DotLeads(s, loose, parent, name);
      InvFacts(s, loose, e);
    } else {
      ChildFacts(s, loose, parent, name);
    }
  }

  lemma InitState(root: Ino, cells: Cells)
    requires cells == map[root := Cell(Rec(Dir, 1, false, NewDir(root, root).kids), 0, 0)]
    ensures StateOf(root, cells, map[]) == Init(root)
  {
    var s := StateOf(root, cells, map[]);
    assert s.g == Init(root).g;
    assert s.opens == Init(root).opens;
    assert s.num == Init(root).num;
  }

  /** struct fskit_entry. */
  class Inode {
    const addr: Ino
    var kind: Kind
    var links: int
    var opens: int
    var num: int
    var deleting: bool
    var kids: map<Name, Ino>

    /** The initialisers: nothing names the inode yet. */
    constructor (addr: Ino, kind: Kind, opens: int, kids: map<Name, Ino>)
      ensures this.addr == addr && AsCell() == Cell(Rec(kind, 0, false, kids), opens, 0)
    {
      this.addr := addr;
      this.kind, this.links, this.opens, this.num, this.deleting, this.kids := kind, 0, opens, 0, false, kids;
    }

    ghost function AsCell(): Cell
      reads this
    {
      Cell(Rec(kind, links, deleting, kids), opens, num)
    }
  }

  /** struct fskit_core, with the memory that holds the inodes. */
  class Core {
    const root: Ino
    var mem: map<Ino, Inode>
    var handles: map<nat, Ino>

    /** fskit_core_init: the root directory, and nothing else. */
    constructor (root: Ino)
      ensures this.root == root && Valid() && fresh(mem.Values) && View() == Init(root)
    {
      var dir := new Inode(root, Dir, 0, NewDir(root, root).kids);
      dir.links := 1;
      this.root, this.mem, this.handles := root, map[root := dir], map[];
      new;
      InitState(root, AllCells());
    }

    /** Every object is at its address. */
    ghost predicate Valid()
      reads this`mem
    {
      forall a :: a in mem ==> mem[a].addr == a
    }

    ghost function AllCells(): (cells: Cells)
      reads this`mem, mem.Values
      ensures cells.Keys == mem.Keys
    {
      map e | e in mem :: mem[e].AsCell()
    }

    ghost function View(): (s: State)
      reads this, mem.Values
      ensures Keyed(s) && s.g.Keys == mem.Keys && s.root == root && s.handles == handles
    {
      StateOf(root, AllCells(), handles)
    }

    lemma ViewAt(e: Ino)
      requires e in mem
      ensures View().g[e] == mem[e].AsCell().rec && View().opens[e] == mem[e].opens && View().num[e] == mem[e].num
    {
    }

    /** fskit_entry_attach_lowlevel. Only rename onto a dot name finds the name taken: the set of children then holds two
        records of it, of which the map has the later one. */
    method AttachLowlevel(parent: Ino, child: Ino, name: Name)
      requires Valid() && parent in mem && child in mem && (name !in mem[parent].kids || Dot(name))
      modifies mem.Values
      ensures View() == Attach(old(View()), parent, child, name)
    {
      hide StateOf, Attach, AttachG, Detach;
      ghost var cells := AllCells();
      Hook(mem[parent], mem[child], name);
      hide AttachedCell;
      assert AllCells() == AttachedCells(cells, parent, child, name);
      AttachState(root, cells, handles, parent, child, name);
    }

    static method Hook(p: Inode, c: Inode, name: Name)
      requires (p.addr == c.addr) == (p == c)
      modifies p, c
      ensures p.AsCell() == AttachedCell(old(p.AsCell()), p.addr, p.addr, c.addr, name)
      ensures c.AsCell() == AttachedCell(old(c.AsCell()), c.addr, p.addr, c.addr, name)
    {
      if p != c {
        c.links := c.links + 1;
      }
      p.num := p.num + 1;
      if c.kind == Dir && ".." in c.kids {
        c.kids := c.kids[".." := p.addr];
      }
      p.kids := p.kids[name := c.addr];
    }

    /** The checks of fskit_entry_detach_lowlevel. */
    method MayDetach(parent: Ino, name: Name) returns (rc: int)
      requires Valid() && parent in mem
      ensures rc == DetachError(View().g, View().num, parent, name)
      ensures rc == 0 ==> name in mem[parent].kids && !Dot(name) && mem[parent].kids[name] != parent
    {
      if name !in mem[parent].kids {
        return ENOENT;
      }
      var child := mem[parent].kids[name];
      if child == parent {
        return ENOTEMPTY;
      }
      if child in mem && mem[child].kind == Dir && mem[child].num > 2 {
        return ENOTEMPTY;
      }
      return if Dot(name) then ENOENT else 0;
    }

    /** fskit_entry_detach_lowlevel. */
    method DetachLowlevel(parent: Ino, name: Name) returns (rc: int)
      requires Valid() && parent in mem && (name in mem[parent].kids && !Dot(name) ==> mem[parent].kids[name] in mem)
      modifies mem.Values
      ensures (View(), rc) == Detach(old(View()), parent, name)
    {
      hide StateOf, Detach, DetachError, DetachedCells;
      ViewAt(parent);
      DetachSplit(View(), parent, name);
      rc := MayDetach(parent, name);
      if rc == 0 {
        DetachState(root, AllCells(), handles, parent, name);
        DetachFound(parent, name);
      }
    }

    /** The part of fskit_entry_detach_lowlevel that changes the two inodes. */
    method DetachFound(parent: Ino, name: Name)
      requires Valid() && parent in mem && name in mem[parent].kids && mem[parent].kids[name] in mem && mem[parent].kids[name] != parent
      modifies mem.Values
      ensures AllCells() == DetachedCells(old(AllCells()), parent, old(mem[parent].kids[name]), name)
    {
      Unhook(mem[parent], mem[mem[parent].kids[name]], name);
      hide DetachedCell;
    }

    static method Unhook(p: Inode, c: Inode, name: Name)
      requires p.addr != c.addr
      modifies p, c
      ensures p.AsCell() == DetachedCell(old(p.AsCell()), p.addr, p.addr, c.addr, name)
      ensures c.AsCell() == DetachedCell(old(c.AsCell()), c.addr, p.addr, c.addr, name)
    {
      p.kids := p.kids - {name};
      p.num := p.num - 1;
      c.links := c.links - 1;
      if c.links < 0 {
        c.links := 0;
      }
    }

    /** fskit_entry_try_destroy_and_free, up to the callback. The counts are not negative, so that it does not give up. */
    method TryDestroyAndFree(e: Ino) returns (destroyed: bool)
      requires Valid() && e in mem && mem[e].links >= 0 && mem[e].opens >= 0
      modifies this`mem
      ensures Valid() && mem == if destroyed then old(mem) - {e} else old(mem)
      ensures (View(), destroyed) == TryDestroy(old(View()), e)
    {
      destroyed := mem[e].links <= 0 && mem[e].opens <= 0;
      if destroyed {
        DropState(root, AllCells(), handles, e);
        hide StateOf, TryDestroy;
        mem := mem - {e};
        assert AllCells() == old(AllCells()) - {e};
      }
    }

    /** fskit_entry_ref_entry. */
    method RefEntry(e: Ino)
      requires Valid() && e in mem
      modifies mem[e]
      ensures View() == Ref(old(View()), e)
    {
      hide StateOf, Ref;
      RefState(root, AllCells(), handles, e);
      AddReference(e, 1);
    }

    method AddReference(e: Ino, k: int)
      requires Valid() && e in mem
      modifies mem[e]
      ensures AllCells() == old(AllCells())[e := Referenced(old(AllCells())[e], k)]
      ensures mem[e].links == old(mem[e].links) && mem[e].opens == old(mem[e].opens) + k
    {
      mem[e].opens := mem[e].opens + k;
    }

    /** fskit_entry_unref of an inode that is referenced. */
    method UnrefEntry(e: Ino)
      requires Valid() && e in mem && mem[e].links >= 0 && mem[e].opens > 0
      modifies this`mem, mem[e]
      ensures Valid() && (mem == old(mem) || mem == old(mem) - {e})
      ensures View() == Unref(old(View()), e)
    {
      UnrefState(root, AllCells(), handles, e);
      hide StateOf, TryDestroy, Unref;
      AddReference(e, -1);
      if mem[e].opens <= 0 && mem[e].links <= 0 {
        var destroyed := TryDestroyAndFree(e);
      } else {
        ViewAt(e);
        StillHeld(View(), e);
      }
    }

    /** Put a new inode at an address that is free. */
    method Enter(e: Ino, node: Inode)
      requires Valid() && e !in mem && node.addr == e && node.num == 0
      modifies this`mem
      ensures Valid() && mem == old(mem)[e := node]
      ensures View() == Add(old(View()), e, node.AsCell().rec, node.opens)
    {
      AddState(root, AllCells(), handles, e, node.AsCell());
      hide StateOf, Add;
      mem := mem[e := node];
      assert AllCells() == old(AllCells())[e := node.AsCell()];
    }

    /** The inode under a name that was found, and its counts. */
    lemma ChildAt(parent: Ino, name: Name, loose: multiset<Ino>)
      requires Inv(View(), loose) && Live(View(), parent) && name in mem[parent].kids
      ensures name in View().g[parent].kids && View().g[parent].kids[name] == mem[parent].kids[name]
      ensures var child := mem[parent].kids[name];
        child in mem && mem[child].links >= 0 && mem[child].opens >= 0 &&
        if Dot(name) then !View().g[child].deleting else child != parent && mem[child].links > 0
    {
      ViewAt(parent);
      hide Inv, StateOf;
      ChildFound(View(), loose, parent, name);
      ViewAt(mem[parent].kids[name]);
    }

    /** Take a name off the count of children, and off the children if it is still there. */
    method ForgetName(parent: Ino, name: Name)
      requires Valid() && parent in mem && name !in mem[parent].kids
      modifies mem[parent]
      ensures View() == old(View()).(num := old(View()).num[parent := old(View()).num[parent] - 1])
    {
      NumState(root, AllCells(), handles, parent);
      hide StateOf;
      DropName(parent, name);
    }

    method DropName(parent: Ino, name: Name)
      requires Valid() && parent in mem && name !in mem[parent].kids
      modifies mem[parent]
      ensures AllCells() == old(AllCells())[parent := Counted1(old(AllCells())[parent])]
    {
      var p := mem[parent];
      p.kids := p.kids - {name};
      p.num := p.num - 1;
      assert p.kids == old(p.kids);
    }

    /** The end of fskit_entry_try_garbage_collect. */
    method FinishCollecting(parent: Ino, name: Name, child: Ino) returns (rc: int)
      requires Valid() && parent in mem && child in mem && parent != child && name !in mem[parent].kids
      requires mem[child].links >= 0 && mem[child].opens >= 0
      modifies this`mem, mem[parent]
      ensures Valid() && mem == if rc == 1 then old(mem) - {child} else old(mem)
      ensures (View(), rc) == FinishCollect(old(View()), parent, child)
    {
      hide View, AllCells, TryDestroy;
      var destroyed := TryDestroyAndFree(child);
      if !destroyed {
        return 0;
      }
      ForgetName(parent, name);
      return 1;
    }

    /** fskit_entry_try_garbage_collect. */
    method TryGarbageCollect(parent: Ino, name: Name, ghost loose: multiset<Ino>) returns (rc: int)
      requires Valid() && Inv(View(), loose) && parent in mem && Live(View(), parent) && name in mem[parent].kids
      modifies this`mem, mem.Values
      ensures Valid() && mem == if rc == 1 then old(mem) - {old(mem[parent].kids[name])} else old(mem)
      ensures Wf(old(View())) && name in old(View()).g[parent].kids
      ensures (View(), rc) == GarbageCollect(old(View()), parent, name)
    {
      hide Inv, StateOf, Detach, TryDestroy, FinishCollect;
      ghost var s := View();
      InvWf(s, loose);
      ChildAt(parent, name, loose);
      var child := mem[parent].kids[name];
      ViewAt(child);
      if !mem[child].deleting {
        return EEXIST;
      }
      DetachFacts(s, parent, name);
      rc := DetachLowlevel(parent, name);
      if rc == ENOENT {
        rc := 0;
      }
      if rc == 0 {
        ViewAt(child);
        ViewAt(parent);
        rc := FinishCollecting(parent, name, child);
      }
    }

    /** The steps of open and mkdir that make room for a name. */
    method MakeRoom(parent: Ino, name: Name, ghost loose: multiset<Ino>) returns (rc: int)
      requires Valid() && Inv(View(), loose) && parent in mem && Live(View(), parent)
      modifies this`mem, mem.Values
      ensures Valid() && mem.Keys <= old(mem.Keys) && mem.Values <= old(mem.Values)
      ensures Wf(old(View())) && (View(), rc) == FreeName(old(View()), parent, name)
    {
      hide View, AllCells, Inv, GarbageCollect;
      ViewAt(parent);
      InvWf(View(), loose);
      if name !in mem[parent].kids {
        return 0;
      }
      rc := TryGarbageCollect(parent, name, loose);
      if rc >= 0 {
        rc := 0;
      } else if rc != EEXIST {
        rc := EIO;
      }
    }

    /** Enter a new inode under a name. */
    method EnterAs(parent: Ino, name: Name, node: Inode)
      requires Valid() && parent in mem && node.addr !in mem && name !in mem[parent].kids && node.num == 0
      modifies this`mem, mem.Values, node
      ensures Valid() && mem == old(mem)[node.addr := node]
      ensures View() == Attach(Add(old(View()), node.addr, old(node.AsCell().rec), old(node.opens)), parent, node.addr, name)
    {
      hide View, AllCells, Attach, Add;
      Enter(node.addr, node);
      AttachLowlevel(parent, node.addr, name);
    }

    /** fskit_mkdir_lowlevel, once the name is free. */
    method EnterDirectory(parent: Ino, name: Name, e: Ino, cb: int) returns (rc: int)
      requires Valid() && parent in mem && e !in mem && name !in mem[parent].kids
      modifies this`mem, mem.Values
      ensures Valid() && fresh(mem.Values - old(mem.Values)) && rc == cb
      ensures View() == if cb != 0 then old(View()) else Attach(Add(old(View()), e, NewDir(e, parent), 0), parent, e, name)
    {
      hide View, AllCells, Attach, Add, Keyed;
      var dir := new Inode(e, Dir, 0, NewDir(e, parent).kids);
      dir.opens := dir.opens + 1;
      // the callback runs while the directory is referenced
      dir.opens := dir.opens - 1;
      if cb == 0 {
        EnterAs(parent, name, dir);
      }
      rc := cb;
    }

    /** fskit_mkdir_ex after the parent is resolved. */
    method MakeDirectory(parent: Ino, name: Name, writable: bool, e: Ino, cb: int, ghost loose: multiset<Ino>) returns (rc: int)
      requires Valid() && Inv(View(), loose) && parent in mem && Live(View(), parent) && e !in mem
      modifies this`mem, mem.Values
      ensures Valid() && fresh(mem.Values - old(mem.Values))
      ensures Wf(old(View())) && (View(), rc) == Mkdir(old(View()), parent, name, writable, e, cb)
    {
      hide View, AllCells, Inv, FreeName, Attach, Add, Vacant, Wf, Keyed;
      ViewAt(parent);
      InvWf(View(), loose);
      if mem[parent].kind != Dir {
        return ENOTDIR;
      }
      if !writable {
        return EACCES;
      }
      FreeNameKeeps(View(), loose, parent, name);
      rc := MakeRoom(parent, name, loose);
      if rc == 0 {
        ViewAt(parent);
        rc := EnterDirectory(parent, name, e, cb);
      }
    }

    /** Hand a reference that is already counted to a new handle. */
    method NewHandle(h: nat, e: Ino)
      modifies this`handles
      ensures handles == old(handles)[h := e] && View() == old(View()).(handles := old(View()).handles[h := e])
    {
      hide StateOf, AllCells, Keyed;
      SameInodes(root, AllCells(), handles, handles[h := e]);
      handles := handles[h := e];
    }

    /** fskit_do_open. */
    method DoOpenFile(child: Ino, a: OpenArgs) returns (rc: int)
      requires Valid() && child in mem && mem[child].opens >= 0 && mem[child].links >= 0
      modifies this, mem.Values
      ensures Valid() && mem.Values <= old(mem.Values)
      ensures (View(), rc) == DoOpen(old(View()), child, a)
    {
      hide View, AllCells, Ref, Unref, Keyed;
      ViewAt(child);
      if mem[child].links == 0 || mem[child].deleting {
        return ENOENT;
      }
      if mem[child].kind == Dir {
        return EISDIR;
      }
      if !a.mayOpen {
        return EACCES;
      }
      RefCounts(View(), child);
      RefEntry(child);
      ViewAt(child);
      // the callback runs while the file is referenced
      if a.openCb != 0 {
        UnrefEntry(child);
        return a.openCb;
      }
      NewHandle(a.h, child);
      return 0;
    }

    /** fskit_do_create and what open does after it. */
    method DoCreateFile(parent: Ino, name: Name, a: OpenArgs) returns (rc: int)
      requires Valid() && parent in mem && a.e !in mem && name !in mem[parent].kids
      modifies this, mem.Values
      ensures Valid() && fresh(mem.Values - old(mem.Values))
      ensures (View(), rc) == DoCreate(old(View()), parent, name, a)
    {
      hide View, AllCells, Attach, Add, Keyed;
      var node := new Inode(a.e, File, 0, NewFile.kids);
      node.opens := node.opens + 1;
      if a.createCb != 0 {
        return a.createCb;
      }
      EnterAs(parent, name, node);
      if a.trunc && a.truncCb != 0 {
        return a.truncCb;
      }
      NewHandle(a.h, a.e);
      return 0;
    }

    /** fskit_open_ex after the parent is resolved. */
    method OpenFile(parent: Ino, name: Name, a: OpenArgs, ghost loose: multiset<Ino>) returns (rc: int)
      requires Valid() && Inv(View(), loose) && parent in mem && Live(View(), parent) && a.e !in mem
      modifies this, mem.Values
      ensures Valid() && fresh(mem.Values - old(mem.Values))
      ensures Wf(old(View())) && (View(), rc) == Open(old(View()), parent, name, a)
    {
      hide View, AllCells, Inv, FreeName, DoOpen, DoCreate, Vacant, Wf, Keyed;
      ViewAt(parent);
      InvWf(View(), loose);
      if !a.flagsOk {
        return EINVAL;
      }
      if mem[parent].kind != Dir {
        return ENOTDIR;
      }
      if !a.searchable || (a.creat && !a.writable) {
        return EACCES;
      }
      if a.creat {
        FreeNameKeeps(View(), loose, parent, name);
        rc := MakeRoom(parent, name, loose);
        if rc == 0 {
          ViewAt(parent);
          rc := DoCreateFile(parent, name, a);
        }
        return;
      }
      if name !in mem[parent].kids {
        return ENOENT;
      }
      if a.trunc && a.truncCb != 0 {
        return a.truncCb;
      }
      ChildAt(parent, name, loose);
      rc := DoOpenFile(mem[parent].kids[name], a);
    }

    /** fskit_opendir of a directory that is resolved. */
    method OpenDirectory(e: Ino, h: nat, cb: int, ghost loose: multiset<Ino>) returns (rc: int)
      requires Valid() && Inv(View(), loose) && e in mem && Live(View(), e)
      modifies this, mem.Values
      ensures Valid() && mem.Values <= old(mem.Values)
      ensures (View(), rc) == Opendir(old(View()), e, h, cb)
    {
      hide View, AllCells, Inv, Ref, Unref, Keyed;
      ViewAt(e);
      InvFacts(View(), loose, e);
      if mem[e].kind != Dir {
        return ENOTDIR;
      }
      RefCounts(View(), e);
      RefEntry(e);
      ViewAt(e);
      if cb != 0 {
        UnrefEntry(e);
        return cb;
      }
      NewHandle(h, e);
      return 0;
    }

    /** fskit_close and fskit_closedir. */
    method CloseHandle(h: nat, cb: int, ghost loose: multiset<Ino>) returns (rc: int)
      requires Valid() && Inv(View(), loose)
      modifies this, mem.Values
      ensures Valid() && mem.Values <= old(mem.Values)
      ensures h in old(handles) ==> old(handles)[h] in old(mem)
      ensures (View(), rc) == Close(old(View()), h, cb)
    {
      hide View, AllCells, Inv, Unref, Keyed;
      if h !in handles {
        return EBADF;
      }
      HandleFacts(View(), loose, h);
      if cb != 0 {
        return cb;
      }
      var e := handles[h];
      ViewAt(e);
      DropHandle(h);
      UnrefEntry(e);
      return 0;
    }

    method DropHandle(h: nat)
      modifies this`handles
      ensures handles == old(handles) - {h} && View() == old(View()).(handles := old(View()).handles - {h})
    {
      hide StateOf, AllCells, Keyed;
      SameInodes(root, AllCells(), handles, handles - {h});
      handles := handles - {h};
    }

    /** fskit_link after both paths are resolved. */
    method LinkFile(e: Ino, parent: Ino, name: Name, writable: bool, cb: int, ghost loose: multiset<Ino>) returns (rc: int)
      requires Valid() && Inv(View(), loose) && e in mem && parent in mem && Live(View(), e) && Live(View(), parent)
      modifies this, mem.Values
      ensures Valid() && mem.Values <= old(mem.Values)
      ensures Wf(old(View())) && (View(), rc) == Link(old(View()), e, parent, name, writable, cb)
    {
      hide View, AllCells, Inv, Attach, Detach, Ref, Unref, Wf, Keyed;
      ghost var s := View();
      InvWf(s, loose);
      ViewAt(e);
      ViewAt(parent);
      if mem[e].kind == Dir {
        return EPERM;
      }
      if mem[parent].kind != Dir {
        return ENOTDIR;
      }
      if !writable {
        return EACCES;
      }
      if name in mem[parent].kids {
        return EEXIST;
      }
      LinkStays(s, loose, e, parent, name, cb);
      AttachLowlevel(parent, e, name);
      RefEntry(e);
      // the callback runs while the file is referenced
      if cb != 0 {
        ViewAt(parent);
        var gone := DetachLowlevel(parent, name);
      }
      ViewAt(e);
      UnrefEntry(e);
      return cb;
    }

    /** fskit_unlink after the parent is resolved. */
    method UnlinkName(parent: Ino, name: Name, ghost loose: multiset<Ino>) returns (rc: int)
      requires Valid() && Inv(View(), loose) && parent in mem && Live(View(), parent)
      modifies this, mem.Values
      ensures Valid() && mem.Values <= old(mem.Values)
      ensures Wf(old(View())) && (View(), rc) == Unlink(old(View()), parent, name)
    {
      hide View, AllCells, Inv, Detach, TryDestroy, Keyed;
      ghost var s := View();
      InvWf(s, loose);
      ViewAt(parent);
      if mem[parent].kind != Dir {
        return ENOTDIR;
      }
      if name !in mem[parent].kids {
        return ENOENT;
      }
      var child := mem[parent].kids[name];
      UnlinkStays(s, loose, parent, name);
      rc := DetachLowlevel(parent, name);
      if rc != 0 && rc != ENOENT {
        return;
      }
      if child in mem {
        ViewAt(child);
        var destroyed := TryDestroyAndFree(child);
      } else {
        NotThere(View(), child);
      }
      rc := 0;
    }

    /** fskit_rmdir after the parent is resolved. */
    method RemoveDirectory(parent: Ino, name: Name, ghost loose: multiset<Ino>) returns (rc: int)
      requires Valid() && Inv(View(), loose) && parent in mem && Live(View(), parent)
      modifies this, mem.Values
      ensures Valid() && mem.Values <= old(mem.Values)
      ensures Wf(old(View())) && (View(), rc) == Rmdir(old(View()), parent, name)
    {
      hide View, AllCells, Inv, Detach, TryDestroy, Keyed;
      ghost var s := View();
      InvWf(s, loose);
      ViewAt(parent);
      if mem[parent].kind != Dir {
        return ENOTDIR;
      }
      if name !in mem[parent].kids {
        return ENOENT;
      }
      var child := mem[parent].kids[name];
      ChildAt(parent, name, loose);
      ViewAt(child);
      if mem[child].kind != Dir {
        return ENOTDIR;
      }
      if |mem[child].kids| > 2 {
        return ENOTEMPTY;
      }
      UnlinkStays(s, loose, parent, name);
      rc := DetachLowlevel(parent, name);
      if rc == 0 {
        ViewAt(child);
        var destroyed := TryDestroyAndFree(child);
      }
    }

    /** The set of inode numbers that resolving the new parent leaves behind, one inode at a time. */
    static method CollectWay(ids: seq<nat>) returns (found: Option<seq<nat>>)
      ensures found == Accumulated(ids)
    {
      found := Some([]);
      for i := 0 to |ids|
        invariant found == Accumulated(ids[..i])
      {
        assert ids[..i + 1][..i] == ids[..i];
        if found.Some? {
          found := Accumulate(found.value, ids[i]);
        }
      }
      assert ids[..|ids|] == ids;
    }

    /** The part of fskit_rename that may refuse to replace the inode under the new name. */
    method MayReplace(a: RenameArgs, old_: Ino, new_: Ino) returns (err: int)
      requires Valid() && WayOk(a) && old_ in mem && new_ in mem
      ensures err == ReplaceError(View(), a, old_, new_)
    {
      err := 0;
      if mem[new_].kind != mem[old_].kind {
        err := if mem[new_].kind == Dir then EISDIR else ENOTDIR;
      }
      if mem[new_].kind == Dir && mem[new_].num > 0 {
        err := ENOTEMPTY;
      }
      if err == 0 && a.op != a.np {
        var found := CollectWay(a.way);
        if InSet(found.value) {
          err := EINVAL;
        }
      }
    }

    /** The checks of fskit_rename, the callback included. */
    method MayRename(a: RenameArgs, ghost loose: multiset<Ino>) returns (err: int)
      requires Valid() && Inv(View(), loose) && RenameWf(View(), a)
      ensures err == RenameError(View(), a)
    {
      hide View, AllCells, Inv, ReplaceError;
      ViewAt(a.op);
      ViewAt(a.np);
      if !a.permitted {
        return EACCES;
      }
      if a.on !in mem[a.op].kids {
        return ENOENT;
      }
      if a.nn in mem[a.np].kids {
        if mem[a.np].kids[a.nn] == mem[a.op].kids[a.on] {
          return 0;
        }
        err := MayReplace(a, mem[a.op].kids[a.on], mem[a.np].kids[a.nn]);
        if err != 0 {
          return;
        }
      }
      return a.cb;
    }

    /** fskit_rename after both parents are resolved; they are the same if their paths are. */
    method RenameEntry(a: RenameArgs, ghost loose: multiset<Ino>) returns (rc: int)
      requires Valid() && Inv(View(), loose) && a.op in mem && a.np in mem && Live(View(), a.op) && Live(View(), a.np) && WayOk(a)
      modifies this, mem.Values
      ensures Valid() && mem.Values <= old(mem.Values)
      ensures RenameWf(old(View()), a) && (View(), rc) == Rename(old(View()), a)
    {
      hide View, AllCells, Inv, RenameError, Detach, Attach, TryDestroy, Keyed;
      ghost var s := View();
      InvWf(s, loose);
      rc := MayRename(a, loose);
      if rc != 0 {
        return;
      }
      ViewAt(a.op);
      ViewAt(a.np);
      AllowedFacts(s, a);
      var old_ := mem[a.op].kids[a.on];
      if a.nn in mem[a.np].kids {
        if mem[a.np].kids[a.nn] != old_ {
          Replace(a, loose);
        }
      } else {
        Move(a, old_, loose);
      }
    }

    method Move(a: RenameArgs, old_: Ino, ghost loose: multiset<Ino>)
      requires Valid() && Inv(View(), loose) && RenameWf(View(), a) && Proceeds(View(), a)
      requires old_ == View().g[a.op].kids[a.on] && a.nn !in View().g[a.np].kids
      modifies mem.Values
      ensures View() == Attach(Detach(old(View()), a.op, a.on).0, a.np, old_, a.nn)
    {
      hide View, AllCells, Inv, Detach, Attach, Keyed, RenameError;
      MoveFree(View(), loose, a);
      ViewAt(a.op);
      var ignored := DetachLowlevel(a.op, a.on);
      ViewAt(a.np);
      AttachLowlevel(a.np, old_, a.nn);
    }

    method Replace(a: RenameArgs, ghost loose: multiset<Ino>)
      requires Valid() && Inv(View(), loose) && RenameWf(View(), a) && Proceeds(View(), a) && a.nn in View().g[a.np].kids
      modifies this`mem, mem.Values
      ensures Valid() && mem.Values <= old(mem.Values)
      ensures View() == Swap(old(View()), a)
    {
      hide View, AllCells, Inv, Detach, Attach, TryDestroy, Keyed, RenameError, Proceeds, Wf;
      ghost var s := View();
      ProceedsFacts(s, a);
      ViewAt(a.op);
      ViewAt(a.np);
      var old_, new_ := mem[a.op].kids[a.on], mem[a.np].kids[a.nn];
      ClearOld(s, loose, a);
      var ignored := DetachLowlevel(a.op, a.on);
      ViewAt(a.np);
      ClearNew(View(), a, new_);
      ignored := DetachLowlevel(a.np, a.nn);
      ViewAt(a.np);
      AttachKeepsCounts(View(), a.np, old_, a.nn, new_);
      AttachLowlevel(a.np, old_, a.nn);
      ViewAt(new_);
      var destroyed := TryDestroyAndFree(new_);
    }

    /** fskit_entry_tag_garbage: the entries that a directory had go to the caller. */
    method TagGarbage(e: Ino) returns (children: map<Name, Ino>)
      requires Valid() && e in mem && (mem[e].kind == Dir ==> "." in mem[e].kids && mem[e].kids["."] == e && ".." in mem[e].kids)
      modifies mem[e]
      ensures View() == Tag(old(View()), e) && children == old(mem[e].kids)
      ensures mem[e].AsCell() == TaggedCell(old(mem[e].AsCell()))
    {
      hide StateOf, Tag, TaggedCell;
      TagState(root, AllCells(), handles, e);
      children := mem[e].kids;
      MarkAt(e);
    }

    method MarkAt(e: Ino)
      requires Valid() && e in mem && (mem[e].kind == Dir ==> "." in mem[e].kids && mem[e].kids["."] == e && ".." in mem[e].kids)
      modifies mem[e]
      ensures AllCells() == old(AllCells())[e := TaggedCell(old(AllCells())[e])]
      ensures mem[e].AsCell() == TaggedCell(old(mem[e].AsCell()))
    {
      hide TaggedCell;
      Mark(mem[e]);
    }

    /** Take one link off an inode; a directory is marked as garbage. */
    method CountOff(e: Ino)
      requires Valid() && e in mem
      modifies mem[e]
      ensures AllCells() == old(AllCells())[e := CountedOff(old(AllCells())[e])]
      ensures mem[e].AsCell() == CountedOff(old(mem[e].AsCell()))
    {
      var n := mem[e];
      n.links := n.links - 1;
      if n.kind == Dir {
        n.deleting := true;
      }
    }

    /** The part of a turn before the inode may be destroyed. */
    method TakeApart(e: Ino) returns (children: map<Name, Ino>)
      requires Valid() && e in mem && (mem[e].kind == Dir ==> "." in mem[e].kids && mem[e].kids["."] == e && ".." in mem[e].kids)
      modifies mem[e]
      ensures AllCells() == old(AllCells())[e := TakenApart(old(AllCells())[e])]
      ensures mem[e].links == old(mem[e].links) - 1 && mem[e].opens == old(mem[e].opens)
      ensures children == if old(mem[e].kind) == Dir then old(mem[e].kids) else map[]
    {
      hide DotsOf;
      children := map[];
      if mem[e].kind == Dir {
        children := mem[e].kids;
        MarkAt(e);
      }
      CountOff(e);
    }

    /** One turn of the loop of fskit_detach_all_ex, for the inode at the head of the queue. */
    method ReapHead(e: Ino) returns (children: map<Name, Ino>)
      requires Valid() && e in mem && (mem[e].kind == Dir ==> "." in mem[e].kids && mem[e].kids["."] == e && ".." in mem[e].kids)
      requires mem[e].links > 0 && mem[e].opens >= 0
      modifies this`mem, mem[e]
      ensures Valid() && mem.Values <= old(mem.Values)
      ensures View() == Reap(old(View()), e) && children == if old(mem[e].kind) == Dir then old(mem[e].kids) else map[]
    {
      hide StateOf, Reap, TryDestroy, TakenApart;
      ReapState(root, AllCells(), handles, e);
      children := TakeApart(e);
      var destroyed := TryDestroyAndFree(e);
    }

    static method Mark(n: Inode)
      requires n.kind == Dir ==> "." in n.kids && n.kids["."] == n.addr && ".." in n.kids
      modifies n
      ensures n.AsCell() == TaggedCell(old(n.AsCell()))
    {
      if n.kind == Dir {
        var parent := n.kids[".."];
        n.kids := map["." := n.addr, ".." := parent];
        n.num := 0;
        n.deleting := true;
        assert n.kids == DotsOf(old(n.kids));
      } else {
        n.deleting := true;
      }
    }

    /** fskit_detach_queue_children. */
    static method QueueChildren(queue: seq<Work>, dir: Ino, children: map<Name, Ino>) returns (queue': seq<Work>, ghost names: seq<Name>)
      ensures Lists(children, names)
      ensures queue' == queue + WorkOf(dir, children, names)
    {
      var all := NamesInOrder(children.Keys);
      SortedNamesFacts(children.Keys);
      queue', names := queue, [];
      for i := 0 to |all|
        invariant names == RealOf(all[..i]) && forall n :: n in names ==> n in children
        invariant queue' == queue + WorkOf(dir, children, names)
      {
        RealSnoc(all, i);
        if !Dot(all[i]) {
          WorkSnoc(dir, children, names, all[i]);
          queue' := queue' + [Work((dir, all[i]), children[all[i]])];
          names := names + [all[i]];
        }
      }
      assert all[..|all|] == all;
      RealLists(children, all);
    }

    /** fskit_detach_all_ex from the children of t, which has just been tagged; s is the state before that. */
    method DetachAllEx(t: Ino, children: map<Name, Ino>, ghost s: State, ghost loose: multiset<Ino>)
      requires Inv(s, loose) && t in s.g && s.g[t].kind == Dir && children == s.g[t].kids
      requires Valid() && View() == Reaped(s, {t}, {})
      modifies this`mem, mem.Values
      ensures Valid() && mem.Values <= old(mem.Values)
      ensures Keyed(s) && View() == DetachedAll(s, t)
    {
      hide View, AllCells, Inv, Reaped, Queued, Lists, WorkOf, Reap, Links, Leads, Places;
      InvWf(s, loose);
      var queue, names := QueueChildren([], t, children);
      ghost var D, done := {t}, {};
      StartWork(s, t, names);
      while |queue| > 0
        invariant Valid() && mem.Values <= old(mem.Values) && View() == Reaped(s, D, done)
        invariant Queued(s, t, D, done, Places(queue)) && Leads(s.g, queue)
        decreases |ToDo(s, done)|
      {
        D, done, queue := Turn(t, queue, s, loose, D, done);
      }
      NoPlaces(queue);
      InvSoundOf(s, loose);
      Swept(s, t, D, done);
    }

    /** One turn of the loop. */
    method Turn(t: Ino, queue: seq<Work>, ghost s: State, ghost loose: multiset<Ino>, ghost D: set<Ino>, ghost done: set<Entry>)
      returns (ghost D': set<Ino>, ghost done': set<Entry>, queue': seq<Work>)
      requires Inv(s, loose) && Keyed(s) && Valid() && View() == Reaped(s, D, done)
      requires Queued(s, t, D, done, Places(queue)) && Leads(s.g, queue) && |queue| > 0
      modifies this`mem, mem.Values
      ensures Valid() && mem.Values <= old(mem.Values) && View() == Reaped(s, D', done')
      ensures Queued(s, t, D', done', Places(queue')) && Leads(s.g, queue')
      ensures |ToDo(s, done')| == |ToDo(s, done)| - 1
    {
      hide View, AllCells, Inv, Reaped, Queued, Lists, WorkOf, Reap, Links, Leads, Places, ToDo, Lives, Released;
      var e, q := queue[0].ent, queue[0].from;
      HeadOf(s, loose, t, D, done, queue);
      ViewAt(e);
      D', done' := if s.g[e].kind == Dir then D + {e} else D, done + {q};
      ReapIs(s, D, D', done, q, e);
      var children := ReapHead(e);
      var longer, names := QueueChildren(queue, e, children);
      queue' := longer[1..];
      FirstPlace(queue);
      TurnFalls(s, t, D, done, Places(queue));
      QueueTurn(s, loose, t, D, done, Places(queue), names, e);
      NextWork(s, queue, e, children, names);
    }

    /** fskit_detach_all of an inode that is resolved. */
    method DetachEverything(t: Ino, ghost loose: multiset<Ino>)
      requires Valid() && Inv(View(), loose) && t in mem && Live(View(), t)
      modifies this`mem, mem.Values
      ensures Valid() && mem.Values <= old(mem.Values)
      ensures Keyed(old(View())) && View() == DetachAll(old(View()), t)
    {
      hide View, AllCells, Inv, Reaped, DetachedAll, Tag;
      ghost var s := View();
      ViewAt(t);
      ClosedAt(s, loose, t);
      if mem[t].kind == Dir {
        StartTagged(s, loose, t);
        var children := TagGarbage(t);
        DetachAllEx(t, children, s, loose);
      } else {
        var none := TagGarbage(t);
      }
    }

    /** One API call, from the point where its paths are resolved. */
    method Perform(c: Call, ghost loose: multiset<Ino>) returns (rc: int)
      requires Valid() && Inv(View(), loose) && Wf(View()) && Legal(View(), c)
      modifies this, mem.Values
      ensures Valid() && fresh(mem.Values - old(mem.Values)) && View() == Step(old(View()), c)
    {
      hide View, AllCells, Inv, Wf, Keyed, Mkdir, Open, Opendir, Close, Link, Unlink, Rmdir, Rename, DetachAll;
      rc := 0;
      match c
      case CMkdir(parent, name, writable, e, cb) => rc := MakeDirectory(parent, name, writable, e, cb, loose);
      case COpen(parent, name, a) => rc := OpenFile(parent, name, a, loose);
      case COpendir(t, h, cb) => rc := OpenDirectory(t, h, cb, loose);
      case CClose(h, cb) => rc := CloseHandle(h, cb, loose);
      case CLink(t, parent, name, writable, cb) => rc := LinkFile(t, parent, name, writable, cb, loose);
      case CUnlink(parent, name) => rc := UnlinkName(parent, name, loose);
      case CRmdir(parent, name) => rc := RemoveDirectory(parent, name, loose);
      case CRename(a) => rc := RenameEntry(a, loose);
      case CDetachAll(t) => DetachEverything(t, loose);
    }

    /** Calls one after the other: the objects go through the run of the states, and every state on the way satisfies
        the invariant. */
    method PerformAll(calls: seq<Call>, ghost loose: multiset<Ino>)
      requires Valid() && Inv(View(), loose) && Fair(View(), calls)
      modifies this, mem.Values
      ensures Valid() && fresh(mem.Values - old(mem.Values)) && View() == Run(old(View()), calls)
      ensures Inv(View(), loose + RunLeaks(old(View()), calls))
    {
      hide View, AllCells, Inv, Wf, Keyed, Legal, Guarded, Step, StepLeak, RunLeaks;
      ghost var s, now := View(), loose;
      RunKeeps(s, loose, calls);
      for i := 0 to |calls|
        invariant Valid() && fresh(mem.Values - old(mem.Values)) && Inv(View(), now)
        invariant Fair(View(), calls[i..]) && Run(View(), calls[i..]) == Run(s, calls)
      {
        ghost var before := now;
        StepKeeps(View(), before, calls[i]);
        now := now + StepLeak(View(), calls[i]);
        var rc := Perform(calls[i], before);
        assert calls[i..][1..] == calls[i + 1..];
      }
    }
  }
}
