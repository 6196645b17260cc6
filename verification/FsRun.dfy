/** Runs of API calls from an empty file system. */
module FsRun {
  import opened Names
  import opened Wrappers
  import opened FsGraph
  import opened Fs
  import opened FsInvariant
  import opened FsCalls
  import opened FsRemove
  import opened FsRename
  import opened FsAnswers
  import opened FsDetach

  /** fskit_core_init: a root directory and nothing else. */
  function Init(root: Ino): State
  {
    State(root, map[root := Rec(Dir, 1, false, map["." := root, ".." := root])], map[root := 0], map[root := 0], map[])
  }

  lemma InitInv(root: Ino)
    ensures Inv(Init(root), multiset{}) && Live(Init(root), root)
  {
    var s := Init(root);
    var L := LinkMap(s.g);
    assert L[root] == {};
    assert Ranked(s.g, L, map[root := 0]);
    assert HandlesOf(s.handles, root) == {};
  }

  lemma MarkKeepsCore(g: Graph, g': Graph, L: map<Ino, LinkSet>, root: Ino, t: Ino)
    requires g.Keys == L.Keys && CoreOk(g, L, root) && t in g && t != root && g' == g[t := g[t].(deleting := true)]
    ensures CoreOk(g', L, root)
  {
    var rank :| Ranked(g, L, rank);
    assert Ranked(g', L, rank);
  }

  lemma MarkLinks(g: Graph, g': Graph, t: Ino)
    requires t in g && g' == g[t := g[t].(deleting := true)]
    ensures LinkMap(g') == LinkMap(g)
  {
    forall e | e in g ensures Links(g', e) == Links(g, e) {
    }
    LinkMapIs(g', LinkMap(g));
  }

  lemma MarkSound(g: Graph, g': Graph, root: Ino, t: Ino)
    requires Sound(g, root) && t in g && t != root && g' == g[t := g[t].(deleting := true)]
    ensures Sound(g', root)
  {
    var L := LinkMap(g);
    MarkKeepsCore(g, g', L, root, t);
    assert LinkMap(g') == L by {
      MarkLinks(g, g', t);
    }
  }

  lemma MarkRest(s: State, loose: multiset<Ino>, t: Ino)
    requires Keyed(s) && RefsOk(s, loose) && Settled(s, {}) && t in s.g && s.g[t].kind != Dir && OnlyDots(s.g[t])
    ensures RefsOk(Tag(s, t), loose) && Settled(Tag(s, t), {})
  {
  }

  lemma TagFileKeeps(s: State, loose: multiset<Ino>, t: Ino)
    requires Inv(s, loose) && t in s.g && s.g[t].kind != Dir
    ensures Inv(Tag(s, t), loose)
  {
    hide Sound, RefsOk, NumOk, Settled;
    RootFacts(s.g, s.root);
    NotDirEmpty(s.g, s.root, t);
    MarkSound(s.g, Tag(s, t).g, s.root, t);
    MarkRest(s, loose, t);
    MarkNum(s, t);
  }

  lemma MarkNum(s: State, t: Ino)
    requires Keyed(s) && NumOk(s) && t in s.g && s.g[t].kind != Dir
    ensures NumOk(Tag(s, t))
  {
    forall d | d in s.g ensures RealNames(Tag(s, t).g[d]) == RealNames(s.g[d]) {
    }
  }

  /** Parents and targets are what resolving the paths returned; e and h are the addresses of new objects. */
  datatype Call =
    | CMkdir(parent: Ino, name: Name, writable: bool, e: Ino, cb: int)
    | COpen(parent: Ino, name: Name, args: OpenArgs)
    | COpendir(t: Ino, h: nat, cb: int)
    | CClose(h: nat, cb: int)
    | CLink(t: Ino, parent: Ino, name: Name, writable: bool, cb: int)
    | CUnlink(parent: Ino, name: Name)
    | CRmdir(parent: Ino, name: Name)
    | CRename(move: RenameArgs)
    | CDetachAll(t: Ino)

  ghost predicate Legal(s: State, c: Call)
  {
    match c
    case CMkdir(parent, _, _, e, _) => Live(s, parent) && e !in s.g
    case COpen(parent, _, a) => Live(s, parent) && a.e !in s.g && a.h !in s.handles
    case COpendir(t, h, _) => Live(s, t) && h !in s.handles
    case CClose(h, _) => true
    case CLink(t, parent, _, _, _) => Live(s, t) && Live(s, parent)
    case CUnlink(parent, _) => Live(s, parent)
    case CRmdir(parent, _) => Live(s, parent)
    case CRename(a) => Live(s, a.op) && Live(s, a.np) && WayOk(a)
    case CDetachAll(t) => Live(s, t)
  }

  ghost function Step(s: State, c: Call): State
    requires Wf(s) && Legal(s, c)
  {
    match c
    case CMkdir(parent, name, writable, e, cb) => Mkdir(s, parent, name, writable, e, cb).0
    case COpen(parent, name, a) => Open(s, parent, name, a).0
    case COpendir(t, h, cb) => Opendir(s, t, h, cb).0
    case CClose(h, cb) => if h in s.handles && s.handles[h] !in s.g then s else Close(s, h, cb).0
    case CLink(t, parent, name, writable, cb) => Link(s, t, parent, name, writable, cb).0
    case CUnlink(parent, name) => Unlink(s, parent, name).0
    case CRmdir(parent, name) => Rmdir(s, parent, name).0
    case CRename(a) => Rename(s, a).0
    case CDetachAll(t) => DetachAll(s, t)
  }

  /** The references a call leaves behind without a handle. */
  function StepLeak(s: State, c: Call): multiset<Ino>
  {
    if c.COpen? && c.parent in s.g then Leaked(s, c.parent, c.name, c.args) else multiset{}
  }

  /** What the calls themselves do not check: unlink of a directory with entries, the unsafe renames, and detach_all of
      the root, after which there is no file system. */
  ghost predicate Guarded(s: State, c: Call)
    requires Wf(s) && Legal(s, c)
  {
    match c
    case CUnlink(parent, name) => !LosesEntries(s, parent, name)
    case CRename(a) => Proceeds(s, a) ==> Safe(s, a)
    case CDetachAll(t) => t != s.root
    case _ => true
  }

  /** A call keeps the invariant exactly when it is guarded. */
  lemma StepKeeps(s: State, loose: multiset<Ino>, c: Call)
    requires Inv(s, loose) && Legal(s, c)
    ensures Wf(s)
    ensures Inv(Step(s, c), loose + StepLeak(s, c)) <==> Guarded(s, c)
  {
    hide Inv, Mkdir, Open, Opendir, Close, Link, Unlink, Rmdir, Rename, DetachAll, Proceeds, Safe, LosesEntries;
    InvWf(s, loose);
    assert loose + multiset{} == loose;
    match c
    case CMkdir(parent, name, writable, e, cb) => MkdirKeeps(s, loose, parent, name, writable, e, cb);
    case COpen(parent, name, a) => OpenKeeps(s, loose, parent, name, a);
    case COpendir(t, h, cb) => OpendirKeeps(s, loose, t, h, cb);
    case CClose(h, cb) => CloseKeeps(s, loose, h, cb);
    case CLink(t, parent, name, writable, cb) => LinkKeeps(s, loose, t, parent, name, writable, cb);
    case CUnlink(parent, name) => UnlinkKeeps(s, loose, parent, name);
    case CRmdir(parent, name) => RmdirKeeps(s, loose, parent, name);
    case CRename(a) => RenameKeeps(s, loose, a);
    case CDetachAll(t) => DetachKeeps(s, loose, t);
  }

  lemma DetachKeeps(s: State, loose: multiset<Ino>, t: Ino)
    requires Inv(s, loose) && Live(s, t)
    ensures Keyed(s) && (Inv(DetachAll(s, t), loose) <==> t != s.root)
  {
    hide Sound, RefsOk, NumOk, Settled, DetachedAll, Tag;
    InvWf(s, loose);
    if s.g[t].kind == Dir {
      DetachAllKeeps(s, loose, t);
    } else {
      RootFacts(s.g, s.root);
      TagFileKeeps(s, loose, t);
    }
  }

  // ---------- what a call does ----------

  /** The checks of a call, and its callbacks, let it through. */
  ghost predicate Agreed(s: State, c: Call)
    requires Wf(s) && Legal(s, c)
  {
    match c
    case CMkdir(parent, name, writable, _, cb) => s.g[parent].kind == Dir && writable && Vacant(s, parent, name) && cb == 0
    case COpen(parent, name, a) =>
      a.flagsOk && s.g[parent].kind == Dir && a.searchable && (a.trunc ==> a.truncCb == 0) &&
      (if a.creat then a.writable && Vacant(s, parent, name) && a.createCb == 0
       else name in s.g[parent].kids && !s.g[s.g[parent].kids[name]].deleting && s.g[s.g[parent].kids[name]].kind != Dir &&
            a.mayOpen && a.openCb == 0)
    case COpendir(t, _, cb) => s.g[t].kind == Dir && cb == 0
    case CClose(h, cb) => h in s.handles && cb == 0
    case CLink(t, parent, name, writable, cb) =>
      s.g[t].kind != Dir && s.g[parent].kind == Dir && writable && name !in s.g[parent].kids && cb == 0
    case CUnlink(parent, name) =>
      s.g[parent].kind == Dir && name in s.g[parent].kids && !Dot(name) &&
      (s.g[s.g[parent].kids[name]].kind == Dir ==> s.num[s.g[parent].kids[name]] <= 2)
    case CRmdir(parent, name) => EmptyDirAt(s, parent, name)
    case CRename(a) =>
      a.permitted && a.on in s.g[a.op].kids &&
      if a.nn in s.g[a.np].kids then s.g[a.op].kids[a.on] == s.g[a.np].kids[a.nn] || (a.cb == 0 && Replaceable(s, a)) else a.cb == 0
    case CDetachAll(t) => true
  }

  /** What is there after a call that went through. */
  ghost predicate Done(s: State, c: Call, s': State)
    requires Wf(s) && Legal(s, c) && Agreed(s, c)
  {
    match c
    case CMkdir(parent, name, _, e, _) => Bound(s', parent, name, e, NewDir(e, parent).(links := 1))
    case COpen(parent, name, a) =>
      if a.creat then Bound(s', parent, name, a.e, NewFile.(links := 1)) && a.h in s'.handles && s'.handles[a.h] == a.e
      else s' == WithHandle(s, a.h, s.g[parent].kids[name])
    case COpendir(t, h, _) => s' == WithHandle(s, h, t)
    case CClose(h, _) => s'.handles == s.handles - {h}
    case CLink(t, parent, name, _, _) => s' == WithLink(s, t, parent, name)
    case CUnlink(parent, name) => Unnamed(s, s', parent, name, 1)
    case CRmdir(parent, name) => Unnamed(s, s', parent, name, 1)
    case CRename(a) =>
      if a.nn in s.g[a.np].kids && s.g[a.op].kids[a.on] == s.g[a.np].kids[a.nn] then s' == s
      else (Proceeds(s, a) && Safe(s, a) ==> NamesMoved(s, s', a) && TargetGone(s, s', a))
    case CDetachAll(t) => t in s'.g && s'.g[t].deleting && s'.handles == s.handles
  }

  /** What mkdir and open may leave although they fail: a name that garbage held is free, or a created file is not
      truncated. */
  predicate MayHaveBegun(c: Call)
  {
    c.CMkdir? || (c.COpen? && c.args.creat)
  }

  lemma MkdirDone(s: State, loose: multiset<Ino>, c: Call)
    requires Wf(s) && Legal(s, c) && c.CMkdir? && Inv(s, loose)
    ensures Agreed(s, c) ==> Done(s, c, Step(s, c))
  {
    hide Inv, Mkdir, Vacant, Bound, Wf;
    if Agreed(s, c) {
      MkdirBinds(s, loose, c.parent, c.name, c.e);
    }
  }

  lemma OpendirDone(s: State, loose: multiset<Ino>, c: Call)
    requires Wf(s) && Legal(s, c) && c.COpendir? && Inv(s, loose)
    ensures if Agreed(s, c) then Done(s, c, Step(s, c)) else Step(s, c) == s
  {
    hide Inv, Opendir, WithHandle, Wf;
    OpendirAnswers(s, loose, c.t, c.h, c.cb);
  }

  lemma LinkDone(s: State, loose: multiset<Ino>, c: Call)
    requires Wf(s) && Legal(s, c) && c.CLink? && Inv(s, loose)
    ensures if Agreed(s, c) then Done(s, c, Step(s, c)) else Step(s, c) == s
  {
    hide Inv, Link, WithLink, Wf;
    LinkAnswers(s, loose, c.t, c.parent, c.name, c.writable, c.cb);
  }

  lemma AlwaysAgreed(s: State, c: Call)
    requires Wf(s) && Legal(s, c) && c.CDetachAll?
    ensures Agreed(s, c)
  {
  }

  lemma CreateDone(s: State, loose: multiset<Ino>, c: Call)
    requires Wf(s) && Legal(s, c) && c.COpen? && c.args.creat && Inv(s, loose)
    ensures Agreed(s, c) ==> Done(s, c, Step(s, c))
  {
    hide Inv, Open, Vacant, Bound, Wf;
    if Agreed(s, c) {
      CreateBinds(s, loose, c.parent, c.name, c.args);
    }
  }

  lemma OpenDone(s: State, loose: multiset<Ino>, c: Call)
    requires Wf(s) && Legal(s, c) && c.COpen? && !c.args.creat && Inv(s, loose)
    ensures if Agreed(s, c) then Done(s, c, Step(s, c)) else Step(s, c) == s
  {
    hide Inv, Open, WithHandle, Wf;
    OpenAnswers(s, loose, c.parent, c.name, c.args);
    if c.name in s.g[c.parent].kids {
      NamedIsLinked(s, loose, c.parent, c.name);
    }
  }

  lemma CloseDone(s: State, loose: multiset<Ino>, c: Call)
    requires Wf(s) && Legal(s, c) && c.CClose? && Inv(s, loose)
    ensures if Agreed(s, c) then Done(s, c, Step(s, c)) else Step(s, c) == s
  {
    hide Inv, Close, Wf;
    CloseAnswers(s, loose, c.h, c.cb);
  }

  lemma UnlinkDone(s: State, loose: multiset<Ino>, c: Call)
    requires Wf(s) && Legal(s, c) && c.CUnlink? && Inv(s, loose)
    ensures if Agreed(s, c) then Done(s, c, Step(s, c)) else Step(s, c) == s
  {
    hide Inv, Wf, Unlink, Unnamed;
    UnlinkAnswers(s, loose, c.parent, c.name);
  }

  lemma RmdirDone(s: State, loose: multiset<Ino>, c: Call)
    requires Wf(s) && Legal(s, c) && c.CRmdir? && Inv(s, loose)
    ensures if Agreed(s, c) then Done(s, c, Step(s, c)) else Step(s, c) == s
  {
    hide Inv, Wf, Rmdir, Unnamed;
    RmdirAnswers(s, loose, c.parent, c.name);
  }

  lemma RenameDone(s: State, loose: multiset<Ino>, c: Call)
    requires Wf(s) && Legal(s, c) && c.CRename? && Inv(s, loose)
    ensures if Agreed(s, c) then Done(s, c, Step(s, c)) else Step(s, c) == s
  {
    hide Inv, Rename, Proceeds, Safe, NamesMoved, TargetGone, Wf, Replaceable;
    var a := c.move;
    RenameAnswers(s, a);
    if Agreed(s, c) && Proceeds(s, a) && Safe(s, a) {
      RenameMoves(s, loose, a);
    }
  }

  lemma DetachDone(s: State, loose: multiset<Ino>, c: Call)
    requires Wf(s) && Legal(s, c) && c.CDetachAll? && Inv(s, loose)
    ensures Done(s, c, Step(s, c))
  {
    hide Inv, DetachedAll, Tag, LeftAs, Links, Entries;
    if s.g[c.t].kind == Dir {
      DetachAllEnds(s, loose, c.t);
    } else {
      DetachFileTags(s, c.t);
    }
  }

  /** A call does what it is for exactly when it is let through; else it changes nothing, but for what mkdir and open may
      have begun. */
  lemma StepDoes(s: State, loose: multiset<Ino>, c: Call)
    requires Inv(s, loose) && Legal(s, c)
    ensures Wf(s)
    ensures if Agreed(s, c) then Done(s, c, Step(s, c)) else MayHaveBegun(c) || Step(s, c) == s
  {
    InvWf(s, loose);
    hide *;
    if c.CMkdir? {
      MkdirDone(s, loose, c);
    } else if c.COpen? && c.args.creat {
      CreateDone(s, loose, c);
    } else if c.COpen? {
      OpenDone(s, loose, c);
    } else if c.COpendir? {
      OpendirDone(s, loose, c);
    } else if c.CClose? {
      CloseDone(s, loose, c);
    } else if c.CLink? {
      LinkDone(s, loose, c);
    } else if c.CUnlink? {
      UnlinkDone(s, loose, c);
    } else if c.CRmdir? {
      RmdirDone(s, loose, c);
    } else if c.CRename? {
      RenameDone(s, loose, c);
    } else {
      DetachDone(s, loose, c);
      AlwaysAgreed(s, c);
    }
  }

  // ---------- runs ----------

  /** Calls that can be made one after the other from s, each of them guarded. */
  ghost predicate Fair(s: State, calls: seq<Call>)
    decreases |calls|
  {
    calls == [] || (Wf(s) && Legal(s, calls[0]) && Guarded(s, calls[0]) && Fair(Step(s, calls[0]), calls[1..]))
  }

  ghost function Run(s: State, calls: seq<Call>): State
    requires Fair(s, calls)
    decreases |calls|
  {
    if calls == [] then s else Run(Step(s, calls[0]), calls[1..])
  }

  ghost function RunLeaks(s: State, calls: seq<Call>): multiset<Ino>
    requires Fair(s, calls)
    decreases |calls|
  {
    if calls == [] then multiset{} else StepLeak(s, calls[0]) + RunLeaks(Step(s, calls[0]), calls[1..])
  }

  lemma {:induction false} RunKeeps(s: State, loose: multiset<Ino>, calls: seq<Call>)
    requires Inv(s, loose) && Fair(s, calls)
    ensures Inv(Run(s, calls), loose + RunLeaks(s, calls))
    decreases |calls|
  {
    hide Inv, Wf, Legal, Guarded, Step, StepLeak;
    if calls == [] {
      assert loose + multiset{} == loose;
    } else {
      StepKeeps(s, loose, calls[0]);
      RunKeeps(Step(s, calls[0]), loose + StepLeak(s, calls[0]), calls[1..]);
      assert loose + StepLeak(s, calls[0]) + RunLeaks(Step(s, calls[0]), calls[1..]) ==
        loose + (StepLeak(s, calls[0]) + RunLeaks(Step(s, calls[0]), calls[1..]));
    }
  }

  /** Every state that any run of guarded calls from an empty file system reaches satisfies the invariant. */
  lemma AlwaysSound(root: Ino, calls: seq<Call>)
    requires Fair(Init(root), calls)
    ensures Inv(Run(Init(root), calls), RunLeaks(Init(root), calls))
  {
    hide Inv, Fair, Run, RunLeaks;
    InitInv(root);
    RunKeeps(Init(root), multiset{}, calls);
    assert multiset{} + RunLeaks(Init(root), calls) == RunLeaks(Init(root), calls);
  }

  // ---------- what the invariant means ----------

  /** Link counts are names, open counts cover handles, and neither is negative; nothing refers to an inode that is
      gone; whatever is neither named nor open is gone. */
  lemma CountsMean(s: State, loose: multiset<Ino>, e: Ino)
    requires Inv(s, loose) && e in s.g
    ensures s.g[e].links == |Links(s.g, e)| + (if e == s.root then 1 else 0)
    ensures s.opens[e] == |HandlesOf(s.handles, e)| + loose[e] && s.g[e].links + s.opens[e] > 0
    ensures forall n :: n in s.g[e].kids && !Dot(n) ==> s.g[e].kids[n] in s.g
    ensures forall h :: h in s.handles ==> s.handles[h] in s.g
  {
    hide Sound, NumOk;
    LinkCount(s.g, s.root, e);
    MidFacts(s, loose, {}, e);
  }

  /** Following ".." from a directory that has a name leads to the root. */
  lemma UpToRoot(s: State, loose: multiset<Ino>, d: Ino)
    requires Inv(s, loose) && d in s.g && s.g[d].kind == Dir && s.g[d].links > 0
    ensures Below(s, s.root, d)
  {
    hide Sound, RefsOk, NumOk, Settled, Under;
    var rank := Ranks(s.g, s.root);
    UpToRootBy(s, loose, d, rank);
  }

  lemma UpToRootBy(s: State, loose: multiset<Ino>, d: Ino, rank: map<Ino, nat>)
    requires Inv(s, loose) && d in s.g && s.g[d].kind == Dir && s.g[d].links > 0 && s.g.Keys <= rank.Keys
    requires forall x, q :: x in s.g && s.g[x].kind == Dir && q in Links(s.g, x) ==> rank[q.0] < rank[x]
    ensures Below(s, s.root, d)
    decreases rank[d]
  {
    hide Inv, Links, Under;
    if d == s.root {
      SelfBelow(s, d);
    } else {
      var q := OneHolder(s, loose, d);
      UpToRootBy(s, loose, q.0, rank);
      assert LinkMap(s.g)[d] == Links(s.g, d);
      UnderStep(s.g, LinkMap(s.g), s.root, d);
    }
  }
}
