/** Where fskit departs from what it means to do, with the inputs that show it. */
module FsDefects {
  import opened Names
  import opened Wrappers
  import opened FsGraph
  import opened Fs
  import opened FsInvariant
  import opened FsCalls
  import opened FsRemove
  import opened FsRename
  import opened FsAnswers
  import opened FsDetach
  import opened FsRun

  // ---------- states that calls reach ----------

  /** A run of guarded calls from the empty file system, whose root is inode 0, ends in s, and leaves no reference behind. */
  ghost predicate Reached(s: State)
  {
    exists calls :: Fair(Init(0), calls) && Run(Init(0), calls) == s && RunLeaks(Init(0), calls) == multiset{}
  }

  lemma InitReached()
    ensures Reached(Init(0))
  {
    assert Fair(Init(0), []) && Run(Init(0), []) == Init(0);
  }

  lemma ReachedInv(s: State)
    requires Reached(s)
    ensures Inv(s, multiset{}) && Wf(s)
  {
    hide Inv, Fair, Run, RunLeaks, Wf;
    var calls :| Fair(Init(0), calls) && Run(Init(0), calls) == s && RunLeaks(Init(0), calls) == multiset{};
    AlwaysSound(0, calls);
    InvWf(s, multiset{});
  }

  /** A run with one more call. */
  lemma {:induction false} RunMore(s: State, calls: seq<Call>, c: Call)
    requires Fair(s, calls) && Wf(Run(s, calls)) && Legal(Run(s, calls), c) && Guarded(Run(s, calls), c)
    ensures Fair(s, calls + [c]) && Run(s, calls + [c]) == Step(Run(s, calls), c)
    ensures RunLeaks(s, calls + [c]) == RunLeaks(s, calls) + StepLeak(Run(s, calls), c)
    decreases |calls|
  {
    hide Wf, Legal, Guarded, Step, StepLeak;
    var all := calls + [c];
    if calls == [] {
      assert all == [c] && all[1..] == [];
    } else {
      assert all[0] == calls[0] && all[1..] == calls[1..] + [c];
      RunMore(Step(s, calls[0]), calls[1..], c);
      assert RunLeaks(s, all) == StepLeak(s, calls[0]) + RunLeaks(Step(s, calls[0]), all[1..]);
    }
  }

  lemma ReachMore(s: State, c: Call)
    requires Reached(s) && Legal(s, c) && Wf(s) && Guarded(s, c) && StepLeak(s, c) == multiset{}
    ensures Reached(Step(s, c)) && Inv(Step(s, c), multiset{}) && Wf(Step(s, c))
  {
    hide Inv, Fair, Run, RunLeaks, Wf, Legal, Guarded, Step, StepLeak;
    var calls :| Fair(Init(0), calls) && Run(Init(0), calls) == s && RunLeaks(Init(0), calls) == multiset{};
    RunMore(Init(0), calls, c);
    ReachedInv(Step(s, c));
  }

  lemma MkdirMakes(s: State, parent: Ino, name: Name, e: Ino)
    requires Wf(s) && Live(s, parent) && s.g[parent].kind == Dir && !Dot(name) && name !in s.g[parent].kids && e !in s.g
    ensures Mkdir(s, parent, name, true, e, 0) == (WithNew(s, parent, name, e, NewDir(e, parent), 0), 0)
  {
    hide Attach, Add, WithNew;
    AttachesNew(s, parent, name, e, NewDir(e, parent), 0);
  }

  /** mkdir of a name that is free, in a state that is reached. */
  lemma Mkdirs(s: State, parent: Ino, name: Name, e: Ino) returns (s': State)
    requires Reached(s) && Live(s, parent) && s.g[parent].kind == Dir && !Dot(name) && name !in s.g[parent].kids && e !in s.g
    ensures Keyed(s) && s' == WithNew(s, parent, name, e, NewDir(e, parent), 0) && Reached(s')
  {
    hide Reached, WithNew, Inv, Mkdir;
    ReachedInv(s);
    MkdirMakes(s, parent, name, e);
    ReachMore(s, CMkdir(parent, name, true, e, 0));
    s' := WithNew(s, parent, name, e, NewDir(e, parent), 0);
  }

  lemma NotDots()
    ensures !Dot("d") && !Dot("e") && !Dot("f") && !Dot("x") && !Dot("y")
    ensures "d" != "e" && "e" != "x" && "d" != "x" && "d" != "f" && "x" != "f" && "x" != "y" && "e" != "y"
  {
    assert "d"[0] != "."[0] && "e"[0] != "."[0] && "f"[0] != "."[0] && "x"[0] != "."[0] && "y"[0] != "."[0];
    assert |".."| == 2;
    assert "d"[0] == 'd' && "e"[0] == 'e' && "f"[0] == 'f' && "x"[0] == 'x' && "y"[0] == 'y';
  }

  /** After mkdir("/d"). */
  ghost predicate OneDir(s: State)
  {
    Reached(s) && Keyed(s) && s.root == 0 && s.g.Keys == {0, 1} && Live(s, 0) && Live(s, 1) &&
    s.g[0].kind == Dir && s.g[0].kids == map["." := 0, ".." := 0, "d" := 1] &&
    s.g[1] == NewDir(1, 0).(links := 1) && s.num[0] == 1 && s.num[1] == 0 && s.opens[1] == 0
  }

  /** After mkdir("/d") and mkdir("/d/e"). */
  ghost predicate NestedDirs(s: State)
  {
    Reached(s) && Keyed(s) && s.root == 0 && s.g.Keys == {0, 1, 2} && Live(s, 0) && Live(s, 1) && Live(s, 2) &&
    s.g[0].kind == s.g[1].kind == Dir && s.g[0].kids == map["." := 0, ".." := 0, "d" := 1] &&
    s.g[1].kids == map["." := 1, ".." := 0, "e" := 2] && s.g[2] == NewDir(2, 1).(links := 1) &&
    s.num[1] == 1 && s.num[2] == 0 && s.opens[1] == 0 && s.opens[2] == 0
  }

  lemma MakeOne() returns (s: State)
    ensures OneDir(s)
  {
    hide Reached;
    NotDots();
    InitReached();
    s := Mkdirs(Init(0), 0, "d", 1);
    assert Init(0).g[0].kids["d" := 1] == map["." := 0, ".." := 0, "d" := 1];
  }

  lemma MakeNested() returns (s: State)
    ensures NestedDirs(s)
  {
    hide Reached;
    NotDots();
    var s1 := MakeOne();
    s := Mkdirs(s1, 1, "e", 2);
    assert s1.g[1].kids["e" := 2] == map["." := 1, ".." := 0, "e" := 2];
  }

  // ---------- unlink of a directory ----------

  /** After mkdir("/d") and mkdir("/d/e"), unlink("/d") succeeds, and /d/e keeps a link count that no entry accounts for. */
  lemma UnlinkOrphans() returns (s: State, s': State)
    ensures NestedDirs(s) && Wf(s) && (s', 0) == Unlink(s, 0, "d")
    ensures !Inv(s', multiset{}) && 1 !in s'.g && 2 in s'.g && s'.g[2].links == 1 && Links(s'.g, 2) == {}
  {
    hide Inv, Sound, Links, Reached;
    s := MakeNested();
    NotDots();
    ReachedInv(s);
    s' := Orphaned(s);
  }

  lemma Orphaned(s: State) returns (s': State)
    requires NestedDirs(s) && Inv(s, multiset{}) && !Dot("d") && !Dot("e")
    ensures Wf(s) && (s', 0) == Unlink(s, 0, "d")
    ensures !Inv(s', multiset{}) && 1 !in s'.g && 2 in s'.g && s'.g[2].links == 1 && Links(s'.g, 2) == {}
  {
    hide Inv, Sound, Unlink, Reached;
    InvWf(s, multiset{});
    s' := Unlink(s, 0, "d").0;
    assert LosesEntries(s, 0, "d") by {
      assert "e" in s.g[1].kids;
    }
    UnlinkKeeps(s, multiset{}, 0, "d");
    OneName(s, 1, (0, "d"));
    OneName(s, 2, (1, "e"));
    UnlinkRemoves(s, multiset{}, 0, "d");
    OrphanLinks(s, s');
  }

  lemma OneName(s: State, d: Ino, q: Entry)
    requires Inv(s, multiset{}) && d in s.g && s.g[d].kind == Dir && Kid(s.g, q.0, q.1) == Some(d) && !Dot(q.1)
    ensures Links(s.g, d) == {q} && s.g[d].links == 1
  {
    hide Sound;
    EntryIsLink(s.g, q.0, q.1);
    ChildOnce(s.g, s.root, d, q);
    DirOneLink(s.g, s.root, q.0, q.1);
  }

  lemma OrphanLinks(s: State, s': State)
    requires Keyed(s) && 2 in s.g && Links(s.g, 2) == {(1, "e")} && 1 !in s'.g && 0 in s'.g && 0 in s.g
    requires s'.g.Keys <= s.g.Keys && forall x :: x in s'.g && x in s.g && x != 0 ==> s'.g[x] == s.g[x]
    requires s'.g[0].kids == s.g[0].kids - {"d"}
    ensures Links(s'.g, 2) == {}
  {
    forall q ensures q !in Links(s'.g, 2) {
      if q in Links(s.g, 2) {
        assert q == (1, "e");
      }
    }
  }

  /** After mkdir("/d"), unlink("/d/..") answers 0, and nothing has gone. */
  lemma UnlinkDotDot() returns (s: State)
    ensures OneDir(s) && Wf(s) && Unlink(s, 1, "..") == (s, 0)
  {
    hide Inv, Reached, Unlink, Unnamed;
    s := MakeOne();
    ReachedInv(s);
    UnlinkAnswers(s, multiset{}, 1, "..");
  }

  // ---------- rename that its checks let through ----------

  /** A rename that goes ahead in a state that calls reach, and breaks the invariant. */
  ghost predicate Breaks(s: State, a: RenameArgs)
  {
    Reached(s) && RenameWf(s, a) && Live(s, a.op) && Live(s, a.np) && Proceeds(s, a) && Rename(s, a).1 == 0 &&
    !Inv(Rename(s, a).0, multiset{})
  }

  lemma UnsafeBreaks(s: State, a: RenameArgs)
    requires Reached(s) && Live(s, a.op) && Live(s, a.np) && WayOk(a) && RenameWf(s, a) && Proceeds(s, a) && !Safe(s, a)
    ensures Breaks(s, a)
  {
    hide Reached, Inv, Rename, Safe, Proceeds;
    ReachedInv(s);
    RenameKeeps(s, multiset{}, a);
    RenameReturns(s, a);
  }

  lemma RenameReturns(s: State, a: RenameArgs)
    requires RenameWf(s, a) && Proceeds(s, a)
    ensures Rename(s, a).1 == 0
  {
  }

  /** The walks to /d and to /d/e, where the root has inode number 0 and no other inode has. */
  lemma Ways()
    ensures Accumulated([0]) == Some([0, 0]) && Accumulated([0, 1]) == Some([0, 0, 0]) && Accumulated([0, 1, 2]) == Some([0, 0, 0, 0])
  {
    assert [0][..0] == [];
    assert Accumulated([0]) == Some([0, 0]);
    assert [0, 1][..1] == [0] && [0, 0] + [0] == [0, 0, 0];
    assert Accumulated([0, 1]) == Some([0, 0, 0]);
    assert [0, 1, 2][..2] == [0, 1] && [0, 0, 0] + [0] == [0, 0, 0, 0];
  }

  /** After the same two calls, rename("/d", "/d/e/x") is not refused, and /d then lies below itself alone. */
  lemma RenameIntoItself() returns (s: State, a: RenameArgs)
    ensures NestedDirs(s) && a == RenameArgs(0, "d", 2, "x", true, 0, [0, 1, 2]) && Breaks(s, a)
    ensures var g' := Rename(s, a).0.g; Kid(g', 0, "d") == None && Kid(g', 1, "e") == Some(2) && Kid(g', 2, "x") == Some(1)
  {
    hide Inv, Wf, Rename, Links, Reached, Breaks, Accumulated;
    NotDots();
    Ways();
    s := MakeNested();
    a := RenameArgs(0, "d", 2, "x", true, 0, [0, 1, 2]);
    ReachedInv(s);
    assert Proceeds(s, a);
    TwoBelowOne(s);
    UnsafeBreaks(s, a);
    IntoItself(s, a);
  }

  lemma IntoItself(s: State, a: RenameArgs)
    requires NestedDirs(s) && a.op == 0 && a.on == "d" && a.np == 2 && a.nn == "x" && RenameWf(s, a) && Proceeds(s, a)
    requires !Dot("d") && !Dot("e") && !Dot("x") && "x" != "e"
    ensures var g' := Rename(s, a).0.g; Kid(g', 0, "d") == None && Kid(g', 1, "e") == Some(2) && Kid(g', 2, "x") == Some(1)
  {
    hide Inv, Rename, Sound, Reached;
    ReachedInv(s);
    RenameAt(s, multiset{}, a, 0, "d");
    RenameAt(s, multiset{}, a, 1, "e");
    RenameAt(s, multiset{}, a, 2, "x");
  }

  lemma TwoBelowOne(s: State)
    requires NestedDirs(s) && !Dot("e")
    ensures Below(s, 1, 2)
  {
    hide Inv, Sound, Reached;
    ReachedInv(s);
    OneName(s, 2, (1, "e"));
    var q := OneHolder(s, multiset{}, 2);
    assert q in Links(s.g, 2);
    SelfBelow(s, 1);
    assert LinkMap(s.g)[2] == Links(s.g, 2);
    assert s.g.Keys == LinkMap(s.g).Keys;
    UnderStep(s.g, LinkMap(s.g), 1, 2);
  }

  /** After the same two calls, rename("/d/..", "/d/e/x") puts the root below a directory that is below the root. */
  lemma RenameDotDot() returns (s: State, a: RenameArgs)
    ensures NestedDirs(s) && a == RenameArgs(1, "..", 2, "x", true, 0, [0, 1, 2]) && Breaks(s, a)
    ensures var g' := Rename(s, a).0.g; Kid(g', 0, "d") == Some(1) && Kid(g', 1, "e") == Some(2) && Kid(g', 2, "x") == Some(0)
  {
    hide Inv, Wf, Rename, Links, Reached, Breaks, Accumulated;
    NotDots();
    Ways();
    s := MakeNested();
    a := RenameArgs(1, "..", 2, "x", true, 0, [0, 1, 2]);
    ReachedInv(s);
    assert Proceeds(s, a);
    UnsafeBreaks(s, a);
    RenameAt(s, multiset{}, a, 0, "d");
    RenameAt(s, multiset{}, a, 1, "e");
    RenameAt(s, multiset{}, a, 2, "x");
  }

  /** After mkdir("/d"), rename("/d/.", "/x") leaves the directory with two names. */
  lemma RenameDot() returns (s: State, a: RenameArgs)
    ensures OneDir(s) && a == RenameArgs(1, ".", 0, "x", true, 0, [0]) && Breaks(s, a)
    ensures var g' := Rename(s, a).0.g; Kid(g', 0, "d") == Some(1) == Kid(g', 0, "x")
  {
    hide Inv, Wf, Rename, Links, Reached, Breaks, Accumulated;
    NotDots();
    Ways();
    s := MakeOne();
    a := RenameArgs(1, ".", 0, "x", true, 0, [0]);
    ReachedInv(s);
    assert Proceeds(s, a);
    UnsafeBreaks(s, a);
    RenameAt(s, multiset{}, a, 0, "d");
    RenameAt(s, multiset{}, a, 0, "x");
  }

  /** open("/f", O_CREAT) in an empty file system, with handle 1. */
  const CreateF := OpenArgs(true, true, false, true, true, true, 1, 1, 0, 0, 0)

  lemma OpenCreates(s: State, parent: Ino, name: Name, a: OpenArgs)
    requires Wf(s) && Live(s, parent) && s.g[parent].kind == Dir && name !in s.g[parent].kids
    requires a.flagsOk && a.creat && a.searchable && a.writable && a.createCb == 0
    ensures var s1 := Attach(Add(s, a.e, NewFile, 1), parent, a.e, name);
      Open(s, parent, name, a).0 == if a.trunc && a.truncCb != 0 then s1 else s1.(handles := s1.handles[a.h := a.e])
  {
    hide Attach, Add;
  }

  lemma AttachNewFile(s: State, parent: Ino, name: Name, e: Ino)
    requires Keyed(s) && parent in s.g && e !in s.g
    ensures var s' := Attach(Add(s, e, NewFile, 1), parent, e, name);
      s'.root == s.root && s'.handles == s.handles && s'.g.Keys == s.g.Keys + {e} && s'.g[e] == NewFile.(links := 1) &&
      s'.g[parent] == s.g[parent].(kids := s.g[parent].kids[name := e])
  {
  }

  lemma InitKeyed(root: Ino)
    ensures Keyed(Init(root))
  {
  }

  lemma CreatesFile()
    ensures Wf(Init(0)) && !Dot("f")
    ensures var s := Open(Init(0), 0, "f", CreateF).0;
      Keyed(s) && s.root == 0 && s.g.Keys == {0, 1} && s.g[0] == Rec(Dir, 1, false, map["." := 0, ".." := 0, "f" := 1]) &&
      s.g[1] == NewFile.(links := 1)
  {
    hide Open, Attach, Add, Inv, Wf;
    NotDots();
    var s := Init(0);
    InitInv(0);
    InvWf(s, multiset{});
    assert Keyed(s) by {
      InitKeyed(0);
    }
    OpenCreates(s, 0, "f", CreateF);
    AttachNewFile(s, 0, "f", 1);
    assert s.g[0].kids["f" := 1] == map["." := 0, ".." := 0, "f" := 1];
  }

  /** Only a file is left behind by CreateF, apart from the handle. */
  lemma Creates() returns (s: State)
    ensures Reached(s) && Keyed(s) && s.root == 0 && s.g.Keys == {0, 1} && Live(s, 0) && Live(s, 1) && s.g[0].kind == Dir
    ensures s.g[0].kids == map["." := 0, ".." := 0, "f" := 1] && s.g[1] == NewFile.(links := 1)
  {
    hide Reached, Inv, Open;
    InitReached();
    ReachedInv(Init(0));
    CreatesFile();
    ReachMore(Init(0), COpen(0, "f", CreateF));
    s := Step(Init(0), COpen(0, "f", CreateF));
  }

  /** After creating /f and mkdir("/d"), rename("/d", "/f/x") gives the file an entry. */
  lemma RenameBelowFile() returns (s: State, a: RenameArgs)
    ensures a == RenameArgs(0, "d", 1, "x", true, 0, [0, 1]) && Breaks(s, a) && s.g[1].kind == File
  {
    hide Inv, Wf, Rename, Links, Reached, Breaks, Accumulated;
    NotDots();
    Ways();
    var s1 := Creates();
    s := Mkdirs(s1, 0, "d", 2);
    a := RenameArgs(0, "d", 1, "x", true, 0, [0, 1]);
    ReachedInv(s);
    assert Proceeds(s, a);
    UnsafeBreaks(s, a);
  }

  /** After mkdir of /d, /d/e, /d/x and /d/y, rename("/d", "/x") leaves the directory with two names. */
  lemma RenameFull() returns (s: State, a: RenameArgs)
    ensures a == RenameArgs(0, "d", 0, "x", true, 0, []) && Breaks(s, a) && 1 in s.num && s.num[1] == 3
    ensures Kid(s.g, 0, "d") == Some(1)
  {
    hide Inv, Wf, Rename, Links, Reached, Breaks;
    NotDots();
    var s2 := MakeNested();
    var s3 := Mkdirs(s2, 1, "x", 3);
    s := Mkdirs(s3, 1, "y", 4);
    a := RenameArgs(0, "d", 0, "x", true, 0, []);
    ReachedInv(s);
    assert Proceeds(s, a);
    UnsafeBreaks(s, a);
  }

  // ---------- counts that go wrong ----------

  /** Collecting garbage that is destroyed takes two off num_children of the parent, for one name. */
  lemma CollectMiscounts(s: State, loose: multiset<Ino>, parent: Ino, name: Name)
    requires Inv(s, loose) && Live(s, parent) && s.g[parent].kind == Dir && !Dot(name) && name in s.g[parent].kids
    ensures Wf(s) && s.g[parent].kids[name] in s.g
    ensures var ((s', rc), child) := (GarbageCollect(s, parent, name), s.g[parent].kids[name]);
      s.g[child].deleting ==> parent in s'.num && s'.num[parent] == s.num[parent] - (if rc == 1 then 2 else 1)
  {
    hide Sound, RefsOk, Settled, NumOk;
    GarbageCollectKeeps(s, loose, parent, name);
  }

  /** detach_all of an empty directory only tags it. */
  lemma EmptyDetach(s: State, loose: multiset<Ino>, t: Ino)
    requires Inv(s, loose) && t in s.g && s.g[t].kind == Dir && OnlyDots(s.g[t])
    ensures Keyed(s) && DetachAll(s, t) == Tag(s, t)
  {
    hide Sound, RefsOk, NumOk, Settled, Tag, Reaped;
    StartTagged(s, loose, t);
    SelfBelow(s, t);
    forall d | d in s.g && d != t ensures !Below(s, t, d) {
      EmptyNotAbove(s.g, s.root, t, d);
    }
    assert DirsBelow(s, t) == {t};
    assert Entries(s.g, {t}) == {};
  }

  /** After mkdir("/d"), mkdir("/d/e") and detach_all("/d/e"): the name is still there, and leads to garbage. */
  ghost predicate HasGarbage(s: State)
  {
    Reached(s) && Keyed(s) && s.root == 0 && s.g.Keys == {0, 1, 2} && Live(s, 0) && Live(s, 1) &&
    s.g[0].kind == s.g[1].kind == Dir && s.g[0].kids == map["." := 0, ".." := 0, "d" := 1] &&
    s.g[1].kids == map["." := 1, ".." := 0, "e" := 2] && s.g[2].kind == Dir && s.g[2].deleting && s.g[2].links == 1 &&
    s.num[1] == 1 && s.num[2] == 0 && s.opens[1] == 0 && s.opens[2] == 0
  }

  lemma TagOne(s: State, t: Ino)
    requires Keyed(s) && t in s.g && s.g[t].kind == Dir
    ensures var s' := Tag(s, t);
      s'.root == s.root && s'.g.Keys == s.g.Keys && s'.opens == s.opens && s'.num == s.num[t := 0] &&
      s'.g[t].kind == Dir && s'.g[t].deleting && s'.g[t].links == s.g[t].links && forall e :: e in s.g && e != t ==> s'.g[e] == s.g[e]
  {
  }

  lemma TagNested(s: State) returns (s': State)
    requires NestedDirs(s)
    ensures Keyed(s) && s' == Tag(s, 2) && Reached(s')
  {
    hide Reached, Inv, Wf, DetachAll, Tag;
    ReachedInv(s);
    EmptyDetach(s, multiset{}, 2);
    ReachMore(s, CDetachAll(2));
    s' := Tag(s, 2);
  }

  lemma MakeGarbage() returns (s: State)
    ensures HasGarbage(s)
  {
    hide Reached, Inv, Wf, Tag;
    var s2 := MakeNested();
    s := TagNested(s2);
    TagOne(s2, 2);
  }

  lemma DetachesGarbage(s: State, parent: Ino, name: Name)
    requires Keyed(s) && parent in s.g && !Dot(name) && name in s.g[parent].kids
    requires var child := s.g[parent].kids[name];
      child in s.g && child != parent && s.g[child].deleting && s.g[child].links == 1 && s.opens[child] == 0 && s.num[child] <= 2
    ensures var ((s1, rc), child) := (Detach(s, parent, name), s.g[parent].kids[name]);
      rc == 0 && s1.root == s.root && s1.opens == s.opens && s1.g[child].links == 0 && s1.num[parent] == s.num[parent] - 1 &&
      s1.g[parent] == s.g[parent].(kids := s.g[parent].kids - {name}) &&
      forall e :: e in s1.g && e != parent && e != child ==> s1.g[e] == s.g[e]
  {
  }

  /** Collecting garbage that nothing else holds. */
  lemma Collects(s: State, parent: Ino, name: Name)
    requires Wf(s) && Live(s, parent) && !Dot(name) && name in s.g[parent].kids
    requires var child := s.g[parent].kids[name];
      child in s.g && child != parent && s.g[child].deleting && s.g[child].links == 1 && s.opens[child] == 0 && s.num[child] <= 2
    ensures var ((s1, rc), child) := (GarbageCollect(s, parent, name), s.g[parent].kids[name]);
      rc == 1 && Keyed(s1) && s1.root == s.root && s1.g.Keys == s.g.Keys - {child} &&
      s1.g[parent] == s.g[parent].(kids := s.g[parent].kids - {name}) && s1.num[parent] == s.num[parent] - 2 &&
      (forall e :: e in s1.g ==> s1.opens[e] == s.opens[e]) && forall e :: e in s1.g && e != parent ==> s1.g[e] == s.g[e]
  {
    DetachesGarbage(s, parent, name);
    hide Detach, Wf;
  }

  /** Collecting the garbage. */
  lemma Frees(s: State)
    requires HasGarbage(s) && Wf(s) && !Dot("e")
    ensures var (s1, rc) := FreeName(s, 1, "e");
      rc == 0 && Keyed(s1) && s1.root == 0 && s1.g.Keys == {0, 1} && s1.g[0] == s.g[0] &&
      s1.g[1] == s.g[1].(kids := map["." := 1, ".." := 0]) && s1.num[1] == -1 && s1.opens[1] == 0
  {
    hide Reached, GarbageCollect, Wf;
    assert s.g[1].kids - {"e"} == map["." := 1, ".." := 0];
    Collects(s, 1, "e");
  }

  /** Collecting the garbage and making the directory anew. */
  lemma Remake(s: State) returns (s': State)
    requires HasGarbage(s) && Wf(s) && !Dot("e")
    ensures s' == Mkdir(s, 1, "e", true, 3, 0).0
    ensures Keyed(s') && s'.root == 0 && s'.g.Keys == {0, 1, 3} && Live(s', 0) && Live(s', 1) && s'.g[0] == s.g[0]
    ensures s'.g[1].kind == Dir && s'.g[1].kids == map["." := 1, ".." := 0, "e" := 3] && s'.num[1] == 0 && s'.opens[1] == 0
  {
    hide Reached, Attach, Add, FreeName, Wf;
    Frees(s);
    var s1 := FreeName(s, 1, "e").0;
    AttachesNew(s1, 1, "e", 3, NewDir(3, 1), 0);
    s' := Mkdir(s, 1, "e", true, 3, 0).0;
    assert map["." := 1, ".." := 0]["e" := 3] == map["." := 1, ".." := 0, "e" := 3];
  }

  /** One mkdir later num_children of /d is 0, and /d has an entry. */
  lemma Miscounted() returns (s: State)
    ensures Reached(s) && Keyed(s) && s.root == 0 && s.g.Keys == {0, 1, 3} && Live(s, 0) && Live(s, 1)
    ensures s.g[0].kind == s.g[1].kind == Dir && s.g[0].kids == map["." := 0, ".." := 0, "d" := 1]
    ensures s.g[1].kids == map["." := 1, ".." := 0, "e" := 3] && s.num[1] == 0 && s.opens[1] == 0
  {
    hide Reached, Inv, Links, Mkdir;
    NotDots();
    var s1 := MakeGarbage();
    ReachedInv(s1);
    ReachMore(s1, CMkdir(1, "e", true, 3, 0));
    s := Remake(s1);
  }

  /** After that and mkdir("/x"), rename("/x", "/d") replaces the directory /d although it has an entry. */
  lemma RenameOverFull() returns (s: State, a: RenameArgs)
    ensures a == RenameArgs(0, "x", 0, "d", true, 0, []) && Breaks(s, a)
    ensures Kid(s.g, 0, "d") == Some(1) && Kid(s.g, 1, "e") == Some(3) && 1 in s.num && s.num[1] == 0
  {
    hide Inv, Wf, Rename, Links, Reached, Breaks;
    NotDots();
    var s1 := Miscounted();
    s := Mkdirs(s1, 0, "x", 4);
    a := RenameArgs(0, "x", 0, "d", true, 0, []);
    ReachedInv(s);
    assert Proceeds(s, a);
    hide Proceeds, RenameError, SameInode;
    assert !OnlyDots(s.g[1]) by {
      assert "e" in s.g[1].kids;
    }
    UnsafeBreaks(s, a);
  }

  // ---------- the set of inodes on the way ----------

  /** The set holds 0 and nothing else, as often as inodes were met and once more; and the program exits exactly when an
      inode behind the first has number 0. */
  lemma {:induction false} AccumulatedWhen(ids: seq<nat>)
    requires ids != []
    ensures Accumulated(ids).None? <==> exists i :: 0 < i < |ids| && ids[i] == 0
    ensures var found := Accumulated(ids);
      found.Some? ==> |found.value| == |ids| + 1 && forall i :: 0 <= i < |found.value| ==> found.value[i] == 0
  {
    var last := |ids| - 1;
    if last > 0 {
      AccumulatedWhen(ids[..last]);
      if Accumulated(ids[..last]).None? {
        var i :| 0 < i < last && ids[..last][i] == 0;
        assert ids[i] == 0;
      } else {
        forall i | 0 < i < last ensures ids[i] != 0 {
          assert ids[..last][i] == ids[i];
        }
      }
    } else {
      assert ids[..0] == [];
    }
  }

  /** rename over another existing inode succeeds only within one directory, whatever the way to the new parent was:
      exactly when the kinds agree, the target counts no children if it is a directory, and nobody objects. */
  lemma RenameOverWhen(s: State, a: RenameArgs)
    requires RenameWf(s, a) && a.on in s.g[a.op].kids && a.nn in s.g[a.np].kids && s.g[a.op].kids[a.on] != s.g[a.np].kids[a.nn]
    ensures var (old_, new_) := (s.g[a.op].kids[a.on], s.g[a.np].kids[a.nn]);
      Rename(s, a).1 == 0 <==>
      a.permitted && a.cb == 0 && a.op == a.np && s.g[old_].kind == s.g[new_].kind && (s.g[new_].kind == Dir ==> s.num[new_] <= 0)
    ensures a.op != a.np ==> Rename(s, a).0 == s && Rename(s, a).1 != 0
  {
    hide Accumulated, Accumulate, Swap;
    assert a.op != a.np ==> 0 in Accumulated(a.way).value by {
      WayHasZero(a.way);
    }
  }

  lemma AcrossIsInvalid(s: State, a: RenameArgs)
    requires RenameWf(s, a) && a.permitted && a.op != a.np && a.on in s.g[a.op].kids && a.nn in s.g[a.np].kids
    requires var (old_, new_) := (s.g[a.op].kids[a.on], s.g[a.np].kids[a.nn]);
      old_ != new_ && old_ in s.g && new_ in s.g && s.g[old_].kind == s.g[new_].kind && (s.g[new_].kind == Dir ==> s.num[new_] <= 0)
    ensures Rename(s, a) == (s, EINVAL)
  {
    hide Accumulated, Swap;
    WayHasZero(a.way);
  }

  /** After mkdir of /d, /d/e and /x, rename("/x", "/d/e") onto the empty directory is refused with EINVAL. */
  lemma RenameAcrossRefused() returns (s: State, a: RenameArgs)
    ensures Reached(s) && RenameWf(s, a) && a == RenameArgs(0, "x", 1, "e", true, 0, [0, 1])
    ensures Kid(s.g, 0, "x") == Some(3) && Kid(s.g, 1, "e") == Some(2) && 2 in s.g && OnlyDots(s.g[2]) && s.num[2] == 0
    ensures Rename(s, a) == (s, EINVAL)
  {
    hide Inv, Links, Reached, Accumulated, Wf, Rename;
    NotDots();
    Ways();
    var s2 := MakeNested();
    s := Mkdirs(s2, 0, "x", 3);
    a := RenameArgs(0, "x", 1, "e", true, 0, [0, 1]);
    ReachedInv(s);
    AcrossIsInvalid(s, a);
  }

  // ---------- a reference that is never dropped ----------

  /** A file whose truncation failed right after it was created is never destroyed, whatever calls follow. */
  lemma LeakStays(root: Ino, calls: seq<Call>, e: Ino)
    requires Fair(Init(root), calls) && e in RunLeaks(Init(root), calls)
    ensures e in Run(Init(root), calls).g
  {
    hide Sound, NumOk, Settled, Fair, Run, RunLeaks;
    AlwaysSound(root, calls);
  }

  /** open("/f", O_CREAT | O_TRUNC) whose truncation answers EIO leaves such a file, with no handle on it. */
  lemma Leaks() returns (calls: seq<Call>)
    ensures calls == [COpen(0, "f", OpenArgs(true, true, true, true, true, true, 1, 7, 0, EIO, 0))]
    ensures Fair(Init(0), calls) && RunLeaks(Init(0), calls) == multiset{1} && Run(Init(0), calls).handles == map[]
  {
    hide Inv, Open, Attach, Add, Wf;
    NotDots();
    InitInv(0);
    InitKeyed(0);
    InvWf(Init(0), multiset{});
    var c := COpen(0, "f", OpenArgs(true, true, true, true, true, true, 1, 7, 0, EIO, 0));
    calls := [c];
    assert calls[1..] == [];
    OpenCreates(Init(0), 0, "f", c.args);
    AttachNewFile(Init(0), 0, "f", 1);
    assert Legal(Init(0), c) && Guarded(Init(0), c) && StepLeak(Init(0), c) == multiset{1};
    assert Fair(Step(Init(0), c), []);
  }
}
