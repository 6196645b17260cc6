/** What becomes of a name whose directory detach_all has turned into garbage, from the call to the last close. */
module FsGarbage {
  import opened Names
  import opened Wrappers
  import opened FsGraph
  import opened Fs
  import opened FsInvariant
  import opened FsCalls
  import opened FsRemove
  import opened FsDetach
  import opened Resolve
  import Readdir

  /** A directory as readdir sees it. */
  function DirView(s: State, d: Ino): Readdir.Dir
    requires d in s.g
  {
    map n | n in s.g[d].kids :: s.g[d].kids[n] in s.g && s.g[s.g[d].kids[n]].deleting
  }

  /** The directory p holds the name n, and what it leads to is garbage. */
  ghost predicate GarbageAt(s: State, p: Ino, n: Name, t: Ino)
  {
    Keyed(s) && Live(s, p) && s.g[p].kind == Dir && Kid(s.g, p, n) == Some(t) && t in s.g && s.g[t].deleting && s.g[t].links == 1 &&
    s.opens[t] >= 0 && !Dot(n)
  }

  /** The directory that holds t is not below t, and neither is its own name. */
  lemma HolderKeepsName(s: State, loose: multiset<Ino>, t: Ino, p: Ino, n: Name)
    requires Inv(s, loose) && t in s.g && s.g[t].kind == Dir && Kid(s.g, p, n) == Some(t) && !Dot(n)
    ensures s.g[p].kind == Dir && p !in DirsBelow(s, t) && Lost(s.g, Entries(s.g, DirsBelow(s, t)), p) == 0
  {
    hide Sound, RefsOk, NumOk, Settled, Links, Under;
    assert (p, n) in Links(s.g, t) by {
      EntryIsLink(s.g, p, n);
    }
    HolderIsDir(s.g, s.root, t, (p, n));
    HolderNotBelow(s.g, s.root, t, (p, n));
    var E := Entries(s.g, DirsBelow(s, t));
    forall q | q in Links(s.g, p) ensures q !in E {
      if q in E {
        HolderIsDir(s.g, s.root, p, q);
        ChildBelow(s, t, p, q);
      }
    }
    assert Links(s.g, p) * E == {};
  }

  /** What holds an entry is neither unlinked nor garbage. */
  lemma HolderLive(s: State, loose: multiset<Ino>, p: Ino, n: Name)
    requires Inv(s, loose) && Kid(s.g, p, n).Some? && !Dot(n)
    ensures Live(s, p) && Keyed(s)
  {
    hide Sound, RefsOk, NumOk;
    MidFacts(s, loose, {}, p);
  }

  /** Nothing of the directory that holds t is touched. */
  lemma HolderUntouched(s: State, loose: multiset<Ino>, t: Ino, p: Ino, n: Name)
    requires Inv(s, loose) && t in s.g && s.g[t].kind == Dir && Kid(s.g, p, n) == Some(t) && !Dot(n)
    ensures Live(s, p) && s.g[p].kind == Dir && Keyed(s) && p in DetachedAll(s, t).g && DetachedAll(s, t).g[p] == s.g[p]
  {
    hide Inv, Entries, DirsBelow, Lost;
    HolderLive(s, loose, p, n);
    HolderKeepsName(s, loose, t, p, n);
  }

  /** After detach_all of a directory that has a name, the name is still there, and leads to garbage. */
  lemma LeavesGarbage(s: State, loose: multiset<Ino>, t: Ino, p: Ino, n: Name)
    requires Inv(s, loose) && Live(s, t) && s.g[t].kind == Dir && Kid(s.g, p, n) == Some(t) && !Dot(n)
    ensures Keyed(s)
    ensures var s' := DetachAll(s, t);
      Inv(s', loose) && GarbageAt(s', p, n, t) && s'.g.Keys <= s.g.Keys && s'.opens[t] == s.opens[t] && s'.handles == s.handles
  {
    hide Inv, Links, DetachedAll, Entries;
    InvWf(s, loose);
    HolderUntouched(s, loose, t, p, n);
    ChildNotRoot(s, loose, p, n);
    DetachAllKeeps(s, loose, t);
    DetachAllEnds(s, loose, t);
    OnlyName(s, loose, p, n);
    InvCounts(s, loose, t);
  }

  lemma ChildNotRoot(s: State, loose: multiset<Ino>, p: Ino, n: Name)
    requires Inv(s, loose) && p in s.g && n in s.g[p].kids && !Dot(n)
    ensures s.g[p].kids[n] != s.root
  {
    hide Sound;
    DetachSound(s.g, s.root, p, n);
  }

  lemma OnlyName(s: State, loose: multiset<Ino>, p: Ino, n: Name)
    requires Inv(s, loose) && Kid(s.g, p, n).Some? && !Dot(n) && Kid(s.g, p, n).value in s.g && s.g[Kid(s.g, p, n).value].kind == Dir
    ensures s.g[Kid(s.g, p, n).value].links == 1
  {
    hide Sound;
    DirOneLink(s.g, s.root, p, n);
  }

  lemma InvCounts(s: State, loose: multiset<Ino>, e: Ino)
    requires Inv(s, loose) && e in s.g
    ensures Keyed(s) && s.opens[e] >= 0
  {
    MidFacts(s, loose, {}, e);
  }

  /** Garbage cannot be reached, nor is it listed; its name can be used again at once, and then leads to the new inode
      alone. The garbage itself goes with the name, unless it is open. */
  lemma NameIsFree(s: State, loose: multiset<Ino>, p: Ino, n: Name, t: Ino, search: set<Ino>, e: Ino, a: seq<Name>, b: seq<Name>, new_: Ino)
    requires Inv(s, loose) && GarbageAt(s, p, n, t) && new_ !in s.g && e in s.g && Outcome(s, search, e, a) == (Some(p), 0)
    ensures Outcome(s, search, e, a + [n] + b) == (None, ENOENT)
    ensures !Readdir.Shown(DirView(s, p), n)
    ensures Wf(s)
    ensures var (s', rc) := Mkdir(s, p, n, true, new_, 0);
      rc == 0 && Inv(s', loose) && Bound(s', p, n, new_, NewDir(new_, p).(links := 1)) && (t in s'.g <==> s.opens[t] > 0)
  {
    hide Inv, Bound, Mkdir;
    GarbageHides(s, search, e, a, n, b);
    InvWf(s, loose);
    MkdirKeeps(s, loose, p, n, true, new_, 0);
    MkdirBinds(s, loose, p, n, new_);
    MkdirCollects(s, loose, p, n, t, new_);
  }

  lemma MkdirCollects(s: State, loose: multiset<Ino>, p: Ino, n: Name, t: Ino, new_: Ino)
    requires Inv(s, loose) && Wf(s) && GarbageAt(s, p, n, t) && new_ !in s.g
    ensures var s' := Mkdir(s, p, n, true, new_, 0).0;
      Keyed(s') && s'.handles == s.handles && (t in s'.g <==> s.opens[t] > 0) &&
      (t in s'.g ==> s'.g[t].links == 0 && s'.opens[t] == s.opens[t])
  {
    hide Inv, GarbageCollect, Attach, Add;
    GarbageCollectKeeps(s, loose, p, n);
    var s1 := GarbageCollect(s, p, n).0;
    AttachAway(s1, p, n, t, new_);
  }

  lemma AttachAway(s: State, p: Ino, n: Name, t: Ino, e: Ino)
    requires Keyed(s) && p in s.g && e !in s.g && t != e && t != p
    ensures var s' := Attach(Add(s, e, NewDir(e, p), 0), p, e, n);
      s'.handles == s.handles && (t in s'.g <==> t in s.g) && (t in s.g ==> s'.g[t] == s.g[t] && s'.opens[t] == s.opens[t])
  {
  }

  /** The whole story: a directory with one handle on it is detached with everything below it, its name is used again,
      and the inode goes when the handle is closed. */
  lemma DetachReuseClose(s: State, loose: multiset<Ino>, t: Ino, p: Ino, n: Name, new_: Ino, h: nat)
    requires Inv(s, loose) && Live(s, t) && s.g[t].kind == Dir && Kid(s.g, p, n) == Some(t) && !Dot(n) && new_ !in s.g
    requires h in s.handles && s.handles[h] == t && s.opens[t] == 1
    ensures Keyed(s)
    ensures var s1 := DetachAll(s, t);
      Inv(s1, loose) && GarbageAt(s1, p, n, t) && !Readdir.Shown(DirView(s1, p), n) && Wf(s1) &&
      var s2 := Mkdir(s1, p, n, true, new_, 0).0;
      Inv(s2, loose) && Bound(s2, p, n, new_, NewDir(new_, p).(links := 1)) && t in s2.g && h in s2.handles && s2.handles[h] == t &&
      var s3 := Close(s2, h, 0).0;
      Inv(s3, loose) && t !in s3.g
  {
    hide Inv, Bound, Mkdir, Close, DetachAll, Wf;
    LeavesGarbage(s, loose, t, p, n);
    var s1 := DetachAll(s, t);
    InvWf(s1, loose);
    assert Kid(s1.g, p, n) == Some(t);
    VacantAt(s1, p, n, t);
    hide Vacant;
    MkdirKeeps(s1, loose, p, n, true, new_, 0);
    MkdirBinds(s1, loose, p, n, new_);
    MkdirCollects(s1, loose, p, n, t, new_);
    var s2 := Mkdir(s1, p, n, true, new_, 0).0;
    CloseKeeps(s2, loose, h, 0);
  }

  lemma VacantAt(s: State, p: Ino, n: Name, t: Ino)
    requires GarbageAt(s, p, n, t)
    ensures Vacant(s, p, n)
  {
  }
}
