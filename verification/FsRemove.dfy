/** unlink and rmdir: when they keep the invariant, and what they remove. */
module FsRemove {
  import opened Names
  import opened FsGraph
  import opened Fs
  import opened FsInvariant
  import opened FsCalls

  // ---------- losing a directory that still has entries ----------

  lemma FewerLinks(g: Graph, g': Graph, d: Ino, n: Name)
    requires d in g && n in g[d].kids && !Dot(n) && d !in g'
    requires Links(g', g[d].kids[n]) <= Links(g, g[d].kids[n])
    ensures |Links(g', g[d].kids[n])| < |Links(g, g[d].kids[n])|
  {
    var c := g[d].kids[n];
    assert (d, n) in Links(g, c) && (d, n) !in Links(g', c);
    SmallerSet(Links(g', c), Links(g, c), (d, n));
  }

  lemma SmallerSet<T>(a: set<T>, b: set<T>, x: T)
    requires a <= b && x in b && x !in a
    ensures |a| < |b|
  {
    assert b == (b - a) + a;
    assert x in b - a;
  }

  /** A destroyed directory that had an entry leaves an inode behind whose link count is too high. */
  lemma OrphanBreaks(g: Graph, g': Graph, root: Ino, d: Ino, n: Name)
    requires Sound(g, root) && d in g && n in g[d].kids && !Dot(n) && d !in g'
    requires var c := g[d].kids[n]; c in g' && g'[c].links == g[c].links && Links(g', c) <= Links(g, c)
    ensures !Sound(g', root)
  {
    FewerLinks(g, g', d, n);
  }

  /** unlink takes a directory away although it has entries, because num_children says it has at most two. */
  ghost predicate LosesEntries(s: State, parent: Ino, name: Name)
    requires Wf(s) && parent in s.g
  {
    s.g[parent].kind == Dir && name in s.g[parent].kids && !Dot(name) &&
    var child := s.g[parent].kids[name];
    s.g[child].kind == Dir && s.num[child] <= 2 && !OnlyDots(s.g[child])
  }

  /** A directory has one link, as long as it is linked. */
  lemma DirOneLink(g: Graph, root: Ino, d: Ino, n: Name)
    requires Sound(g, root) && d in g && n in g[d].kids && !Dot(n) && g[d].kids[n] in g && g[g[d].kids[n]].kind == Dir
    ensures g[g[d].kids[n]].links == 1
  {
    EntryIsLink(g, d, n);
  }

  lemma NotDirEmpty(g: Graph, root: Ino, e: Ino)
    requires Sound(g, root) && e in g && g[e].kind != Dir
    ensures OnlyDots(g[e])
  {
  }

  lemma DetachedLinks(g: Graph, parent: Ino, name: Name, c: Ino)
    requires parent in g && name in g[parent].kids && g[parent].kids[name] in g
    ensures Links(DetachG(g, parent, name) - {g[parent].kids[name]}, c) <= Links(g, c)
  {
  }

  lemma NotSettled(s: State, e: Ino, n: Name)
    requires Keyed(s) && e in s.g && s.g[e].links <= 0 && n in s.g[e].kids && !Dot(n)
    ensures !Settled(s, {})
  {
    assert !GoneIsEmpty(s.g[e]);
  }

  lemma UnlinkLoses(s: State, loose: multiset<Ino>, parent: Ino, name: Name)
    requires Inv(s, loose) && Live(s, parent) && Wf(s) && LosesEntries(s, parent, name)
    ensures !Inv(Unlink(s, parent, name).0, loose)
  {
    hide Sound, RefsOk, NumOk, Settled;
    var child, s1 := s.g[parent].kids[name], Detach(s, parent, name).0;
    DetachSound(s.g, s.root, parent, name);
    DirOneLink(s.g, s.root, parent, name);
    var n :| n in s.g[child].kids && !Dot(n);
    if s.opens[child] > 0 {
      NotSettled(s1, child, n);
    } else {
      assert !Sound(s1.g - {child}, s.root) by {
        DestroyedBreaks(s, loose, parent, name, n);
      }
    }
  }

  lemma DestroyedBreaks(s: State, loose: multiset<Ino>, parent: Ino, name: Name, n: Name)
    requires Inv(s, loose) && parent in s.g && name in s.g[parent].kids && !Dot(name) && s.g[parent].kids[name] in s.g
    requires !Dot(n) && n in s.g[s.g[parent].kids[name]].kids
    ensures !Sound(DetachG(s.g, parent, name) - {s.g[parent].kids[name]}, s.root)
  {
    hide Sound, RefsOk, NumOk, Settled, Links;
    var child := s.g[parent].kids[name];
    MidFacts(s, loose, {}, child);
    DetachSound(s.g, s.root, parent, name);
    NotOwnChild(s.g, s.root, child, n);
    DetachedLinks(s.g, parent, name, s.g[child].kids[n]);
    OrphanBreaks(s.g, DetachG(s.g, parent, name) - {child}, s.root, child, n);
  }

  /** unlink keeps the invariant exactly when it does not take a directory away that has entries. */
  lemma UnlinkKeeps(s: State, loose: multiset<Ino>, parent: Ino, name: Name)
    requires Inv(s, loose) && Live(s, parent)
    ensures Wf(s)
    ensures Inv(Unlink(s, parent, name).0, loose) <==> !LosesEntries(s, parent, name)
  {
    hide Sound, RefsOk, NumOk;
    InvWf(s, loose);
    if LosesEntries(s, parent, name) {
      UnlinkLoses(s, loose, parent, name);
    } else if s.g[parent].kind == Dir && name in s.g[parent].kids && Detach(s, parent, name).1 == 0 {
      var child := s.g[parent].kids[name];
      DetachMid(s, loose, {}, parent, name);
      if s.g[child].kind != Dir {
        NotDirEmpty(s.g, s.root, child);
      }
      TryDestroyMid(Detach(s, parent, name).0, loose, {child}, child);
    }
  }

  /** s' is s without a name; the inode it named is gone too if that was its last link and nothing has it open. */
  ghost predicate NameRemoved(s: State, s': State, parent: Ino, name: Name, child: Ino)
  {
    Keyed(s) && Keyed(s') && s'.handles == s.handles && child in s.g && parent in s.g && child != parent &&
    s'.g.Keys == s.g.Keys - (if s.g[child].links == 1 && s.opens[child] == 0 then {child} else {}) &&
    (forall x :: x in s'.g ==> s'.opens[x] == s.opens[x]) &&
    (forall x :: x in s'.g && x != parent && x != child ==> s'.g[x] == s.g[x]) &&
    s'.g[parent] == s.g[parent].(kids := s.g[parent].kids - {name}) &&
    (child in s'.g ==> s'.g[child] == s.g[child].(links := s.g[child].links - 1))
  }

  lemma DetachDestroyRemoves(s: State, parent: Ino, name: Name)
    requires Keyed(s) && parent in s.g && name in s.g[parent].kids && s.g[parent].kids[name] in s.g
    requires var child := s.g[parent].kids[name]; child != parent && s.g[child].links > 0 && s.opens[child] >= 0
    requires Detach(s, parent, name).1 == 0
    ensures NameRemoved(s, TryDestroy(Detach(s, parent, name).0, s.g[parent].kids[name]).0, parent, name, s.g[parent].kids[name])
  {
  }

  /** unlink takes one name away, and the inode with it exactly when that was its last link and it is not open. */
  lemma UnlinkRemoves(s: State, loose: multiset<Ino>, parent: Ino, name: Name)
    requires Inv(s, loose) && Live(s, parent) && s.g[parent].kind == Dir && name in s.g[parent].kids && !Dot(name)
    ensures Wf(s)
    ensures var ((s', rc), child) := (Unlink(s, parent, name), s.g[parent].kids[name]);
      if s.g[child].kind == Dir && s.num[child] > 2 then rc == ENOTEMPTY && s' == s
      else rc == 0 && NameRemoved(s, s', parent, name, child)
  {
    hide Sound, RefsOk, NumOk, Settled, NameRemoved;
    InvWf(s, loose);
    MidFacts(s, loose, {}, s.g[parent].kids[name]);
    DetachSound(s.g, s.root, parent, name);
    if Detach(s, parent, name).1 == 0 {
      DetachDestroyRemoves(s, parent, name);
    }
  }

  lemma DirKids(r: Rec)
    requires "." in r.kids && ".." in r.kids
    ensures |r.kids| == |RealNames(r)| + 2
  {
    var dots: set<Name> := {".", ".."};
    assert r.kids.Keys == RealNames(r) + dots;
    assert RealNames(r) !! dots;
    assert |dots| == 2;
  }

  lemma DirHasDots(g: Graph, root: Ino, d: Ino)
    requires Sound(g, root) && d in g && g[d].kind == Dir
    ensures "." in g[d].kids && ".." in g[d].kids
  {
  }

  ghost predicate EmptyDirAt(s: State, parent: Ino, name: Name)
    requires Wf(s) && parent in s.g
  {
    s.g[parent].kind == Dir && name in s.g[parent].kids && !Dot(name) &&
    s.g[s.g[parent].kids[name]].kind == Dir && OnlyDots(s.g[s.g[parent].kids[name]])
  }

  lemma EmptyCounts(s: State, loose: multiset<Ino>, d: Ino)
    requires Inv(s, loose) && d in s.g && s.g[d].kind == Dir
    ensures |s.g[d].kids| > 2 <==> !OnlyDots(s.g[d])
    ensures OnlyDots(s.g[d]) ==> s.num[d] <= 0
  {
    hide Sound, RefsOk, NumOk, Settled;
    MidFacts(s, loose, {}, d);
    DirHasDots(s.g, s.root, d);
    DirKids(s.g[d]);
    if OnlyDots(s.g[d]) {
      EmptyHasNoNames(s.g[d]);
    } else {
      var n :| n in s.g[d].kids && !Dot(n);
      assert n in RealNames(s.g[d]);
    }
  }

  /** Detaching a dot name does nothing. */
  lemma DetachDot(s: State, parent: Ino, name: Name)
    requires Keyed(s) && parent in s.g && Dot(name)
    ensures Detach(s, parent, name).0 == s && Detach(s, parent, name).1 != 0
  {
  }

  /** An empty directory goes with its name. */
  lemma EmptyGoes(s: State, loose: multiset<Ino>, parent: Ino, name: Name)
    requires Inv(s, loose) && Live(s, parent) && name in s.g[parent].kids && !Dot(name)
    requires s.g[parent].kids[name] in s.g && s.g[s.g[parent].kids[name]].kind == Dir && OnlyDots(s.g[s.g[parent].kids[name]])
    ensures var child := s.g[parent].kids[name];
      Keyed(s) && Detach(s, parent, name).1 == 0 && Inv(TryDestroy(Detach(s, parent, name).0, child).0, loose) &&
      NameRemoved(s, TryDestroy(Detach(s, parent, name).0, child).0, parent, name, child)
  {
    hide Sound, RefsOk, NumOk, Settled, TryDestroy, NameRemoved;
    var child := s.g[parent].kids[name];
    MidFacts(s, loose, {}, child);
    EmptyCounts(s, loose, child);
    DetachMid(s, loose, {}, parent, name);
    TryDestroyMid(Detach(s, parent, name).0, loose, {child}, child);
    DetachDestroyRemoves(s, parent, name);
  }

  /** rmdir always keeps the invariant, and succeeds on empty directories and nothing else, which go with their name. */
  lemma RmdirKeeps(s: State, loose: multiset<Ino>, parent: Ino, name: Name)
    requires Inv(s, loose) && Live(s, parent)
    ensures Wf(s)
    ensures var (s', rc) := Rmdir(s, parent, name);
      Inv(s', loose) && (rc != 0 ==> s' == s) &&
      (rc == 0 <==> EmptyDirAt(s, parent, name)) &&
      (rc == 0 ==> NameRemoved(s, s', parent, name, s.g[parent].kids[name]))
  {
    hide Inv, Detach, TryDestroy, NameRemoved;
    InvWf(s, loose);
    if s.g[parent].kind == Dir && name in s.g[parent].kids && s.g[s.g[parent].kids[name]].kind == Dir {
      EmptyCounts(s, loose, s.g[parent].kids[name]);
      if Dot(name) {
        DetachDot(s, parent, name);
      } else if OnlyDots(s.g[s.g[parent].kids[name]]) {
        EmptyGoes(s, loose, parent, name);
      }
    }
  }
}
