/** Path resolution with lock coupling, on a file system that stays as it is while the path is walked. */
module Resolve {
  import opened Names
  import opened Wrappers
  import opened FsGraph
  import opened Fs
  import opened FsInvariant
  import opened FsCalls
  import opened Paths

  datatype Mode = Read | Write

  // ---------- what a walk finds ----------

  /** One step down: the inode that the name leads to, if it can be found. */
  function Down(s: State, e: Ino, name: Name): Option<Ino>
  {
    if Kid(s.g, e, name).Some? && Kid(s.g, e, name).value in s.g && s.g[Kid(s.g, e, name).value].links != 0 &&
       !s.g[Kid(s.g, e, name).value].deleting
    then Kid(s.g, e, name) else None
  }

  /** An inode that the walk may be at, with names still to go or not. */
  predicate Passable(s: State, search: set<Ino>, e: Ino, last: bool)
  {
    e in s.g && (s.g[e].kind == Dir ==> e in search) && (!last ==> s.g[e].kind == Dir)
  }

  /** nodes is a walk along the names: every inode on it is live, and all but the last are searchable directories, the
      last too if it is a directory. */
  ghost predicate IsWalk(s: State, search: set<Ino>, nodes: seq<Ino>, names: seq<Name>)
  {
    |nodes| == |names| + 1 &&
    (forall i :: 0 <= i < |nodes| ==> Passable(s, search, nodes[i], i == |names|)) &&
    forall i :: 0 <= i < |names| ==> Down(s, nodes[i], names[i]) == Some(nodes[i + 1])
  }

  ghost predicate Reaches(s: State, search: set<Ino>, from: Ino, names: seq<Name>, e: Ino)
  {
    exists nodes :: IsWalk(s, search, nodes, names) && nodes[0] == from && nodes[|names|] == e
  }

  /** What resolving answers from an inode on: the inode, or why not. */
  function Outcome(s: State, search: set<Ino>, e: Ino, names: seq<Name>): (r: (Option<Ino>, int))
    requires e in s.g
    ensures r.0.Some? <==> r.1 == 0
    decreases |names|
  {
    if names != [] && s.g[e].kind != Dir then (None, ENOTDIR)
    else if s.g[e].kind == Dir && e !in search then (None, EACCES)
    else if names == [] then (Some(e), 0)
    else if Down(s, e, names[0]).None? then (None, ENOENT)
    else Outcome(s, search, Down(s, e, names[0]).value, names[1..])
  }

  lemma {:induction false} OutcomeWalks(s: State, search: set<Ino>, e: Ino, names: seq<Name>) returns (nodes: seq<Ino>)
    requires e in s.g && Outcome(s, search, e, names).0.Some?
    ensures IsWalk(s, search, nodes, names) && nodes[0] == e && Some(nodes[|names|]) == Outcome(s, search, e, names).0
    decreases |names|
  {
    if names == [] {
      nodes := [e];
    } else {
      var rest := OutcomeWalks(s, search, Down(s, e, names[0]).value, names[1..]);
      nodes := [e] + rest;
    }
  }

  lemma {:induction false} WalkIsOutcome(s: State, search: set<Ino>, nodes: seq<Ino>, names: seq<Name>)
    requires IsWalk(s, search, nodes, names) && nodes[0] in s.g
    ensures Outcome(s, search, nodes[0], names) == (Some(nodes[|names|]), 0)
    decreases |names|
  {
    assert Passable(s, search, nodes[0], 0 == |names|);
    if names != [] {
      assert Down(s, nodes[0], names[0]) == Some(nodes[1]);
      forall i | 0 <= i < |nodes[1..]| ensures Passable(s, search, nodes[1..][i], i == |names[1..]|) {
        assert Passable(s, search, nodes[i + 1], i + 1 == |names|);
      }
      forall i | 0 <= i < |names[1..]| ensures Down(s, nodes[1..][i], names[1..][i]) == Some(nodes[1..][i + 1]) {
        assert Down(s, nodes[i + 1], names[i + 1]) == Some(nodes[i + 2]);
      }
      WalkIsOutcome(s, search, nodes[1..], names[1..]);
    }
  }

  /** Resolving answers e exactly when a walk along the names leads to e. */
  lemma ResolvesIffReaches(s: State, search: set<Ino>, from: Ino, names: seq<Name>, e: Ino)
    requires from in s.g
    ensures Outcome(s, search, from, names) == (Some(e), 0) <==> Reaches(s, search, from, names, e)
  {
    if Outcome(s, search, from, names).0 == Some(e) {
      var nodes := OutcomeWalks(s, search, from, names);
    }
    if Reaches(s, search, from, names, e) {
      var nodes :| IsWalk(s, search, nodes, names) && nodes[0] == from && nodes[|names|] == e;
      WalkIsOutcome(s, search, nodes, names);
    }
  }

  /** nodes is a way along the names that cannot go on: from its last inode, which is no directory although names are
      left, or may not be searched, or has no live entry of the next name. */
  ghost predicate FailsAt(s: State, search: set<Ino>, nodes: seq<Ino>, names: seq<Name>, err: int)
  {
    0 < |nodes| <= |names| + 1 &&
    (forall i :: 0 <= i < |nodes| - 1 ==> Passable(s, search, nodes[i], false) && Down(s, nodes[i], names[i]) == Some(nodes[i + 1])) &&
    var (last, more) := (nodes[|nodes| - 1], |nodes| <= |names|);
    last in s.g &&
    if more && s.g[last].kind != Dir then err == ENOTDIR
    else if s.g[last].kind == Dir && last !in search then err == EACCES
    else more && Down(s, last, names[|nodes| - 1]).None? && err == ENOENT
  }

  lemma {:induction false} OutcomeFails(s: State, search: set<Ino>, e: Ino, names: seq<Name>) returns (nodes: seq<Ino>)
    requires e in s.g && Outcome(s, search, e, names).0.None?
    ensures FailsAt(s, search, nodes, names, Outcome(s, search, e, names).1) && nodes[0] == e
    decreases |names|
  {
    if names == [] || s.g[e].kind != Dir || e !in search || Down(s, e, names[0]).None? {
      nodes := [e];
    } else {
      var rest := OutcomeFails(s, search, Down(s, e, names[0]).value, names[1..]);
      nodes := [e] + rest;
    }
  }

  lemma {:induction false} FailsIsOutcome(s: State, search: set<Ino>, nodes: seq<Ino>, names: seq<Name>, err: int)
    requires FailsAt(s, search, nodes, names, err) && nodes[0] in s.g
    ensures Outcome(s, search, nodes[0], names) == (None, err)
    decreases |names|
  {
    if |nodes| > 1 {
      assert Passable(s, search, nodes[0], false) && Down(s, nodes[0], names[0]) == Some(nodes[1]);
      forall i | 0 <= i < |nodes[1..]| - 1
        ensures Passable(s, search, nodes[1..][i], false) && Down(s, nodes[1..][i], names[1..][i]) == Some(nodes[1..][i + 1])
      {
        assert Passable(s, search, nodes[i + 1], false) && Down(s, nodes[i + 1], names[i + 1]) == Some(nodes[i + 2]);
      }
      FailsIsOutcome(s, search, nodes[1..], names[1..], err);
    }
  }

  /** Resolving answers an error exactly when a way along the names fails with it, at the first inode that cannot be
      passed. */
  lemma FailsWhere(s: State, search: set<Ino>, from: Ino, names: seq<Name>, err: int)
    requires from in s.g
    ensures Outcome(s, search, from, names) == (None, err) <==>
      exists nodes :: FailsAt(s, search, nodes, names, err) && nodes[0] == from
  {
    if Outcome(s, search, from, names) == (None, err) {
      var nodes := OutcomeFails(s, search, from, names);
    }
    if nodes :| FailsAt(s, search, nodes, names, err) && nodes[0] == from {
      FailsIsOutcome(s, search, nodes, names, err);
    }
  }

  /** A step down fails exactly at a name that is not there, or leads to what is unlinked or garbage. */
  lemma DownWhere(s: State, loose: multiset<Ino>, e: Ino, name: Name)
    requires Inv(s, loose) && e in s.g && !Dot(name)
    ensures Down(s, e, name).None? <==> name !in s.g[e].kids || !Live(s, s.g[e].kids[name])
    ensures Down(s, e, name).Some? ==> name in s.g[e].kids && Down(s, e, name).value == s.g[e].kids[name]
  {
    hide Sound, RefsOk, NumOk, Settled;
    if name in s.g[e].kids && s.g[e].kids[name] in s.g {
      MidFacts(s, loose, {}, s.g[e].kids[name]);
    }
  }

  /** What resolving returns is neither unlinked nor garbage, as the API calls need it. */
  lemma {:induction false} ResolvedIsLive(s: State, loose: multiset<Ino>, search: set<Ino>, e: Ino, names: seq<Name>)
    requires Inv(s, loose) && Live(s, e) && Outcome(s, search, e, names).0.Some?
    ensures Live(s, Outcome(s, search, e, names).0.value)
    decreases |names|
  {
    hide Sound, RefsOk, NumOk, Settled;
    if names != [] {
      MidFacts(s, loose, {}, Down(s, e, names[0]).value);
      ResolvedIsLive(s, loose, search, Down(s, e, names[0]).value, names[1..]);
    }
  }

  /** Every path through garbage ends in ENOENT: a leads to the directory that holds the garbage name n. */
  lemma {:induction false} GarbageHides(s: State, search: set<Ino>, e: Ino, a: seq<Name>, n: Name, b: seq<Name>)
    requires e in s.g && Outcome(s, search, e, a).0.Some?
    requires var p := Outcome(s, search, e, a).0.value;
      p in s.g && s.g[p].kind == Dir && n in s.g[p].kids && (s.g[p].kids[n] in s.g ==> s.g[s.g[p].kids[n]].deleting)
    ensures Outcome(s, search, e, a + [n] + b) == (None, ENOENT)
    decreases |a|
  {
    var all := a + [n] + b;
    if a == [] {
      assert all[0] == n;
    } else {
      assert all[0] == a[0] && all[1..] == a[1..] + [n] + b;
      GarbageHides(s, search, Down(s, e, a[0]).value, a[1..], n, b);
    }
  }

  // ---------- the walk itself ----------

  /** The locks that a call holds, and how many it has held at most. */
  class Locks {
    var held: map<Ino, Mode>
    var most: nat

    constructor ()
      ensures held == map[] && most == 0
    {
      held, most := map[], 0;
    }

    /** Nobody takes a lock twice. */
    method Lock(e: Ino, mode: Mode)
      requires e !in held
      modifies this
      ensures held == old(held)[e := mode]
      ensures most == if old(most) < |held| then |held| else old(most)
    {
      held := held[e := mode];
      if most < |held| {
        most := |held|;
      }
    }

    method Unlock(e: Ino)
      requires e in held
      modifies this
      ensures held == old(held) - {e} && most == old(most)
    {
      held := held - {e};
    }
  }

  /** A child is not the directory it is in, so that holding both takes two locks. */
  lemma ChildIsOther(s: State, loose: multiset<Ino>, d: Ino, name: Name)
    requires Inv(s, loose) && d in s.g && name != ".." && name != "."
    ensures name in s.g[d].kids ==> s.g[d].kids[name] in s.g && s.g[d].kids[name] != d
  {
    hide Sound, RefsOk, NumOk, Settled;
    InvWf(s, loose);
    if name in s.g[d].kids {
      NotOwnChild(s.g, s.root, d, name);
    }
  }

  function Wanted(writelock: bool): (mode: Mode)
    ensures mode == Write <==> writelock
  {
    if writelock then Write else Read
  }

  /** One round of the loop: from a locked directory to a child, locking it before letting go of the directory. */
  method StepDown(s: State, loose: multiset<Ino>, prev: Ino, name: Name, writelock: bool, locks: Locks) returns (cur: Option<Ino>)
    requires Inv(s, loose) && prev in s.g && name != ".." && name != "."
    requires locks.held.Keys == {prev} && locks.most <= 2
    modifies locks
    ensures cur == Down(s, prev, name) && locks.most <= 2
    ensures locks.held == if cur.Some? then map[cur.value := Wanted(writelock)] else map[]
  {
    hide Inv;
    ChildIsOther(s, loose, prev, name);
    assert |locks.held| == 1;
    if name !in s.g[prev].kids || s.g[s.g[prev].kids[name]].deleting {
      locks.Unlock(prev);
      return None;
    }
    var child := s.g[prev].kids[name];
    locks.Lock(child, Wanted(writelock));
    if s.g[child].links == 0 || s.g[child].deleting {
      locks.Unlock(child);
      locks.Unlock(prev);
      return None;
    }
    locks.Unlock(prev);
    return Some(child);
  }

  lemma InvRoot(s: State, loose: multiset<Ino>)
    requires Inv(s, loose)
    ensures s.root in s.g && s.g[s.root].links > 0
  {
    RootFacts(s.g, s.root);
  }

  /** Lock the root: in the wanted mode only if it is what is asked for. */
  method LockRoot(s: State, loose: multiset<Ino>, last: bool, writelock: bool, locks: Locks)
    requires Inv(s, loose) && locks.held == map[] && locks.most == 0
    modifies locks
    ensures locks.held.Keys == {s.root} && locks.most == 1 && s.root in s.g && s.g[s.root].links > 0
    ensures last ==> locks.held == map[s.root := Wanted(writelock)]
  {
    hide Inv;
    InvRoot(s, loose);
    locks.Lock(s.root, Wanted(writelock && last));
    assert locks.held.Keys == {s.root};
  }

  /** fskit_entry_resolve_path without an evaluator. search holds the directories that the caller may search. The path
      does not use "..". Exactly the inode that is returned is locked at the end, nothing is after an error, and never
      more than two locks are held. */
  method ResolvePath(s: State, loose: multiset<Ino>, path: string, search: set<Ino>, writelock: bool, locks: Locks)
    returns (e: Option<Ino>, err: int)
    requires Inv(s, loose) && ".." !in Walked(path) && locks.held == map[] && locks.most == 0
    modifies locks
    ensures path == "" ==> e.None? && err == EINVAL
    ensures path != "" ==> s.root in s.g && (e, err) == Outcome(s, search, s.root, Walked(path))
    ensures locks.held == (if e.Some? then map[e.value := if writelock then Write else Read] else map[]) && locks.most <= 2
  {
    hide Inv, Parts, Walked, Down;
    if |path| == 0 {
      return None, EINVAL;
    }
    var fpath := path;
    if path[|path| - 1] == '/' {
      fpath := path + ".";
      WalkedDot(path);
    }
    var name, pos := NextName(fpath, 0);
    assert fpath[0..] == fpath;
    ghost var rest := Walked(fpath);
    LockRoot(s, loose, name.None?, writelock, locks);
    var cur := s.root;
    while true
      invariant cur in s.g && locks.held.Keys == {cur} && locks.most <= 2
      invariant name.None? ==> locks.held == map[cur := Wanted(writelock)]
      invariant pos <= |fpath| && rest == (if name.Some? then [name.value] + Walked(fpath[pos..]) else [])
      invariant ".." !in rest && (name.Some? ==> name.value != ".")
      invariant Outcome(s, search, s.root, Walked(path)) == Outcome(s, search, cur, rest)
      decreases |rest|
    {
      if (name.Some? && s.g[cur].kind != Dir) || (s.g[cur].kind == Dir && cur !in search) {
        locks.Unlock(cur);
        return None, if name.Some? && s.g[cur].kind != Dir then ENOTDIR else EACCES;
      }
      if name.None? {
        return Some(cur), 0;
      }
      assert name.value in rest && rest[1..] == Walked(fpath[pos..]);
      var next := StepDown(s, loose, cur, name.value, writelock, locks);
      if next.None? {
        return None, ENOENT;
      }
      DownIsThere(s, cur, name.value);
      cur := next.value;
      rest := rest[1..];
      name, pos := NextName(fpath, pos);
    }
  }

  lemma DownIsThere(s: State, e: Ino, name: Name)
    ensures Down(s, e, name).Some? ==> Down(s, e, name).value in s.g
  {
  }
}
