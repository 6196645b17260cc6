/** The resumable path iterator: an entry at a time from the root down, with the entry and its parent locked. */
module PathIterator {
  import opened Names
  import opened Wrappers
  import opened FsGraph
  import opened Fs
  import opened FsInvariant
  import opened FsCalls
  import opened Paths
  import opened Resolve

  // ---------- names before and behind a position ----------

  lemma {:induction false} NoDotsJoin(a: seq<string>, b: seq<string>)
    ensures NoDots(a + b) == NoDots(a) + NoDots(b)
  {
    if a == [] {
      assert a + b == b;
    } else {
      assert (a + b)[1..] == a[1..] + b;
      NoDotsJoin(a[1..], b);
    }
  }

  /** A place where the next name begins, or the end. */
  predicate Boundary(p: string, i: nat)
  {
    i <= |p| && (i == 0 || p[i - 1] == '/' || i == |p|) && (i < |p| ==> p[i] != '/')
  }

  /** The names of a stretch that ends at a boundary go before those behind it. */
  lemma WalkedSplit(p: string, i: nat, j: nat)
    requires i <= j && Boundary(p, j)
    ensures Walked(p[i..]) == Walked(p[i..j]) + Walked(p[j..])
  {
    if i == j {
      assert p[i..j] == "";
    } else {
      assert p[i..] == p[i..j] + p[j..];
      PartsJoin(p[i..j], p[j..]);
      NoDotsJoin(Parts(p[i..j]), Parts(p[j..]));
    }
  }

  lemma WalkedPrefix(p: string, i: nat, j: nat)
    requires i <= j && Boundary(p, i) && Boundary(p, j)
    ensures Walked(p[..j]) == Walked(p[..i]) + Walked(p[i..j])
  {
    assert p[..j] == p[..i] + p[i..j];
    if 0 < i < j {
      assert p[..i][|p[..i]| - 1] == '/';
    }
    PartsJoin(p[..i], p[i..j]);
    NoDotsJoin(Parts(p[..i]), Parts(p[i..j]));
  }

  /** A name and the slashes behind it. */
  lemma OneName(p: string, i: nat, k: nat, j: nat)
    requires i < k <= j <= |p| && (forall x :: i <= x < k ==> p[x] != '/') && (forall x :: k <= x < j ==> p[x] == '/')
    ensures Parts(p[i..j]) == [p[i..k]]
  {
    var q := p[i..j];
    assert q[0..] == q;
    PartsTake(q, 0, k - i);
    assert q[0..k - i] == p[i..k];
    OnlySlashes(q[k - i..]);
  }

  lemma {:induction false} OnlySlashes(q: string)
    requires forall x :: 0 <= x < |q| ==> q[x] == '/'
    ensures Parts(q) == []
  {
    if q != "" {
      OnlySlashes(q[1..]);
    }
  }

  // ---------- scanning ----------

  /** From a boundary over one name to the next boundary. */
  method ScanName(p: string, from: nat) returns (end: nat, next: nat)
    requires Boundary(p, from)
    ensures from <= end <= next <= |p| && Boundary(p, next)
    ensures from == |p| ==> next == from && end == from
    ensures from < |p| ==> end > from && Parts(p[from..next]) == [p[from..end]]
  {
    end := from;
    while end < |p| && p[end] != '/'
      invariant from <= end <= |p| && forall x :: from <= x < end ==> p[x] != '/'
    {
      end := end + 1;
    }
    next := end;
    while next < |p| && p[next] == '/'
      invariant end <= next <= |p| && forall x :: end <= x < next ==> p[x] == '/'
    {
      next := next + 1;
    }
    if from < |p| {
      OneName(p, from, end, next);
    }
  }

  /** The loop of fskit_path_next that looks for a name other than ".": where it is, and where the next one begins. */
  method FindName(p: string, from: nat) returns (name: Option<Name>, next: nat)
    requires Boundary(p, from)
    ensures from <= next && Boundary(p, next)
    ensures name.None? ==> Walked(p[from..]) == []
    ensures name.Some? ==> Walked(p[from..next]) == [name.value] && name.value != "." && next > from
  {
    var candidate := from;
    next := from;
    assert p[from..from] == "";
    while true
      invariant candidate == next && from <= next && Boundary(p, next) && Walked(p[from..next]) == []
      decreases |p| - next
    {
      var end;
      candidate := next;
      end, next := ScanName(p, candidate);
      if next == from || (next == |p| && end == candidate) {
        WalkedSplit(p, from, next);
        assert p[next..] == "";
        return None, next;
      }
      Extend(p, from, candidate, next, p[candidate..end]);
      if p[candidate..end] != "." {
        return Some(p[candidate..end]), next;
      }
      candidate := next;
    }
  }

  lemma Extend(p: string, from: nat, i: nat, j: nat, n: Name)
    requires from <= i < j && Boundary(p, i) && Boundary(p, j) && Walked(p[from..i]) == [] && Parts(p[i..j]) == [n]
    ensures Walked(p[from..j]) == if n == "." then [] else [n]
  {
    var q := p[from..j];
    assert q == p[from..i] + p[i..j];
    if from < i {
      assert p[from..i][i - from - 1] == '/';
    }
    PartsJoin(p[from..i], p[i..j]);
    NoDotsJoin(Parts(p[from..i]), [n]);
    assert NoDots([n]) == if n == "." then [] else [n];
  }

  // ---------- the iterator ----------

  /** nodes is a way down along the names, an entry at a time, through directories that are not garbage. */
  ghost predicate Chain(s: State, nodes: seq<Ino>, names: seq<Name>)
  {
    |nodes| == |names| + 1 && (forall i :: 0 <= i < |nodes| ==> nodes[i] in s.g) &&
    (forall i :: 0 <= i < |names| ==> s.g[nodes[i]].kind == Dir && !s.g[nodes[i]].deleting) &&
    forall i :: 0 <= i < |names| ==> Kid(s.g, nodes[i], names[i]) == Some(nodes[i + 1])
  }

  function Both(a: Option<Ino>, b: Option<Ino>): set<Ino>
  {
    (if a.Some? then {a.value} else {}) + if b.Some? then {b.value} else {}
  }

  lemma RootIsThere(s: State, loose: multiset<Ino>)
    requires Inv(s, loose)
    ensures s.root in s.g && !s.g[s.root].deleting
  {
  }

  lemma LeadingSlashes(p: string, i: nat)
    requires i <= |p| && (forall k :: 0 <= k < i ==> p[k] == '/') && (i < |p| ==> p[i] != '/')
    ensures Boundary(p, i) && Walked(p[..i]) == [] && Walked(p[i..]) == Walked(p)
  {
    OnlySlashes(p[..i]);
    assert p[..i] + p[i..] == p;
    if i > 0 {
      PartsJoin(p[..i], p[i..]);
      assert [] + Parts(p[i..]) == Parts(p[i..]);
    } else {
      assert p[i..] == p;
    }
  }

  lemma AllConsumed(consumed: seq<Name>, rest: seq<Name>)
    requires rest == []
    ensures consumed + rest == consumed
  {
  }

  /** Consuming a name. */
  lemma Advanced(p: string, i: nat, j: nat, n: Name, consumed: seq<Name>)
    requires i < j && Boundary(p, i) && Boundary(p, j) && Walked(p[i..j]) == [n] && Walked(p[..i]) == consumed
    requires consumed + Walked(p[i..]) == Walked(p)
    ensures Walked(p[i..]) == [n] + Walked(p[j..]) && Walked(p[..j]) == consumed + [n]
    ensures consumed + [n] + Walked(p[j..]) == Walked(p) && n in Walked(p)
  {
    hide Walked;
    WalkedSplit(p, i, j);
    WalkedPrefix(p, i, j);
    assert consumed + ([n] + Walked(p[j..])) == consumed + [n] + Walked(p[j..]);
    assert (consumed + ([n] + Walked(p[j..])))[|consumed|] == n;
  }

  lemma ChainLonger(s: State, nodes: seq<Ino>, names: seq<Name>, n: Name, e: Ino)
    requires Chain(s, nodes, names) && e in s.g && Kid(s.g, nodes[|names|], n) == Some(e)
    requires s.g[nodes[|names|]].kind == Dir && !s.g[nodes[|names|]].deleting
    ensures Chain(s, nodes + [e], names + [n])
  {
  }

  /** struct fskit_path_iterator. name and nameI are the two places where it keeps how far it is. */
  class Iterator {
    const s: State
    const path: string
    const writelock: bool
    const locks: Locks
    var name: nat
    var nameI: nat
    var cur: Option<Ino>
    var prev: Option<Ino>
    var curName: Name
    var endOfPath: bool
    var rc: int
    ghost var visited: seq<Ino>
    ghost var consumed: seq<Name>

    /** The names that are consumed are those of the path up to nameI, and lead down to what was visited. */
    ghost predicate Valid()
      reads this
    {
      name == nameI && Boundary(path, nameI) && Walked(path[..nameI]) == consumed && consumed + Walked(path[nameI..]) == Walked(path) &&
      0 < |visited| <= |consumed| + 1 && visited[0] == s.root && Chain(s, visited, consumed[..|visited| - 1]) &&
      (cur.Some? ==> cur.value == visited[|visited| - 1] && rc == 0 && !endOfPath && |visited| == |consumed| + 1) &&
      (endOfPath ==> cur.None? && rc == 0 && consumed == Walked(path) && |visited| == |consumed| + 1) &&
      (endOfPath ==> !s.g[visited[|visited| - 1]].deleting) &&
      (cur.None? && !endOfPath ==> rc == ENOTDIR || rc == ENOENT) &&
      (cur.Some? && prev.Some? ==> cur.value != prev.value)
    }

    /** Exactly the current entry and the one before it are locked, as the caller wants them. */
    ghost predicate LockedBoth()
      reads this, locks
    {
      locks.held.Keys == Both(cur, prev) && (forall e :: e in locks.held ==> locks.held[e] == Wanted(writelock)) && locks.most <= 2
    }

    /** fskit_path_begin. */
    constructor (s: State, loose: multiset<Ino>, path: string, writelock: bool, locks: Locks)
      requires Inv(s, loose) && locks.held == map[] && locks.most == 0
      modifies locks
      ensures Valid() && LockedBoth() && this.s == s && this.path == path && this.writelock == writelock && this.locks == locks
      ensures cur == Some(s.root) && prev.None? && visited == [s.root] && consumed == [] && !End()
    {
      hide Inv, Parts, Walked;
      RootIsThere(s, loose);
      locks.Lock(s.root, Wanted(writelock));
      var i := 0;
      while i < |path| && path[i] == '/'
        invariant i <= |path| && forall k :: 0 <= k < i ==> path[k] == '/'
      {
        i := i + 1;
      }
      LeadingSlashes(path, i);
      this.s, this.path, this.writelock, this.locks := s, path, writelock, locks;
      name, nameI, cur, prev, curName, endOfPath, rc := i, i, Some(s.root), None, "", false, 0;
      visited, consumed := [s.root], [];
    }

    /** fskit_path_end. */
    predicate End()
      reads this
    {
      rc != 0 || cur.None? || (cur.value in s.g && s.g[cur.value].deleting) || endOfPath
    }

    /** Let go of the parent, and make the current entry the parent. */
    method Shift()
      requires Valid() && LockedBoth() && cur.Some?
      modifies this`prev, this`cur, locks
      ensures prev == old(cur) && cur.None? && locks.held.Keys == Both(cur, prev) && locks.most <= 2
      ensures forall e :: e in locks.held ==> locks.held[e] == Wanted(writelock)
    {
      if prev.Some? {
        locks.Unlock(prev.value);
      }
      prev, cur := cur, None;
    }

    /** Take the next entry, if it is there. */
    method Enter(n: Name, ghost loose: multiset<Ino>)
      requires Inv(s, loose) && prev.Some? && prev.value in s.g && cur.None? && n != "." && n != ".." && rc == 0
      requires locks.held.Keys == {prev.value} && locks.most <= 2 && locks.held[prev.value] == Wanted(writelock)
      modifies this`cur, this`rc, this`visited, locks
      ensures LockedBoth() && cur == Kid(s.g, prev.value, n) && rc == (if cur.None? then ENOENT else 0)
      ensures cur.Some? ==> cur.value in s.g && cur.value != prev.value
      ensures visited == old(visited) + if cur.Some? then [cur.value] else []
    {
      hide Inv;
      ChildIsOther(s, loose, prev.value, n);
      assert |locks.held| == 1 by {
        assert |locks.held.Keys| == 1;
      }
      if n !in s.g[prev.value].kids {
        rc := ENOENT;
        return;
      }
      cur := Some(s.g[prev.value].kids[n]);
      locks.Lock(cur.value, Wanted(writelock));
      visited := visited + [cur.value];
    }

    /** Move on behind a name. */
    method PassName(n: Name, next: nat)
      requires name == nameI < next
      modifies this`name, this`nameI, this`curName, this`consumed
      ensures name == nameI == next && consumed == old(consumed) + [n] && curName == n
    {
      nameI := nameI + (next - name);
      name := next;
      curName := n;
      consumed := consumed + [n];
    }

    /** The part of fskit_path_next behind the scan: consume the name, and enter what it leads to. */
    method Consume(n: Name, next: nat, ghost loose: multiset<Ino>)
      requires Inv(s, loose) && n != "." && n != ".." && rc == 0 && !endOfPath && cur.None?
      requires name == nameI < next && Boundary(path, next) && Walked(path[..nameI]) == consumed && Walked(path[..next]) == consumed + [n]
      requires consumed + [n] + Walked(path[next..]) == Walked(path)
      requires |visited| == |consumed| + 1 && visited[0] == s.root && Chain(s, visited, consumed)
      requires prev == Some(visited[|consumed|]) && s.g[prev.value].kind == Dir && !s.g[prev.value].deleting
      requires locks.held.Keys == {prev.value} && locks.most <= 2 && locks.held[prev.value] == Wanted(writelock)
      modifies this`name, this`nameI, this`cur, this`curName, this`rc, this`visited, this`consumed, locks
      ensures Valid() && LockedBoth()
      ensures nameI == next && consumed == old(consumed) + [n] && cur == Kid(s.g, prev.value, n) && (cur.None? ==> rc == ENOENT)
    {
      hide Inv, Parts, Walked, Boundary, Chain, Kid;
      ghost var before, names := visited, consumed;
      ChainIn(s, before, names);
      PassName(n, next);
      Enter(n, loose);
      ChainAfter(s, before, names, n, cur);
    }

    /** fskit_path_next, as it is called while fskit_path_end says no. The path does not use "..". */
    method Next(ghost loose: multiset<Ino>)
      requires Inv(s, loose) && Valid() && LockedBoth() && !End() && ".." !in Walked(path)
      modifies this`name, this`nameI, this`cur, this`prev, this`curName, this`endOfPath, this`rc, this`visited, this`consumed, locks
      ensures Valid() && LockedBoth() && prev == old(cur) && nameI >= old(nameI)
      ensures Advance(old(nameI), old(cur.value), old(visited), old(consumed))
    {
      hide Inv, Parts, Walked, Boundary, Chain, Kid;
      ChainIn(s, visited, consumed[..|visited| - 1]);
      assert consumed[..|visited| - 1] == consumed;
      Shift();
      var n, next := FindName(path, name);
      if n.None? {
        endOfPath := true;
        AllConsumed(consumed, Walked(path[nameI..]));
        return;
      }
      Advanced(path, nameI, next, n.value, consumed);
      if s.g[prev.value].kind != Dir {
        rc := ENOTDIR;
        return;
      }
      Consume(n.value, next, loose);
    }

    /** fskit_path_iterator_path: the prefix of the path whose names are consumed. */
    method PrefixPath() returns (prefix: string)
      requires Valid()
      ensures prefix <= path && Walked(prefix) == consumed
    {
      prefix := path[..nameI];
    }

    /** fskit_path_iterator_release. */
    method Release()
      requires LockedBoth() && (cur.Some? && prev.Some? ==> cur.value != prev.value)
      modifies this`cur, this`prev, locks
      ensures locks.held == map[] && cur.None? && prev.None?
    {
      if prev.Some? {
        locks.Unlock(prev.value);
      }
      if cur.Some? {
        locks.Unlock(cur.value);
      }
      prev, cur := None, None;
    }

    /** What a call of fskit_path_next does, from where and what it was called at. */
    ghost predicate Advance(i: nat, e: Ino, visited0: seq<Ino>, consumed0: seq<Name>)
      requires i <= |path|
      reads this
    {
      var rest := Walked(path[i..]);
      if rest == [] then endOfPath && visited == visited0
      else if e !in s.g || s.g[e].kind != Dir then rc == ENOTDIR && visited == visited0
      else
        !endOfPath && cur == Kid(s.g, e, rest[0]) && (cur.None? ==> rc == ENOENT) && i < nameI <= |path| &&
        Walked(path[nameI..]) == rest[1..] && consumed == consumed0 + [rest[0]]
    }
  }

  /** The chain behind a name, whether there is an entry or not. */
  lemma ChainAfter(s: State, nodes: seq<Ino>, names: seq<Name>, n: Name, e: Option<Ino>)
    requires Chain(s, nodes, names) && e == Kid(s.g, nodes[|names|], n) && (e.Some? ==> e.value in s.g)
    requires s.g[nodes[|names|]].kind == Dir && !s.g[nodes[|names|]].deleting
    ensures var nodes' := nodes + if e.Some? then [e.value] else [];
      |nodes| == |names| + 1 && nodes'[0] == nodes[0] && Chain(s, nodes', (names + [n])[..|nodes'| - 1])
  {
    if e.Some? {
      ChainLonger(s, nodes, names, n, e.value);
      assert (names + [n])[..|names| + 1] == names + [n];
    } else {
      assert nodes + [] == nodes && (names + [n])[..|names|] == names;
    }
  }

  lemma ChainIn(s: State, nodes: seq<Ino>, names: seq<Name>)
    requires Chain(s, nodes, names)
    ensures |nodes| == |names| + 1 && nodes[|names|] in s.g
  {
  }

  // ---------- the iterator and the resolver ----------

  /** An entry has a link. */
  lemma EntryLinked(s: State, loose: multiset<Ino>, d: Ino, n: Name)
    requires Inv(s, loose) && d in s.g && !Dot(n) && Kid(s.g, d, n).Some?
    ensures Kid(s.g, d, n).value in s.g && s.g[Kid(s.g, d, n).value].links != 0
  {
    hide Inv;
    ChildLinks(s, loose, d, n);
  }

  lemma ChildLinks(s: State, loose: multiset<Ino>, d: Ino, n: Name)
    requires Inv(s, loose) && d in s.g && n in s.g[d].kids && !Dot(n)
    ensures s.g[d].kids[n] in s.g && s.g[s.g[d].kids[n]].links > 0
  {
    hide Sound, RefsOk, NumOk, Settled;
    DetachSound(s.g, s.root, d, n);
  }

  /** A finished chain, of which no inode is garbage, is the resolver's walk for a caller that may search everything. */
  lemma ChainIsWalk(s: State, loose: multiset<Ino>, nodes: seq<Ino>, names: seq<Name>)
    requires Inv(s, loose) && Chain(s, nodes, names) && !s.g[nodes[|names|]].deleting && forall n :: n in names ==> !Dot(n)
    ensures IsWalk(s, s.g.Keys, nodes, names)
  {
    hide Inv;
    forall i | 0 <= i < |names| ensures Down(s, nodes[i], names[i]) == Some(nodes[i + 1]) {
      assert Kid(s.g, nodes[i], names[i]) == Some(nodes[i + 1]);
      EntryLinked(s, loose, nodes[i], names[i]);
    }
  }

  /** What is visited on the way is the beginning of every walk along the names. */
  lemma {:induction false} ChainFollowsWalk(s: State, search: set<Ino>, nodes: seq<Ino>, walk: seq<Ino>, names: seq<Name>, k: nat)
    requires k <= |names| && Chain(s, nodes, names[..k]) && IsWalk(s, search, walk, names) && nodes[0] == walk[0]
    ensures nodes == walk[..k + 1]
  {
    if k == 0 {
      assert nodes == [walk[0]];
    } else {
      assert names[..k][..k - 1] == names[..k - 1];
      ChainFollowsWalk(s, search, nodes[..k], walk, names, k - 1);
      assert Kid(s.g, nodes[k - 1], names[..k][k - 1]) == Some(nodes[k]);
      assert Down(s, walk[k - 1], names[k - 1]) == Some(walk[k - 1 + 1]);
      assert nodes[..k][k - 1] == nodes[k - 1] && walk[..k][k - 1] == walk[k - 1];
      assert nodes == nodes[..k] + [nodes[k]];
    }
  }

  lemma WalkedNotDot(p: string)
    requires ".." !in Walked(p)
    ensures forall n :: n in Walked(p) ==> !Dot(n)
  {
    NoDotsHasNone(Parts(p));
  }

  lemma {:induction false} NoDotsHasNone(parts: seq<string>)
    ensures "." !in NoDots(parts)
  {
    if parts != [] {
      NoDotsHasNone(parts[1..]);
    }
  }

  /** What resolving with every right answers, from the inode last visited and what is left of the path. */
  ghost function Ahead(s: State, e: Ino, rest: seq<Name>): (Option<Ino>, int)
  {
    if e !in s.g || s.g[e].deleting then (None, ENOENT) else Outcome(s, s.g.Keys, e, rest)
  }

  /** One step of the iterator and of the resolver. */
  lemma AheadStep(s: State, loose: multiset<Ino>, e: Ino, rest: seq<Name>)
    requires Inv(s, loose) && e in s.g && !s.g[e].deleting && forall n :: n in rest ==> !Dot(n)
    ensures Ahead(s, e, rest) ==
      if rest == [] then (Some(e), 0)
      else if s.g[e].kind != Dir then (None, ENOTDIR)
      else if Kid(s.g, e, rest[0]).None? then (None, ENOENT)
      else Ahead(s, Kid(s.g, e, rest[0]).value, rest[1..])
  {
    hide Inv;
    if rest != [] && Kid(s.g, e, rest[0]).Some? {
      EntryLinked(s, loose, e, rest[0]);
    }
  }

  /** How far an iterator is, as the resolver sees it. */
  ghost function Standing(itr: Iterator): (Option<Ino>, int)
    reads itr
  {
    if itr.cur.Some? then if itr.nameI <= |itr.path| then Ahead(itr.s, itr.cur.value, Walked(itr.path[itr.nameI..])) else (None, ENOENT)
    else if itr.endOfPath && itr.visited != [] then (Some(itr.visited[|itr.visited| - 1]), 0)
    else (None, itr.rc)
  }

  /** A step keeps the answer that lies ahead. */
  method NextKeeps(itr: Iterator, ghost loose: multiset<Ino>)
    requires Inv(itr.s, loose) && itr.Valid() && itr.LockedBoth() && !itr.End() && ".." !in Walked(itr.path)
    modifies itr, itr.locks
    ensures itr.Valid() && itr.LockedBoth() && Standing(itr) == old(Standing(itr))
    ensures itr.nameI >= old(itr.nameI) && (itr.cur.Some? ==> itr.nameI > old(itr.nameI))
  {
    hide Inv, Outcome, Parts, Walked, Ahead, Kid, Chain;
    ghost var e, rest := itr.cur.value, Walked(itr.path[itr.nameI..]);
    ChainIn(itr.s, itr.visited, itr.consumed[..|itr.visited| - 1]);
    WalkedNotDot(itr.path);
    RestIsPart(itr.consumed, rest, Walked(itr.path));
    AheadStep(itr.s, loose, e, rest);
    itr.Next(loose);
  }

  lemma RestIsPart(a: seq<Name>, b: seq<Name>, all: seq<Name>)
    requires a + b == all && forall n :: n in all ==> !Dot(n)
    ensures forall n :: n in b ==> !Dot(n)
  {
    forall n | n in b ensures n in all {
      var i :| 0 <= i < |b| && b[i] == n;
      assert all[|a| + i] == n;
    }
  }

  /** The loop over an iterator: it visits the root and then exactly the inodes of the resolver's walk, if there is one
      for a caller that may search everything, with the last two locked; else it stops with the resolver's error, or at
      the garbage that the resolver answers ENOENT for. */
  method Iterate(s: State, loose: multiset<Ino>, path: string, writelock: bool, locks: Locks) returns (itr: Iterator)
    requires Inv(s, loose) && locks.held == map[] && locks.most == 0 && ".." !in Walked(path)
    modifies locks
    ensures itr.s == s && itr.path == path && itr.locks == locks && itr.Valid() && itr.LockedBoth() && itr.End()
    ensures s.root in s.g
    ensures var (e, err) := Outcome(s, s.g.Keys, s.root, Walked(path));
      if e.Some? then itr.endOfPath && IsWalk(s, s.g.Keys, itr.visited, Walked(path)) && Some(itr.visited[|Walked(path)|]) == e
      else !itr.endOfPath && (itr.rc == err || (err == ENOENT && itr.cur.Some? && itr.cur.value in s.g && s.g[itr.cur.value].deleting))
  {
    hide Inv, Parts, Walked;
    itr := new Iterator(s, loose, path, writelock, locks);
    RootIsThere(s, loose);
    WalkedAll(path, itr.nameI, itr.consumed);
    while !itr.End()
      invariant fresh(itr) && itr.s == s && itr.path == path && itr.locks == locks && itr.Valid() && itr.LockedBoth()
      invariant Standing(itr) == Outcome(s, s.g.Keys, s.root, Walked(path))
      decreases |path| - itr.nameI, if itr.cur.Some? then 1 else 0
    {
      NextKeeps(itr, loose);
    }
    if itr.endOfPath {
      WalkedNotDot(path);
      assert itr.consumed[..|itr.visited| - 1] == itr.consumed;
      ChainIsWalk(s, loose, itr.visited, itr.consumed);
    }
  }

  lemma WalkedAll(p: string, i: nat, consumed: seq<Name>)
    requires i <= |p| && consumed == [] && consumed + Walked(p[i..]) == Walked(p)
    ensures Walked(p[i..]) == Walked(p)
  {
  }
}
