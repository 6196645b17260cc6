/** The inode graph of fskit as values: what attaching, detaching and destroying do to link counts and
    directory entries, and why the graph stays a tree with exact counts. */
module FsGraph {
  import opened Names
  import opened Wrappers

  const EPERM := -1
  const ENOENT := -2
  const EIO := -5
  const EBADF := -9
  const EACCES := -13
  const EEXIST := -17
  const ENOTDIR := -20
  const EISDIR := -21
  const EINVAL := -22
  const ENOTEMPTY := -39

  datatype Kind = File | Dir | Fifo | Sock | Chr | Blk | Lnk

  /** The address of an inode. */
  type Ino = nat

  /** A name in a directory. */
  type Entry = (Ino, Name)

  /** What a directory graph is made of. */
  datatype Rec = Rec(kind: Kind, links: int, deleting: bool, kids: map<Name, Ino>)

  type Graph = map<Ino, Rec>

  predicate Dot(name: Name)
  {
    name == "." || name == ".."
  }

  /** The directory entries, other than dot entries, that name e. */
  ghost function Links(g: Graph, e: Ino): set<(Ino, Name)>
  {
    set d, n | d in g && n in g[d].kids && g[d].kids[n] == e && !Dot(n) :: (d, n)
  }

  /** What a name leads to. */
  function Kid(g: Graph, d: Ino, n: Name): Option<Ino>
  {
    if d in g && n in g[d].kids then Some(g[d].kids[n]) else None
  }

  ghost predicate OnlyDots(r: Rec)
  {
    forall n :: n in r.kids ==> Dot(n)
  }

  // ---------- the low-level steps ----------

  /** fskit_entry_attach_lowlevel, on the graph. */
  function AttachG(g: Graph, parent: Ino, child: Ino, name: Name): (r: Graph)
    requires parent in g && child in g
    ensures r.Keys == g.Keys
  {
    var c := if parent != child then g[child].(links := g[child].links + 1) else g[child];
    var c' := if c.kind == Dir && ".." in c.kids then c.(kids := c.kids[".." := parent]) else c;
    var g' := g[child := c'];
    g'[parent := g'[parent].(kids := g'[parent].kids[name := child])]
  }

  /** Why fskit_entry_detach_lowlevel_ex gives up, or 0. */
  function DetachError(g: Graph, num: map<Ino, int>, parent: Ino, name: Name): int
    requires parent in g && g.Keys <= num.Keys
  {
    if name !in g[parent].kids then ENOENT
    else
      var child := g[parent].kids[name];
      if child == parent then ENOTEMPTY
      else if child in g && g[child].kind == Dir && num[child] > 2 then ENOTEMPTY
      else if Dot(name) then ENOENT
      else 0
  }

  function DetachG(g: Graph, parent: Ino, name: Name): (r: Graph)
    requires parent in g && name in g[parent].kids && g[parent].kids[name] in g
    ensures r.Keys == g.Keys
  {
    var child := g[parent].kids[name];
    var g' := g[parent := g[parent].(kids := g[parent].kids - {name})];
    g'[child := g'[child].(links := if g[child].links - 1 < 0 then 0 else g[child].links - 1)]
  }

  // ---------- what every state keeps ----------

  type LinkSet = set<(Ino, Name)>

  /** All inodes with the entries that name them. */
  ghost function LinkMap(g: Graph): map<Ino, LinkSet>
  {
    map e | e in g :: Links(g, e)
  }

  ghost predicate ClosedIn(g: Graph, d: Ino)
    requires d in g
  {
    (forall n :: n in g[d].kids && !Dot(n) ==> g[d].kids[n] in g) &&
    if g[d].kind == Dir then "." in g[d].kids && g[d].kids["."] == d && ".." in g[d].kids else g[d].kids == map[]
  }

  /** Entries lead to inodes that exist; directories have both dot entries, others none at all. */
  ghost predicate Closed(g: Graph)
  {
    forall d :: d in g ==> ClosedIn(g, d)
  }

  /** A link count is the number of entries that name the inode; the root has one more. */
  ghost predicate Counted(g: Graph, L: map<Ino, LinkSet>, root: Ino)
    requires g.Keys == L.Keys
  {
    forall e :: e in g ==> g[e].links == |L[e]| + if e == root then 1 else 0
  }

  /** The root is a live directory that no entry names, and its own parent. */
  ghost predicate RootOk(g: Graph, L: map<Ino, LinkSet>, root: Ino)
    requires g.Keys == L.Keys
  {
    root in g && g[root].kind == Dir && !g[root].deleting && L[root] == {} && ".." in g[root].kids && g[root].kids[".."] == root
  }

  /** A directory has at most one name, and its ".." is the directory that holds the name. */
  ghost predicate OneParent(g: Graph, L: map<Ino, LinkSet>)
    requires g.Keys == L.Keys
  {
    forall d, q :: d in g && g[d].kind == Dir && q in L[d] ==>
      L[d] == {q} && ".." in g[d].kids && g[d].kids[".."] == q.0
  }

  /** Going from a directory to the holder of its name comes nearer to the root. */
  ghost predicate Ranked(g: Graph, L: map<Ino, LinkSet>, rank: map<Ino, nat>)
    requires g.Keys == L.Keys
  {
    g.Keys <= rank.Keys &&
    forall d, q :: d in g && g[d].kind == Dir && q in L[d] ==> q.0 in g && rank[q.0] < rank[d]
  }

  ghost predicate HasRank(g: Graph, L: map<Ino, LinkSet>)
    requires g.Keys == L.Keys
  {
    exists rank :: Ranked(g, L, rank)
  }

  ghost predicate Tree(g: Graph, L: map<Ino, LinkSet>)
    requires g.Keys == L.Keys
  {
    OneParent(g, L) && HasRank(g, L)
  }

  ghost predicate CoreOk(g: Graph, L: map<Ino, LinkSet>, root: Ino)
    requires g.Keys == L.Keys
  {
    Closed(g) && Counted(g, L, root) && RootOk(g, L, root) && Tree(g, L)
  }

  ghost predicate Sound(g: Graph, root: Ino)
  {
    CoreOk(g, LinkMap(g), root)
  }

  /** a is d, or a directory above d within k steps. */
  ghost predicate UnderWithin(g: Graph, L: map<Ino, LinkSet>, a: Ino, d: Ino, k: nat)
    requires g.Keys == L.Keys
    decreases k
  {
    d == a ||
    (k > 0 && d in g && L[d] != {} && ".." in g[d].kids && UnderWithin(g, L, a, g[d].kids[".."], k - 1))
  }

  /** d is a, or lies below a. */
  ghost predicate Under(g: Graph, L: map<Ino, LinkSet>, a: Ino, d: Ino)
    requires g.Keys == L.Keys
  {
    exists k: nat :: UnderWithin(g, L, a, d, k)
  }

  // ---------- entries under the low-level steps ----------

  lemma LinkMapIs(g: Graph, M: map<Ino, LinkSet>)
    requires g.Keys == M.Keys && forall e :: e in g ==> Links(g, e) == M[e]
    ensures LinkMap(g) == M
  {
  }

  lemma LinksAttach(g: Graph, parent: Ino, child: Ino, name: Name)
    requires parent in g && child in g && name !in g[parent].kids && !Dot(name)
    ensures var L := LinkMap(g); LinkMap(AttachG(g, parent, child, name)) == L[child := L[child] + {(parent, name)}]
    ensures (parent, name) !in LinkMap(g)[child]
  {
    var g', L := AttachG(g, parent, child, name), LinkMap(g);
    var M := L[child := L[child] + {(parent, name)}];
    forall e | e in g' ensures Links(g', e) == M[e] {
      forall d, n ensures (d, n) in Links(g', e) <==> (d, n) in Links(g, e) || (e == child && (d, n) == (parent, name)) {
      }
    }
    LinkMapIs(g', M);
  }

  lemma LinksDetach(g: Graph, parent: Ino, name: Name)
    requires parent in g && name in g[parent].kids && g[parent].kids[name] in g && g[parent].kids[name] != parent && !Dot(name)
    ensures var (L, child) := (LinkMap(g), g[parent].kids[name]);
      LinkMap(DetachG(g, parent, name)) == L[child := L[child] - {(parent, name)}] && (parent, name) in L[child]
  {
    var g', L, child := DetachG(g, parent, name), LinkMap(g), g[parent].kids[name];
    var M := L[child := L[child] - {(parent, name)}];
    forall e | e in g' ensures Links(g', e) == M[e] {
      forall d, n ensures (d, n) in Links(g', e) <==> (d, n) in Links(g, e) && !(e == child && (d, n) == (parent, name)) {
      }
    }
    LinkMapIs(g', M);
  }

  lemma LinksDrop(g: Graph, e: Ino)
    requires e in g && OnlyDots(g[e])
    ensures LinkMap(g - {e}) == LinkMap(g) - {e}
  {
    forall x ensures Links(g - {e}, x) == Links(g, x) {
    }
  }

  lemma LinksAdd(g: Graph, e: Ino, r: Rec)
    requires Closed(g) && e !in g && OnlyDots(r)
    ensures LinkMap(g[e := r]) == LinkMap(g)[e := {}]
  {
    forall x ensures Links(g[e := r], x) == Links(g, x) {
    }
    assert Links(g, e) == {};
  }

  // ---------- what the low-level steps keep ----------

  lemma UnderStep(g: Graph, L: map<Ino, LinkSet>, a: Ino, d: Ino)
    requires g.Keys == L.Keys && d in g && L[d] != {} && ".." in g[d].kids && d != a
    ensures Under(g, L, a, d) <==> Under(g, L, a, g[d].kids[".."])
  {
    if Under(g, L, a, d) {
      var k: nat :| UnderWithin(g, L, a, d, k);
      assert UnderWithin(g, L, a, g[d].kids[".."], k - 1);
    }
    if Under(g, L, a, g[d].kids[".."]) {
      var k: nat :| UnderWithin(g, L, a, g[d].kids[".."], k);
      assert UnderWithin(g, L, a, d, k + 1);
    }
  }

  /** Below child everything sinks far enough to stay below child's new place. */
  lemma RerankUnder(g: Graph, L: map<Ino, LinkSet>, rank: map<Ino, nat>, parent: Ino, child: Ino, name: Name)
    returns (rank': map<Ino, nat>)
    requires g.Keys == L.Keys && OneParent(g, L) && Ranked(g, L, rank)
    requires parent in g && child in g && g[child].kind == Dir && L[child] == {} && !Under(g, L, child, parent)
    ensures Ranked(AttachG(g, parent, child, name), L[child := {(parent, name)}], rank')
  {
    var g', L' := AttachG(g, parent, child, name), L[child := {(parent, name)}];
    rank' := map x | x in rank :: if Under(g, L, child, x) then rank[x] + rank[parent] + 1 else rank[x];
    forall d: Ino, q: (Ino, Name) | d in g' && g'[d].kind == Dir && q in L'[d]
      ensures q.0 in g' && rank'[q.0] < rank'[d]
    {
      if d == child {
        assert UnderWithin(g, L, child, child, 0);
      } else {
        assert q in L[d];
        assert L[d] == {q} && ".." in g[d].kids;
        UnderStep(g, L, child, d);
      }
    }
  }

  lemma AttachKeepsOneParent(g: Graph, L: map<Ino, LinkSet>, parent: Ino, child: Ino, name: Name)
    requires g.Keys == L.Keys && OneParent(g, L) && parent in g && child in g && !Dot(name)
    requires g[child].kind == Dir ==> L[child] == {} && ".." in g[child].kids
    ensures OneParent(AttachG(g, parent, child, name), L[child := L[child] + {(parent, name)}])
  {
    var g', L' := AttachG(g, parent, child, name), L[child := L[child] + {(parent, name)}];
    forall d: Ino, q: (Ino, Name) | d in g' && g'[d].kind == Dir && q in L'[d]
      ensures L'[d] == {q} && ".." in g'[d].kids && g'[d].kids[".."] == q.0
    {
      if d != child {
        assert q in L[d];
      }
    }
  }

  lemma AttachKeepsRank(g: Graph, L: map<Ino, LinkSet>, parent: Ino, child: Ino, name: Name)
    requires g.Keys == L.Keys && Tree(g, L) && parent in g && child in g
    requires g[child].kind == Dir ==> L[child] == {} && !Under(g, L, child, parent)
    ensures HasRank(AttachG(g, parent, child, name), L[child := L[child] + {(parent, name)}])
  {
    var g', L' := AttachG(g, parent, child, name), L[child := L[child] + {(parent, name)}];
    var rank :| Ranked(g, L, rank);
    if g[child].kind == Dir {
      assert L[child] + {(parent, name)} == {(parent, name)};
      var rank' := RerankUnder(g, L, rank, parent, child, name);
    } else {
      assert Ranked(g', L', rank);
    }
  }

  lemma AttachKeepsClosed(g: Graph, parent: Ino, child: Ino, name: Name)
    requires Closed(g) && parent in g && child in g && g[parent].kind == Dir && !Dot(name)
    ensures Closed(AttachG(g, parent, child, name))
  {
    var g' := AttachG(g, parent, child, name);
    forall d | d in g' ensures ClosedIn(g', d) {
      assert ClosedIn(g, d);
    }
  }

  lemma AttachKeepsCounted(g: Graph, L: map<Ino, LinkSet>, root: Ino, parent: Ino, child: Ino, name: Name)
    requires g.Keys == L.Keys && Counted(g, L, root) && parent in g && child in g && child != parent && (parent, name) !in L[child]
    ensures Counted(AttachG(g, parent, child, name), L[child := L[child] + {(parent, name)}], root)
  {
    assert |L[child] + {(parent, name)}| == |L[child]| + 1;
  }

  lemma AttachKeepsCore(g: Graph, L: map<Ino, LinkSet>, root: Ino, parent: Ino, child: Ino, name: Name)
    requires g.Keys == L.Keys && CoreOk(g, L, root) && parent in g && g[parent].kind == Dir
    requires child in g && child != root && child != parent && !Dot(name) && (parent, name) !in L[child]
    requires g[child].kind == Dir ==> L[child] == {} && !Under(g, L, child, parent)
    ensures CoreOk(AttachG(g, parent, child, name), L[child := L[child] + {(parent, name)}], root)
  {
    AttachKeepsClosed(g, parent, child, name);
    AttachKeepsCounted(g, L, root, parent, child, name);
    AttachKeepsOneParent(g, L, parent, child, name);
    AttachKeepsRank(g, L, parent, child, name);
  }

  lemma DetachKeepsOneParent(g: Graph, L: map<Ino, LinkSet>, parent: Ino, name: Name)
    requires g.Keys == L.Keys && OneParent(g, L) && parent in g && name in g[parent].kids && g[parent].kids[name] in g && !Dot(name)
    ensures var child := g[parent].kids[name]; OneParent(DetachG(g, parent, name), L[child := L[child] - {(parent, name)}])
  {
    var child := g[parent].kids[name];
    var g', L' := DetachG(g, parent, name), L[child := L[child] - {(parent, name)}];
    forall d: Ino, q: (Ino, Name) | d in g' && g'[d].kind == Dir && q in L'[d]
      ensures L'[d] == {q} && ".." in g'[d].kids && g'[d].kids[".."] == q.0
    {
      assert q in L[d];
    }
  }

  lemma DetachKeepsRank(g: Graph, L: map<Ino, LinkSet>, parent: Ino, name: Name)
    requires g.Keys == L.Keys && HasRank(g, L) && parent in g && name in g[parent].kids && g[parent].kids[name] in g
    ensures var child := g[parent].kids[name]; HasRank(DetachG(g, parent, name), L[child := L[child] - {(parent, name)}])
  {
    var child := g[parent].kids[name];
    var rank :| Ranked(g, L, rank);
    FewerRanked(g, L, DetachG(g, parent, name), L[child := L[child] - {(parent, name)}], rank);
  }

  lemma FewerRanked(g: Graph, L: map<Ino, LinkSet>, g': Graph, L': map<Ino, LinkSet>, rank: map<Ino, nat>)
    requires g.Keys == L.Keys == g'.Keys == L'.Keys && Ranked(g, L, rank)
    requires forall d :: d in g ==> g'[d].kind == g[d].kind && L'[d] <= L[d]
    ensures Ranked(g', L', rank)
  {
  }

  lemma DetachKeepsCounted(g: Graph, L: map<Ino, LinkSet>, root: Ino, parent: Ino, name: Name)
    requires g.Keys == L.Keys && Counted(g, L, root) && parent in g && name in g[parent].kids && g[parent].kids[name] in g
    requires g[parent].kids[name] != parent && (parent, name) in L[g[parent].kids[name]]
    ensures var child := g[parent].kids[name];
      Counted(DetachG(g, parent, name), L[child := L[child] - {(parent, name)}], root) && g[child].links > 0
  {
    var child := g[parent].kids[name];
    assert |L[child] - {(parent, name)}| == |L[child]| - 1;
  }

  lemma DetachKeepsClosed(g: Graph, parent: Ino, name: Name)
    requires Closed(g) && parent in g && name in g[parent].kids && g[parent].kids[name] in g && !Dot(name)
    requires g[parent].kids[name] != parent
    ensures Closed(DetachG(g, parent, name))
  {
  }

  lemma DetachKeepsCore(g: Graph, L: map<Ino, LinkSet>, root: Ino, parent: Ino, name: Name)
    requires g.Keys == L.Keys && CoreOk(g, L, root) && parent in g && name in g[parent].kids && g[parent].kids[name] != parent
    requires !Dot(name) && g[parent].kids[name] in g && (parent, name) in L[g[parent].kids[name]]
    ensures var child := g[parent].kids[name];
      CoreOk(DetachG(g, parent, name), L[child := L[child] - {(parent, name)}], root) && g[child].links > 0 && child != root
  {
    DetachKeepsClosed(g, parent, name);
    DetachKeepsCounted(g, L, root, parent, name);
    DetachKeepsOneParent(g, L, parent, name);
    DetachKeepsRank(g, L, parent, name);
  }

  lemma DropKeepsCore(g: Graph, L: map<Ino, LinkSet>, root: Ino, e: Ino)
    requires g.Keys == L.Keys && CoreOk(g, L, root) && e in g && e != root && L[e] == {} && OnlyDots(g[e])
    requires forall d, n :: d in g && n in g[d].kids && !Dot(n) ==> g[d].kids[n] != e
    requires forall x, q :: x in g && q in L[x] ==> q.0 != e
    ensures CoreOk(g - {e}, L - {e}, root)
  {
    var rank :| Ranked(g, L, rank);
    assert Ranked(g - {e}, L - {e}, rank);
  }

  lemma AddKeepsCore(g: Graph, L: map<Ino, LinkSet>, root: Ino, e: Ino, r: Rec)
    requires g.Keys == L.Keys && CoreOk(g, L, root) && e !in g && FreshRec(e, r)
    ensures CoreOk(g[e := r], L[e := {}], root)
  {
    var rank :| Ranked(g, L, rank);
    assert Ranked(g[e := r], L[e := {}], rank[e := 0]);
  }

  // ---------- the same, for the entries a graph has ----------

  /** An inode as the initialisers leave it: no links, and only dot entries if it is a directory. */
  ghost predicate FreshRec(e: Ino, r: Rec)
  {
    r.links == 0 && OnlyDots(r) &&
    if r.kind == Dir then "." in r.kids && r.kids["."] == e && ".." in r.kids else r.kids == map[]
  }

  // ---------- what the invariant says of one inode ----------

  /** The root, as every sound graph has it. */
  lemma RootFacts(g: Graph, root: Ino)
    requires Sound(g, root)
    ensures root in g && g[root].kind == Dir && !g[root].deleting && g[root].links == 1 && Kid(g, root, "..") == Some(root)
    ensures LinkMap(g)[root] == {} && Links(g, root) == {}
  {
    assert LinkMap(g)[root] == Links(g, root);
  }

  lemma LinkCount(g: Graph, root: Ino, e: Ino)
    requires Sound(g, root) && e in g
    ensures g[e].links == |Links(g, e)| + if e == root then 1 else 0
  {
    assert LinkMap(g)[e] == Links(g, e);
  }

  /** Entries lead to inodes that exist, the dot entries of a directory that has a name among them. */
  lemma EntriesExist(g: Graph, root: Ino)
    requires Sound(g, root)
    ensures forall d, n :: d in g && n in g[d].kids && !Dot(n) ==> g[d].kids[n] in g
    ensures forall d :: d in g && g[d].links > 0 ==> forall n :: n in g[d].kids ==> g[d].kids[n] in g
  {
    forall d, n | d in g && n in g[d].kids && (!Dot(n) || g[d].links > 0) ensures g[d].kids[n] in g {
      assert ClosedIn(g, d);
      if n == ".." && d != root {
        ParentExists(g, root, d);
      }
    }
  }

  lemma ParentExists(g: Graph, root: Ino, d: Ino)
    requires Sound(g, root) && d in g && d != root && g[d].links > 0 && ".." in g[d].kids
    ensures g[d].kids[".."] in g
  {
    hide Sound;
    LinkCount(g, root, d);
    assert g[d].kind == Dir by {
      DirOfDots(g, root, d);
    }
    assert |Links(g, d)| > 0;
    var q :| q in Links(g, d);
    HolderIsDir(g, root, d, q);
  }

  lemma DirOfDots(g: Graph, root: Ino, d: Ino)
    requires Sound(g, root) && d in g && ".." in g[d].kids
    ensures g[d].kind == Dir
  {
    assert ClosedIn(g, d);
  }

  lemma Ranks(g: Graph, root: Ino) returns (rank: map<Ino, nat>)
    requires Sound(g, root)
    ensures g.Keys <= rank.Keys
    ensures forall d, q :: d in g && g[d].kind == Dir && q in Links(g, d) ==> rank[q.0] < rank[d]
  {
    rank :| Ranked(g, LinkMap(g), rank);
    forall d, q | d in g && g[d].kind == Dir && q in Links(g, d) ensures rank[q.0] < rank[d] {
      assert q in LinkMap(g)[d];
    }
  }

  lemma HolderIsDir(g: Graph, root: Ino, d: Ino, q: Entry)
    requires Sound(g, root) && d in g && q in Links(g, d)
    ensures q.0 in g && g[q.0].kind == Dir && Kid(g, q.0, q.1) == Some(d) && !Dot(q.1)
    ensures g[d].kind == Dir ==> ".." in g[d].kids && g[d].kids[".."] == q.0
  {
    assert q in LinkMap(g)[d];
  }

  lemma ChildOnce(g: Graph, root: Ino, d: Ino, q: Entry)
    requires Sound(g, root) && d in g && g[d].kind == Dir && q in Links(g, d)
    ensures Links(g, d) == {q}
  {
    assert q in LinkMap(g)[d];
  }

  lemma EntryIsLink(g: Graph, d: Ino, n: Name)
    requires d in g && n in g[d].kids && !Dot(n)
    ensures (d, n) in Links(g, g[d].kids[n])
  {
  }

  /** Removing an inode that nothing names. */
  lemma DropSound(g: Graph, root: Ino, e: Ino)
    requires Sound(g, root) && e in g && e != root && g[e].links <= 0 && OnlyDots(g[e])
    ensures Sound(g - {e}, root)
  {
    LinksDrop(g, e);
    forall d, n | d in g && n in g[d].kids && !Dot(n) ensures g[d].kids[n] != e {
      EntryIsLink(g, d, n);
    }
    forall x, q | x in g && q in LinkMap(g)[x] ensures q.0 != e {
    }
    DropKeepsCore(g, LinkMap(g), root, e);
  }

  /** Adding an inode that nothing names yet. */
  lemma AddSound(g: Graph, root: Ino, e: Ino, r: Rec)
    requires Sound(g, root) && e !in g && FreshRec(e, r)
    ensures Sound(g[e := r], root)
  {
    LinksAdd(g, e, r);
    AddKeepsCore(g, LinkMap(g), root, e, r);
  }

  lemma NoLinks(g: Graph, L: map<Ino, LinkSet>, root: Ino, e: Ino)
    requires g.Keys == L.Keys && Counted(g, L, root) && e in g && e != root
    ensures g[e].links <= 0 <==> L[e] == {}
  {
  }

  lemma AttachSound(g: Graph, root: Ino, parent: Ino, child: Ino, name: Name)
    requires Sound(g, root) && parent in g && g[parent].kind == Dir && child in g && child != root && child != parent
    requires !Dot(name) && name !in g[parent].kids
    requires g[child].kind == Dir ==> g[child].links <= 0 && !Under(g, LinkMap(g), child, parent)
    ensures Sound(AttachG(g, parent, child, name), root)
  {
    var L, g' := LinkMap(g), AttachG(g, parent, child, name);
    NoLinks(g, L, root, child);
    assert (parent, name) !in L[child] by {
      LinksAttach(g, parent, child, name);
    }
    AttachKeepsCore(g, L, root, parent, child, name);
    assert LinkMap(g') == L[child := L[child] + {(parent, name)}] by {
      LinksAttach(g, parent, child, name);
    }
  }

  lemma DetachSound(g: Graph, root: Ino, parent: Ino, name: Name)
    requires Sound(g, root) && parent in g && name in g[parent].kids && !Dot(name)
    ensures g[parent].kids[name] in g && Sound(DetachG(g, parent, name), root)
    ensures var child := g[parent].kids[name]; g[child].links > 0 && child != root && child != parent
  {
    NotOwnChild(g, root, parent, name);
    LinksDetach(g, parent, name);
    DetachKeepsCore(g, LinkMap(g), root, parent, name);
  }

  /** No directory is among its own entries. */
  lemma NotOwnChild(g: Graph, root: Ino, parent: Ino, name: Name)
    requires Sound(g, root) && parent in g && name in g[parent].kids && !Dot(name)
    ensures g[parent].kids[name] != parent
  {
    var L := LinkMap(g);
    var rank :| Ranked(g, L, rank);
    EntryIsLink(g, parent, name);
  }

  /** An empty directory has nobody below it. */
  lemma EmptyHasNoneBelow(g: Graph, L: map<Ino, LinkSet>, a: Ino, d: Ino, k: nat)
    requires g.Keys == L.Keys && OneParent(g, L) && Closed(g) && a in g && OnlyDots(g[a]) && d != a
    requires forall x, q :: x in g && q in L[x] ==> q.0 in g && q.1 in g[q.0].kids && !Dot(q.1)
    ensures !UnderWithin(g, L, a, d, k)
    decreases k
  {
    if k > 0 && d in g && L[d] != {} && ".." in g[d].kids {
      var q :| q in L[d];
      assert g[d].kind == Dir;
      assert g[d].kids[".."] == q.0 && q.0 != a;
      EmptyHasNoneBelow(g, L, a, g[d].kids[".."], k - 1);
    }
  }

  lemma LinksAreEntries(g: Graph)
    ensures forall x, q :: x in g && q in LinkMap(g)[x] ==> q.0 in g && q.1 in g[q.0].kids && !Dot(q.1)
  {
  }

  lemma EmptyNotAbove(g: Graph, root: Ino, a: Ino, d: Ino)
    requires Sound(g, root) && a in g && OnlyDots(g[a]) && d != a
    ensures !Under(g, LinkMap(g), a, d)
  {
    hide Ranked, Counted, Closed, OneParent, UnderWithin, Links;
    var L := LinkMap(g);
    LinksAreEntries(g);
    forall k: nat ensures !UnderWithin(g, L, a, d, k) {
      EmptyHasNoneBelow(g, L, a, d, k);
    }
  }

  /** Taking links away puts nobody below anybody. */
  lemma UnderShrinks(g: Graph, L: map<Ino, LinkSet>, g': Graph, L': map<Ino, LinkSet>, a: Ino, d: Ino, k: nat)
    requires g.Keys == L.Keys == g'.Keys == L'.Keys && UnderWithin(g', L', a, d, k)
    requires forall x :: x in g ==> L'[x] <= L[x]
    requires forall x :: x in g && ".." in g'[x].kids ==> ".." in g[x].kids && g[x].kids[".."] == g'[x].kids[".."]
    ensures UnderWithin(g, L, a, d, k)
    decreases k
  {
    if d != a {
      UnderShrinks(g, L, g', L', a, g'[d].kids[".."], k - 1);
    }
  }

  lemma DetachUnder(g: Graph, root: Ino, parent: Ino, name: Name, a: Ino, d: Ino)
    requires Sound(g, root) && parent in g && name in g[parent].kids && !Dot(name)
    requires g[parent].kids[name] in g && Under(DetachG(g, parent, name), LinkMap(DetachG(g, parent, name)), a, d)
    ensures Under(g, LinkMap(g), a, d)
  {
    hide Sound;
    NotOwnChild(g, root, parent, name);
    LinksDetach(g, parent, name);
    var L, g' := LinkMap(g), DetachG(g, parent, name);
    var k: nat :| UnderWithin(g', LinkMap(g'), a, d, k);
    UnderShrinks(g, L, g', LinkMap(g'), a, d, k);
  }

  // ---------- the low-level steps, inode by inode ----------

  lemma AttachStep(g: Graph, parent: Ino, child: Ino, name: Name, x: Ino, n: Name)
    requires parent in g && child in g && !Dot(name) && x in g
    ensures var (g', r, r') := (AttachG(g, parent, child, name), g[x], AttachG(g, parent, child, name)[x]);
      r'.kind == r.kind && r'.deleting == r.deleting && r'.links == (if x == child && x != parent then r.links + 1 else r.links) &&
      Kid(g', x, n) == if (x, n) == (parent, name) then Some(child)
                       else if (x, n) == (child, "..") && r.kind == Dir && ".." in r.kids then Some(parent)
                       else Kid(g, x, n)
  {
  }

  lemma DetachStep(g: Graph, parent: Ino, name: Name, x: Ino, n: Name)
    requires parent in g && name in g[parent].kids && g[parent].kids[name] in g && g[parent].kids[name] != parent && x in g
    requires g[g[parent].kids[name]].links > 0
    ensures var (g', r, r') := (DetachG(g, parent, name), g[x], DetachG(g, parent, name)[x]);
      r'.kind == r.kind && r'.deleting == r.deleting && r'.links == (if x == g[parent].kids[name] then r.links - 1 else r.links) &&
      Kid(g', x, n) == if (x, n) == (parent, name) then None else Kid(g, x, n)
  {
  }
}
