/** Detaching everything below a directory: the work queue, and what is left at the end. */
module FsDetach {
  import opened Names
  import opened Wrappers
  import opened FsGraph
  import opened Fs
  import opened FsInvariant
  import opened FsCalls
  import opened FsRemove

  /** The entries, other than dot entries, of the directories in D. */
  ghost function Entries(g: Graph, D: set<Ino>): set<Entry>
  {
    set d, n | d in D && d in g && n in g[d].kids && !Dot(n) :: (d, n)
  }

  function DotsOf(kids: map<Name, Ino>): map<Name, Ino>
  {
    map n | n in kids && Dot(n) :: kids[n]
  }

  /** How many of e's links the entries in done make up. */
  ghost function Lost(g: Graph, done: set<Entry>, e: Ino): nat
  {
    |Links(g, e) * done|
  }

  /** An inode after the directories in D were tagged and the entries in done were taken off the queue. */
  ghost function ReapedRec(g: Graph, D: set<Ino>, done: set<Entry>, e: Ino): Rec
    requires e in g
  {
    Rec(g[e].kind, g[e].links - Lost(g, done, e), g[e].deleting || e in D,
        if e in D then DotsOf(g[e].kids) else g[e].kids)
  }

  ghost predicate Lives(s: State, done: set<Entry>, e: Ino)
    requires Keyed(s)
  {
    e in s.g && (s.g[e].links - Lost(s.g, done, e) > 0 || s.opens[e] > 0)
  }

  /** The state at that point: an inode that has lost its last link and is not open is gone. */
  ghost function Reaped(s: State, D: set<Ino>, done: set<Entry>): (r: State)
    requires Keyed(s)
    ensures Keyed(r)
  {
    s.(g := map e | e in s.g && Lives(s, done, e) :: ReapedRec(s.g, D, done, e),
       opens := map e | e in s.g && Lives(s, done, e) :: s.opens[e],
       num := map e | e in s.g && Lives(s, done, e) :: if e in D then 0 else s.num[e])
  }

  // ---------- the steps ----------

  /** fskit_entry_tag_garbage: what is left of the inode; the entries it had go to the caller. */
  function Tag(s: State, e: Ino): (r: State)
    requires Keyed(s) && e in s.g
    ensures Keyed(r)
  {
    if s.g[e].kind == Dir then
      s.(g := s.g[e := s.g[e].(deleting := true, kids := DotsOf(s.g[e].kids))], num := s.num[e := 0])
    else s.(g := s.g[e := s.g[e].(deleting := true)])
  }

  /** What happens to the inode at the head of the queue. */
  function Reap(s: State, e: Ino): (r: State)
    requires Keyed(s) && e in s.g
    ensures Keyed(r)
  {
    var s1 := if s.g[e].kind == Dir then Tag(s, e) else s;
    TryDestroy(s1.(g := s1.g[e := s1.g[e].(links := s1.g[e].links - 1)]), e).0
  }

  /** What the queue and the directories it came from keep: D are the directories tagged so far, done the entries
      that have left the queue. */
  ghost predicate Queued(s: State, t: Ino, D: set<Ino>, done: set<Entry>, queue: seq<Entry>)
  {
    t in D && Region(s, t, D) && Followed(s, t, D, done) && NoRepeats(queue, done) &&
    forall q :: q in Entries(s.g, D) <==> q in done || q in queue
  }

  ghost predicate Region(s: State, t: Ino, D: set<Ino>)
  {
    forall d :: d in D ==> d in s.g && s.g[d].kind == Dir && Below(s, t, d)
  }

  /** The tagged directories are t and those that an entry in done leads to. */
  ghost predicate Followed(s: State, t: Ino, D: set<Ino>, done: set<Entry>)
  {
    (forall d, q :: d in D && d != t && q in Links(s.g, d) ==> q in done) &&
    forall d, q :: q in done && d in s.g && s.g[d].kind == Dir && q in Links(s.g, d) ==> d in D
  }

  ghost predicate NoRepeats(queue: seq<Entry>, done: set<Entry>)
  {
    (forall i, j :: 0 <= i < j < |queue| ==> queue[i] != queue[j]) && forall q :: q in queue ==> q !in done
  }

  // ---------- why the head of the queue is fresh ----------

  lemma UnderRank(g: Graph, L: map<Ino, LinkSet>, rank: map<Ino, nat>, a: Ino, d: Ino, k: nat)
    requires g.Keys == L.Keys && OneParent(g, L) && Ranked(g, L, rank) && d in g && UnderWithin(g, L, a, d, k)
    requires forall x :: x in g && ".." in g[x].kids ==> g[x].kind == Dir
    ensures a in g && rank[a] <= rank[d]
    decreases k
  {
    if d != a {
      var q :| q in L[d];
      assert g[d].kind == Dir && g[d].kids[".."] == q.0;
      UnderRank(g, L, rank, a, q.0, k - 1);
    }
  }

  /** The directory that holds the name of t is not below t. */
  lemma HolderNotBelow(g: Graph, root: Ino, t: Ino, q: Entry)
    requires Sound(g, root) && t in g && g[t].kind == Dir && q in Links(g, t)
    ensures !Under(g, LinkMap(g), t, q.0)
  {
    var L := LinkMap(g);
    var rank :| Ranked(g, L, rank);
    assert q in L[t];
    forall k: nat ensures !UnderWithin(g, L, t, q.0, k) {
      if UnderWithin(g, L, t, q.0, k) {
        UnderRank(g, L, rank, t, q.0, k);
      }
    }
  }

  /** The inode at the head of the queue has not been tagged, and is still there. */
  lemma HeadFresh(s: State, loose: multiset<Ino>, t: Ino, D: set<Ino>, done: set<Entry>, queue: seq<Entry>)
    requires Inv(s, loose) && Queued(s, t, D, done, queue) && |queue| > 0
    ensures var q := queue[0]; q.0 in s.g && q.1 in s.g[q.0].kids && !Dot(q.1)
    ensures var c := s.g[queue[0].0].kids[queue[0].1]; c in s.g && c !in D && queue[0] in Links(s.g, c) && Lives(s, done, c)
  {
    hide Sound, RefsOk, NumOk, Settled, Under;
    var q := queue[0];
    assert q in Entries(s.g, D);
    MidFacts(s, loose, {}, q.0);
    var c := s.g[q.0].kids[q.1];
    EntryIsLink(s.g, q.0, q.1);
    if c == t {
      HolderNotBelow(s.g, s.root, t, q);
    }
    LinksLeft(s.g, s.root, c, done, q);
  }

  lemma LinksLeft(g: Graph, root: Ino, c: Ino, done: set<Entry>, q: Entry)
    requires Sound(g, root) && c in g && q in Links(g, c) && q !in done
    ensures Lost(g, done, c) < g[c].links
  {
    SmallerSet(Links(g, c) * done, Links(g, c), q);
    assert LinkMap(g)[c] == Links(g, c);
  }

  // ---------- one turn of the loop ----------

  lemma DoneAt(g: Graph, done: set<Entry>, q: Entry, c: Ino, e: Ino)
    requires q in Links(g, c) && q !in done
    ensures Lost(g, done + {q}, e) == Lost(g, done, e) + if e == c then 1 else 0
  {
    if e == c {
      assert Links(g, e) * (done + {q}) == Links(g, e) * done + {q};
    } else {
      assert Links(g, e) * (done + {q}) == Links(g, e) * done;
    }
  }

  function ReapedCell(x: Cell): Option<Cell>
  {
    var dir := x.rec.kind == Dir;
    if x.rec.links <= 1 && x.opens <= 0 then None
    else
      Some(Cell(Rec(x.rec.kind, x.rec.links - 1, x.rec.deleting || dir, if dir then DotsOf(x.rec.kids) else x.rec.kids),
                x.opens, if dir then 0 else x.num))
  }

  lemma ReapAt(s: State, c: Ino, e: Ino)
    requires Keyed(s) && c in s.g
    ensures At(Reap(s, c), e) == if e == c then ReapedCell(At(s, c).value) else At(s, e)
  {
  }

  lemma ReapedAt(s: State, D: set<Ino>, done: set<Entry>, e: Ino)
    requires Keyed(s)
    ensures At(Reaped(s, D, done), e) ==
      if Lives(s, done, e) then Some(Cell(ReapedRec(s.g, D, done, e), s.opens[e], if e in D then 0 else s.num[e])) else None
  {
  }

  lemma ReapOne(s: State, D: set<Ino>, D': set<Ino>, done: set<Entry>, q: Entry, c: Ino, e: Ino)
    requires Keyed(s) && c in s.g && q in Links(s.g, c) && q !in done && c !in D && Lives(s, done, c)
    requires D' == if s.g[c].kind == Dir then D + {c} else D
    ensures At(Reap(Reaped(s, D, done), c), e) == At(Reaped(s, D', done + {q}), e)
  {
    hide Reap, Links, DotsOf, Lost, Reaped;
    ReapedAt(s, D, done, c);
    ReapAt(Reaped(s, D, done), c, e);
    ReapedAt(s, D, done, e);
    ReapedAt(s, D', done + {q}, e);
    DoneAt(s.g, done, q, c, e);
  }

  lemma ReapIs(s: State, D: set<Ino>, D': set<Ino>, done: set<Entry>, q: Entry, c: Ino)
    requires Keyed(s) && c in s.g && q in Links(s.g, c) && q !in done && c !in D && Lives(s, done, c)
    requires D' == if s.g[c].kind == Dir then D + {c} else D
    ensures Reap(Reaped(s, D, done), c) == Reaped(s, D', done + {q})
  {
    hide Reap, Links;
    var r, r' := Reap(Reaped(s, D, done), c), Reaped(s, D', done + {q});
    forall e ensures At(r, e) == At(r', e) {
      ReapOne(s, D, D', done, q, c, e);
    }
    ReapKeepsRest(Reaped(s, D, done), c);
    SameState(r, r');
  }

  lemma ReapKeepsRest(s: State, e: Ino)
    requires Keyed(s) && e in s.g
    ensures Reap(s, e).root == s.root && Reap(s, e).handles == s.handles
  {
  }

  // ---------- the queue over one turn ----------

  function PairsOf(d: Ino, names: seq<Name>): (r: seq<Entry>)
    ensures |r| == |names| && forall i :: 0 <= i < |r| ==> r[i] == (d, names[i])
  {
    seq(|names|, i requires 0 <= i < |names| => (d, names[i]))
  }

  /** The names of a directory other than the dot names, each once. */
  ghost predicate Lists(kids: map<Name, Ino>, names: seq<Name>)
  {
    (forall i, j :: 0 <= i < j < |names| ==> names[i] != names[j]) && forall n :: n in names <==> n in kids && !Dot(n)
  }

  /** The entries tagged directory c leaves; files leave none. */
  function Released(s: State, c: Ino, names: seq<Name>): seq<Entry>
    requires c in s.g
  {
    if s.g[c].kind == Dir then PairsOf(c, names) else []
  }

  lemma ChildBelow(s: State, t: Ino, c: Ino, q: Entry)
    requires Sound(s.g, s.root) && c in s.g && s.g[c].kind == Dir && q in Links(s.g, c) && Below(s, t, q.0)
    ensures Below(s, t, c) && forall p :: p in Links(s.g, c) ==> p == q
  {
    var L := LinkMap(s.g);
    assert q in L[c];
    var k: nat :| UnderWithin(s.g, L, t, q.0, k);
    assert UnderWithin(s.g, L, t, c, k + 1);
  }

  lemma EntriesAdd(g: Graph, D: set<Ino>, c: Ino, q: Entry)
    ensures q in Entries(g, D + {c}) <==> q in Entries(g, D) || q in Entries(g, {c})
  {
  }

  lemma PairsAreEntries(g: Graph, c: Ino, names: seq<Name>, q: Entry)
    requires c in g && Lists(g[c].kids, names)
    ensures q in PairsOf(c, names) <==> q in Entries(g, {c})
  {
    if q in Entries(g, {c}) {
      var i :| 0 <= i < |names| && names[i] == q.1;
      assert PairsOf(c, names)[i] == q;
    }
  }

  lemma QueueRest(s: State, queue: seq<Entry>, done: set<Entry>)
    requires NoRepeats(queue, done) && |queue| > 0
    ensures NoRepeats(queue[1..], done + {queue[0]})
    ensures forall q :: q in queue <==> q == queue[0] || q in queue[1..]
  {
    assert queue == [queue[0]] + queue[1..];
  }

  lemma QueueMore(queue: seq<Entry>, more: seq<Entry>, done: set<Entry>)
    requires NoRepeats(queue, done) && NoRepeats(more, done) && forall q :: q in more ==> q !in queue
    ensures NoRepeats(queue + more, done) && forall q :: q in queue + more <==> q in queue || q in more
  {
    var all := queue + more;
    forall i, j | 0 <= i < j < |all| ensures all[i] != all[j] {
      if i < |queue| <= j {
        assert all[i] in queue && all[j] in more;
      }
    }
  }

  lemma FollowedTurn(s: State, t: Ino, D: set<Ino>, done: set<Entry>, q: Entry, c: Ino)
    requires Followed(s, t, D, done) && c in s.g && q in Links(s.g, c)
    requires s.g[c].kind == Dir ==> forall p :: p in Links(s.g, c) ==> p == q
    ensures Followed(s, t, if s.g[c].kind == Dir then D + {c} else D, done + {q})
  {
  }

  lemma NewEntries(s: State, D: set<Ino>, done: set<Entry>, queue: seq<Entry>, c: Ino, names: seq<Name>)
    requires c in s.g && c !in D && Lists(s.g[c].kids, names)
    requires forall q :: q in Entries(s.g, D) <==> q in done || q in queue
    ensures NoRepeats(PairsOf(c, names), done) && forall q :: q in PairsOf(c, names) ==> q !in queue
    ensures forall q :: q in Entries(s.g, D + {c}) <==> q in done || q in queue || q in PairsOf(c, names)
  {
    forall p ensures p in PairsOf(c, names) <==> p in Entries(s.g, {c}) {
      PairsAreEntries(s.g, c, names, p);
    }
    forall p ensures p in Entries(s.g, D + {c}) <==> p in Entries(s.g, D) || p in Entries(s.g, {c}) {
      EntriesAdd(s.g, D, c, p);
    }
  }

  /** One turn keeps what is known of the queue. */
  lemma QueueTurn(s: State, loose: multiset<Ino>, t: Ino, D: set<Ino>, done: set<Entry>, queue: seq<Entry>, names: seq<Name>, c: Ino)
    requires Inv(s, loose) && Queued(s, t, D, done, queue) && |queue| > 0 && Kid(s.g, queue[0].0, queue[0].1) == Some(c) && c in s.g
    requires s.g[c].kind == Dir ==> Lists(s.g[c].kids, names)
    ensures Queued(s, t, if s.g[c].kind == Dir then D + {c} else D, done + {queue[0]}, queue[1..] + Released(s, c, names))
  {
    hide Sound, RefsOk, NumOk, Settled, Under, Below, Links, Lists, NoRepeats, Followed, Lives, PairsOf, Entries;
    HeadFresh(s, loose, t, D, done, queue);
    var q := queue[0];
    QueueRest(s, queue, done);
    if s.g[c].kind == Dir {
      HeadInEntries(s, t, D, done, queue);
      ChildBelow(s, t, c, q);
      FollowedTurn(s, t, D, done, q, c);
      NewEntries(s, D, done + {q}, queue[1..], c, names);
      QueueMore(queue[1..], PairsOf(c, names), done + {q});
    } else {
      FollowedTurn(s, t, D, done, q, c);
      assert queue[1..] + [] == queue[1..];
    }
  }

  lemma HeadInEntries(s: State, t: Ino, D: set<Ino>, done: set<Entry>, queue: seq<Entry>)
    requires Queued(s, t, D, done, queue) && |queue| > 0
    ensures queue[0].0 in D
  {
    assert queue[0] in Entries(s.g, D);
  }

  // ---------- the whole loop ----------

  /** The directories at or below t. */
  ghost function DirsBelow(s: State, t: Ino): set<Ino>
  {
    set d | d in s.g && s.g[d].kind == Dir && Below(s, t, d)
  }

  /** The outcome of detach_all on a directory. */
  ghost function DetachedAll(s: State, t: Ino): (r: State)
    requires Keyed(s)
    ensures Keyed(r)
  {
    Reaped(s, DirsBelow(s, t), Entries(s.g, DirsBelow(s, t)))
  }

  /** detach_all: a file is only tagged. */
  ghost function DetachAll(s: State, t: Ino): State
    requires Keyed(s) && t in s.g
  {
    if s.g[t].kind == Dir then DetachedAll(s, t) else Tag(s, t)
  }

  lemma StartQueue(s: State, t: Ino, names: seq<Name>)
    requires t in s.g && s.g[t].kind == Dir && Lists(s.g[t].kids, names)
    ensures Queued(s, t, {t}, {}, PairsOf(t, names))
  {
    hide Lists, Entries, PairsOf;
    SelfBelow(s, t);
    PairsDistinct(s.g[t].kids, t, names);
    forall p ensures p in PairsOf(t, names) <==> p in Entries(s.g, {t}) {
      PairsAreEntries(s.g, t, names, p);
    }
  }

  lemma NothingLost(s: State, loose: multiset<Ino>, e: Ino)
    requires Inv(s, loose) && e in s.g
    ensures Lost(s.g, {}, e) == 0 && Lives(s, {}, e)
  {
    hide Sound;
    assert Links(s.g, e) * {} == {};
  }

  lemma StartTagged(s: State, loose: multiset<Ino>, t: Ino)
    requires Inv(s, loose) && t in s.g && s.g[t].kind == Dir
    ensures Tag(s, t) == Reaped(s, {t}, {})
  {
    hide Inv, DotsOf, Lost, Reaped;
    InvWf(s, loose);
    forall e ensures At(Tag(s, t), e) == At(Reaped(s, {t}, {}), e) {
      if e in s.g {
        NothingLost(s, loose, e);
      }
      ReapedAt(s, {t}, {}, e);
    }
    assert Reaped(s, {t}, {}).root == s.root && Reaped(s, {t}, {}).handles == s.handles by {
      ReapedRest(s, {t}, {});
    }
    SameState(Tag(s, t), Reaped(s, {t}, {}));
  }

  lemma ReapedRest(s: State, D: set<Ino>, done: set<Entry>)
    requires Keyed(s)
    ensures Reaped(s, D, done).root == s.root && Reaped(s, D, done).handles == s.handles
  {
  }

  lemma PairsDistinct(kids: map<Name, Ino>, t: Ino, names: seq<Name>)
    requires Lists(kids, names)
    ensures NoRepeats(PairsOf(t, names), {})
  {
  }

  /** When the queue is empty, every directory below t has been tagged and every entry there is done. */
  lemma AllTagged(s: State, t: Ino, D: set<Ino>, done: set<Entry>, d: Ino, k: nat)
    requires Sound(s.g, s.root) && Queued(s, t, D, done, []) && d in s.g && s.g[d].kind == Dir && UnderWithin(s.g, LinkMap(s.g), t, d, k)
    ensures d in D
    decreases k
  {
    hide Sound, Region, NoRepeats;
    if d != t {
      var q :| q in LinkMap(s.g)[d];
      assert q in Links(s.g, d);
      HolderIsDir(s.g, s.root, d, q);
      AllTagged(s, t, D, done, q.0, k - 1);
      assert q in Entries(s.g, D);
    }
  }

  lemma Swept(s: State, t: Ino, D: set<Ino>, done: set<Entry>)
    requires Sound(s.g, s.root) && Keyed(s) && Queued(s, t, D, done, [])
    ensures Reaped(s, D, done) == DetachedAll(s, t)
  {
    hide Sound, Reaped, Followed;
    forall d | d in s.g && s.g[d].kind == Dir && Below(s, t, d) ensures d in D {
      var k: nat :| UnderWithin(s.g, LinkMap(s.g), t, d, k);
      AllTagged(s, t, D, done, d, k);
    }
    assert D == DirsBelow(s, t);
    assert done == Entries(s.g, D);
  }

  // ---------- what holds at every turn ----------

  /** Entries not yet off the queue: they are in directories that are still untagged, or in the queue. */
  ghost function ToDo(s: State, done: set<Entry>): set<Entry>
  {
    Entries(s.g, s.g.Keys) - done
  }

  /** Entries left plus queue length falls by one each turn. */
  lemma TurnFalls(s: State, t: Ino, D: set<Ino>, done: set<Entry>, queue: seq<Entry>)
    requires Queued(s, t, D, done, queue) && |queue| > 0
    ensures |ToDo(s, done + {queue[0]})| == |ToDo(s, done)| - 1
    ensures |ToDo(s, done)| == |Entries(s.g, s.g.Keys - D)| + |queue|
  {
    var q := queue[0];
    assert q in Entries(s.g, D);
    assert q in ToDo(s, done);
    assert ToDo(s, done + {q}) == ToDo(s, done) - {q};
    var waiting := set p | p in queue;
    assert ToDo(s, done) == Entries(s.g, s.g.Keys - D) + waiting;
    assert Entries(s.g, s.g.Keys - D) !! waiting;
    DistinctSize(queue);
  }

  lemma {:induction false} DistinctSize<T>(s: seq<T>)
    requires forall i, j :: 0 <= i < j < |s| ==> s[i] != s[j]
    ensures |set x | x in s| == |s|
  {
    if s == [] {
      assert (set x | x in s) == {};
    } else {
      DistinctSize(s[1..]);
      assert s == [s[0]] + s[1..];
      assert (set x | x in s) == (set x | x in s[1..]) + {s[0]};
    }
  }

  /** A directory that still has entries has not been destroyed. */
  lemma HolderLives(s: State, loose: multiset<Ino>, t: Ino, D: set<Ino>, done: set<Entry>, d: Ino, n: Name)
    requires Inv(s, loose) && Followed(s, t, D, done) && d in s.g && d !in D && n in s.g[d].kids && !Dot(n)
    ensures Lives(s, done, d)
  {
    hide Sound, RefsOk, NumOk;
    HoldersAreDirs(s, loose, d, n);
    MidFacts(s, loose, {}, d);
    assert s.g[d].links > 0;
    assert Links(s.g, d) * done == {};
  }

  lemma LinksNow(s: State, loose: multiset<Ino>, t: Ino, D: set<Ino>, done: set<Entry>, e: Ino)
    requires Inv(s, loose) && Followed(s, t, D, done)
    ensures Links(Reaped(s, D, done).g, e) == Links(s.g, e) - Entries(s.g, D)
  {
    hide Inv, Followed;
    InvWf(s, loose);
    var r := Reaped(s, D, done);
    forall q ensures q in Links(r.g, e) <==> q in Links(s.g, e) - Entries(s.g, D) {
      if q in Links(s.g, e) && q.0 !in D {
        HolderLives(s, loose, t, D, done, q.0, q.1);
      }
    }
  }

  lemma ThreeParts(all: set<Entry>, E: set<Entry>, done: set<Entry>, queue: seq<Entry>)
    requires forall q :: q in E <==> q in done || q in queue
    requires forall q :: q in queue ==> q !in done
    ensures |all| == |all - E| + |all * done| + |set q | q in queue && q in all|
  {
    var waiting := set q | q in queue && q in all;
    assert all == (all - E) + all * done + waiting;
    assert |all| == |all - E| + |all * done| + |waiting|;
  }

  /** At every turn a link count is the number of entries that name the inode plus the number of times it is queued. */
  lemma QueueCounts(s: State, loose: multiset<Ino>, t: Ino, D: set<Ino>, done: set<Entry>, queue: seq<Entry>, e: Ino)
    requires Inv(s, loose) && Queued(s, t, D, done, queue) && e in Reaped(s, D, done).g
    ensures e in s.g && Reaped(s, D, done).g[e].links ==
      |Links(Reaped(s, D, done).g, e)| + |set q | q in queue && q in Links(s.g, e)| + if e == s.root then 1 else 0
  {
    hide Sound, RefsOk, NumOk, Settled, Links, Entries, Followed, Region;
    LinksNow(s, loose, t, D, done, e);
    LinkCount(s.g, s.root, e);
    ThreeParts(Links(s.g, e), Entries(s.g, D), done, queue);
  }

  // ---------- what is left at the end ----------

  /** The end of the loop: no entry of a tagged directory is left to do. */
  ghost predicate Over(s: State, t: Ino, D: set<Ino>)
  {
    t in D && t != s.root && t in s.g && Region(s, t, D) && Followed(s, t, D, Entries(s.g, D))
  }

  lemma EndLinkMap(s: State, loose: multiset<Ino>, t: Ino, D: set<Ino>)
    requires Inv(s, loose) && Over(s, t, D)
    ensures var (g', L') := (Reaped(s, D, Entries(s.g, D)).g, LinkMap(Reaped(s, D, Entries(s.g, D)).g));
      g'.Keys <= s.g.Keys && forall e :: e in g' ==> L'[e] == LinkMap(s.g)[e] - Entries(s.g, D)
  {
    hide Inv, Followed, Links;
    InvWf(s, loose);
    forall e | e in s.g ensures Links(Reaped(s, D, Entries(s.g, D)).g, e) == Links(s.g, e) - Entries(s.g, D) {
      LinksNow(s, loose, t, D, Entries(s.g, D), e);
    }
  }

  lemma EndTree(g: Graph, L: map<Ino, LinkSet>, g': Graph, L': map<Ino, LinkSet>)
    requires g.Keys == L.Keys && g'.Keys == L'.Keys && g'.Keys <= g.Keys && Tree(g, L)
    requires forall e :: e in g' ==> L'[e] <= L[e] && g'[e].kind == g[e].kind
    requires forall e, q :: e in g' && q in L'[e] ==> q.0 in g'
    requires forall e :: e in g' && ".." in g[e].kids ==> ".." in g'[e].kids && g'[e].kids[".."] == g[e].kids[".."]
    ensures Tree(g', L')
  {
    forall d: Ino, q: (Ino, Name) | d in g' && g'[d].kind == Dir && q in L'[d]
      ensures L'[d] == {q} && ".." in g'[d].kids && g'[d].kids[".."] == q.0
    {
      assert q in L[d];
    }
    var rank :| Ranked(g, L, rank);
    assert Ranked(g', L', rank);
  }

  lemma EntryLives(s: State, loose: multiset<Ino>, D: set<Ino>, d: Ino, n: Name)
    requires Inv(s, loose) && d in s.g && d !in D && n in s.g[d].kids && !Dot(n)
    ensures Lives(s, Entries(s.g, D), s.g[d].kids[n])
  {
    hide Sound, RefsOk, NumOk, Settled, Lost;
    MidFacts(s, loose, {}, d);
    EntryIsLink(s.g, d, n);
    LinksLeft(s.g, s.root, s.g[d].kids[n], Entries(s.g, D), (d, n));
  }

  lemma EndClosed(s: State, loose: multiset<Ino>, t: Ino, D: set<Ino>)
    requires Inv(s, loose) && Over(s, t, D)
    ensures Keyed(s) && Closed(Reaped(s, D, Entries(s.g, D)).g)
  {
    hide Inv, Lost, Entries, Followed, Lives;
    InvWf(s, loose);
    var r := Reaped(s, D, Entries(s.g, D));
    forall d | d in r.g
      ensures (forall n :: n in r.g[d].kids && !Dot(n) ==> r.g[d].kids[n] in r.g) &&
        if r.g[d].kind == Dir then "." in r.g[d].kids && r.g[d].kids["."] == d && ".." in r.g[d].kids else r.g[d].kids == map[]
    {
      ClosedAt(s, loose, d);
      forall n | n in r.g[d].kids && !Dot(n) ensures r.g[d].kids[n] in r.g {
        EntryLives(s, loose, D, d, n);
      }
    }
  }

  lemma LinksThen(s: State, loose: multiset<Ino>, e: Ino, E: set<Entry>)
    requires Inv(s, loose) && e in s.g
    ensures s.g[e].links - Lost(s.g, E, e) == |Links(s.g, e) - E| + if e == s.root then 1 else 0
  {
    hide Sound, RefsOk, NumOk, Settled, Links;
    LinkCount(s.g, s.root, e);
    var all := Links(s.g, e);
    assert all == (all - E) + all * E;
    assert |all| == |all - E| + |all * E|;
  }

  lemma EndCounted(s: State, loose: multiset<Ino>, t: Ino, D: set<Ino>, e: Ino)
    requires Inv(s, loose) && Over(s, t, D) && e in Reaped(s, D, Entries(s.g, D)).g
    ensures var r := Reaped(s, D, Entries(s.g, D));
      r.g[e].links == |LinkMap(r.g)[e]| + if e == s.root then 1 else 0
  {
    hide Inv, Links, Entries, Followed, Lost;
    InvWf(s, loose);
    EndLinkMap(s, loose, t, D);
    LinksThen(s, loose, e, Entries(s.g, D));
  }

  lemma NothingAboveRoot(g: Graph, L: map<Ino, LinkSet>, root: Ino, a: Ino)
    requires g.Keys == L.Keys && root in g && L[root] == {} && a != root
    ensures !Under(g, L, a, root)
  {
    forall k: nat ensures !UnderWithin(g, L, a, root, k) {
    }
  }

  lemma EndRoot(s: State, loose: multiset<Ino>, t: Ino, D: set<Ino>)
    requires Inv(s, loose) && Over(s, t, D)
    ensures Keyed(s)
    ensures var g' := Reaped(s, D, Entries(s.g, D)).g; RootOk(g', LinkMap(g'), s.root)
  {
    hide Sound, RefsOk, NumOk, Settled, Links, Entries, Followed, Under;
    RootFacts(s.g, s.root);
    NothingAboveRoot(s.g, LinkMap(s.g), s.root, t);
    EndLinkMap(s, loose, t, D);
    LinkCount(s.g, s.root, s.root);
    assert Links(s.g, s.root) * Entries(s.g, D) == {};
    assert {} - Entries(s.g, D) == {};
  }

  lemma EndTreeOk(s: State, loose: multiset<Ino>, t: Ino, D: set<Ino>)
    requires Inv(s, loose) && Over(s, t, D)
    ensures Keyed(s)
    ensures var g' := Reaped(s, D, Entries(s.g, D)).g; Tree(g', LinkMap(g'))
  {
    hide Closed, Counted, RootOk, OneParent, HasRank, RefsOk, NumOk, Settled, Entries, Followed, Lost;
    EndLinkMap(s, loose, t, D);
    EndTree(s.g, LinkMap(s.g), Reaped(s, D, Entries(s.g, D)).g, LinkMap(Reaped(s, D, Entries(s.g, D)).g));
  }

  lemma EndSound(s: State, loose: multiset<Ino>, t: Ino, D: set<Ino>)
    requires Inv(s, loose) && Over(s, t, D)
    ensures Keyed(s) && Sound(Reaped(s, D, Entries(s.g, D)).g, s.root)
  {
    hide Inv, Closed, RootOk, Tree, Links, Entries, Followed, Lost;
    EndClosed(s, loose, t, D);
    EndRoot(s, loose, t, D);
    EndTreeOk(s, loose, t, D);
    var g' := Reaped(s, D, Entries(s.g, D)).g;
    assert Counted(g', LinkMap(g'), s.root) by {
      forall e | e in g' ensures g'[e].links == |LinkMap(g')[e]| + if e == s.root then 1 else 0 {
        EndCounted(s, loose, t, D, e);
      }
    }
  }

  lemma EndRefs(s: State, loose: multiset<Ino>, D: set<Ino>, done: set<Entry>)
    requires Keyed(s) && RefsOk(s, loose)
    ensures RefsOk(Reaped(s, D, done), loose)
  {
    hide Lost;
    var r := Reaped(s, D, done);
    forall h | h in r.handles ensures r.handles[h] in r.g {
      assert h in HandlesOf(s.handles, s.handles[h]);
    }
  }

  lemma EndNum(s: State, D: set<Ino>, done: set<Entry>)
    requires Keyed(s) && NumOk(s)
    ensures NumOk(Reaped(s, D, done))
  {
    hide Lost, DotsOf;
    var r := Reaped(s, D, done);
    forall d | d in r.g ensures r.num[d] <= |RealNames(r.g[d])| {
      if d !in D {
        assert RealNames(r.g[d]) == RealNames(s.g[d]);
      }
    }
  }

  lemma EndSettled(s: State, loose: multiset<Ino>, t: Ino, D: set<Ino>)
    requires Inv(s, loose) && Over(s, t, D)
    ensures Keyed(s) && Settled(Reaped(s, D, Entries(s.g, D)), {})
  {
    hide Inv, Entries;
    InvWf(s, loose);
    var r := Reaped(s, D, Entries(s.g, D));
    forall e | e in r.g ensures (r.g[e].links > 0 || r.opens[e] > 0) && GoneIsEmpty(r.g[e]) {
      if e !in D && exists n :: n in s.g[e].kids && !Dot(n) {
        var n :| n in s.g[e].kids && !Dot(n);
        StillLinked(s, loose, t, D, e, n);
      }
    }
  }

  lemma StillLinked(s: State, loose: multiset<Ino>, t: Ino, D: set<Ino>, d: Ino, n: Name)
    requires Inv(s, loose) && Over(s, t, D) && d in s.g && d !in D && n in s.g[d].kids && !Dot(n)
    ensures s.g[d].links > Lost(s.g, Entries(s.g, D), d) && !s.g[d].deleting
  {
    hide Sound, RefsOk, NumOk, Entries;
    HoldersAreDirs(s, loose, d, n);
    MidFacts(s, loose, {}, d);
    assert Links(s.g, d) * Entries(s.g, D) == {};
  }

  lemma EndInv(s: State, loose: multiset<Ino>, t: Ino, D: set<Ino>)
    requires Inv(s, loose) && Over(s, t, D)
    ensures Keyed(s) && Inv(Reaped(s, D, Entries(s.g, D)), loose)
  {
    hide Sound, RefsOk, NumOk, Settled, Entries, Followed, Lost;
    EndSound(s, loose, t, D);
    EndRefs(s, loose, D, Entries(s.g, D));
    EndNum(s, D, Entries(s.g, D));
    EndSettled(s, loose, t, D);
    ReapedRest(s, D, Entries(s.g, D));
  }

  lemma ParentBelow(s: State, t: Ino, d: Ino, q: Entry)
    requires Sound(s.g, s.root) && d in s.g && s.g[d].kind == Dir && q in Links(s.g, d) && d != t && Below(s, t, d)
    ensures q.0 in s.g && s.g[q.0].kind == Dir && Below(s, t, q.0)
  {
    HolderIsDir(s.g, s.root, d, q);
    UnderStep(s.g, LinkMap(s.g), t, d);
  }

  lemma BelowIsFollowed(s: State, t: Ino)
    requires Sound(s.g, s.root) && t in s.g && s.g[t].kind == Dir
    ensures Followed(s, t, DirsBelow(s, t), Entries(s.g, DirsBelow(s, t)))
  {
    hide Sound, Below;
    var D := DirsBelow(s, t);
    forall d, q | d in D && d != t && q in Links(s.g, d) ensures q in Entries(s.g, D) {
      ParentBelow(s, t, d, q);
      HolderIsDir(s.g, s.root, d, q);
    }
    forall d, q | q in Entries(s.g, D) && d in s.g && s.g[d].kind == Dir && q in Links(s.g, d) ensures d in D {
      ChildBelow(s, t, d, q);
    }
  }

  lemma BelowIsOver(s: State, loose: multiset<Ino>, t: Ino)
    requires Inv(s, loose) && t in s.g && s.g[t].kind == Dir && t != s.root
    ensures Over(s, t, DirsBelow(s, t))
  {
    hide Sound, RefsOk, NumOk, Settled, Below, Followed;
    SelfBelow(s, t);
    BelowIsFollowed(s, t);
  }

  lemma EndGone(s: State, loose: multiset<Ino>, t: Ino, e: Ino)
    requires Inv(s, loose) && e in s.g
    ensures Keyed(s)
    ensures e !in DetachedAll(s, t).g <==> e != s.root && s.opens[e] == 0 && Links(s.g, e) <= Entries(s.g, DirsBelow(s, t))
  {
    hide Inv, Entries, Links, DirsBelow;
    GoneWhen(s, loose, e, Entries(s.g, DirsBelow(s, t)));
  }

  lemma EndLinks(s: State, loose: multiset<Ino>, t: Ino, e: Ino)
    requires Inv(s, loose) && t in s.g && s.g[t].kind == Dir && Keyed(s) && e in DetachedAll(s, t).g
    ensures var (s', E) := (DetachedAll(s, t), Entries(s.g, DirsBelow(s, t)));
      e in s.g && Links(s'.g, e) == Links(s.g, e) - E && s'.opens[e] == s.opens[e] &&
      s'.g[e].links == |Links(s'.g, e)| + if e == s.root then 1 else 0
  {
    hide Inv, Entries, Followed, Links, DirsBelow, Lost;
    var D := DirsBelow(s, t);
    InvSoundOf(s, loose);
    BelowIsFollowed(s, t);
    LinksNow(s, loose, t, D, Entries(s.g, D), e);
    LinksThen(s, loose, e, Entries(s.g, D));
  }

  lemma EndTop(s: State, loose: multiset<Ino>, t: Ino)
    requires Inv(s, loose) && Live(s, t) && s.g[t].kind == Dir
    ensures Keyed(s)
    ensures var s' := DetachedAll(s, t);
      s'.root == s.root && s'.handles == s.handles && t in s'.g && s'.g[t] == Rec(Dir, s.g[t].links, true, DotsOf(s.g[t].kids))
  {
    hide Inv, Entries, Links, DotsOf, Lost;
    InvWf(s, loose);
    SelfBelow(s, t);
    TopStays(s, loose, t);
  }

  /** An inode that detach_all leaves: garbage and without entries if it is a directory at or below t, and else with the
      flag, the entries and the count that it had. */
  ghost predicate LeftAs(s: State, s': State, below: bool, e: Ino)
    requires Keyed(s) && Keyed(s') && e in s.g && e in s'.g
  {
    s'.g[e].kind == s.g[e].kind && s'.opens[e] == s.opens[e] && s'.g[e].deleting == (s.g[e].deleting || below) &&
    s'.num[e] == (if below then 0 else s.num[e]) &&
    forall n :: Kid(s'.g, e, n) == if below && !Dot(n) then None else Kid(s.g, e, n)
  }

  lemma EndLeft(s: State, t: Ino, e: Ino)
    requires Keyed(s) && e in DetachedAll(s, t).g
    ensures e in s.g && LeftAs(s, DetachedAll(s, t), e in DirsBelow(s, t), e)
  {
    hide DirsBelow, Entries, Lost;
  }

  /** detach_all of anything but a directory tags it, and does nothing else. */
  lemma DetachFileTags(s: State, t: Ino)
    requires Keyed(s) && t in s.g && s.g[t].kind != Dir
    ensures DetachAll(s, t) == s.(g := s.g[t := s.g[t].(deleting := true)])
  {
  }

  /** After detach_all of any directory, the root included: exactly the unopened inodes whose every name lay below t are
      gone; the others have lost exactly those names, and a link for each; exactly the directories at or below t have
      become garbage, and are empty; kinds, open counts and handles are unchanged; t itself keeps its name. */
  lemma DetachAllEnds(s: State, loose: multiset<Ino>, t: Ino)
    requires Inv(s, loose) && Live(s, t) && s.g[t].kind == Dir
    ensures Keyed(s)
    ensures var (s', E) := (DetachedAll(s, t), Entries(s.g, DirsBelow(s, t)));
      (forall e :: e in s.g ==> (e !in s'.g <==> e != s.root && s.opens[e] == 0 && Links(s.g, e) <= E)) &&
      (forall e :: e in s'.g ==> e in s.g && Links(s'.g, e) == Links(s.g, e) - E && s'.opens[e] == s.opens[e]) &&
      (forall e :: e in s'.g ==> s'.g[e].links == |Links(s'.g, e)| + if e == s.root then 1 else 0) &&
      (forall e :: e in s'.g ==> LeftAs(s, s', e in DirsBelow(s, t), e)) &&
      s'.root == s.root && s'.handles == s.handles && t in s'.g && s'.g[t] == Rec(Dir, s.g[t].links, true, DotsOf(s.g[t].kids))
  {
    hide Inv, Entries, DotsOf, Links, DetachedAll, DirsBelow, LeftAs;
    InvWf(s, loose);
    var s', E := DetachedAll(s, t), Entries(s.g, DirsBelow(s, t));
    forall e | e in s.g ensures e !in s'.g <==> e != s.root && s.opens[e] == 0 && Links(s.g, e) <= E {
      EndGone(s, loose, t, e);
    }
    forall e | e in s'.g
      ensures e in s.g && Links(s'.g, e) == Links(s.g, e) - E && s'.opens[e] == s.opens[e]
      ensures s'.g[e].links == |Links(s'.g, e)| + if e == s.root then 1 else 0
    {
      EndLinks(s, loose, t, e);
    }
    forall e | e in s'.g ensures LeftAs(s, s', e in DirsBelow(s, t), e) {
      EndLeft(s, t, e);
    }
    EndTop(s, loose, t);
  }

  /** detach_all keeps the invariant exactly when it is not given the root, which it would mark as garbage. */
  lemma DetachAllKeeps(s: State, loose: multiset<Ino>, t: Ino)
    requires Inv(s, loose) && Live(s, t) && s.g[t].kind == Dir
    ensures Keyed(s) && (Inv(DetachedAll(s, t), loose) <==> t != s.root)
  {
    hide Inv, Sound, Entries, Links;
    InvWf(s, loose);
    if t != s.root {
      BelowIsOver(s, loose, t);
      EndInv(s, loose, t, DirsBelow(s, t));
    } else {
      DetachAllEnds(s, loose, t);
      TaggedRoot(DetachedAll(s, t), loose);
    }
  }

  lemma TaggedRoot(s: State, loose: multiset<Ino>)
    requires s.root in s.g && s.g[s.root].deleting
    ensures !Inv(s, loose)
  {
    hide RefsOk, NumOk, Settled;
  }

  lemma InvSoundOf(s: State, loose: multiset<Ino>)
    requires Inv(s, loose)
    ensures Sound(s.g, s.root) && Keyed(s)
  {
  }

  lemma NoneLeft(all: set<Entry>, E: set<Entry>)
    ensures |all - E| == 0 <==> all <= E
  {
    if all - E == {} {
      forall q | q in all ensures q in E {
        assert q !in all - E;
      }
    } else {
      var q :| q in all - E;
    }
  }

  lemma GoneWhen(s: State, loose: multiset<Ino>, e: Ino, E: set<Entry>)
    requires Inv(s, loose) && e in s.g
    ensures Keyed(s) && (!Lives(s, E, e) <==> e != s.root && s.opens[e] == 0 && Links(s.g, e) <= E)
  {
    hide Sound, RefsOk, NumOk, Settled, Links, Lost;
    MidFacts(s, loose, {}, e);
    LinksThen(s, loose, e, E);
    NoneLeft(Links(s.g, e), E);
  }

  lemma TopStays(s: State, loose: multiset<Ino>, t: Ino)
    requires Inv(s, loose) && Live(s, t) && s.g[t].kind == Dir
    ensures Lost(s.g, Entries(s.g, DirsBelow(s, t)), t) == 0
  {
    hide Sound, RefsOk, NumOk, Settled, Under;
    var E := Entries(s.g, DirsBelow(s, t));
    forall q | q in Links(s.g, t) ensures q !in E {
      HolderNotBelow(s.g, s.root, t, q);
    }
    assert Links(s.g, t) * E == {};
  }
}
