/** Threads that resolve paths with lock coupling, and may then lock a child of what they found, never deadlock. */
module Deadlock {
  import opened Names
  import opened Wrappers
  import opened FsGraph
  import opened Fs
  import opened Resolve

  /** Wanting the lock of plan[at], with plan[at - 1] held; holding both; holding plan[at] alone; about to let go of
      the last one. */
  datatype Phase = Wanting | Both | One | Closing | Finished

  /** plan is the walk from the root, as far as it gets. withChild: the last inode is a child that is locked while its
      directory stays locked, as mkdir, rmdir and detach do. */
  datatype Thread = Thread(plan: seq<Ino>, modes: seq<Mode>, withChild: bool, at: nat, phase: Phase)

  type Threads = map<nat, Thread>

  /** A level for every inode, above that of the directories that have an entry for it. */
  ghost predicate Leveled(g: Graph, level: map<Ino, nat>)
  {
    g.Keys <= level.Keys &&
    forall d, n, c :: Kid(g, d, n) == Some(c) && !Dot(n) && d in g && c in g ==> level[d] < level[c]
  }

  ghost predicate Edge(g: Graph, d: Ino, c: Ino)
  {
    exists n :: !Dot(n) && Kid(g, d, n) == Some(c)
  }

  /** The plan goes down the tree, an entry at a time. */
  ghost predicate Planned(g: Graph, t: Thread)
  {
    |t.modes| == |t.plan| && t.plan != [] && (forall i :: 0 <= i < |t.plan| ==> t.plan[i] in g) &&
    (forall i :: 0 < i < |t.plan| ==> Edge(g, t.plan[i - 1], t.plan[i])) &&
    t.at < |t.plan| && (t.withChild ==> |t.plan| > 1)
  }

  predicate Holds(t: Thread, x: Ino)
  {
    t.at < |t.plan| &&
    match t.phase
    case Wanting => t.at > 0 && x == t.plan[t.at - 1]
    case Both => x == t.plan[t.at] || (t.at > 0 && x == t.plan[t.at - 1])
    case One => x == t.plan[t.at]
    case Closing => x == t.plan[t.at]
    case Finished => false
  }

  predicate HoldsForWriting(t: Thread, x: Ino)
  {
    t.at < |t.plan| && |t.modes| == |t.plan| &&
    match t.phase
    case Wanting => t.at > 0 && x == t.plan[t.at - 1] && t.modes[t.at - 1] == Write
    case Both => (x == t.plan[t.at] && t.modes[t.at] == Write) || (t.at > 0 && x == t.plan[t.at - 1] && t.modes[t.at - 1] == Write)
    case One => x == t.plan[t.at] && t.modes[t.at] == Write
    case Closing => x == t.plan[t.at] && t.modes[t.at] == Write
    case Finished => false
  }

  predicate Wants(t: Thread, x: Ino, mode: Mode)
  {
    t.at < |t.plan| && |t.modes| == |t.plan| && t.phase == Wanting && t.plan[t.at] == x && t.modes[t.at] == mode
  }

  /** Whether a read-write lock is granted. With writersFirst, a reader also waits for writers that wait. */
  ghost predicate Granted(ts: Threads, k: nat, x: Ino, mode: Mode, writersFirst: bool)
  {
    if mode == Write then forall u :: u in ts && u != k ==> !Holds(ts[u], x)
    else forall u :: u in ts && u != k ==> !HoldsForWriting(ts[u], x) && !(writersFirst && Wants(ts[u], x, Write))
  }

  ghost predicate CanStep(g: Graph, ts: Threads, k: nat, writersFirst: bool)
    requires k in ts && Planned(g, ts[k])
  {
    ts[k].phase != Finished &&
    (ts[k].phase == Wanting ==> Granted(ts, k, ts[k].plan[ts[k].at], ts[k].modes[ts[k].at], writersFirst))
  }

  /** What a thread does next. */
  function Next(t: Thread): Thread
    requires t.at < |t.plan|
  {
    match t.phase
    case Wanting => t.(phase := Both)
    case Both => if t.withChild && t.at > 0 && t.at == |t.plan| - 1 then t.(phase := Closing, at := t.at - 1) else t.(phase := One)
    case One => if t.at == |t.plan| - 1 then t.(phase := Finished) else t.(phase := Wanting, at := t.at + 1)
    case Closing => t.(phase := Finished)
    case Finished => t
  }

  /** A walk of the resolver without dot names is a plan; so is one that ends before the walk does. */
  lemma WalkIsPlanned(s: State, search: set<Ino>, nodes: seq<Ino>, names: seq<Name>, t: Thread)
    requires IsWalk(s, search, nodes, names) && forall n :: n in names ==> !Dot(n)
    requires t.plan != [] && t.plan <= nodes && |t.modes| == |t.plan| && t.at < |t.plan| && (t.withChild ==> |t.plan| > 1)
    ensures Planned(s.g, t)
  {
    forall i | 0 <= i < |t.plan| ensures t.plan[i] in s.g {
      assert Passable(s, search, nodes[i], i == |names|);
    }
    forall i | 0 < i < |t.plan| ensures Edge(s.g, t.plan[i - 1], t.plan[i]) {
      assert Down(s, nodes[i - 1], names[i - 1]) == Some(nodes[i - 1 + 1]);
      assert !Dot(names[i - 1]) && Kid(s.g, t.plan[i - 1], names[i - 1]) == Some(t.plan[i]);
    }
  }

  /** A thread that has taken n steps. */
  function Stepped(t: Thread, n: nat): (r: Thread)
    requires t.at < |t.plan|
    ensures r.at < |r.plan| && r.plan == t.plan
  {
    if n == 0 then t else Next(Stepped(t, n - 1))
  }

  ghost predicate HoldsJust(t: Thread, locked: set<Ino>)
  {
    forall x :: Holds(t, x) <==> x in locked
  }

  lemma NextSteps(t: Thread, n: nat)
    requires t.at < |t.plan|
    ensures Stepped(t, n + 1) == Next(Stepped(t, n)) && Stepped(t, n + 2) == Next(Stepped(t, n + 1))
    ensures Stepped(t, n + 3) == Next(Stepped(t, n + 2))
  {
  }

  lemma {:induction false} ThreadWants(t: Thread, i: nat)
    requires t.phase == Wanting && t.at == 0 && i < |t.plan|
    ensures Stepped(t, 3 * i) == t.(at := i)
  {
    if i > 0 {
      ThreadWants(t, i - 1);
      NextSteps(t, 3 * (i - 1));
      hide Stepped;
    }
  }

  /** A thread takes the locks of its plan one after the other: it holds an inode while it waits for the next, then both,
      then the next alone. At the end of its plan it has let go of the directory, or keeps it until it has let go of the
      child; then it holds nothing. */
  lemma ThreadWalks(t: Thread, i: nat)
    requires t.phase == Wanting && t.at == 0 && i < |t.plan| && (t.withChild ==> |t.plan| > 1)
    ensures Stepped(t, 3 * i) == t.(at := i) && Stepped(t, 3 * i + 1) == t.(at := i, phase := Both)
    ensures HoldsJust(Stepped(t, 3 * i), if i > 0 then {t.plan[i - 1]} else {})
    ensures HoldsJust(Stepped(t, 3 * i + 1), if i > 0 then {t.plan[i - 1], t.plan[i]} else {t.plan[i]})
    ensures HoldsJust(Stepped(t, 3 * i + 2), {t.plan[if t.withChild && i == |t.plan| - 1 then i - 1 else i]})
    ensures i == |t.plan| - 1 ==> HoldsJust(Stepped(t, 3 * i + 3), {})
  {
    ThreadWants(t, i);
    NextSteps(t, 3 * i);
    hide Stepped;
  }

  // ---------- why something can always move ----------

  lemma WantsAbove(g: Graph, level: map<Ino, nat>, t: Thread, x: Ino)
    requires Leveled(g, level) && Planned(g, t) && t.phase == Wanting && Holds(t, x)
    ensures x in g && t.plan[t.at] in g && level[x] < level[t.plan[t.at]]
  {
    assert Edge(g, t.plan[t.at - 1], t.plan[t.at]);
    var n :| !Dot(n) && Kid(g, t.plan[t.at - 1], n) == Some(t.plan[t.at]);
  }

  function LevelOf(level: map<Ino, nat>, t: Thread): nat
  {
    if t.phase == Wanting && t.at < |t.plan| && t.plan[t.at] in level then level[t.plan[t.at]] else 0
  }

  /** The waiting thread whose lock lies deepest. */
  lemma Deepest(level: map<Ino, nat>, ts: Threads, ks: set<nat>) returns (k: nat)
    requires ks != {} && ks <= ts.Keys
    ensures k in ks && forall u :: u in ks ==> LevelOf(level, ts[u]) <= LevelOf(level, ts[k])
    decreases |ks|
  {
    var x :| x in ks;
    if ks == {x} {
      k := x;
    } else {
      var y := Deepest(level, ts, ks - {x});
      k := if LevelOf(level, ts[x]) <= LevelOf(level, ts[y]) then y else x;
    }
  }

  /** Whoever holds the deepest lock that is waited for does not wait. */
  lemma HolderMoves(g: Graph, level: map<Ino, nat>, ts: Threads, k: nat, u: nat, x: Ino)
    requires Leveled(g, level) && k in ts && u in ts && Planned(g, ts[k]) && Planned(g, ts[u])
    requires ts[k].phase == Wanting && ts[k].plan[ts[k].at] == x && Holds(ts[u], x)
    requires LevelOf(level, ts[u]) <= LevelOf(level, ts[k])
    ensures ts[u].phase != Wanting && ts[u].phase != Finished
  {
    if ts[u].phase == Wanting {
      WantsAbove(g, level, ts[u], x);
    }
  }

  lemma WritingHolds(t: Thread, x: Ino)
    ensures HoldsForWriting(t, x) ==> Holds(t, x)
  {
  }

  /** In every state in which some thread is not finished, some thread can take a step. */
  lemma Progress(g: Graph, level: map<Ino, nat>, ts: Threads, writersFirst: bool, k0: nat)
    requires Leveled(g, level) && k0 in ts && ts[k0].phase != Finished && forall k :: k in ts ==> Planned(g, ts[k])
    ensures exists k :: k in ts && CanStep(g, ts, k, writersFirst)
  {
    if forall k :: k in ts && ts[k].phase != Finished ==> ts[k].phase == Wanting {
      var waiting := set k | k in ts && ts[k].phase == Wanting;
      assert k0 in waiting;
      var k := Deepest(level, ts, waiting);
      assert Planned(g, ts[k]);
      var x := ts[k].plan[ts[k].at];
      forall u | u in ts ensures !Holds(ts[u], x) {
        if Holds(ts[u], x) {
          assert Planned(g, ts[u]);
          assert u in waiting;
          HolderMoves(g, level, ts, k, u, x);
        }
      }
      forall u | u in ts ensures !HoldsForWriting(ts[u], x) {
        WritingHolds(ts[u], x);
      }
      var w := WriterOf(g, ts, k, x);
      assert CanStep(g, ts, w, writersFirst);
    } else {
      var k :| k in ts && ts[k].phase != Finished && ts[k].phase != Wanting;
      assert CanStep(g, ts, k, writersFirst);
    }
  }

  /** Among those that wait for x, a writer if there is one. */
  lemma WriterOf(g: Graph, ts: Threads, k: nat, x: Ino) returns (w: nat)
    requires k in ts && Planned(g, ts[k]) && (forall u :: u in ts ==> Planned(g, ts[u]))
    requires ts[k].phase == Wanting && ts[k].plan[ts[k].at] == x
    ensures w in ts && Planned(g, ts[w]) && ts[w].phase == Wanting && ts[w].plan[ts[w].at] == x
    ensures ts[w].modes[ts[w].at] == Write || forall u :: u in ts ==> !Wants(ts[u], x, Write)
  {
    if u :| u in ts && Wants(ts[u], x, Write) {
      w := u;
    } else {
      w := k;
    }
  }

  // ---------- what every step keeps ----------

  /** No inode is locked for writing by one thread while another thread holds it. */
  ghost predicate Exclusive(ts: Threads)
  {
    forall k, u, x :: k in ts && u in ts && k != u && HoldsForWriting(ts[k], x) ==> !Holds(ts[u], x)
  }

  lemma StepHolds(t: Thread, x: Ino)
    requires t.at < |t.plan| && |t.modes| == |t.plan|
    ensures Holds(Next(t), x) ==> Holds(t, x) || (t.phase == Wanting && x == t.plan[t.at])
    ensures HoldsForWriting(Next(t), x) ==> HoldsForWriting(t, x) || (t.phase == Wanting && x == t.plan[t.at] && t.modes[t.at] == Write)
  {
  }

  /** Steps that are granted keep writers alone and threads on their plans, and never end: the work left falls. */
  lemma StepKeeps(g: Graph, ts: Threads, k: nat, writersFirst: bool)
    requires k in ts && Planned(g, ts[k]) && CanStep(g, ts, k, writersFirst) && Exclusive(ts)
    ensures Planned(g, Next(ts[k])) && Exclusive(ts[k := Next(ts[k])]) && WorkLeft(Next(ts[k])) < WorkLeft(ts[k])
  {
    var t := ts[k];
    forall u, x | u in ts && u != k && HoldsForWriting(Next(t), x) ensures !Holds(ts[u], x) {
      StepHolds(t, x);
    }
    forall u, x | u in ts && u != k && HoldsForWriting(ts[u], x) ensures !Holds(Next(t), x) {
      StepHolds(t, x);
      WritingHolds(ts[u], x);
    }
  }

  function WorkLeft(t: Thread): nat
  {
    if t.phase == Finished then 0
    else if t.phase == Closing then 1
    else
      3 * (if t.at < |t.plan| then |t.plan| - t.at else 0) +
      match t.phase
      case Wanting => 4
      case Both => 3
      case _ => 2
  }

  /** A tree with exact links has levels: directories by their rank, everything else below all of them. */
  lemma LevelsExist(g: Graph, root: Ino) returns (level: map<Ino, nat>)
    requires Sound(g, root)
    ensures Leveled(g, level)
  {
    hide Sound;
    var rank := Ranks(g, root);
    var top := Bound(rank, rank.Keys);
    level := map e | e in g :: if g[e].kind == Dir then rank[e] else top + 1;
    forall d, n, c | Kid(g, d, n) == Some(c) && !Dot(n) && d in g && c in g ensures level[d] < level[c] {
      EntryIsLink(g, d, n);
      HolderIsDir(g, root, c, (d, n));
    }
  }

  lemma Bound(rank: map<Ino, nat>, ks: set<Ino>) returns (top: nat)
    requires ks <= rank.Keys
    ensures forall k :: k in ks ==> rank[k] <= top
    decreases |ks|
  {
    if ks == {} {
      top := 0;
    } else {
      var x :| x in ks;
      var rest := Bound(rank, ks - {x});
      top := if rank[x] <= rest then rest else rank[x];
    }
  }

  // ---------- runs ----------

  ghost predicate AllPlanned(g: Graph, ts: Threads)
  {
    forall k :: k in ts ==> Planned(g, ts[k])
  }

  /** Before any thread has a lock. */
  ghost predicate Start(g: Graph, ts: Threads)
  {
    AllPlanned(g, ts) && forall k :: k in ts ==> ts[k].phase == Wanting && ts[k].at == 0
  }

  /** Threads that take a step each, in this order, whenever their turn comes. */
  ghost predicate Schedule(g: Graph, ts: Threads, order: seq<nat>, writersFirst: bool)
    decreases |order|
  {
    order == [] ||
    (order[0] in ts && Planned(g, ts[order[0]]) && CanStep(g, ts, order[0], writersFirst) &&
     Schedule(g, ts[order[0] := Next(ts[order[0]])], order[1..], writersFirst))
  }

  ghost function After(g: Graph, ts: Threads, order: seq<nat>, writersFirst: bool): Threads
    requires Schedule(g, ts, order, writersFirst)
    decreases |order|
  {
    if order == [] then ts else After(g, ts[order[0] := Next(ts[order[0]])], order[1..], writersFirst)
  }

  ghost function AllWork(ts: Threads, ks: set<nat>): nat
    requires ks <= ts.Keys
    decreases |ks|
  {
    if ks == {} then 0
    else
      var k := Smallest(ks);
      WorkLeft(ts[k]) + AllWork(ts, ks - {k})
  }

  ghost function Smallest(ks: set<nat>): (k: nat)
    requires ks != {}
    ensures k in ks
  {
    var k :| k in ks;
    k
  }

  /** One thread's step takes from the work that is left. */
  lemma {:induction false} WorkFalls(ts: Threads, ts': Threads, ks: set<nat>, k: nat)
    requires ks <= ts.Keys && k in ks && ts'.Keys == ts.Keys && WorkLeft(ts'[k]) < WorkLeft(ts[k])
    requires forall u :: u in ks && u != k ==> ts'[u] == ts[u]
    ensures AllWork(ts', ks) < AllWork(ts, ks)
    decreases |ks|
  {
    hide WorkLeft;
    var u := Smallest(ks);
    if u == k {
      SameWork(ts, ts', ks - {k});
    } else {
      WorkFalls(ts, ts', ks - {u}, k);
    }
  }

  lemma {:induction false} SameWork(ts: Threads, ts': Threads, ks: set<nat>)
    requires ks <= ts.Keys && ts'.Keys == ts.Keys && forall u :: u in ks ==> ts'[u] == ts[u]
    ensures AllWork(ts', ks) == AllWork(ts, ks)
    decreases |ks|
  {
    if ks != {} {
      SameWork(ts, ts', ks - {Smallest(ks)});
    }
  }

  /** Whatever the schedule, writers stay alone and threads on their plans; and it is no longer than the work there was. */
  lemma {:induction false} ScheduleKeeps(g: Graph, ts: Threads, order: seq<nat>, writersFirst: bool)
    requires AllPlanned(g, ts) && Exclusive(ts) && Schedule(g, ts, order, writersFirst)
    ensures var ts' := After(g, ts, order, writersFirst);
      ts'.Keys == ts.Keys && AllPlanned(g, ts') && Exclusive(ts') && AllWork(ts', ts.Keys) + |order| <= AllWork(ts, ts.Keys)
    decreases |order|
  {
    hide Exclusive, WorkLeft, CanStep, Next, AllWork;
    if order != [] {
      var k := order[0];
      StepKeeps(g, ts, k, writersFirst);
      var ts1 := ts[k := Next(ts[k])];
      assert ts1.Keys == ts.Keys;
      WorkFalls(ts, ts1, ts.Keys, k);
      ScheduleKeeps(g, ts1, order[1..], writersFirst);
    }
  }

  /** Threads that walk down a sound graph never deadlock: from the start, after any schedule, no writer shares its lock,
      some thread can take a step unless all have finished, and no schedule is longer than the work there was. */
  lemma NeverDeadlocks(g: Graph, root: Ino, ts: Threads, order: seq<nat>, writersFirst: bool)
    requires Sound(g, root) && Start(g, ts) && Schedule(g, ts, order, writersFirst)
    ensures var ts' := After(g, ts, order, writersFirst);
      AllPlanned(g, ts') && Exclusive(ts') && |order| <= AllWork(ts, ts.Keys) &&
      ((forall k :: k in ts' ==> ts'[k].phase == Finished) || exists k :: k in ts' && CanStep(g, ts', k, writersFirst))
  {
    hide Sound, CanStep, Schedule, After, AllWork;
    var level := LevelsExist(g, root);
    ScheduleKeeps(g, ts, order, writersFirst);
    var ts' := After(g, ts, order, writersFirst);
    if k0 :| k0 in ts' && ts'[k0].phase != Finished {
      Progress(g, level, ts', writersFirst, k0);
    }
  }
}
