/** rename: exactly when it keeps the directory graph a tree with exact counts, and what it changes. */
module FsRename {
  import opened Names
  import opened Wrappers
  import opened FsGraph
  import opened Fs
  import opened FsInvariant
  import opened FsCalls
  import opened FsRemove

  /** The checks pass and there is something to do. */
  ghost predicate Proceeds(s: State, a: RenameArgs)
    requires RenameWf(s, a)
  {
    RenameError(s, a) == 0 && !SameInode(s, a)
  }

  /** Neither name is a dot name. */
  predicate Plain(a: RenameArgs)
  {
    !Dot(a.on) && !Dot(a.nn)
  }

  /** What the checks of rename leave to the caller: neither name is "." or ".."; the new parent is a directory; a
      directory that moves has at most two entries by its own count and does not go below itself; a directory that is
      replaced is empty. */
  ghost predicate Safe(s: State, a: RenameArgs)
    requires RenameWf(s, a) && Proceeds(s, a)
  {
    var old_ := s.g[a.op].kids[a.on];
    Plain(a) && s.g[a.np].kind == Dir &&
    (s.g[old_].kind == Dir ==> s.num[old_] <= 2 && !Below(s, old_, a.np)) &&
    (a.nn in s.g[a.np].kids ==> OnlyDots(s.g[s.g[a.np].kids[a.nn]]))
  }

  /** What the names lead to is there. */
  lemma NamesLead(s: State, a: RenameArgs)
    requires RenameWf(s, a)
    ensures Keyed(s)
    ensures a.on in s.g[a.op].kids ==> s.g[a.op].kids[a.on] in s.g
    ensures a.nn in s.g[a.np].kids ==> s.g[a.np].kids[a.nn] in s.g
  {
  }

  lemma MidSets(s: State, loose: multiset<Ino>, busy: set<Ino>, busy': set<Ino>)
    requires Mid(s, loose, busy) && busy == busy'
    ensures Mid(s, loose, busy')
  {
  }

  /** Between detaching the old name and attaching the new one. */
  lemma Lifted(s: State, loose: multiset<Ino>, busy: set<Ino>, op: Ino, on: Name, np: Ino)
    requires Mid(s, loose, busy) && op in s.g && on in s.g[op].kids && !Dot(on) && np in s.g && s.g[op].kids[on] in s.g
    requires var old_ := s.g[op].kids[on]; old_ !in busy && (s.g[old_].kind == Dir ==> s.num[old_] <= 2 && !Below(s, old_, np))
    ensures var (old_, s1) := (s.g[op].kids[on], Detach(s, op, on).0);
      Mid(s1, loose, busy + {old_}) && Detach(s, op, on).1 == 0 && old_ != s.root && s1.g[old_].links >= 0 &&
      GoneIsEmpty(s1.g[old_].(links := 1)) && (s1.g[old_].kind == Dir ==> s1.g[old_].links == 0 && !Below(s1, old_, np))
  {
    hide Sound, RefsOk, NumOk, Settled, Under;
    var old_ := s.g[op].kids[on];
    MidFacts(s, loose, busy, old_);
    DetachMid(s, loose, busy, op, on);
    if s.g[old_].kind == Dir {
      DirOneLink(s.g, s.root, op, on);
      if Below(Detach(s, op, on).0, old_, np) {
        DetachUnder(s.g, s.root, op, on, old_, np);
      }
    }
  }

  lemma MoveKeeps(s: State, loose: multiset<Ino>, a: RenameArgs)
    requires Inv(s, loose) && RenameWf(s, a) && Live(s, a.np) && Proceeds(s, a) && Safe(s, a)
    requires a.nn !in s.g[a.np].kids
    ensures Inv(Rename(s, a).0, loose)
  {
    hide Sound, RefsOk, NumOk, Settled, Under, AttachG, Below, Wf, Accumulated;
    NamesLead(s, a);
    var old_ := s.g[a.op].kids[a.on];
    Lifted(s, loose, {}, a.op, a.on, a.np);
    var s1 := Detach(s, a.op, a.on).0;
    SelfBelow(s, old_);
    AttachMid(s1, loose, {} + {old_}, a.np, old_, a.nn);
    MidSets(Attach(s1, a.np, old_, a.nn), loose, {} + {old_} - {old_}, {});
  }

  /** Attach old_ in place of new_, which has just lost the name, and destroy new_ if nothing holds it. */
  lemma Placed(s: State, loose: multiset<Ino>, np: Ino, old_: Ino, nn: Name, new_: Ino)
    requires Mid(s, loose, {} + {old_} + {new_}) && Live(s, np) && s.g[np].kind == Dir && old_ in s.g && new_ in s.g
    requires np != old_ && np != new_ && old_ != new_ && old_ != s.root && !Dot(nn) && nn !in s.g[np].kids && OnlyDots(s.g[new_])
    requires s.g[old_].kind == Dir ==> s.g[old_].links <= 0 && !Below(s, old_, np)
    requires s.g[old_].links >= 0 && GoneIsEmpty(s.g[old_].(links := 1))
    ensures Mid(TryDestroy(Attach(s, np, old_, nn), new_).0, loose, {})
  {
    hide Sound, RefsOk, NumOk, Settled, Under, Below;
    AttachMid(s, loose, {} + {old_} + {new_}, np, old_, nn);
    var s' := Attach(s, np, old_, nn);
    TryDestroyMid(s', loose, {} + {old_} + {new_} - {old_}, new_);
    MidSets(TryDestroy(s', new_).0, loose, {} + {old_} + {new_} - {old_} - {new_}, {});
  }

  /** An inode without its old name, ready for a new one in np. */
  ghost predicate Movable(s: State, old_: Ino, np: Ino)
  {
    old_ in s.g && old_ != s.root && s.g[old_].links >= 0 && GoneIsEmpty(s.g[old_].(links := 1)) &&
    (s.g[old_].kind == Dir ==> s.g[old_].links == 0 && !Below(s, old_, np))
  }

  /** The target loses its name as well. */
  lemma Cleared(s: State, loose: multiset<Ino>, old_: Ino, np: Ino, nn: Name)
    requires Mid(s, loose, {} + {old_}) && Movable(s, old_, np) && np in s.g && nn in s.g[np].kids && !Dot(nn)
    requires s.g[np].kids[nn] in s.g && s.g[np].kids[nn] != old_ && np != old_
    requires s.g[s.g[np].kids[nn]].kind == Dir ==> s.num[s.g[np].kids[nn]] <= 2
    ensures var (new_, s2) := (s.g[np].kids[nn], Detach(s, np, nn).0);
      Mid(s2, loose, {} + {old_} + {new_}) && Movable(s2, old_, np) && np != new_ && Detach(s, np, nn).1 == 0
  {
    hide Sound, RefsOk, NumOk, Settled, Under, Below;
    DetachMid(s, loose, {} + {old_}, np, nn);
    if s.g[old_].kind == Dir && Below(Detach(s, np, nn).0, old_, np) {
      BelowDetached(s, np, nn, old_, np);
    }
  }

  lemma BelowDetached(s: State, parent: Ino, name: Name, a: Ino, d: Ino)
    requires Keyed(s) && Sound(s.g, s.root) && parent in s.g && name in s.g[parent].kids && !Dot(name)
    requires s.g[parent].kids[name] in s.g && Detach(s, parent, name).1 == 0
    requires Below(Detach(s, parent, name).0, a, d)
    ensures Below(s, a, d)
  {
    hide Sound;
    DetachUnder(s.g, s.root, parent, name, a, d);
  }

  lemma DetachedFacts(s: State, parent: Ino, name: Name)
    requires Keyed(s) && parent in s.g && name in s.g[parent].kids && s.g[parent].kids[name] in s.g && s.g[parent].kids[name] != parent
    ensures var (s', child) := (Detach(s, parent, name).0, s.g[parent].kids[name]);
      Keyed(s') && s'.root == s.root && (forall x :: x in s.g && x != parent && x != child ==> s'.g[x] == s.g[x]) &&
      (forall x :: x in s.g && x != parent ==> s'.num[x] == s.num[x] && s'.g[x].kids == s.g[x].kids) &&
      (forall x :: x in s.g ==> s'.g[x].kind == s.g[x].kind && s'.g[x].deleting == s.g[x].deleting) &&
      (forall n :: n != name ==> (n in s'.g[parent].kids <==> n in s.g[parent].kids)) &&
      (forall n :: n != name && n in s.g[parent].kids ==> s'.g[parent].kids[n] == s.g[parent].kids[n]) &&
      (Detach(s, parent, name).1 == 0 ==> name !in s'.g[parent].kids) && s'.g[parent].links == s.g[parent].links
  {
  }

  /** With a target, both parents are the same. */
  lemma ReplaceKeeps(s: State, loose: multiset<Ino>, a: RenameArgs)
    requires Inv(s, loose) && RenameWf(s, a) && Live(s, a.np) && Proceeds(s, a) && Safe(s, a)
    requires a.nn in s.g[a.np].kids
    ensures Inv(Rename(s, a).0, loose)
  {
    hide Sound, RefsOk, NumOk, Settled, Under, AttachG, Below, Detach, Wf, Accumulated;
    NamesLead(s, a);
    var p, old_, new_ := a.op, s.g[a.op].kids[a.on], s.g[a.np].kids[a.nn];
    SelfBelow(s, old_);
    Lifted(s, loose, {}, p, a.on, p);
    NotOwnChild(s.g, s.root, p, a.on);
    NotOwnChild(s.g, s.root, p, a.nn);
    DetachedFacts(s, p, a.on);
    var s1 := Detach(s, p, a.on).0;
    Cleared(s1, loose, old_, p, a.nn);
    DetachedFacts(s1, p, a.nn);
    Placed(Detach(s1, p, a.nn).0, loose, p, old_, a.nn, new_);
  }

  // ---------- what rename changes ----------

  function Target(s: State, a: RenameArgs): (t: set<Ino>)
    requires a.np in s.g
  {
    if a.nn in s.g[a.np].kids then {s.g[a.np].kids[a.nn]} else {}
  }

  /** The target goes when that was its last link and nothing has it open. */
  ghost predicate TargetGone(s: State, s': State, a: RenameArgs)
    requires Keyed(s) && a.np in s.g
  {
    forall e :: e in s'.g <==> e in s.g && !(e in Target(s, a) && s.g[e].links == 1 && s.opens[e] == 0)
  }

  /** The old name is gone, the new name leads to the inode that had the old one, and no other name changed. */
  ghost predicate NamesMoved(s: State, s': State, a: RenameArgs)
  {
    forall d, n :: d in s'.g && !Dot(n) ==>
      Kid(s'.g, d, n) == if (d, n) == (a.np, a.nn) then Kid(s.g, a.op, a.on)
                         else if (d, n) == (a.op, a.on) then None
                         else Kid(s.g, d, n)
  }

  /** ".." of a directory that moved is its new parent; no other dot entry changed. */
  ghost predicate DotsMoved(s: State, s': State, a: RenameArgs)
  {
    forall d, n :: d in s'.g && Dot(n) ==>
      Kid(s'.g, d, n) == if Some(d) == Kid(s.g, a.op, a.on) && n == ".." && d in s.g && s.g[d].kind == Dir && n in s.g[d].kids then Some(a.np)
                         else Kid(s.g, d, n)
  }

  /** The target has a link less; nothing else changed but names. */
  ghost predicate CountsMoved(s: State, s': State, a: RenameArgs)
    requires Keyed(s) && a.np in s.g
  {
    Keyed(s') && s'.g.Keys <= s.g.Keys && s'.handles == s.handles && s'.root == s.root &&
    (forall e :: e in s'.g ==> s'.opens[e] == s.opens[e] && s'.g[e].kind == s.g[e].kind && s'.g[e].deleting == s.g[e].deleting) &&
    (forall e :: e in s'.g ==> s'.g[e].links == if e in Target(s, a) then s.g[e].links - 1 else s.g[e].links)
  }

  ghost predicate TargetOk(s: State, a: RenameArgs)
    requires RenameWf(s, a)
  {
    forall e :: e in Target(s, a) ==> e != a.np && a.np == a.op && (s.g[e].kind == Dir ==> s.num[e] <= 2) && s.g[e].links > 0 && s.opens[e] >= 0
  }

  /** Both detach steps of rename go through. */
  ghost predicate Goes(s: State, a: RenameArgs)
    requires RenameWf(s, a)
  {
    Proceeds(s, a) && Plain(a) && s.g[a.op].kids[a.on] != a.op && Detach(s, a.op, a.on).1 == 0 && s.g[s.g[a.op].kids[a.on]].links > 0 &&
    TargetOk(s, a)
  }

  /** rename without its checks, and without the last step. */
  function Relink(g: Graph, a: RenameArgs, old_: Ino, replace: bool): (g': Graph)
    requires a.op in g && a.np in g && a.on in g[a.op].kids && g[a.op].kids[a.on] == old_ && old_ in g
    requires replace ==> a.op == a.np && a.nn in g[a.np].kids && g[a.np].kids[a.nn] in g && a.on != a.nn && old_ != a.op
    ensures g'.Keys == g.Keys
  {
    var g1 := DetachG(g, a.op, a.on);
    var g2 := if replace then DetachG(g1, a.np, a.nn) else g1;
    AttachG(g2, a.np, old_, a.nn)
  }

  /** What relinking needs. */
  ghost predicate CanRelink(g: Graph, a: RenameArgs, old_: Ino, replace: bool)
  {
    a.op in g && a.np in g && a.on in g[a.op].kids && g[a.op].kids[a.on] == old_ && old_ in g && old_ != a.op && g[old_].links > 0 &&
    !Dot(a.nn) && !Dot(a.on) &&
    if replace then
      a.op == a.np && a.on != a.nn && a.nn in g[a.np].kids && g[a.np].kids[a.nn] in g && g[a.np].kids[a.nn] !in {a.np, old_} &&
      g[g[a.np].kids[a.nn]].links > 0
    else a.nn !in g[a.np].kids
  }

  /** Inode x after relinking, and what its name n leads to. */
  ghost predicate Relinked(g: Graph, r': Rec, kid: Option<Ino>, a: RenameArgs, old_: Ino, replace: bool, x: Ino, n: Name)
    requires CanRelink(g, a, old_, replace) && x in g
  {
    r'.kind == g[x].kind && r'.deleting == g[x].deleting &&
    (a.np != old_ ==> r'.links == if replace && x == g[a.np].kids[a.nn] then g[x].links - 1 else g[x].links) &&
    kid == if (x, n) == (a.np, a.nn) then Some(old_)
           else if (x, n) == (a.op, a.on) then None
           else if (x, n) == (old_, "..") && g[x].kind == Dir && ".." in g[x].kids then Some(a.np)
           else Kid(g, x, n)
  }

  lemma RelinkNames(g: Graph, a: RenameArgs, old_: Ino, replace: bool, x: Ino, n: Name)
    requires CanRelink(g, a, old_, replace) && x in g
    ensures var g' := Relink(g, a, old_, replace); Relinked(g, g'[x], Kid(g', x, n), a, old_, replace, x, n)
  {
    hide AttachG, DetachG, Dot;
    DetachStep(g, a.op, a.on, x, n);
    DetachStep(g, a.op, a.on, old_, "..");
    DetachStep(g, a.op, a.on, a.np, a.nn);
    var g1 := DetachG(g, a.op, a.on);
    if replace {
      DetachStep(g, a.op, a.on, g[a.np].kids[a.nn], n);
      DetachStep(g1, a.np, a.nn, x, n);
      DetachStep(g1, a.np, a.nn, old_, "..");
    }
    AttachStep(if replace then DetachG(g1, a.np, a.nn) else g1, a.np, old_, a.nn, x, n);
  }

  lemma GoesCanRelink(s: State, a: RenameArgs)
    requires RenameWf(s, a) && Goes(s, a)
    ensures CanRelink(s.g, a, s.g[a.op].kids[a.on], a.nn in s.g[a.np].kids)
  {
    if a.nn in s.g[a.np].kids {
      assert s.g[a.np].kids[a.nn] in Target(s, a);
    }
  }

  lemma MoveIsRelink(s: State, a: RenameArgs)
    requires RenameWf(s, a) && Goes(s, a) && a.nn !in s.g[a.np].kids
    ensures var s' := Rename(s, a).0;
      Keyed(s') && s'.root == s.root && s'.handles == s.handles && s'.opens == s.opens &&
      s'.g == Relink(s.g, a, s.g[a.op].kids[a.on], false)
  {
    hide AttachG, DetachG, DetachError;
  }

  lemma DestroyFacts(s: State, e: Ino)
    requires Keyed(s) && e in s.g
    ensures var s' := TryDestroy(s, e).0;
      Keyed(s') && s'.root == s.root && s'.handles == s.handles &&
      s'.g.Keys == s.g.Keys - (if s.g[e].links <= 0 && s.opens[e] <= 0 then {e} else {}) &&
      forall x :: x in s'.g ==> s'.g[x] == s.g[x] && s'.opens[x] == s.opens[x]
  {
  }

  /** rename over a target, before the target is destroyed. */
  function Replaced(s: State, a: RenameArgs): (s': State)
    requires RenameWf(s, a) && Goes(s, a) && a.nn in s.g[a.np].kids
    ensures Keyed(s') && s'.g.Keys == s.g.Keys
  {
    Attach(Detach(Detach(s, a.op, a.on).0, a.np, a.nn).0, a.np, s.g[a.op].kids[a.on], a.nn)
  }

  lemma SecondDetach(s: State, a: RenameArgs)
    requires RenameWf(s, a) && Goes(s, a) && a.nn in s.g[a.np].kids
    ensures Detach(Detach(s, a.op, a.on).0, a.np, a.nn).1 == 0
  {
  }

  lemma RenameReplaces(s: State, a: RenameArgs)
    requires RenameWf(s, a) && Goes(s, a) && a.nn in s.g[a.np].kids
    ensures Rename(s, a).0 == TryDestroy(Replaced(s, a), s.g[a.np].kids[a.nn]).0
  {
    hide AttachG, DetachG, DetachError, Detach, Attach, TryDestroy;
  }

  lemma ReplaceIsRelink(s: State, a: RenameArgs)
    requires RenameWf(s, a) && Goes(s, a) && a.nn in s.g[a.np].kids
    ensures var s' := Replaced(s, a);
      s'.root == s.root && s'.handles == s.handles && s'.opens == s.opens &&
      s'.g == Relink(s.g, a, s.g[a.op].kids[a.on], true) && Rename(s, a).0 == TryDestroy(s', s.g[a.np].kids[a.nn]).0
  {
    RenameReplaces(s, a);
    SecondDetach(s, a);
    hide AttachG, DetachG, DetachError, Rename, TryDestroy, Wf;
  }

  ghost predicate Steps(s: State, a: RenameArgs)
    requires RenameWf(s, a) && Goes(s, a)
  {
    var (s', old_) := (Rename(s, a).0, s.g[a.op].kids[a.on]);
    Keyed(s') && s'.root == s.root && s'.handles == s.handles && TargetGone(s, s', a) &&
    forall x :: x in s'.g ==> x in s.g && s'.opens[x] == s.opens[x] && s'.g[x] == Relink(s.g, a, old_, a.nn in s.g[a.np].kids)[x]
  }

  lemma MoveSteps(s: State, a: RenameArgs)
    requires RenameWf(s, a) && Goes(s, a) && a.nn !in s.g[a.np].kids
    ensures Steps(s, a)
  {
    hide AttachG, DetachG, DetachError, Detach, Attach, Relink, TryDestroy, Rename;
    MoveIsRelink(s, a);
  }

  lemma DestroyedSteps(s: State, s2: State, e: Ino)
    requires Keyed(s) && Keyed(s2) && e in s.g && s2.g.Keys == s.g.Keys && s2.opens == s.opens
    requires s2.g[e].links == s.g[e].links - 1 && s.g[e].links > 0 && s.opens[e] >= 0
    ensures var s' := TryDestroy(s2, e).0;
      Keyed(s') && s'.root == s2.root && s'.handles == s2.handles &&
      (forall x :: x in s'.g <==> x in s.g && !(x == e && s.g[x].links == 1 && s.opens[x] == 0)) &&
      forall x :: x in s'.g ==> s'.g[x] == s2.g[x] && s'.opens[x] == s.opens[x]
  {
  }

  lemma ReplaceSteps(s: State, a: RenameArgs)
    requires RenameWf(s, a) && Goes(s, a) && a.nn in s.g[a.np].kids
    ensures Steps(s, a)
  {
    hide AttachG, DetachG, DetachError, Detach, Attach, Relink, TryDestroy, Rename, Replaced;
    var new_, old_ := s.g[a.np].kids[a.nn], s.g[a.op].kids[a.on];
    assert new_ in Target(s, a);
    GoesCanRelink(s, a);
    RelinkNames(s.g, a, old_, true, new_, a.nn);
    ReplaceIsRelink(s, a);
    hide Wf, Goes, Proceeds, SameInode, RenameError;
    DestroyedSteps(s, Replaced(s, a), new_);
  }

  lemma RenameSteps(s: State, a: RenameArgs)
    requires RenameWf(s, a) && Goes(s, a)
    ensures Steps(s, a)
  {
    hide Steps, Goes;
    if a.nn in s.g[a.np].kids {
      ReplaceSteps(s, a);
    } else {
      MoveSteps(s, a);
    }
  }

  lemma ChildFacts(s: State, loose: multiset<Ino>, parent: Ino, name: Name)
    requires Inv(s, loose) && parent in s.g && name in s.g[parent].kids && !Dot(name)
    ensures var child := s.g[parent].kids[name]; child in s.g && child != parent && s.g[child].links > 0 && s.opens[child] >= 0
  {
    hide Sound, RefsOk, NumOk, Settled;
    DetachSound(s.g, s.root, parent, name);
    MidFacts(s, loose, {}, s.g[parent].kids[name]);
  }

  lemma DetachOk(s: State, parent: Ino, name: Name)
    requires Keyed(s) && parent in s.g && name in s.g[parent].kids && s.g[parent].kids[name] in s.g && !Dot(name)
    requires var child := s.g[parent].kids[name]; child != parent && (s.g[child].kind == Dir ==> s.num[child] <= 2)
    ensures Detach(s, parent, name).1 == 0
  {
  }

  lemma GoesThrough(s: State, loose: multiset<Ino>, a: RenameArgs)
    requires Inv(s, loose) && RenameWf(s, a) && Proceeds(s, a) && Plain(a)
    requires var old_ := s.g[a.op].kids[a.on]; s.g[old_].kind == Dir ==> s.num[old_] <= 2
    ensures Goes(s, a)
  {
    hide Inv, Detach, TargetOk, DetachError;
    assert a.on in s.g[a.op].kids;
    hide Proceeds, RenameError, SameInode;
    ChildFacts(s, loose, a.op, a.on);
    DetachOk(s, a.op, a.on);
    TargetGoes(s, loose, a);
    hide Wf;
  }

  lemma TargetGoes(s: State, loose: multiset<Ino>, a: RenameArgs)
    requires Inv(s, loose) && RenameWf(s, a) && Proceeds(s, a) && !Dot(a.nn)
    ensures TargetOk(s, a)
  {
    hide Inv, Wf, Accumulated;
    NamesLead(s, a);
    if a.nn in s.g[a.np].kids {
      ChildFacts(s, loose, a.np, a.nn);
    }
  }

  lemma RelinkGraph(g: Graph, g': Graph, a: RenameArgs, old_: Ino, replace: bool)
    requires CanRelink(g, a, old_, replace) && g'.Keys <= g.Keys && forall x :: x in g' ==> g'[x] == Relink(g, a, old_, replace)[x]
    ensures forall x, n :: x in g' ==> Relinked(g, g'[x], Kid(g', x, n), a, old_, replace, x, n)
  {
    hide Relink, Relinked;
    forall x: Ino, n: Name | x in g' ensures Relinked(g, g'[x], Kid(g', x, n), a, old_, replace, x, n) {
      RelinkNames(g, a, old_, replace, x, n);
      assert Kid(g', x, n) == Kid(Relink(g, a, old_, replace), x, n);
    }
  }

  ghost predicate AllRelinked(s: State, s': State, a: RenameArgs)
    requires RenameWf(s, a) && Goes(s, a)
  {
    CanRelink(s.g, a, s.g[a.op].kids[a.on], a.nn in s.g[a.np].kids) && s'.g.Keys <= s.g.Keys &&
    forall x, n :: x in s'.g ==>
      Relinked(s.g, s'.g[x], Kid(s'.g, x, n), a, s.g[a.op].kids[a.on], a.nn in s.g[a.np].kids, x, n)
  }

  lemma RelinkAll(s: State, a: RenameArgs)
    requires RenameWf(s, a) && Goes(s, a)
    ensures AllRelinked(s, Rename(s, a).0, a)
  {
    hide Rename, Relink, Relinked, CanRelink, Goes, Wf;
    RenameSteps(s, a);
    GoesCanRelink(s, a);
    RelinkGraph(s.g, Rename(s, a).0.g, a, s.g[a.op].kids[a.on], a.nn in s.g[a.np].kids);
  }

  lemma MovedNames(s: State, s': State, a: RenameArgs)
    requires RenameWf(s, a) && Goes(s, a) && AllRelinked(s, s', a)
    ensures NamesMoved(s, s', a) && DotsMoved(s, s', a)
  {
    hide Goes, Wf;
    forall d: Ino, n: Name | d in s'.g
      ensures Relinked(s.g, s'.g[d], Kid(s'.g, d, n), a, s.g[a.op].kids[a.on], a.nn in s.g[a.np].kids, d, n)
    {
    }
  }

  lemma MovedCounts(s: State, s': State, a: RenameArgs)
    requires RenameWf(s, a) && Goes(s, a) && AllRelinked(s, s', a) && a.np != s.g[a.op].kids[a.on]
    requires Keyed(s') && s'.handles == s.handles && s'.root == s.root && forall e :: e in s'.g ==> s'.opens[e] == s.opens[e]
    ensures CountsMoved(s, s', a)
  {
    hide Goes, Wf;
    forall e: Ino | e in s'.g
      ensures Relinked(s.g, s'.g[e], Kid(s'.g, e, "."), a, s.g[a.op].kids[a.on], a.nn in s.g[a.np].kids, e, ".")
    {
    }
  }

  lemma NotIntoItself(s: State, a: RenameArgs)
    requires RenameWf(s, a) && Proceeds(s, a) && Safe(s, a)
    ensures a.np != s.g[a.op].kids[a.on]
  {
    SelfBelow(s, s.g[a.op].kids[a.on]);
  }

  /** Under a safe rename exactly the two names change, ".." of a moved directory follows, a replaced inode is
      destroyed exactly when that was its last link and it is not open, and nothing else changes. */
  lemma RenameMoves(s: State, loose: multiset<Ino>, a: RenameArgs)
    requires Inv(s, loose) && RenameWf(s, a) && Proceeds(s, a) && Safe(s, a)
    ensures var s' := Rename(s, a).0; NamesMoved(s, s', a) && DotsMoved(s, s', a) && CountsMoved(s, s', a) && TargetGone(s, s', a)
  {
    hide Inv, AllRelinked, Rename, Goes, NamesMoved, DotsMoved, CountsMoved, TargetGone, Below, Wf;
    GoesThrough(s, loose, a);
    RelinkAll(s, a);
    RenameSteps(s, a);
    NotIntoItself(s, a);
    MovedNames(s, Rename(s, a).0, a);
    MovedCounts(s, Rename(s, a).0, a);
  }

  // ---------- where the checks of rename are not enough ----------

  /** Detach at one inode and name, whether or not it goes through. */
  lemma DetachAt(s: State, parent: Ino, name: Name, x: Ino, n: Name)
    requires Keyed(s) && parent in s.g && name in s.g[parent].kids && s.g[parent].kids[name] in s.g && !Dot(name)
    requires s.g[parent].kids[name] != parent && s.g[s.g[parent].kids[name]].links > 0 && x in s.g
    ensures var (s', err) := Detach(s, parent, name);
      s'.g[x].kind == s.g[x].kind && (x != s.g[parent].kids[name] ==> s'.g[x].links == s.g[x].links) &&
      Kid(s'.g, x, n) == if err == 0 && (x, n) == (parent, name) then None else Kid(s.g, x, n)
  {
    DetachStep(s.g, parent, name, x, n);
  }

  lemma AttachAt(s: State, parent: Ino, child: Ino, name: Name, x: Ino, n: Name)
    requires Keyed(s) && parent in s.g && child in s.g && !Dot(name) && x in s.g && !Dot(n)
    ensures var s' := Attach(s, parent, child, name);
      s'.g[x].kind == s.g[x].kind && Kid(s'.g, x, n) == if (x, n) == (parent, name) then Some(child) else Kid(s.g, x, n)
  {
    hide AttachG;
    AttachStep(s.g, parent, child, name, x, n);
  }

  /** The first step of rename at one inode, whatever the old name is. */
  lemma FirstAt(s: State, loose: multiset<Ino>, a: RenameArgs, x: Ino, n: Name)
    requires Inv(s, loose) && RenameWf(s, a) && a.on in s.g[a.op].kids && x in s.g
    ensures var (s', err) := Detach(s, a.op, a.on);
      s'.g[x].kind == s.g[x].kind && (x != s.g[a.op].kids[a.on] ==> s'.g[x].links == s.g[x].links) &&
      Kid(s'.g, x, n) == if err == 0 && (x, n) == (a.op, a.on) then None else Kid(s.g, x, n)
  {
    hide Inv, Detach;
    if Dot(a.on) {
      DetachDot(s, a.op, a.on);
    } else {
      ChildFacts(s, loose, a.op, a.on);
      DetachAt(s, a.op, a.on, x, n);
    }
  }

  /** The same with a target, for an inode other than the target. */
  lemma SwapAt(s: State, loose: multiset<Ino>, a: RenameArgs, x: Ino, n: Name)
    requires Inv(s, loose) && RenameWf(s, a) && Proceeds(s, a) && x in s.g && x !in Target(s, a) && !Dot(n) && !Dot(a.nn)
    requires a.nn in s.g[a.np].kids
    ensures var s' := Swap(s, a);
      x in s'.g && s'.g[x].kind == s.g[x].kind &&
      Kid(s'.g, x, n) == if (x, n) == (a.np, a.nn) then Kid(s.g, a.op, a.on)
                         else if Detach(s, a.op, a.on).1 == 0 && (x, n) == (a.op, a.on) then None
                         else Kid(s.g, x, n)
  {
    hide Inv, Attach, Detach, TryDestroy, DetachError, Wf;
    NamesLead(s, a);
    var s1, old_, new_ := Detach(s, a.op, a.on).0, s.g[a.op].kids[a.on], s.g[a.np].kids[a.nn];
    assert new_ != old_;
    hide Proceeds, Accumulated;
    FirstAt(s, loose, a, x, n);
    ChildFacts(s, loose, a.np, a.nn);
    FirstAt(s, loose, a, a.np, a.nn);
    FirstAt(s, loose, a, new_, a.nn);
    DetachAt(s1, a.np, a.nn, x, n);
    var s2 := Detach(s1, a.np, a.nn).0;
    AttachAt(s2, a.np, old_, a.nn, x, n);
    DestroyFacts(Attach(s2, a.np, old_, a.nn), new_);
  }

  /** The steps of rename at one inode other than the target, whatever the first detach says. */
  lemma RenameAt(s: State, loose: multiset<Ino>, a: RenameArgs, x: Ino, n: Name)
    requires Inv(s, loose) && RenameWf(s, a) && Proceeds(s, a) && x in s.g && x !in Target(s, a) && !Dot(n) && !Dot(a.nn)
    ensures var s' := Rename(s, a).0;
      x in s'.g && s'.g[x].kind == s.g[x].kind &&
      Kid(s'.g, x, n) == if (x, n) == (a.np, a.nn) then Kid(s.g, a.op, a.on)
                         else if Detach(s, a.op, a.on).1 == 0 && (x, n) == (a.op, a.on) then None
                         else Kid(s.g, x, n)
  {
    hide Inv, Attach, Detach, TryDestroy, DetachError;
    FirstAt(s, loose, a, x, n);
    if a.nn in s.g[a.np].kids {
      SwapAt(s, loose, a, x, n);
    } else {
      AttachAt(Detach(s, a.op, a.on).0, a.np, s.g[a.op].kids[a.on], a.nn, x, n);
    }
  }

  lemma FileHasNoNames(g: Graph, root: Ino, d: Ino, n: Name)
    requires d in g && g[d].kind != Dir && Kid(g, d, n).Some?
    ensures !Sound(g, root)
  {
  }

  /** A new parent that is not a directory gets an entry all the same. */
  lemma UnsafeParent(s: State, loose: multiset<Ino>, a: RenameArgs)
    requires Inv(s, loose) && RenameWf(s, a) && Proceeds(s, a) && s.g[a.np].kind != Dir
    ensures !Sound(Rename(s, a).0.g, s.root)
  {
    hide Sound, RefsOk, NumOk, Settled, Detach;
    ClosedAt(s, loose, a.np);
    FirstAt(s, loose, a, a.np, a.nn);
    FileHasNoNames(Rename(s, a).0.g, s.root, a.np, a.nn);
  }

  lemma TwoNames(g: Graph, root: Ino, p: (Ino, Name), q: (Ino, Name), e: Ino)
    requires Kid(g, p.0, p.1) == Some(e) == Kid(g, q.0, q.1) && p != q && !Dot(p.1) && !Dot(q.1)
    requires e in g && g[e].kind == Dir
    ensures !Sound(g, root)
  {
    EntryIsLink(g, p.0, p.1);
    EntryIsLink(g, q.0, q.1);
    assert {p, q} <= LinkMap(g)[e];
  }

  lemma TargetNotParent(s: State, loose: multiset<Ino>, a: RenameArgs)
    requires Inv(s, loose) && RenameWf(s, a) && Proceeds(s, a) && !Dot(a.nn)
    ensures a.np !in Target(s, a) && a.op !in Target(s, a) && s.g[a.op].kids[a.on] !in Target(s, a)
  {
    hide Inv;
    if a.nn in s.g[a.np].kids {
      ChildFacts(s, loose, a.np, a.nn);
    }
  }

  /** The move of a directory whose count is above two only adds a name. */
  lemma UnsafeCount(s: State, loose: multiset<Ino>, a: RenameArgs)
    requires Inv(s, loose) && RenameWf(s, a) && Proceeds(s, a) && Plain(a)
    requires var old_ := s.g[a.op].kids[a.on]; s.g[old_].kind == Dir && s.num[old_] > 2
    ensures !Sound(Rename(s, a).0.g, s.root)
  {
    hide Inv, Rename, Sound;
    TargetNotParent(s, loose, a);
    ChildFacts(s, loose, a.op, a.on);
    RenameAt(s, loose, a, a.np, a.nn);
    RenameAt(s, loose, a, a.op, a.on);
    RenameAt(s, loose, a, s.g[a.op].kids[a.on], a.on);
    TwoNames(Rename(s, a).0.g, s.root, (a.op, a.on), (a.np, a.nn), s.g[a.op].kids[a.on]);
  }

  /** Steps of a graph that are kept in another. */
  ghost predicate StepsKept(g: Graph, L: map<Ino, LinkSet>, g': Graph, L': map<Ino, LinkSet>, a: Ino, replaced: set<Ino>)
    requires g.Keys == L.Keys && g'.Keys == L'.Keys
  {
    forall x, q :: x in g && x != a && g[x].kind == Dir && x !in replaced && q in L[x] && q.0 !in replaced ==>
      x in g' && g'[x].kind == Dir && q in L'[x]
  }

  ghost predicate DotDotInDirs(g: Graph)
  {
    forall x :: x in g && ".." in g[x].kids ==> g[x].kind == Dir
  }

  lemma ClosedDots(g: Graph)
    requires Closed(g)
    ensures DotDotInDirs(g)
  {
  }

  /** Going up from d to a in g, no step can go down again in a ranking of g'. */
  lemma Climb(g: Graph, L: map<Ino, LinkSet>, g': Graph, L': map<Ino, LinkSet>, rank: map<Ino, nat>, rank': map<Ino, nat>,
              a: Ino, d: Ino, replaced: set<Ino>, k: nat)
    requires g.Keys == L.Keys && g'.Keys == L'.Keys && OneParent(g, L) && Ranked(g, L, rank) && Ranked(g', L', rank')
    requires DotDotInDirs(g) && StepsKept(g, L, g', L', a, replaced)
    requires a in g' && d in g && UnderWithin(g, L, a, d, k) && forall t :: t in replaced ==> t in g && rank[d] < rank[t]
    ensures d in g' && rank'[a] <= rank'[d]
    decreases k
  {
    if d != a {
      var q :| q in L[d];
      assert g[d].kind == Dir && g[d].kids[".."] == q.0;
      Climb(g, L, g', L', rank, rank', a, q.0, replaced, k - 1);
      assert q in L'[d];
    }
  }

  /** In g' a is also a child of the place p. */
  ghost predicate CycleMade(g: Graph, L: map<Ino, LinkSet>, g': Graph, L': map<Ino, LinkSet>, a: Ino, p: (Ino, Name), replaced: set<Ino>)
    requires g.Keys == L.Keys && g'.Keys == L'.Keys
  {
    a in g' && g'[a].kind == Dir && p in L'[a] && StepsKept(g, L, g', L', a, replaced) &&
    forall t :: t in replaced ==> t in g && g[t].kind == Dir && p in L[t]
  }

  lemma CycleBreaks(g: Graph, L: map<Ino, LinkSet>, g': Graph, L': map<Ino, LinkSet>, rank: map<Ino, nat>, rank': map<Ino, nat>,
                    a: Ino, p: (Ino, Name), replaced: set<Ino>, k: nat)
    requires g.Keys == L.Keys && g'.Keys == L'.Keys && OneParent(g, L) && Ranked(g, L, rank) && DotDotInDirs(g)
    requires p.0 in g && UnderWithin(g, L, a, p.0, k) && CycleMade(g, L, g', L', a, p, replaced)
    ensures !Ranked(g', L', rank')
  {
    hide StepsKept;
    if Ranked(g', L', rank') {
      forall t | t in replaced ensures rank[p.0] < rank[t] {
        assert p in L[t];
      }
      Climb(g, L, g', L', rank, rank', a, p.0, replaced, k);
    }
  }

  lemma CycleUnranked(g: Graph, L: map<Ino, LinkSet>, g': Graph, L': map<Ino, LinkSet>, a: Ino, p: (Ino, Name), replaced: set<Ino>)
    requires g.Keys == L.Keys && g'.Keys == L'.Keys && Tree(g, L) && DotDotInDirs(g)
    requires p.0 in g && Under(g, L, a, p.0) && CycleMade(g, L, g', L', a, p, replaced)
    ensures !HasRank(g', L')
  {
    hide CycleMade, OneParent, Ranked, DotDotInDirs;
    var rank :| Ranked(g, L, rank);
    var k: nat :| UnderWithin(g, L, a, p.0, k);
    forall rank' ensures !Ranked(g', L', rank') {
      CycleBreaks(g, L, g', L', rank, rank', a, p, replaced, k);
    }
  }

  /** Names that lead to directories, and stay. */
  ghost predicate KidsKept(g: Graph, g': Graph, a: Ino, replaced: set<Ino>)
  {
    forall d, n, x :: Kid(g, d, n) == Some(x) && !Dot(n) && x in g && x != a && x !in replaced && d !in replaced ==>
      x in g' && g'[x].kind == g[x].kind && Kid(g', d, n) == Some(x)
  }

  lemma KidsToSteps(g: Graph, g': Graph, a: Ino, replaced: set<Ino>)
    requires KidsKept(g, g', a, replaced)
    ensures StepsKept(g, LinkMap(g), g', LinkMap(g'), a, replaced)
  {
    var L, L' := LinkMap(g), LinkMap(g');
    forall x: Ino, q: (Ino, Name) | x in g && x != a && g[x].kind == Dir && x !in replaced && q in L[x] && q.0 !in replaced
      ensures x in g' && g'[x].kind == Dir && q in L'[x]
    {
      assert Kid(g, q.0, q.1) == Some(x);
      assert Kid(g', q.0, q.1) == Some(x);
    }
  }

  lemma SoundTree(g: Graph, root: Ino)
    requires Sound(g, root)
    ensures Tree(g, LinkMap(g)) && DotDotInDirs(g)
  {
    ClosedDots(g);
  }

  lemma UnrankedUnsound(g: Graph, root: Ino)
    ensures !HasRank(g, LinkMap(g)) ==> !Sound(g, root)
  {
  }

  lemma CycleUnsound(g: Graph, g': Graph, root: Ino, a: Ino, p: (Ino, Name), replaced: set<Ino>)
    requires Sound(g, root) && p.0 in g && Under(g, LinkMap(g), a, p.0) && KidsKept(g, g', a, replaced)
    requires a in g' && g'[a].kind == Dir && Kid(g', p.0, p.1) == Some(a) && !Dot(p.1)
    requires forall t :: t in replaced ==> t in g && g[t].kind == Dir && Kid(g, p.0, p.1) == Some(t)
    ensures !Sound(g', root)
  {
    hide Sound, Under, HasRank, StepsKept, KidsKept, Links, Tree, DotDotInDirs;
    SoundTree(g, root);
    KidsToSteps(g, g', a, replaced);
    UnrankedUnsound(g', root);
    EntryIsLink(g', p.0, p.1);
    if replaced != {} {
      EntryIsLink(g, p.0, p.1);
    }
    CycleUnranked(g, LinkMap(g), g', LinkMap(g'), a, p, replaced);
  }

  lemma RenameKeepsKids(s: State, loose: multiset<Ino>, a: RenameArgs, g': Graph)
    requires Inv(s, loose) && RenameWf(s, a) && Proceeds(s, a) && !Dot(a.nn) && g' == Rename(s, a).0.g
    ensures KidsKept(s.g, g', s.g[a.op].kids[a.on], Target(s, a))
  {
    hide Inv, Rename, Wf;
    forall d: Ino, n: Name, x: Ino |
      Kid(s.g, d, n) == Some(x) && !Dot(n) && x in s.g && x != s.g[a.op].kids[a.on] && x !in Target(s, a) && d !in Target(s, a)
      ensures x in g' && g'[x].kind == s.g[x].kind && Kid(g', d, n) == Some(x)
    {
      RenameAt(s, loose, a, x, a.nn);
      RenameAt(s, loose, a, d, n);
    }
  }

  lemma UnsafeCycle(s: State, loose: multiset<Ino>, a: RenameArgs)
    requires Inv(s, loose) && RenameWf(s, a) && Proceeds(s, a) && !Dot(a.nn)
    requires var old_ := s.g[a.op].kids[a.on]; s.g[old_].kind == Dir && Below(s, old_, a.np)
    ensures !Sound(Rename(s, a).0.g, s.root)
  {
    hide Sound, RefsOk, NumOk, Settled, Rename, KidsKept, Wf, Under;
    var g', old_ := Rename(s, a).0.g, s.g[a.op].kids[a.on];
    NamesLead(s, a);
    TargetNotParent(s, loose, a);
    RenameAt(s, loose, a, a.np, a.nn);
    RenameAt(s, loose, a, old_, a.nn);
    RenameKeepsKids(s, loose, a, g');
    if a.nn in s.g[a.np].kids {
      ChildFacts(s, loose, a.np, a.nn);
    }
    CycleUnsound(s.g, g', s.root, old_, (a.np, a.nn), Target(s, a));
  }

  /** The entries of an inode whose names all stay, when x is destroyed, are fewer than its links. */
  lemma FewerNames(g: Graph, g': Graph, root: Ino, x: Ino, n: Name, c: Ino)
    requires Sound(g, root) && Kid(g, x, n) == Some(c) && !Dot(n) && x !in g' && c in g' && c in g && g'[c].links == g[c].links
    requires forall d, m :: Kid(g', d, m) == Some(c) && !Dot(m) ==> Kid(g, d, m) == Some(c)
    ensures !Sound(g', root)
  {
    hide Sound;
    forall q | q in Links(g', c) ensures q in Links(g, c) {
      assert Kid(g', q.0, q.1) == Some(c);
    }
    OrphanBreaks(g, g', root, x, n);
  }

  /** Nothing new leads to an inode that is neither moved nor replaced. */
  lemma NoNewNames(s: State, loose: multiset<Ino>, a: RenameArgs, c: Ino, d: Ino, m: Name)
    requires Inv(s, loose) && RenameWf(s, a) && Proceeds(s, a) && Goes(s, a) && c != s.g[a.op].kids[a.on] && !Dot(m)
    requires Kid(Rename(s, a).0.g, d, m) == Some(c)
    ensures Kid(s.g, d, m) == Some(c)
  {
    hide Inv, Rename, Wf, Goes;
    RelinkAll(s, a);
    var s' := Rename(s, a).0;
    assert Relinked(s.g, s'.g[d], Kid(s'.g, d, m), a, s.g[a.op].kids[a.on], a.nn in s.g[a.np].kids, d, m);
  }

  /** A directory that is replaced although it has entries. */
  lemma UnsafeTarget(s: State, loose: multiset<Ino>, a: RenameArgs, n: Name)
    requires Inv(s, loose) && RenameWf(s, a) && Proceeds(s, a) && Goes(s, a) && a.nn in s.g[a.np].kids && Plain(a) && !Dot(n)
    requires var new_ := s.g[a.np].kids[a.nn]; new_ in s.g && n in s.g[new_].kids && s.g[new_].kind == Dir
    ensures !Inv(Rename(s, a).0, loose)
  {
    hide Sound, RefsOk, NumOk, Settled, Rename, Wf, Goes;
    var s', old_, new_ := Rename(s, a).0, s.g[a.op].kids[a.on], s.g[a.np].kids[a.nn];
    var c := s.g[new_].kids[n];
    TargetNotParent(s, loose, a);
    ChildFacts(s, loose, a.op, a.on);
    ChildFacts(s, loose, new_, n);
    RelinkAll(s, a);
    RenameSteps(s, a);
    DirOneLink(s.g, s.root, a.np, a.nn);
    if s.opens[new_] == 0 {
      if c == old_ {
        TwoNames(s.g, s.root, (new_, n), (a.op, a.on), c);
      }
      forall d, m | Kid(s'.g, d, m) == Some(c) && !Dot(m) ensures Kid(s.g, d, m) == Some(c) {
        NoNewNames(s, loose, a, c, d, m);
      }
      assert Relinked(s.g, s'.g[c], Kid(s'.g, c, n), a, old_, true, c, n);
      FewerNames(s.g, s'.g, s.root, new_, n, c);
    } else {
      assert Relinked(s.g, s'.g[new_], Kid(s'.g, new_, n), a, old_, true, new_, n);
      NotSettled(s', new_, n);
    }
  }

  // ---------- dot names ----------

  lemma RootNamed(g: Graph, root: Ino, d: Ino, n: Name)
    requires Kid(g, d, n) == Some(root) && !Dot(n)
    ensures !Sound(g, root)
  {
    EntryIsLink(g, d, n);
    if Sound(g, root) {
      RootFacts(g, root);
    }
  }

  /** A dot name as the old name: what it leads to gets one more name. */
  lemma UnsafeOldDot(s: State, loose: multiset<Ino>, a: RenameArgs)
    requires Inv(s, loose) && RenameWf(s, a) && Live(s, a.op) && Proceeds(s, a) && Dot(a.on) && !Dot(a.nn)
    ensures !Sound(Rename(s, a).0.g, s.root)
  {
    hide Sound, RefsOk, NumOk, Settled, Rename, Under, Below, Links, Wf, Detach;
    var old_ := DotLeads(s, loose, a.op, a.on);
    if a.nn in s.g[a.np].kids {
      UnsafeCycle(s, loose, a);
    } else {
      var g' := Rename(s, a).0.g;
      RenameAt(s, loose, a, a.np, a.nn);
      if old_ == s.root {
        RootNamed(g', s.root, a.np, a.nn);
      } else {
        var q := OneHolder(s, loose, old_);
        DetachDot(s, a.op, a.on);
        RenameAt(s, loose, a, q.0, q.1);
        RenameAt(s, loose, a, old_, a.nn);
        TwoNames(g', s.root, q, (a.np, a.nn), old_);
      }
    }
  }

  lemma DotLinks(g: Graph, parent: Ino, child: Ino, name: Name, e: Ino)
    requires parent in g && child in g && Dot(name)
    ensures Links(AttachG(g, parent, child, name), e) == Links(g, e)
  {
  }

  /** Attaching under a dot name counts a link that no entry accounts for. */
  lemma DotCounts(g: Graph, root: Ino, parent: Ino, child: Ino, name: Name)
    requires Sound(g, root) && parent in g && child in g && child != parent && Dot(name)
    ensures !Sound(AttachG(g, parent, child, name), root)
  {
    var g' := AttachG(g, parent, child, name);
    DotLinks(g, parent, child, name, child);
    hide Links, Sound;
    LinkCount(g, root, child);
    if Sound(g', root) {
      LinkCount(g', root, child);
    }
  }

  /** A directory that becomes its own parent. */
  lemma OwnParent(g: Graph, root: Ino, d: Ino, q: Entry)
    requires Sound(g, root) && d in g && g[d].kind == Dir && q in Links(g, d)
    ensures !Sound(AttachG(g, d, d, ".."), root)
  {
    var g' := AttachG(g, d, d, "..");
    DotLinks(g, d, d, "..", d);
    hide Sound, Links;
    HolderIsDir(g, root, d, q);
    NotOwnChild(g, root, q.0, q.1);
    if Sound(g', root) {
      HolderIsDir(g', root, d, q);
    }
  }

  /** The graph after the first detach. */
  lemma FirstSound(s: State, loose: multiset<Ino>, a: RenameArgs)
    requires Inv(s, loose) && RenameWf(s, a) && a.on in s.g[a.op].kids
    ensures Sound(Detach(s, a.op, a.on).0.g, s.root)
  {
    hide Sound, RefsOk, NumOk, Settled;
    if !Dot(a.on) {
      DetachSound(s.g, s.root, a.op, a.on);
    }
  }

  lemma LinkedStays(s: State, parent: Ino, child: Ino, name: Name, e: Ino)
    requires Keyed(s) && parent in s.g && child in s.g && e in s.g && s.g[e].links > 0
    ensures var s' := Attach(s, parent, child, name); TryDestroy(s', e) == (s', false)
  {
  }

  /** A dot name as the new name of a directory: it is not detached, and what it leads to is not destroyed. */
  lemma OntoDot(s: State, loose: multiset<Ino>, a: RenameArgs)
    requires Inv(s, loose) && RenameWf(s, a) && Live(s, a.np) && Proceeds(s, a) && Dot(a.nn) && a.nn in s.g[a.np].kids
    ensures Rename(s, a).0 == Attach(Detach(s, a.op, a.on).0, a.np, s.g[a.op].kids[a.on], a.nn)
  {
    hide Inv, Detach, Attach, TryDestroy, DetachError, Links, Below;
    var new_ := DotLeads(s, loose, a.np, a.nn);
    FirstAt(s, loose, a, new_, a.nn);
    var s1 := Detach(s, a.op, a.on).0;
    DetachDot(s1, a.np, a.nn);
    LinkedStays(s1, a.np, s.g[a.op].kids[a.on], a.nn, new_);
  }

  lemma UnsafeNewDot(s: State, loose: multiset<Ino>, a: RenameArgs)
    requires Inv(s, loose) && RenameWf(s, a) && Live(s, a.np) && Proceeds(s, a) && Dot(a.nn) && s.g[a.np].kind == Dir
    ensures !Sound(Rename(s, a).0.g, s.root)
  {
    hide Sound, RefsOk, NumOk, Settled, Rename, Under, Below, Links, Wf, Detach, AttachG;
    NamesLead(s, a);
    ClosedAt(s, loose, a.np);
    OntoDot(s, loose, a);
    FirstSound(s, loose, a);
    var s1, old_ := Detach(s, a.op, a.on).0, s.g[a.op].kids[a.on];
    if old_ != a.np {
      DotCounts(s1.g, s.root, a.np, old_, a.nn);
    } else {
      SelfOntoDot(s, loose, a);
    }
  }

  /** A directory that goes under one of its own dot names. */
  lemma SelfOntoDot(s: State, loose: multiset<Ino>, a: RenameArgs)
    requires Inv(s, loose) && RenameWf(s, a) && Live(s, a.np) && Proceeds(s, a) && Dot(a.nn) && s.g[a.np].kind == Dir
    requires a.nn in s.g[a.np].kids && s.g[a.op].kids[a.on] == a.np
    ensures !Sound(Attach(Detach(s, a.op, a.on).0, a.np, a.np, a.nn).g, s.root)
  {
    hide Sound, RefsOk, NumOk, Settled, Rename, Under, Below, Wf, Detach, AttachG, Links;
    var new_ := DotLeads(s, loose, a.np, a.nn);
    assert a.op == a.np && new_ != a.np;
    if !Dot(a.on) {
      NotOwnChild(s.g, s.root, a.op, a.on);
    }
    DetachDot(s, a.op, a.on);
    var m :| (new_, m) in Links(s.g, a.np);
    OwnParent(s.g, s.root, a.np, (new_, m));
  }

  /** Dot names are never safe. */
  lemma UnsafeDots(s: State, loose: multiset<Ino>, a: RenameArgs)
    requires Inv(s, loose) && RenameWf(s, a) && Live(s, a.op) && Live(s, a.np) && Proceeds(s, a) && !Plain(a)
    ensures !Sound(Rename(s, a).0.g, s.root)
  {
    hide Inv, Rename, Sound, Wf;
    if s.g[a.np].kind != Dir {
      UnsafeParent(s, loose, a);
    } else if Dot(a.nn) {
      UnsafeNewDot(s, loose, a);
    } else {
      UnsafeOldDot(s, loose, a);
    }
  }

  // ---------- the theorem ----------

  /** rename keeps the invariant exactly when there is nothing to do or the move is safe. */
  lemma RenameKeeps(s: State, loose: multiset<Ino>, a: RenameArgs)
    requires Inv(s, loose) && Live(s, a.op) && Live(s, a.np) && WayOk(a)
    ensures RenameWf(s, a)
    ensures Inv(Rename(s, a).0, loose) <==> (Proceeds(s, a) ==> Safe(s, a))
  {
    hide Inv, Rename, Goes, Below;
    InvWf(s, loose);
    if !Proceeds(s, a) {
      NothingDone(s, a);
    } else if Safe(s, a) {
      if a.nn in s.g[a.np].kids {
        ReplaceKeeps(s, loose, a);
      } else {
        MoveKeeps(s, loose, a);
      }
    } else {
      RenameUnsafe(s, loose, a);
    }
  }

  lemma NothingDone(s: State, a: RenameArgs)
    requires RenameWf(s, a) && !Proceeds(s, a)
    ensures Rename(s, a) == (s, RenameError(s, a))
  {
  }

  lemma InvSound(s: State, loose: multiset<Ino>, root: Ino)
    requires !Sound(s.g, root) && s.root == root
    ensures !Inv(s, loose)
  {
  }

  lemma RenameUnsafe(s: State, loose: multiset<Ino>, a: RenameArgs)
    requires Inv(s, loose) && RenameWf(s, a) && Live(s, a.op) && Live(s, a.np) && Proceeds(s, a) && !Safe(s, a)
    ensures !Inv(Rename(s, a).0, loose)
  {
    hide Inv, Rename, Goes, Below, Sound, Plain;
    SameRoot(s, a);
    if !Plain(a) {
      UnsafeDots(s, loose, a);
      InvSound(Rename(s, a).0, loose, s.root);
    } else {
      RenamePlainUnsafe(s, loose, a);
    }
  }

  lemma RenamePlainUnsafe(s: State, loose: multiset<Ino>, a: RenameArgs)
    requires Inv(s, loose) && RenameWf(s, a) && Proceeds(s, a) && Plain(a) && !Safe(s, a)
    ensures !Inv(Rename(s, a).0, loose)
  {
    hide Inv, Rename, Goes, Below, Sound;
    var old_, s' := s.g[a.op].kids[a.on], Rename(s, a).0;
    SameRoot(s, a);
    ChildFacts(s, loose, a.op, a.on);
    if s.g[a.np].kind != Dir {
      UnsafeParent(s, loose, a);
    } else if s.g[old_].kind == Dir && s.num[old_] > 2 {
      UnsafeCount(s, loose, a);
    } else if s.g[old_].kind == Dir && Below(s, old_, a.np) {
      UnsafeCycle(s, loose, a);
    } else {
      GoesThrough(s, loose, a);
      var new_ := s.g[a.np].kids[a.nn];
      ChildFacts(s, loose, a.np, a.nn);
      var n :| n in s.g[new_].kids && !Dot(n);
      HoldersAreDirs(s, loose, new_, n);
      UnsafeTarget(s, loose, a, n);
    }
    if !Sound(s'.g, s.root) {
      InvSound(s', loose, s.root);
    }
  }

  lemma SameRoot(s: State, a: RenameArgs)
    requires RenameWf(s, a)
    ensures Rename(s, a).0.root == s.root
  {
  }
}
