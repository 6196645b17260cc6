/** Reading a directory in pages, resumed by the last name read, while the directory may change between pages. */
module Readdir {
  import opened Names
  import opened Listing

  /** A directory at the time of a call: its names, and whether they lead to garbage. */
  type Dir = map<Name, bool>

  predicate Shown(dir: Dir, n: Name)
  {
    n in dir && !dir[n]
  }

  /** Where the names that are not before cur begin. */
  function FirstFrom(all: seq<Name>, cur: Name): (i: nat)
    ensures i <= |all| && (forall j :: 0 <= j < i ==> NameLess(all[j], cur)) && (i < |all| ==> !NameLess(all[i], cur))
  {
    if all == [] || !NameLess(all[0], cur) then 0 else 1 + FirstFrom(all[1..], cur)
  }

  /** Where reading goes on: behind the name at or after the cursor, even if that is not the cursor itself. */
  function ResumeAt(all: seq<Name>, cur: Name): nat
  {
    if cur == "" then 0 else if FirstFrom(all, cur) == |all| then |all| else FirstFrom(all, cur) + 1
  }

  /** Up to num shown names from index i on. */
  function PageFrom(dir: Dir, all: seq<Name>, i: nat, num: nat): (page: seq<Name>)
    requires i <= |all|
    ensures |page| <= num
    decreases |all| - i
  {
    if i == |all| || num == 0 then []
    else if Shown(dir, all[i]) then [all[i]] + PageFrom(dir, all, i + 1, num - 1)
    else PageFrom(dir, all, i + 1, num)
  }

  /** The state of a directory handle. */
  datatype Cursor = Cursor(name: Name, eof: bool)

  ghost function PageOf(dir: Dir, c: Cursor, num: nat): seq<Name>
  {
    var all := SortedNames(dir.Keys);
    if c.eof then [] else PageFrom(dir, all, ResumeAt(all, c.name), num)
  }

  ghost function CursorAfter(dir: Dir, c: Cursor, num: nat): Cursor
  {
    var all, page := SortedNames(dir.Keys), PageOf(dir, c, num);
    if c.eof then c
    else if page != [] then Cursor(page[|page| - 1], false)
    else Cursor(if c.name == "" && all != [] then all[0] else c.name, ResumeAt(all, c.name) < |all|)
  }

  lemma {:induction false} FirstFromIs(all: seq<Name>, cur: Name, i: nat)
    requires i <= |all| && (forall j :: 0 <= j < i ==> NameLess(all[j], cur)) && (i < |all| ==> !NameLess(all[i], cur))
    ensures FirstFrom(all, cur) == i
  {
    hide NameLess;
    if i > 0 {
      FirstFromIs(all[1..], cur, i - 1);
    }
  }

  lemma NotBefore(a: Name, b: Name)
    ensures NameLess(a, b) || a == b || NameLess(b, a)
    ensures !(NameLess(a, b) && NameLess(b, a)) && !NameLess(a, a)
  {
    StrCmpZero(a, b);
    StrCmpZero(a, a);
    StrCmpAntisymmetric(a, b);
  }

  /** struct fskit_dir_handle, as far as reading goes. */
  class DirHandle {
    var currName: Name
    var eof: bool

    constructor ()
      ensures currName == "" && !eof
    {
      currName, eof := "", false;
    }

    ghost function At(): Cursor
      reads this
    {
      Cursor(currName, eof)
    }

    /** fskit_readdir_find_start: the member with the cursor's name, else the first name behind it, else nothing. The
        iterator is left at what is found. */
    method FindStart(all: seq<Name>) returns (start: nat)
      requires Increasing(all)
      ensures start == FirstFrom(all, currName)
    {
      hide NameLess, Increasing;
      if currName in all {
        start := 0;
        while start < |all| && all[start] != currName
          invariant start <= |all| && forall j :: 0 <= j < start ==> all[j] != currName
        {
          start := start + 1;
        }
        MemberIsFirst(all, currName, start);
      } else {
        start := 0;
        while start < |all| && !NameLess(currName, all[start])
          invariant start <= |all| && forall j :: 0 <= j < start ==> !NameLess(currName, all[j])
        {
          start := start + 1;
        }
        forall j | 0 <= j < start ensures NameLess(all[j], currName) {
          NotBefore(all[j], currName);
        }
        if start < |all| {
          NotBefore(all[start], currName);
        }
        FirstFromIs(all, currName, start);
      }
    }

    /** fskit_readdir_itr. */
    static method ReadFrom(dir: Dir, all: seq<Name>, start: nat, num: nat) returns (page: seq<Name>)
      requires start <= |all| && forall n :: n in all ==> n in dir
      ensures page == PageFrom(dir, all, start, num)
    {
      page := [];
      var i := start;
      while i < |all| && |page| < num
        invariant start <= i <= |all| && |page| <= num
        invariant PageFrom(dir, all, start, num) == page + PageFrom(dir, all, i, num - |page|)
      {
        if !dir[all[i]] {
          page := page + [all[i]];
        }
        i := i + 1;
      }
    }

    /** fskit_readdir_lowlevel. A directory is never without names. */
    method ReadPage(dir: Dir, num: nat) returns (page: seq<Name>)
      requires dir != map[]
      modifies this
      ensures page == PageOf(dir, old(At()), num) && At() == CursorAfter(dir, old(At()), num)
    {
      hide SortedNames, Increasing, PageFrom;
      if eof {
        return [];
      }
      var all := NamesInOrder(dir.Keys);
      SortedNamesFacts(dir.Keys);
      NotEmpty(dir, all);
      var start;
      if currName == "" {
        start := 0;
        currName := all[0];
      } else {
        start := FindStart(all);
        if start == |all| {
          PageAtEnd(dir, all, num);
          return [];
        }
        start := start + 1;
        if start == |all| {
          PageAtEnd(dir, all, num);
          return [];
        }
      }
      page := ReadFrom(dir, all, start, num);
      if |page| == 0 {
        eof := true;
      } else {
        currName := page[|page| - 1];
      }
    }
  }

  lemma NotEmpty(dir: Dir, all: seq<Name>)
    requires dir != map[] && forall n :: n in all <==> n in dir
    ensures all != []
  {
    var n :| n in dir;
    assert n in all;
  }

  lemma PageAtEnd(dir: Dir, all: seq<Name>, num: nat)
    ensures PageFrom(dir, all, |all|, num) == []
  {
  }

  lemma MemberIsFirst(all: seq<Name>, cur: Name, i: nat)
    requires Increasing(all) && i < |all| && all[i] == cur
    ensures FirstFrom(all, cur) == i
  {
    hide NameLess;
    NotBefore(cur, cur);
    FirstFromIs(all, cur, i);
  }

  // ---------- one page ----------

  /** What a page is: shown names behind the resume index, in order, and all of them up to its last one. */
  lemma {:induction false} PageIs(dir: Dir, all: seq<Name>, i: nat, num: nat)
    requires Increasing(all) && i <= |all|
    ensures var page := PageFrom(dir, all, i, num);
      Increasing(page) && (forall n :: n in page ==> Shown(dir, n) && n in all[i..]) &&
      (forall n :: n in all[i..] && Shown(dir, n) && num > 0 ==> n in page || (page != [] && NameLess(page[|page| - 1], n)))
    decreases |all| - i
  {
    hide NameLess;
    if i < |all| && num > 0 {
      var shown := Shown(dir, all[i]);
      PageIs(dir, all, i + 1, if shown then num - 1 else num);
      var rest := PageFrom(dir, all, i + 1, if shown then num - 1 else num);
      assert all[i..] == [all[i]] + all[i + 1..];
      forall n | n in all[i + 1..] ensures NameLess(all[i], n) {
        var j :| i + 1 <= j < |all| && all[j] == n;
      }
      if shown {
        Prepend(all[i], rest);
      }
    }
  }

  /** Nothing is between a cursor and the first name at or behind it. */
  lemma NotFirst(all: seq<Name>, cur: Name, i: nat, m: Name)
    requires Increasing(all) && i < |all| && (forall j :: 0 <= j < i ==> NameLess(all[j], cur)) && m in all && NameLess(cur, m)
    ensures !NameLess(m, all[i])
  {
    hide NameLess;
    var k :| 0 <= k < |all| && all[k] == m;
    NotBefore(m, cur);
    NotBefore(m, all[i]);
  }

  lemma Behind(all: seq<Name>, cur: Name, n: Name)
    requires Increasing(all)
    ensures n in all[ResumeAt(all, cur)..] ==> cur == "" || NameLess(cur, n)
    ensures n in all && (cur == "" || (NameLess(cur, n) && (cur in all || exists m :: m in all && NameLess(cur, m) && NameLess(m, n)))) ==>
              n in all[ResumeAt(all, cur)..]
  {
    hide NameLess;
    var i := FirstFrom(all, cur);
    if n in all {
      var j :| 0 <= j < |all| && all[j] == n;
      NotBefore(n, cur);
      if cur != "" && i < |all| && j >= i {
        NotBefore(all[i], cur);
        if cur in all {
          var k :| 0 <= k < |all| && all[k] == cur;
          MemberIsFirst(all, cur, k);
        }
        if j == i && NameLess(cur, n) && exists m :: m in all && NameLess(cur, m) && NameLess(m, n) {
          var m :| m in all && NameLess(cur, m) && NameLess(m, n);
          NotFirst(all, cur, i, m);
        }
        if j > i {
          assert all[i + 1..][j - i - 1] == n;
        }
      }
    }
    if n in all[ResumeAt(all, cur)..] && cur != "" {
      var j :| i + 1 <= j < |all| && all[j] == n;
      NotBefore(all[i], cur);
      if NameLess(cur, all[i]) {
        NameLessTransitive(cur, all[i], n);
      }
    }
  }

  // ---------- runs ----------

  /** A call: the directory as it is then, and how many entries are asked for. */
  datatype Call = Call(dir: Dir, num: nat)

  ghost function Output(c: Cursor, calls: seq<Call>): seq<Name>
    decreases |calls|
  {
    if calls == [] then []
    else PageOf(calls[0].dir, c, calls[0].num) + Output(CursorAfter(calls[0].dir, c, calls[0].num), calls[1..])
  }

  ghost function LastCursor(c: Cursor, calls: seq<Call>): Cursor
    decreases |calls|
  {
    if calls == [] then c else LastCursor(CursorAfter(calls[0].dir, c, calls[0].num), calls[1..])
  }

  predicate IsBehind(c: Cursor, n: Name)
  {
    c.name == "" || NameLess(c.name, n)
  }

  /** One page is in order, behind the cursor, and up to the new cursor. */
  lemma PageMoves(dir: Dir, c: Cursor, num: nat)
    requires dir != map[]
    ensures var (page, c') := (PageOf(dir, c, num), CursorAfter(dir, c, num));
      Increasing(page) && (forall n :: n in page ==> Shown(dir, n) && IsBehind(c, n) && (n == c'.name || NameLess(n, c'.name)))
    ensures forall n :: IsBehind(CursorAfter(dir, c, num), n) && CursorAfter(dir, c, num).name != "" && c.name != "" ==> IsBehind(c, n)
  {
    hide NameLess, SortedNames, PageFrom;
    var all := SortedNames(dir.Keys);
    SortedNamesFacts(dir.Keys);
    var page, c' := PageOf(dir, c, num), CursorAfter(dir, c, num);
    if !c.eof {
      PageIs(dir, all, ResumeAt(all, c.name), num);
      forall n | n in page ensures IsBehind(c, n) && (n == c'.name || NameLess(n, c'.name)) {
        Behind(all, c.name, n);
        var i :| 0 <= i < |page| && page[i] == n;
      }
      forall n | IsBehind(c', n) && c'.name != "" && c.name != "" ensures IsBehind(c, n) {
        if page != [] {
          Behind(all, c.name, c'.name);
          NameLessTransitive(c.name, c'.name, n);
        }
      }
    }
  }

  lemma NonEmptyCursor(dir: Dir, c: Cursor, num: nat)
    requires dir != map[] && "" !in dir
    ensures CursorAfter(dir, c, num).name == "" ==> c.eof
  {
    hide NameLess, PageFrom;
    var all := SortedNames(dir.Keys);
    SortedNamesFacts(dir.Keys);
    NotEmpty(dir, all);
    hide SortedNames;
    var page := PageOf(dir, c, num);
    PageIs(dir, all, ResumeAt(all, c.name), num);
    if !c.eof && page != [] {
      assert page[|page| - 1] in page;
    }
  }

  ghost predicate Proper(calls: seq<Call>)
  {
    forall k :: k in calls ==> k.dir != map[] && "" !in k.dir && k.num > 0
  }

  lemma JoinIncreasing(a: seq<Name>, b: seq<Name>, m: Name)
    requires Increasing(a) && Increasing(b)
    requires (forall n :: n in a ==> n == m || NameLess(n, m)) && forall n :: n in b ==> NameLess(m, n)
    ensures Increasing(a + b)
  {
    hide NameLess;
    forall i, j | 0 <= i < j < |a + b| ensures NameLess((a + b)[i], (a + b)[j]) {
      if i < |a| <= j {
        assert (a + b)[i] in a && (a + b)[j] in b;
        if (a + b)[i] != m {
          NameLessTransitive((a + b)[i], m, (a + b)[j]);
        }
      }
    }
  }

  /** Whatever happens to the directory and the cursor, names come in strictly increasing order, and so at most once. */
  lemma {:induction false} OutputOrdered(c: Cursor, calls: seq<Call>)
    requires Proper(calls) && (c.name == "" ==> !c.eof)
    ensures Increasing(Output(c, calls)) && forall n :: n in Output(c, calls) ==> IsBehind(c, n)
    decreases |calls|
  {
    hide NameLess, PageOf, CursorAfter;
    if calls != [] {
      var k := calls[0];
      assert k in calls;
      var page, c' := PageOf(k.dir, c, k.num), CursorAfter(k.dir, c, k.num);
      PageMoves(k.dir, c, k.num);
      NonEmptyCursor(k.dir, c, k.num);
      EofStays(k.dir, c, k.num);
      OutputOrdered(c', calls[1..]);
      JoinIncreasing(page, Output(c', calls[1..]), c'.name);
    }
  }

  lemma EofStays(dir: Dir, c: Cursor, num: nat)
    ensures c.eof ==> CursorAfter(dir, c, num) == c && PageOf(dir, c, num) == []
  {
  }

  /** Reading stops at the first page that is empty: no page but the last may be. */
  ghost predicate StopsWhenEmpty(c: Cursor, calls: seq<Call>)
    decreases |calls|
  {
    calls == [] || |calls| == 1 ||
    (PageOf(calls[0].dir, c, calls[0].num) != [] && StopsWhenEmpty(CursorAfter(calls[0].dir, c, calls[0].num), calls[1..]))
  }

  ghost predicate LastIsEmpty(c: Cursor, calls: seq<Call>)
    decreases |calls|
  {
    calls != [] &&
    if |calls| == 1 then PageOf(calls[0].dir, c, calls[0].num) == []
    else LastIsEmpty(CursorAfter(calls[0].dir, c, calls[0].num), calls[1..])
  }

  // ---------- what a page misses ----------

  /** x is the first name behind the name that was returned last, and that name has been removed. */
  ghost predicate FirstBehindGone(dir: Dir, c: Cursor, x: Name)
  {
    !c.eof && c.name != "" && c.name !in dir && NameLess(c.name, x) &&
    forall y :: y in dir && NameLess(c.name, y) ==> !NameLess(y, x)
  }

  lemma PageCovers(dir: Dir, c: Cursor, num: nat, x: Name)
    requires dir != map[] && "" !in dir && num > 0 && Shown(dir, x) && !c.eof && IsBehind(c, x) && !FirstBehindGone(dir, c, x)
    ensures var (page, c') := (PageOf(dir, c, num), CursorAfter(dir, c, num));
      page != [] && !c'.eof && (x in page || NameLess(c'.name, x))
  {
    hide NameLess, PageFrom;
    var all := SortedNames(dir.Keys);
    SortedNamesFacts(dir.Keys);
    hide SortedNames;
    Behind(all, c.name, x);
    PageIs(dir, all, ResumeAt(all, c.name), num);
  }

  /** The page begins behind the name that it skips. */
  lemma PageSkips(dir: Dir, c: Cursor, num: nat, x: Name)
    requires dir != map[] && x in dir && FirstBehindGone(dir, c, x)
    ensures var (page, c') := (PageOf(dir, c, num), CursorAfter(dir, c, num));
      x !in page && (page != [] ==> NameLess(x, c'.name))
  {
    hide NameLess, PageFrom;
    var all := SortedNames(dir.Keys);
    SortedNamesFacts(dir.Keys);
    hide SortedNames;
    var j :| 0 <= j < |all| && all[j] == x;
    forall i | 0 <= i < j ensures NameLess(all[i], c.name) {
      NotBefore(all[i], c.name);
      assert all[i] in dir;
    }
    NotBefore(x, c.name);
    FirstFromIs(all, c.name, j);
    PageIs(dir, all, j + 1, num);
    NotBefore(x, x);
    forall n | n in all[j + 1..] ensures NameLess(x, n) {
      var k :| j + 1 <= k < |all| && all[k] == n;
    }
  }

  /** A page has a name that is shown behind the cursor, or ends before it, exactly when it is not the first name behind a
      removed cursor. */
  lemma PageMisses(dir: Dir, c: Cursor, num: nat, x: Name)
    requires dir != map[] && "" !in dir && num > 0 && Shown(dir, x) && !c.eof && IsBehind(c, x)
    ensures var (page, c') := (PageOf(dir, c, num), CursorAfter(dir, c, num));
      x in page || (page != [] && NameLess(c'.name, x)) <==>
      c.name == "" || c.name in dir || exists y :: y in dir && NameLess(c.name, y) && NameLess(y, x)
  {
    hide NameLess, PageOf, CursorAfter;
    if FirstBehindGone(dir, c, x) {
      PageSkips(dir, c, num, x);
      NotBefore(x, CursorAfter(dir, c, num).name);
    } else {
      PageCovers(dir, c, num, x);
    }
  }

  /** The cursor before each call. */
  ghost function CursorAt(c: Cursor, calls: seq<Call>, i: nat): Cursor
    requires i <= |calls|
    decreases i
  {
    if i == 0 then c else CursorAt(CursorAfter(calls[0].dir, c, calls[0].num), calls[1..], i - 1)
  }

  /** At some call x is the first name behind a cursor that has been removed. */
  ghost predicate Skipped(c: Cursor, calls: seq<Call>, x: Name)
  {
    exists i :: 0 <= i < |calls| && FirstBehindGone(calls[i].dir, CursorAt(c, calls, i), x)
  }

  lemma SkippedStep(c: Cursor, calls: seq<Call>, x: Name)
    requires calls != []
    ensures Skipped(c, calls, x) <==>
      FirstBehindGone(calls[0].dir, c, x) || Skipped(CursorAfter(calls[0].dir, c, calls[0].num), calls[1..], x)
  {
    hide FirstBehindGone, CursorAfter;
    var c', rest := CursorAfter(calls[0].dir, c, calls[0].num), calls[1..];
    if Skipped(c, calls, x) {
      var i :| 0 <= i < |calls| && FirstBehindGone(calls[i].dir, CursorAt(c, calls, i), x);
      if i > 0 {
        assert rest[i - 1] == calls[i] && FirstBehindGone(rest[i - 1].dir, CursorAt(c', rest, i - 1), x);
      }
    }
    if FirstBehindGone(calls[0].dir, c, x) {
      assert FirstBehindGone(calls[0].dir, CursorAt(c, calls, 0), x);
    }
    if Skipped(c', rest, x) {
      var i :| 0 <= i < |rest| && FirstBehindGone(rest[i].dir, CursorAt(c', rest, i), x);
      assert FirstBehindGone(calls[i + 1].dir, CursorAt(c, calls, i + 1), x);
    }
  }

  /** Nothing that the cursor has passed is returned, skipped or still to come. */
  lemma {:induction false} Passed(c: Cursor, calls: seq<Call>, x: Name)
    requires Proper(calls) && c.name != "" && !IsBehind(c, x)
    ensures x !in Output(c, calls) && !Skipped(c, calls, x) && !IsBehind(LastCursor(c, calls), x)
    decreases |calls|
  {
    hide NameLess, PageOf, CursorAfter, Skipped;
    if calls != [] {
      var k := calls[0];
      assert k in calls;
      PageMoves(k.dir, c, k.num);
      NonEmptyCursor(k.dir, c, k.num);
      EofStays(k.dir, c, k.num);
      SkippedStep(c, calls, x);
      Passed(CursorAfter(k.dir, c, k.num), calls[1..], x);
    } else {
      assert !Skipped(c, calls, x) by {
        NoneSkipped(c, x);
      }
    }
  }

  lemma NoneSkipped(c: Cursor, x: Name)
    ensures !Skipped(c, [], x)
  {
  }

  /** What is shown at every call is returned, or still to come, exactly when it is not skipped; when the last page is
      empty, nothing is still to come. */
  lemma {:induction false} OutputComplete(c: Cursor, calls: seq<Call>, x: Name)
    requires Proper(calls) && StopsWhenEmpty(c, calls) && !c.eof && IsBehind(c, x) && forall k :: k in calls ==> Shown(k.dir, x)
    ensures x in Output(c, calls) || (!LastIsEmpty(c, calls) && IsBehind(LastCursor(c, calls), x)) <==> !Skipped(c, calls, x)
    decreases |calls|
  {
    hide NameLess, PageOf, CursorAfter, Skipped, IsBehind, FirstBehindGone;
    if calls == [] {
      NoneSkipped(c, x);
    } else {
      var k, rest := calls[0], calls[1..];
      assert k in calls;
      var page, c' := PageOf(k.dir, c, k.num), CursorAfter(k.dir, c, k.num);
      SkippedStep(c, calls, x);
      PageStep(k.dir, c, k.num, x);
      if page == [] {
        assert Output(c', rest) == [];
      } else if IsBehind(c', x) {
        OutputComplete(c', rest, x);
      } else {
        Passed(c', rest, x);
      }
    }
  }

  /** What one page does to a name that is behind the cursor. */
  lemma PageStep(dir: Dir, c: Cursor, num: nat, x: Name)
    requires dir != map[] && "" !in dir && num > 0 && Shown(dir, x) && !c.eof && IsBehind(c, x)
    ensures var (page, c', gone) := (PageOf(dir, c, num), CursorAfter(dir, c, num), FirstBehindGone(dir, c, x));
      if page == [] then gone
      else c'.name != "" && !c'.eof && (IsBehind(c', x) <==> !gone && x !in page) && (gone ==> x !in page)
  {
    hide NameLess, PageOf, CursorAfter;
    var page, c' := PageOf(dir, c, num), CursorAfter(dir, c, num);
    PageMoves(dir, c, num);
    NonEmptyCursor(dir, c, num);
    NotBefore(x, c'.name);
    if FirstBehindGone(dir, c, x) {
      PageSkips(dir, c, num, x);
    } else {
      PageCovers(dir, c, num, x);
    }
    NotEofWithPage(dir, c, num);
  }

  lemma NotEofWithPage(dir: Dir, c: Cursor, num: nat)
    ensures PageOf(dir, c, num) != [] ==> !CursorAfter(dir, c, num).eof
  {
  }

  // ---------- whole readings ----------

  /** From opening the directory to the first empty page. */
  ghost predicate WholeReading(calls: seq<Call>)
  {
    StopsWhenEmpty(Cursor("", false), calls) && LastIsEmpty(Cursor("", false), calls)
  }

  /** A whole reading: what is shown throughout is returned exactly once if
      it is never the first name behind a removed cursor, and not at all if it is. */
  lemma ReadsEverything(calls: seq<Call>, x: Name)
    requires Proper(calls) && WholeReading(calls) && forall k :: k in calls ==> Shown(k.dir, x)
    ensures var out := Output(Cursor("", false), calls);
      Increasing(out) && (x in out <==> !Skipped(Cursor("", false), calls, x)) &&
      forall i, j :: 0 <= i < |out| && 0 <= j < |out| && out[i] == x == out[j] ==> i == j
  {
    hide NameLess, Output, Skipped;
    var c := Cursor("", false);
    var out := Output(c, calls);
    OutputOrdered(c, calls);
    OutputComplete(c, calls, x);
    NotBefore(x, x);
  }

  /** At every call the name that was returned last is still in the directory. */
  ghost predicate CursorsKept(calls: seq<Call>)
  {
    forall i :: 0 <= i < |calls| ==> var c := CursorAt(Cursor("", false), calls, i); c.name == "" || c.name in calls[i].dir
  }

  /** Nothing is missed as long as the name that was returned last stays until the next call. */
  lemma KeptCursorsMissNothing(calls: seq<Call>, x: Name)
    requires Proper(calls) && WholeReading(calls) && CursorsKept(calls) && forall k :: k in calls ==> Shown(k.dir, x)
    ensures x in Output(Cursor("", false), calls)
  {
    hide NameLess, Output, CursorAt;
    ReadsEverything(calls, x);
  }

  const FourNames: Dir := map["." := false, ".." := false, "a" := false, "b" := false]
  const ThreeNames: Dir := map["." := false, ".." := false, "b" := false]

  lemma NamesOrdered()
    ensures NameLess(".", "..") && NameLess(".", "a") && NameLess(".", "b")
    ensures NameLess("..", "a") && NameLess("..", "b") && NameLess("a", "b")
  {
    assert "."[0] == '.' && ".."[0] == '.' && "a"[0] == 'a' && "b"[0] == 'b';
    assert "."[1..] == "" && ".."[1..] == ".";
    assert '.' < 'a' && 'a' < 'b';
  }

  lemma SortedIs(s: set<Name>, all: seq<Name>)
    requires Increasing(all) && forall n :: n in all <==> n in s
    ensures SortedNames(s) == all
  {
    hide Increasing, NameLess;
    SortedNamesFacts(s);
    SortedIsUnique(all, SortedNames(s));
  }

  lemma TwoCalls(c: Cursor, a: Call, b: Call)
    requires PageOf(a.dir, c, a.num) != [] && PageOf(b.dir, CursorAfter(a.dir, c, a.num), b.num) == []
    ensures StopsWhenEmpty(c, [a, b]) && LastIsEmpty(c, [a, b]) && Output(c, [a, b]) == PageOf(a.dir, c, a.num)
  {
    hide PageOf, CursorAfter;
    var c' := CursorAfter(a.dir, c, a.num);
    assert [a, b][1..] == [b] && [b][1..] == [];
    assert Output(c', [b]) == PageOf(b.dir, c', b.num) + Output(CursorAfter(b.dir, c', b.num), []);
    assert Output(CursorAfter(b.dir, c', b.num), []) == [];
  }

  /** A directory with the names a and b, of which a is removed after it was returned: b is shown all the time, and never
      returned. */
  lemma RemovedNameCostsNext() returns (calls: seq<Call>)
    ensures calls == [Call(FourNames, 3), Call(ThreeNames, 3)] && WholeReading(calls) && Shown(FourNames, "b") && Shown(ThreeNames, "b")
    ensures Output(Cursor("", false), calls) == [".", "..", "a"]
  {
    hide NameLess, SortedNames;
    NamesOrdered();
    SortedIs(FourNames.Keys, [".", "..", "a", "b"]);
    SortedIs(ThreeNames.Keys, [".", "..", "b"]);
    calls := [Call(FourNames, 3), Call(ThreeNames, 3)];
    FirstPage();
    SecondPage();
    hide PageOf, CursorAfter;
    TwoCalls(Cursor("", false), Call(FourNames, 3), Call(ThreeNames, 3));
  }

  lemma FirstPage()
    requires SortedNames(FourNames.Keys) == [".", "..", "a", "b"]
    ensures PageOf(FourNames, Cursor("", false), 3) == [".", "..", "a"]
    ensures CursorAfter(FourNames, Cursor("", false), 3) == Cursor("a", false)
  {
    var all := [".", "..", "a", "b"];
    assert PageFrom(FourNames, all, 3, 0) == [];
    assert PageFrom(FourNames, all, 2, 1) == ["a"];
    assert PageFrom(FourNames, all, 1, 2) == ["..", "a"];
  }

  lemma SecondPage()
    requires SortedNames(ThreeNames.Keys) == [".", "..", "b"] && NameLess(".", "a") && NameLess("..", "a") && NameLess("a", "b")
    ensures PageOf(ThreeNames, Cursor("a", false), 3) == []
  {
    hide NameLess;
    NotBefore("a", "b");
    FirstFromIs([".", "..", "b"], "a", 2);
  }

  // ---------- a directory that does not change ----------

  function ShownFrom(dir: Dir, all: seq<Name>, i: nat): seq<Name>
    requires i <= |all|
    decreases |all| - i
  {
    if i == |all| then [] else (if Shown(dir, all[i]) then [all[i]] else []) + ShownFrom(dir, all, i + 1)
  }

  function Take(s: seq<Name>, n: nat): seq<Name>
  {
    if n <= |s| then s[..n] else s
  }

  /** The page is the first of the rest, and its last name stands just before index j, where the rest of the rest begins. */
  ghost predicate Taken(dir: Dir, all: seq<Name>, page: seq<Name>, rest: seq<Name>, num: nat, i: nat, j: nat)
  {
    i <= j <= |all| && page == Take(rest, num) &&
    (page != [] ==> i < j && all[j - 1] == page[|page| - 1] && ShownFrom(dir, all, j) == rest[|page|..])
  }

  lemma TakenSnoc(dir: Dir, all: seq<Name>, page: seq<Name>, rest: seq<Name>, num: nat, i: nat, j: nat)
    requires i < |all| && Taken(dir, all, page, rest, num, i + 1, j) && rest == ShownFrom(dir, all, i + 1)
    ensures Taken(dir, all, [all[i]] + page, [all[i]] + rest, num + 1, i, if page == [] then i + 1 else j)
  {
    hide ShownFrom;
    assert ([all[i]] + rest)[1..] == rest;
    if page == [] {
    } else {
      assert ([all[i]] + rest)[|page| + 1..] == rest[|page|..];
    }
  }

  lemma TakenNone(dir: Dir, all: seq<Name>, i: nat, num: nat)
    requires i <= |all| && (i == |all| || num == 0)
    ensures Taken(dir, all, PageFrom(dir, all, i, num), ShownFrom(dir, all, i), num, i, i)
  {
  }

  lemma PageUnfolds(dir: Dir, all: seq<Name>, i: nat, num: nat)
    requires i < |all| && num > 0
    ensures PageFrom(dir, all, i, num) ==
      if Shown(dir, all[i]) then [all[i]] + PageFrom(dir, all, i + 1, num - 1) else PageFrom(dir, all, i + 1, num)
    ensures ShownFrom(dir, all, i) == if Shown(dir, all[i]) then [all[i]] + ShownFrom(dir, all, i + 1) else ShownFrom(dir, all, i + 1)
  {
  }

  lemma TakenEarlier(dir: Dir, all: seq<Name>, page: seq<Name>, rest: seq<Name>, num: nat, i: nat, j: nat)
    requires i < |all| && Taken(dir, all, page, rest, num, i + 1, j)
    ensures Taken(dir, all, page, rest, num, i, j)
  {
  }

  lemma {:induction false} PageTakes(dir: Dir, all: seq<Name>, i: nat, num: nat) returns (j: nat)
    requires i <= |all|
    ensures Taken(dir, all, PageFrom(dir, all, i, num), ShownFrom(dir, all, i), num, i, j)
    decreases |all| - i
  {
    hide Taken, PageFrom, ShownFrom, Shown;
    if i < |all| && num > 0 {
      PageUnfolds(dir, all, i, num);
      if Shown(dir, all[i]) {
        j := PageTakes(dir, all, i + 1, num - 1);
        TakenSnoc(dir, all, PageFrom(dir, all, i + 1, num - 1), ShownFrom(dir, all, i + 1), num - 1, i, j);
        j := if PageFrom(dir, all, i + 1, num - 1) == [] then i + 1 else j;
      } else {
        j := PageTakes(dir, all, i + 1, num);
        TakenEarlier(dir, all, PageFrom(dir, all, i, num), ShownFrom(dir, all, i), num, i, j);
      }
    } else {
      TakenNone(dir, all, i, num);
      j := i;
    }
  }

  ghost predicate Same(dir: Dir, calls: seq<Call>)
  {
    forall k :: k in calls ==> k.dir == dir && k.num > 0
  }

  function Asked(calls: seq<Call>): nat
  {
    if calls == [] then 0 else calls[0].num + Asked(calls[1..])
  }

  lemma {:induction false} AtEof(c: Cursor, calls: seq<Call>)
    requires c.eof
    ensures Output(c, calls) == []
    decreases |calls|
  {
    if calls != [] {
      EofStays(calls[0].dir, c, calls[0].num);
      AtEof(c, calls[1..]);
    }
  }

  ghost function RestOf(dir: Dir, c: Cursor): seq<Name>
  {
    var all := SortedNames(dir.Keys);
    if ResumeAt(all, c.name) <= |all| then ShownFrom(dir, all, ResumeAt(all, c.name)) else []
  }

  /** One page of an unchanged directory takes the first of what is left. */
  lemma PageRest(dir: Dir, c: Cursor, num: nat)
    requires dir != map[] && "" !in dir && !c.eof && num > 0
    ensures var (page, c') := (PageOf(dir, c, num), CursorAfter(dir, c, num));
      page == Take(RestOf(dir, c), num) && (c'.eof ==> page == []) &&
      (!c'.eof ==> RestOf(dir, c') == RestOf(dir, c)[|page|..])
  {
    hide NameLess, SortedNames, PageFrom, ShownFrom;
    var all := SortedNames(dir.Keys);
    SortedNamesFacts(dir.Keys);
    var i := ResumeAt(all, c.name);
    var j := PageTakes(dir, all, i, num);
    var page, c' := PageFrom(dir, all, i, num), CursorAfter(dir, c, num);
    NonEmptyCursor(dir, c, num);
    if page != [] {
      MemberIsFirst(all, c'.name, j - 1);
      NamedInPage(dir, all, i, num);
    }
  }

  lemma {:induction false} OutputTakes(dir: Dir, c: Cursor, calls: seq<Call>)
    requires Same(dir, calls) && dir != map[] && "" !in dir && !c.eof
    ensures Output(c, calls) == Take(RestOf(dir, c), Asked(calls))
    decreases |calls|
  {
    hide PageOf, CursorAfter, RestOf, Take;
    if calls != [] {
      var k := calls[0];
      assert k in calls;
      PageRest(dir, c, k.num);
      var c' := CursorAfter(dir, c, k.num);
      if c'.eof {
        AtEof(c', calls[1..]);
        TakeNone(RestOf(dir, c), k.num, Asked(calls));
      } else {
        OutputTakes(dir, c', calls[1..]);
        TakeTwice(RestOf(dir, c), k.num, Asked(calls[1..]));
      }
    } else {
      TakeZero(RestOf(dir, c));
    }
  }

  lemma TakeZero(s: seq<Name>)
    ensures Take(s, 0) == []
  {
  }

  lemma TakeNone(s: seq<Name>, m: nat, n: nat)
    requires m > 0 && Take(s, m) == []
    ensures Take(s, n) == []
  {
  }

  lemma NamedInPage(dir: Dir, all: seq<Name>, i: nat, num: nat)
    requires i <= |all| && Increasing(all) && "" !in dir && PageFrom(dir, all, i, num) != []
    ensures var page := PageFrom(dir, all, i, num); page[|page| - 1] != ""
  {
    hide NameLess;
    PageIs(dir, all, i, num);
    var page := PageFrom(dir, all, i, num);
    assert page[|page| - 1] in page;
  }

  lemma TakeTwice(s: seq<Name>, m: nat, n: nat)
    ensures |Take(s, m)| <= |s|
    ensures Take(s, m) + Take(s[|Take(s, m)|..], n) == Take(s, m + n)
  {
  }

  /** An unchanged directory gives its shown names in order, as many as were asked for, and then nothing. */
  lemma UnchangedListing(dir: Dir, calls: seq<Call>)
    requires Same(dir, calls) && dir != map[] && "" !in dir
    ensures Output(Cursor("", false), calls) == Take(ShownFrom(dir, SortedNames(dir.Keys), 0), Asked(calls))
  {
    hide Output;
    OutputTakes(dir, Cursor("", false), calls);
  }

  // ---------- leaving out what a callback omits ----------

  function Kept(entries: seq<Name>): seq<Name>
  {
    if entries == [] then [] else Kept(entries[..|entries| - 1]) + if entries[|entries| - 1] == "" then [] else [entries[|entries| - 1]]
  }

  lemma KeptSnoc(entries: seq<Name>, i: nat)
    requires i < |entries|
    ensures Kept(entries[..i + 1]) == Kept(entries[..i]) + if entries[i] == "" then [] else [entries[i]]
  {
    assert entries[..i + 1][..i] == entries[..i];
  }

  lemma {:induction false} KeptLength(entries: seq<Name>, i: nat)
    requires i <= |entries|
    ensures |Kept(entries[..i])| <= |Kept(entries)| && (|Kept(entries)| == |entries| ==> Kept(entries) == entries)
    ensures |Kept(entries)| <= |entries|
    decreases |entries|
  {
    if entries != [] {
      var last := |entries| - 1;
      KeptLength(entries[..last], if i <= last then i else last);
      assert entries == entries[..last] + [entries[last]];
      if i <= last {
        assert entries[..last][..i] == entries[..i];
      } else {
        assert entries[..i] == entries;
      }
    }
  }

  /** kept holds the entries at some places, in their order, and an entry is left out exactly when it is empty. */
  ghost predicate Picked(entries: seq<Name>, kept: seq<Name>, places: seq<nat>)
  {
    |places| == |kept| && (forall k :: 0 <= k < |kept| ==> places[k] < |entries| && kept[k] == entries[places[k]]) &&
    (forall j, k :: 0 <= j < k < |places| ==> places[j] < places[k]) &&
    forall i :: 0 <= i < |entries| ==> (i in places <==> entries[i] != "")
  }

  /** What is kept are exactly the entries with a name, in their order. */
  lemma {:induction false} KeptIs(entries: seq<Name>) returns (places: seq<nat>)
    ensures Picked(entries, Kept(entries), places) && "" !in Kept(entries)
  {
    if entries == [] {
      places := [];
    } else {
      var last := |entries| - 1;
      var rest := KeptIs(entries[..last]);
      places := if entries[last] == "" then rest else rest + [last];
      PickedLast(entries, Kept(entries[..last]), rest);
    }
  }

  lemma PickedLast(entries: seq<Name>, kept: seq<Name>, places: seq<nat>)
    requires entries != [] && Picked(entries[..|entries| - 1], kept, places)
    ensures var last := |entries| - 1;
      if entries[last] == "" then Picked(entries, kept, places) else Picked(entries, kept + [entries[last]], places + [last])
  {
    var last := |entries| - 1;
    assert forall i :: 0 <= i < last ==> entries[..last][i] == entries[i];
    assert forall k :: 0 <= k < |places| ==> places[k] != last;
    if entries[last] != "" {
      forall i | 0 <= i < |entries| ensures i in places + [last] <==> entries[i] != "" {
      }
    }
  }

  /** fskit_readdir_compactify_list. An entry that was omitted is shown as the empty name. */
  method Compactify(entries: array<Name>) returns (r: array<Name>)
    ensures r[..] == Kept(entries[..])
    ensures r == entries || fresh(r)
  {
    var newSize := entries.Length;
    var i := 0;
    while i < entries.Length
      invariant i <= entries.Length && newSize == |Kept(entries[..i])| + (entries.Length - i)
    {
      KeptSnoc(entries[..], i);
      assert entries[..][..i + 1] == entries[..i + 1] && entries[..][..i] == entries[..i];
      if entries[i] == "" {
        newSize := newSize - 1;
      }
      i := i + 1;
    }
    assert entries[..i] == entries[..];
    KeptLength(entries[..], entries.Length);
    if newSize == entries.Length {
      return entries;
    }
    r := new Name[newSize](k => "");
    var j := 0;
    i := 0;
    while i < entries.Length
      invariant i <= entries.Length && j == |Kept(entries[..i])| <= newSize && newSize == |Kept(entries[..])|
      invariant r[..j] == Kept(entries[..i])
    {
      KeptSnoc(entries[..], i);
      KeptLength(entries[..], i + 1);
      assert entries[..][..i + 1] == entries[..i + 1] && entries[..][..i] == entries[..i];
      if entries[i] != "" {
        r[j] := entries[i];
        j := j + 1;
      }
      i := i + 1;
    }
    assert entries[..i] == entries[..] && r[..j] == r[..];
  }
}
