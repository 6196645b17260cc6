/** The string routines of path.c: joining, splitting and measuring paths. */
module PathStrings {
  import opened Names
  import opened Paths

  // ---------- specifications ----------

  /** Where the last '/' is, or -1. */
  function LastSlash(p: string): (k: int)
    ensures -1 <= k < |p| && (k >= 0 ==> p[k] == '/') && forall i :: k < i < |p| ==> p[i] != '/'
  {
    if p == [] then -1 else if p[|p| - 1] == '/' then |p| - 1 else LastSlash(p[..|p| - 1])
  }

  function DirnameOf(p: string): string
  {
    if p == "" || p == "/" then "/"
    else
      var k := LastSlash(p);
      p[..if k < 0 then 0 else if k == 0 then 1 else k]
  }

  function BasenameLenOf(p: string): (n: nat)
    ensures n <= |p|
  {
    if p == "/" then 1
    else if |p| <= 1 then 0
    else |p| - (LastSlash(if p[|p| - 1] == '/' then p[..|p| - 1] else p) + 1)
  }

  function BasenameOf(p: string): string
  {
    p[|p| - BasenameLenOf(p)..]
  }

  function FullpathOf(root: string, path: string): string
  {
    if root == "" then path
    else if root[|root| - 1] != '/' && (path == "" || path[0] != '/') then root + "/" + path
    else if root[|root| - 1] == '/' && path != "" && path[0] == '/' then root + path[1..]
    else root + path
  }

  function Slashes(p: string): nat
  {
    if p == [] then 0 else Slashes(p[..|p| - 1]) + if p[|p| - 1] == '/' then 1 else 0
  }

  function DepthOf(p: string): nat
  {
    if |p| <= 1 then 0 else Slashes(if p[|p| - 1] == '/' then p[..|p| - 1] else p)
  }

  // ---------- the routines ----------

  lemma {:induction false} LastSlashIs(p: string, k: int)
    requires -1 <= k < |p| && (k >= 0 ==> p[k] == '/') && forall i :: k < i < |p| ==> p[i] != '/'
    ensures LastSlash(p) == k
  {
    if p != [] && p[|p| - 1] != '/' {
      LastSlashIs(p[..|p| - 1], k);
    }
  }

  lemma DirnameFits(path: string)
    ensures |DirnameOf(path)| <= if path == "" then 1 else |path|
  {
  }

  /** What fskit_dirname leaves in a buffer in which k follows the name: its terminator is written a byte too far. */
  function DirnameOver(path: string, k: char): string
  {
    if path == "" || path == "/" || k == '\0' then DirnameOf(path) else DirnameOf(path) + [k]
  }

  /** fskit_dirname into the caller's buffer: right exactly when the byte behind the name was NUL before. */
  method DirnameInto(path: string, dest: array<char>)
    requires '\0' !in path && dest.Length > |path| && dest.Length > 1
    modifies dest
    ensures |DirnameOf(path)| < dest.Length && CString(dest[..]) == DirnameOver(path, old(dest[|DirnameOf(path)|]))
  {
    DirnameFits(path);
    if |path| == 0 || path == "/" {
      dest[0], dest[1] := '/', '\0';
      CStringTo(dest[..], 1);
      return;
    }
    var delim := DirnameEnd(path);
    var i := 0;
    while i < delim
      invariant 0 <= i <= delim && dest[..i] == path[..i] && forall k :: i <= k < dest.Length ==> dest[k] == old(dest[k])
    {
      dest[i] := path[i];
      i := i + 1;
    }
    dest[delim + 1] := '\0';
    assert dest[..delim] == path[..delim];
    assert forall k :: 0 <= k < delim ==> dest[k] == dest[..delim][k] == path[k];
    if dest[delim] == '\0' {
      CStringTo(dest[..], delim);
    } else {
      CStringTo(dest[..], delim + 1);
      assert dest[..delim + 1] == dest[..delim] + [dest[delim]];
    }
  }

  /** The scan of fskit_dirname: how many bytes it copies. */
  method DirnameEnd(path: string) returns (delim: int)
    requires path != "" && path != "/"
    ensures 0 <= delim < |path| && path[..delim] == DirnameOf(path)
  {
    delim := |path|;
    while delim >= 0 && (delim == |path| || path[delim] != '/')
      invariant -1 <= delim <= |path| && forall i :: delim < i < |path| ==> path[i] != '/'
    {
      delim := delim - 1;
    }
    LastSlashIs(path, delim);
    if delim < 0 {
      delim := 0;
    }
    if delim == 0 && path[0] == '/' {
      delim := 1;
    }
  }

  /** fskit_dirname into a buffer of its own, which is all NUL and has room. */
  method Dirname(path: string) returns (dest: string)
    requires '\0' !in path
    ensures dest == DirnameOf(path)
  {
    var buffer := new char[|path| + 2](k => '\0');
    DirnameInto(path, buffer);
    dest := CString(buffer[..]);
  }

  /** A buffer in which something was: "/d/e" read into one full of x is the directory "/dx". */
  lemma DirnameGarbled()
    ensures DirnameOf("/d/e") == "/d" && DirnameOver("/d/e", 'x') == "/dx"
  {
    var p := "/d/e";
    assert p[..|p| - 1] == "/d/" && "/d/"[|"/d/"| - 1] == '/';
    assert LastSlash(p) == 2;
  }

  /** fskit_basename_len. */
  method BasenameLen(path: string) returns (len: nat)
    ensures len == BasenameLenOf(path)
  {
    if path == "/" {
      return 1;
    }
    var delim: int := |path| - 1;
    if delim <= 0 {
      return 0;
    }
    if path[delim] == '/' {
      delim := delim - 1;
    }
    ghost var last := delim;
    while delim >= 0 && path[delim] != '/'
      invariant -1 <= delim <= last && forall i :: delim < i <= last ==> path[i] != '/'
    {
      delim := delim - 1;
    }
    LastSlashIs(if path[|path| - 1] == '/' then path[..|path| - 1] else path, delim);
    len := |path| - (delim + 1);
  }

  /** fskit_basename. */
  method Basename(path: string) returns (dest: string)
    ensures dest == BasenameOf(path)
  {
    var len := BasenameLen(path);
    dest := path[|path| - len..];
  }

  /** fskit_fullpath. */
  method Fullpath(root: string, path: string) returns (dest: string)
    ensures dest == FullpathOf(root, path)
  {
    var delim, pathOff := "", 0;
    if |root| > 0 {
      var first := if |path| == 0 then '\0' else path[0];
      if root[|root| - 1] != '/' && first != '/' {
        delim := "/";
      } else if root[|root| - 1] == '/' && first == '/' {
        pathOff := 1;
      }
    }
    dest := root + delim + path[pathOff..];
    assert path[0..] == path;
    assert root + "" == root;
  }

  lemma SlashesDrop(p: string, i: nat)
    requires i < |p|
    ensures Slashes(p[..i + 1]) == Slashes(p[..i]) + if p[i] == '/' then 1 else 0
  {
    assert p[..i + 1][..i] == p[..i];
  }

  /** fskit_depth. */
  method Depth(path: string) returns (depth: nat)
    ensures depth == DepthOf(path)
  {
    var i: int := |path| - 1;
    if i <= 0 {
      return 0;
    }
    if path[i] == '/' {
      i := i - 1;
    }
    depth := 0;
    ghost var last := i + 1;
    while i >= 0
      invariant -1 <= i < last <= |path| && depth + Slashes(path[..i + 1]) == Slashes(path[..last])
    {
      SlashesDrop(path, i);
      if path[i] == '/' {
        depth := depth + 1;
      }
      i := i - 1;
    }
    assert path[..0] == [];
    assert path[..|path|] == path;
  }

  // ---------- taking apart and putting together ----------

  /** When a path is its directory joined with its base name. */
  predicate Rejoins(p: string)
  {
    p == "/" || (|p| >= 2 && p[|p| - 1] != '/' && (LastSlash(p) > 0 ==> p[LastSlash(p) - 1] != '/'))
  }

  lemma JoinTrailing(p: string)
    requires |p| >= 2 && p[|p| - 1] == '/'
    ensures FullpathOf(DirnameOf(p), BasenameOf(p)) != p
  {
    LastSlashIs(p, |p| - 1);
    hide LastSlash;
    var d, b := DirnameOf(p), BasenameOf(p);
    assert d == p[..|p| - 1] && |b| >= 1 && b[|b| - 1] == '/';
    if |b| == 1 {
      assert |FullpathOf(d, b)| <= |p|;
      if d[|d| - 1] == '/' {
        assert |FullpathOf(d, b)| == |d|;
      }
    } else {
      assert |FullpathOf(d, b)| > |p|;
    }
  }

  lemma JoinBare(p: string)
    requires |p| >= 2 && LastSlash(p) < 0
    ensures FullpathOf(DirnameOf(p), BasenameOf(p)) == p
  {
  }

  lemma JoinTop(p: string)
    requires |p| >= 2 && LastSlash(p) == 0
    ensures FullpathOf(DirnameOf(p), BasenameOf(p)) == p
  {
    assert p[0] == '/' && p[|p| - 1] != '/' && p[1] != '/';
    hide LastSlash;
    assert DirnameOf(p) == p[..1] && BasenameOf(p) == p[1..];
    FullpathPlain(p[..1], p[1..]);
    assert p == p[..1] + p[1..];
  }

  lemma InnerParts(p: string)
    requires |p| >= 2 && p[|p| - 1] != '/' && LastSlash(p) > 0
    ensures DirnameOf(p) == p[..LastSlash(p)] && BasenameOf(p) == p[LastSlash(p) + 1..]
  {
  }

  lemma InnerJoin(p: string, k: nat)
    requires 0 < k < |p| - 1 && p[k] == '/' && p[k + 1] != '/'
    ensures FullpathOf(p[..k], p[k + 1..]) == p <==> p[k - 1] != '/'
  {
    var d, b := p[..k], p[k + 1..];
    FullpathPlain(d, b);
    hide FullpathOf;
    Middle(p, k);
  }

  lemma Middle(p: string, k: nat)
    requires k < |p| && p[k] == '/'
    ensures p == p[..k] + "/" + p[k + 1..]
  {
  }

  lemma JoinInner(p: string)
    requires |p| >= 2 && p[|p| - 1] != '/' && LastSlash(p) > 0
    ensures FullpathOf(DirnameOf(p), BasenameOf(p)) == p <==> p[LastSlash(p) - 1] != '/'
  {
    hide FullpathOf, DirnameOf, BasenameOf;
    InnerParts(p);
    InnerJoin(p, LastSlash(p));
  }

  lemma FullpathPlain(d: string, b: string)
    requires d != "" && (b == "" || b[0] != '/')
    ensures if d[|d| - 1] == '/' then |FullpathOf(d, b)| == |d| + |b| else FullpathOf(d, b) == d + "/" + b
  {
  }

  // ---------- what the routines mean ----------

  function WithoutLast(p: string): string
  {
    if p != "" && p[|p| - 1] == '/' then p[..|p| - 1] else p
  }

  function WithoutFirst(p: string): string
  {
    if p != "" && p[0] == '/' then p[1..] else p
  }

  /** Joining puts one separator at the joint, whether or not one of the parts, or both, have one there. */
  lemma JoinHasOneSlash(root: string, path: string)
    ensures FullpathOf(root, path) == if root == "" then path else WithoutLast(root) + "/" + WithoutFirst(path)
  {
    if root != "" {
      if root[|root| - 1] == '/' {
        assert root == WithoutLast(root) + "/";
        if path != "" && path[0] == '/' {
          assert FullpathOf(root, path) == root + path[1..];
        }
      } else if path != "" && path[0] == '/' {
        assert path == "/" + WithoutFirst(path);
        assert root + ("/" + WithoutFirst(path)) == root + "/" + WithoutFirst(path);
      }
    }
  }

  /** The components of a joined path are those of the two parts. */
  lemma JoinHasBoth(root: string, path: string)
    ensures Parts(FullpathOf(root, path)) == Parts(root) + Parts(path)
  {
    hide Parts;
    if root == "" {
      NoParts(root);
    } else {
      var a, b := WithoutLast(root), WithoutFirst(path);
      JoinHasOneSlash(root, path);
      SlashedParts(b);
      assert a + ("/" + b) == a + "/" + b;
      PartsJoin(a, "/" + b);
      LastSlashAway(root);
      if path != "" && path[0] == '/' {
        assert path == "/" + b;
      }
    }
  }

  lemma SlashedParts(p: string)
    ensures Parts("/" + p) == Parts(p)
  {
    assert ("/" + p)[1..] == p;
  }

  lemma LastSlashAway(p: string)
    ensures Parts(WithoutLast(p)) == Parts(p)
  {
    hide Parts;
    if p != "" && p[|p| - 1] == '/' {
      var q := p[..|p| - 1];
      assert p == q + "/";
      PartsJoin(q, "/");
      assert "/" == "/" + "";
      SlashedParts("");
      NoParts("");
      assert Parts(q) + [] == Parts(q);
    }
  }

  /** The directory name of a path has its components but the last, or all of them if the path ends in a slash. */
  lemma DirnameIs(p: string)
    ensures var tail := p[LastSlash(p) + 1..];
      '/' !in tail && Parts(p) == Parts(DirnameOf(p)) + if tail == "" then [] else [tail]
  {
    var k := LastSlash(p);
    var tail := p[k + 1..];
    assert '/' !in tail;
    if k < 0 {
      BareDirname(p);
      assert tail == p;
    } else {
      DirnameCut(p, k);
      hide Parts, LastSlash, DirnameOf;
      SplitAtSlash(p, k);
    }
    hide Parts;
    TailParts(tail);
  }

  lemma BareDirname(p: string)
    requires LastSlash(p) < 0
    ensures Parts(DirnameOf(p)) == []
  {
    hide LastSlash;
    RootParts();
    NoParts("");
  }

  lemma DirnameCut(p: string, k: nat)
    requires LastSlash(p) == k
    ensures Parts(DirnameOf(p)) == Parts(p[..k])
  {
    hide LastSlash, Parts;
    RootParts();
    NoParts("");
    if k == 0 {
      assert p[..1] == "/" && p[..0] == "" by {
        assert p[0] == '/';
      }
    }
  }

  lemma SplitAtSlash(p: string, k: nat)
    requires k < |p| && p[k] == '/'
    ensures Parts(p) == Parts(p[..k]) + Parts(p[k + 1..])
  {
    hide Parts;
    var tail := p[k + 1..];
    assert p == p[..k] + ("/" + tail);
    PartsJoin(p[..k], "/" + tail);
    SlashedParts(tail);
  }

  lemma RootParts()
    ensures Parts("/") == []
  {
    assert "/"[1..] == "";
  }

  lemma TailParts(t: string)
    requires '/' !in t
    ensures Parts(t) == if t == "" then [] else [t]
  {
    if t != "" {
      assert t[0..] == t && t[0..|t|] == t && t[|t|..] == "";
      PartsTake(t, 0, |t|);
    }
  }

  /** The base name of a path of two characters or more is what follows the last slash before its own end, a slash at
      the end included; of a shorter one only that of "/" is not empty. */
  lemma BasenameIs(p: string)
    ensures var b := BasenameOf(p);
      |b| <= |p| && p == p[..|p| - |b|] + b && (|p| < 2 ==> b == if p == "/" then "/" else "") &&
      (|p| >= 2 ==> b != "" && '/' !in WithoutLast(b) && (|b| < |p| ==> p[|p| - |b| - 1] == '/'))
  {
    if |p| >= 2 {
      var q := if p[|p| - 1] == '/' then p[..|p| - 1] else p;
      assert LastSlash(q) < |q|;
      var b := BasenameOf(p);
      assert WithoutLast(b) == q[LastSlash(q) + 1..] by {
        assert b == p[LastSlash(q) + 1..];
      }
    }
  }

  /** A path is its directory name joined with its base name exactly when it is "/", or has at least two characters,
      no '/' at its end and no "//" before its last part. */
  lemma JoinSplit(p: string)
    ensures FullpathOf(DirnameOf(p), BasenameOf(p)) == p <==> Rejoins(p)
  {
    if |p| >= 2 {
      hide LastSlash, FullpathOf, DirnameOf, BasenameOf;
      if p[|p| - 1] == '/' {
        JoinTrailing(p);
      } else if LastSlash(p) < 0 {
        JoinBare(p);
      } else if LastSlash(p) == 0 {
        JoinTop(p);
      } else {
        JoinInner(p);
      }
    }
  }

  predicate Splits(d: string, n: string)
  {
    DirnameOf(FullpathOf(d, n)) == d && BasenameOf(FullpathOf(d, n)) == n
  }

  lemma SplitBare(n: string)
    requires n != "" && '/' !in n
    ensures Splits("", n) <==> |n| >= 2
  {
    LastSlashIs(n, -1);
    hide LastSlash;
    assert n != "/" by {
      assert "/"[0] == '/';
    }
    assert n[..0] == "" && n[0..] == n;
    if |n| == 1 {
      assert |BasenameOf(n)| == 0;
    }
  }

  lemma SplitSlash(d: string, n: string)
    requires n != "" && '/' !in n && d != "" && d[|d| - 1] == '/'
    ensures Splits(d, n) <==> d == "/"
  {
    var p := d + n;
    LastSlashIs(p, |d| - 1);
    hide LastSlash;
    assert p[|d|..] == n;
    if |d| > 1 {
      assert |DirnameOf(p)| == |d| - 1;
    } else {
      assert d == "/" && p[..1] == "/";
    }
  }

  lemma SplitPlain(d: string, n: string)
    requires n != "" && '/' !in n && d != "" && d[|d| - 1] != '/'
    ensures Splits(d, n)
  {
    var p := d + "/" + n;
    LastSlashIs(p, |d|);
    hide LastSlash;
    assert p[..|d|] == d && p[|d| + 1..] == n;
  }

  /** The directory and base name of a joined path are what was joined, exactly when the directory is "/" or does not
      end in '/', and a bare name has at least two characters. */
  lemma SplitJoin(d: string, n: string)
    requires n != "" && '/' !in n
    ensures DirnameOf(FullpathOf(d, n)) == d && BasenameOf(FullpathOf(d, n)) == n <==>
      (d == "/" || (d != "" && d[|d| - 1] != '/') || (d == "" && |n| >= 2))
  {
    hide LastSlash, FullpathOf, DirnameOf, BasenameOf;
    if d == "" {
      SplitBare(n);
    } else if d[|d| - 1] == '/' {
      SplitSlash(d, n);
    } else {
      SplitPlain(d, n);
    }
  }

  // ---------- depth ----------

  /** An absolute path without empty parts, but for a '/' at the end. */
  predicate Normalized(p: string)
  {
    p != "" && p[0] == '/' && forall i :: 0 <= i < |p| - 1 ==> !(p[i] == '/' && p[i + 1] == '/')
  }

  lemma {:induction false} SlashesAppend(p: string, q: string)
    ensures Slashes(p + q) == Slashes(p) + Slashes(q)
  {
    if q == [] {
      assert p + q == p;
    } else {
      SlashesAppend(p, q[..|q| - 1]);
      assert (p + q)[..|p + q| - 1] == p + q[..|q| - 1];
    }
  }

  lemma {:induction false} NoSlashes(p: string)
    requires '/' !in p
    ensures Slashes(p) == 0
  {
    if p != [] {
      NoSlashes(p[..|p| - 1]);
    }
  }

  /** After each '/' there is a part. */
  lemma {:induction false} SlashesCountParts(p: string)
    requires p == "" || (Normalized(p) && p[|p| - 1] != '/')
    ensures Slashes(p) == |Parts(p)|
    decreases |p|
  {
    if p != "" {
      var q := p[1..];
      var k := Upto(q);
      assert q[0] != '/';
      assert p == ("/" + q[..k]) + q[k..];
      SlashesAppend("/" + q[..k], q[k..]);
      SlashesAppend("/", q[..k]);
      NoSlashes(q[..k]);
      assert Slashes("/") == 1 by {
        assert "/"[..0] == "";
      }
      SlashesCountParts(q[k..]);
    }
  }

  lemma {:induction false} PartsTrailing(p: string)
    ensures Parts(p + "/") == Parts(p)
    decreases |p|
  {
    if p == "" {
      assert "/"[1..] == "";
      assert p + "/" == "/";
    } else if p[0] == '/' {
      assert (p + "/")[1..] == p[1..] + "/";
      PartsTrailing(p[1..]);
    } else {
      var k := Upto(p);
      UptoFirst(p + "/", k);
      assert (p + "/")[..k] == p[..k] && (p + "/")[k..] == p[k..] + "/";
      PartsTrailing(p[k..]);
    }
  }

  /** The depth of a normalized path is the number of its parts; a '/' at the end does not count. */
  lemma DepthCounts(p: string)
    requires Normalized(p)
    ensures DepthOf(p) == |Parts(p)|
  {
    if |p| == 1 {
      assert p[1..] == "";
    } else if p[|p| - 1] == '/' {
      var q := p[..|p| - 1];
      assert p == q + "/" && q[|q| - 1] != '/';
      PartsTrailing(q);
      SlashesCountParts(q);
    } else {
      SlashesCountParts(p);
    }
  }

  // ---------- splitting in place ----------

  /** The NUL-terminated string at i in a buffer is t. */
  predicate StringAt(buffer: seq<char>, i: int, t: string)
  {
    0 <= i && i + |t| < |buffer| && buffer[i..i + |t|] == t && buffer[i + |t|] == '\0' && '\0' !in t
  }

  /** The first pass of fskit_path_split. */
  method CountNames(path: array<char>, len: nat) returns (num: nat)
    requires path.Length == len + 1
    ensures num == |Parts(path[..len])|
  {
    ghost var p := path[..len];
    num := 0;
    var i := 0;
    while i < len
      invariant i <= len && num + |Parts(p[i..])| == |Parts(p)|
    {
      if path[i] != '/' {
        num := num + 1;
        var start := i;
        while i < len && path[i] != '/'
          invariant start <= i <= len && forall k :: start <= k < i ==> p[k] != '/'
        {
          i := i + 1;
        }
        PartsTake(p, start, i);
      }
      if i < len {
        PartsSkip(p, i);
        i := i + 1;
      }
    }
  }

  /** What the second pass has done when it is at i: the first n parts are in place, and nothing behind i has changed. */
  ghost predicate SplitSoFar(buffer: seq<char>, p: string, names: seq<int>, n: nat, i: nat)
    requires |buffer| == |p| + 1 && i <= |p|
  {
    |names| == |Parts(p)| + 1 && n + |Parts(p[i..])| == |Parts(p)| && Parts(p)[n..] == Parts(p[i..]) &&
    (forall k :: 0 <= k < n ==> StringAt(buffer, names[k], Parts(p)[k])) && (forall k :: n <= k < |names| ==> names[k] == -1) &&
    (forall k :: 0 <= k < i ==> buffer[k] == if p[k] == '/' then '\0' else p[k]) && buffer[i..] == p[i..] + ['\0']
  }

  lemma SplitSkip(buffer: seq<char>, p: string, names: seq<int>, n: nat, i: nat)
    requires |buffer| == |p| + 1 && i < |p| && SplitSoFar(buffer, p, names, n, i) && p[i] == '/'
    requires forall k :: 0 <= k < n ==> names[k] + |Parts(p)[k]| < i
    ensures SplitSoFar(buffer[i := '\0'], p, names, n, i + 1)
  {
    PartsSkip(p, i);
    hide Parts;
    assert buffer[i := '\0'][i + 1..] == p[i + 1..] + ['\0'] by {
      assert buffer[i..][1..] == buffer[i + 1..];
    }
    forall k | 0 <= k < n ensures StringAt(buffer[i := '\0'], names[k], Parts(p)[k]) {
      assert StringAt(buffer, names[k], Parts(p)[k]);
    }
  }

  /** The part that begins at i is the next one. */
  lemma TakeParts(p: string, n: nat, i: nat, j: nat)
    requires i < j <= |p| && n + |Parts(p[i..])| == |Parts(p)| && Parts(p)[n..] == Parts(p[i..])
    requires (forall k :: i <= k < j ==> p[k] != '/') && (j < |p| ==> p[j] == '/')
    ensures var next := if j < |p| then j + 1 else j;
      n < |Parts(p)| && Parts(p)[n] == p[i..j] && n + 1 + |Parts(p[next..])| == |Parts(p)| && Parts(p)[n + 1..] == Parts(p[next..])
  {
    PartsTake(p, i, j);
    if j < |p| {
      PartsSkip(p, j);
    }
    hide Parts;
    assert Parts(p)[n..] == [p[i..j]] + Parts(p[j..]);
    assert Parts(p)[n..][0] == Parts(p)[n] && Parts(p)[n..][1..] == Parts(p)[n + 1..];
  }

  lemma StringStays(buffer: seq<char>, j: nat, i: int, t: string)
    requires StringAt(buffer, i, t) && i + |t| < j < |buffer|
    ensures StringAt(buffer[j := '\0'], i, t)
  {
    assert buffer[j := '\0'][i..i + |t|] == buffer[i..i + |t|];
  }

  lemma SplitTake(buffer: seq<char>, p: string, names: seq<int>, n: nat, i: nat, j: nat)
    requires |buffer| == |p| + 1 && i < j <= |p| && SplitSoFar(buffer, p, names, n, i) && '\0' !in p
    requires (forall k :: i <= k < j ==> p[k] != '/') && (j < |p| ==> p[j] == '/')
    requires forall k :: 0 <= k < n ==> names[k] + |Parts(p)[k]| < i
    ensures n + 1 < |names|
    ensures SplitSoFar(buffer[j := '\0'], p, names[n := i], n + 1, if j < |p| then j + 1 else j)
    ensures forall k :: 0 <= k < n + 1 ==> names[n := i][k] + |Parts(p)[k]| <= j
  {
    hide Parts, StringAt;
    TakeParts(p, n, i, j);
    BufferTake(buffer, p, i, j);
    forall k | 0 <= k < n ensures StringAt(buffer[j := '\0'], names[k], Parts(p)[k]) {
      StringStays(buffer, j, names[k], Parts(p)[k]);
    }
  }

  lemma BufferTake(buffer: seq<char>, p: string, i: nat, j: nat)
    requires |buffer| == |p| + 1 && i < j <= |p| && buffer[i..] == p[i..] + ['\0'] && '\0' !in p
    ensures var b := buffer[j := '\0'];
      StringAt(b, i, p[i..j]) && (forall k :: i <= k < j ==> b[k] == p[k]) && b[j..] == ['\0'] + (p[j..] + ['\0'])[1..] &&
      (j < |p| ==> b[j + 1..] == p[j + 1..] + ['\0'])
  {
    forall k | i <= k <= |p| ensures buffer[k] == (p[i..] + ['\0'])[k - i] {
      assert buffer[i..][k - i] == buffer[k];
    }
  }

  ghost predicate Ended(p: string, names: seq<int>, n: nat, i: nat)
    requires n <= |names| && n <= |Parts(p)|
  {
    forall k :: 0 <= k < n ==> names[k] + |Parts(p)[k]| < i + (if i == |p| then 1 else 0)
  }

  /** The end of the part that starts at i. */
  method SkipName(path: array<char>, len: nat, i: nat) returns (j: nat)
    requires path.Length == len + 1 && i < len && path[i] != '/'
    ensures i < j <= len && (forall k :: i <= k < j ==> path[k] != '/') && (j < len ==> path[j] == '/')
  {
    j := i;
    while j < len && path[j] != '/'
      invariant i <= j <= len && forall k :: i <= k < j ==> path[k] != '/'
    {
      j := j + 1;
    }
  }

  /** One round of the second pass of fskit_path_split: a '/', or a name and what ends it. */
  method SplitRound(path: array<char>, len: nat, names: array<int>, namesI: nat, i: nat, ghost p: string)
    returns (namesI': nat, i': nat)
    requires path.Length == len + 1 && i < len && |p| == len && '\0' !in p
    requires SplitSoFar(path[..], p, names[..], namesI, i) && Ended(p, names[..], namesI, i)
    modifies path, names
    ensures i < i' <= len && path[len] == old(path[len])
    ensures SplitSoFar(path[..], p, names[..], namesI', i') && Ended(p, names[..], namesI', i')
  {
    BufferAhead(path[..], p, i);
    if path[i] == '/' {
      SplitSkip(path[..], p, names[..], namesI, i);
      hide SplitSoFar;
      path[i] := '\0';
      assert path[..] == old(path[..])[i := '\0'];
      return namesI, i + 1;
    }
    var j := SkipName(path, len, i);
    SplitTake(path[..], p, names[..], namesI, i, j);
    hide SplitSoFar;
    names[namesI] := i;
    path[j] := '\0';
    assert path[..] == old(path[..])[j := '\0'];
    assert names[..] == old(names[..])[namesI := i];
    return namesI + 1, if j < len then j + 1 else j;
  }

  /** fskit_path_split: the path buffer is cut at every '/', and the names point at the parts. */
  method PathSplit(path: array<char>, len: nat) returns (names: array<int>)
    requires path.Length == len + 1 && path[len] == '\0' && '\0' !in path[..len]
    modifies path
    ensures fresh(names) && names.Length == |Parts(old(path[..len]))| + 1 && names[names.Length - 1] == -1
    ensures forall k :: 0 <= k < names.Length - 1 ==> StringAt(path[..], names[k], Parts(old(path[..len]))[k])
    ensures forall k :: 0 <= k < len ==> path[k] == if old(path[k]) == '/' then '\0' else old(path[k])
  {
    ghost var p := path[..len];
    var num := CountNames(path, len);
    names := new int[num + 1](k => -1);
    var namesI := 0;
    var i := 0;
    assert p[0..] == p && path[..][0..] == p[0..] + ['\0'];
    while i < len
      invariant i <= len && SplitSoFar(path[..], p, names[..], namesI, i) && Ended(p, names[..], namesI, i)
    {
      namesI, i := SplitRound(path, len, names, namesI, i, p);
    }
    NoParts(p[i..]);
  }

  lemma BufferAhead(buffer: seq<char>, p: string, i: nat)
    requires |buffer| == |p| + 1 && i <= |p| && buffer[i..] == p[i..] + ['\0']
    ensures forall k :: i <= k < |p| ==> buffer[k] == p[k]
  {
    forall k | i <= k < |p| ensures buffer[k] == p[k] {
      assert buffer[i..][k - i] == buffer[k];
    }
  }
}
