/** Path strings: how fskit takes them apart and puts them together. A string is the characters before its NUL. */
module Paths {
  import opened Names
  import opened Wrappers

  // ---------- names in a path ----------

  /** Where the first '/' is, or the length. */
  function Upto(p: string): (k: nat)
    ensures k <= |p| && (forall i :: 0 <= i < k ==> p[i] != '/') && (k < |p| ==> p[k] == '/')
  {
    if p == [] || p[0] == '/' then 0 else 1 + Upto(p[1..])
  }

  /** The longest stretches of a path without '/'. */
  function Parts(p: string): seq<string>
    decreases |p|
  {
    if p == [] then []
    else if p[0] == '/' then Parts(p[1..])
    else [p[..Upto(p)]] + Parts(p[Upto(p)..])
  }

  /** The parts without ".". */
  function Walked(p: string): seq<Name>
  {
    NoDots(Parts(p))
  }

  function NoDots(parts: seq<string>): seq<Name>
  {
    if parts == [] then [] else (if parts[0] == "." then [] else [parts[0]]) + NoDots(parts[1..])
  }

  lemma {:induction false} UptoFirst(p: string, k: nat)
    requires k <= |p| && (forall i :: 0 <= i < k ==> p[i] != '/') && (k < |p| ==> p[k] == '/')
    ensures Upto(p) == k
  {
    if k > 0 {
      UptoFirst(p[1..], k - 1);
    }
  }

  lemma PartsSkip(p: string, i: nat)
    requires i < |p| && p[i] == '/'
    ensures Parts(p[i..]) == Parts(p[i + 1..])
  {
    assert p[i..][1..] == p[i + 1..];
  }

  lemma PartsTake(p: string, i: nat, j: nat)
    requires i < j <= |p| && (forall k :: i <= k < j ==> p[k] != '/') && (j < |p| ==> p[j] == '/')
    ensures Parts(p[i..]) == [p[i..j]] + Parts(p[j..])
  {
    UptoFirst(p[i..], j - i);
    assert p[i..][..j - i] == p[i..j];
    assert p[i..][j - i..] == p[j..];
  }

  /** strtok_r with "/" on what is left of the path from pos on. */
  method StrTok(p: string, pos: nat) returns (tok: Option<string>, next: nat)
    requires pos <= |p|
    ensures pos <= next <= |p|
    ensures tok.None? ==> Parts(p[pos..]) == [] && next == |p|
    ensures tok.Some? ==> Parts(p[pos..]) == [tok.value] + Parts(p[next..]) && next > pos
  {
    hide Parts;
    var start := pos;
    while start < |p| && p[start] == '/'
      invariant pos <= start <= |p| && Parts(p[pos..]) == Parts(p[start..])
    {
      PartsSkip(p, start);
      start := start + 1;
    }
    if start == |p| {
      NoParts(p[start..]);
      return None, start;
    }
    next := start;
    while next < |p| && p[next] != '/'
      invariant start <= next <= |p| && forall i :: start <= i < next ==> p[i] != '/'
    {
      next := next + 1;
    }
    PartsTake(p, start, next);
    tok := Some(p[start..next]);
    if next < |p| {
      PartsSkip(p, next);
      next := next + 1;
    }
  }

  lemma NoParts(p: string)
    requires |p| == 0
    ensures Parts(p) == []
  {
  }

  /** The next part that is not ".". */
  method NextName(p: string, pos: nat) returns (name: Option<Name>, next: nat)
    requires pos <= |p|
    ensures pos <= next <= |p|
    ensures name.None? ==> Walked(p[pos..]) == []
    ensures name.Some? ==> Walked(p[pos..]) == [name.value] + Walked(p[next..]) && next > pos && name.value != "."
  {
    var from := pos;
    name, next := StrTok(p, pos);
    while name.Some? && name.value == "."
      invariant pos <= from <= next <= |p| && (name.Some? ==> from < next)
      invariant Walked(p[pos..]) == Walked(p[from..])
      invariant name.None? ==> Parts(p[from..]) == []
      invariant name.Some? ==> Parts(p[from..]) == [name.value] + Parts(p[next..])
      decreases |p| - from
    {
      DropDot(p[from..], p[next..]);
      from := next;
      name, next := StrTok(p, next);
    }
    if name.Some? {
      var parts := Parts(p[from..]);
      assert parts[1..] == Parts(p[next..]);
    }
  }

  lemma DropDot(p: string, rest: string)
    requires Parts(p) == ["."] + Parts(rest)
    ensures Walked(p) == Walked(rest)
  {
    assert Parts(p)[1..] == Parts(rest);
  }

  lemma {:induction false} PartsDot(p: string)
    requires p != "" && p[|p| - 1] == '/'
    ensures Parts(p + ".") == Parts(p) + ["."]
    decreases |p|
  {
    if p[0] == '/' {
      assert (p + ".")[1..] == p[1..] + ".";
      if |p| == 1 {
        assert p[1..] + "." == ".";
        assert Upto(".") == 1 && "."[..1] == "." && "."[1..] == "";
        assert Parts(".") == ["."];
        assert Parts(p[1..]) == [];
      } else {
        PartsDot(p[1..]);
      }
    } else {
      var k := Upto(p);
      UptoFirst(p + ".", k);
      assert (p + ".")[..k] == p[..k] && (p + ".")[k..] == p[k..] + ".";
      PartsDot(p[k..]);
    }
  }

  lemma {:induction false} NoDotsAppend(a: seq<string>)
    ensures NoDots(a + ["."]) == NoDots(a)
  {
    if a == [] {
      assert [] + ["."] == ["."];
    } else {
      assert (a + ["."])[1..] == a[1..] + ["."];
      NoDotsAppend(a[1..]);
    }
  }

  /** A "." after a '/' at the end adds nothing. */
  lemma WalkedDot(p: string)
    requires p != "" && p[|p| - 1] == '/'
    ensures Walked(p + ".") == Walked(p)
  {
    PartsDot(p);
    NoDotsAppend(Parts(p));
  }

  // ---------- paths that are joined ----------

  lemma JoinWhole(a: string, b: string)
    requires a != "" && '/' !in a && (b == "" || b[0] == '/')
    ensures Parts(a + b) == Parts(a) + Parts(b)
  {
    assert (a + b)[0..] == a + b && (a + b)[0..|a|] == a && (a + b)[|a|..] == b;
    PartsTake(a + b, 0, |a|);
    assert a[0..] == a && a[0..|a|] == a && a[|a|..] == "";
    PartsTake(a, 0, |a|);
  }

  lemma JoinCut(a: string, b: string, k: nat)
    requires 0 < k < |a| && (forall i :: 0 <= i < k ==> a[i] != '/') && a[k] == '/'
    ensures Parts(a) == [a[..k]] + Parts(a[k..]) && Parts(a + b) == [a[..k]] + Parts(a[k..] + b)
  {
    assert (a + b)[0..] == a + b && (a + b)[0..k] == a[..k] && (a + b)[k..] == a[k..] + b;
    PartsTake(a + b, 0, k);
    assert a[0..] == a && a[0..k] == a[..k];
    PartsTake(a, 0, k);
  }

  lemma JoinSkip(a: string, b: string)
    requires a != "" && a[0] == '/'
    ensures Parts(a) == Parts(a[1..]) && Parts(a + b) == Parts(a[1..] + b)
  {
    assert (a + b)[1..] == a[1..] + b;
  }

  lemma {:induction false} PartsJoin(a: string, b: string)
    requires a == "" || a[|a| - 1] == '/' || b == "" || b[0] == '/'
    ensures Parts(a + b) == Parts(a) + Parts(b)
    decreases |a|
  {
    hide Parts;
    if a == "" {
      NoParts(a);
      assert a + b == b;
    } else if a[0] == '/' {
      JoinSkip(a, b);
      PartsJoin(a[1..], b);
    } else {
      var k := Upto(a);
      hide Upto;
      if k == |a| {
        JoinWhole(a, b);
      } else {
        JoinCut(a, b, k);
        PartsJoin(a[k..], b);
        assert [a[..k]] + (Parts(a[k..]) + Parts(b)) == [a[..k]] + Parts(a[k..]) + Parts(b);
      }
    }
  }
}
