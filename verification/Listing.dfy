/** The names of a set in the order in which its iterator gives them. */
module Listing {
  import opened Names

  ghost predicate Increasing(names: seq<Name>)
  {
    forall i, j :: 0 <= i < j < |names| ==> NameLess(names[i], names[j])
  }

  ghost predicate Least(s: set<Name>, n: Name)
  {
    n in s && forall m :: m in s && m != n ==> NameLess(n, m)
  }

  lemma {:induction false} LeastExists(s: set<Name>) returns (n: Name)
    requires s != {}
    ensures Least(s, n)
    decreases |s|
  {
    var x :| x in s;
    if s == {x} {
      n := x;
    } else {
      var y := LeastExists(s - {x});
      StrCmpZero(x, y);
      StrCmpAntisymmetric(x, y);
      n := if NameLess(x, y) then x else y;
      forall m | m in s && m != n ensures NameLess(n, m) {
        if n == x && m != y {
          NameLessTransitive(x, y, m);
        }
      }
    }
  }

  lemma LeastIsOne(s: set<Name>, a: Name, b: Name)
    requires Least(s, a) && Least(s, b)
    ensures a == b
  {
    StrCmpAntisymmetric(a, b);
  }

  ghost function LeastOf(s: set<Name>): (n: Name)
    requires s != {}
    ensures Least(s, n)
  {
    assert exists n :: Least(s, n) by {
      var n := LeastExists(s);
    }
    var n :| Least(s, n);
    n
  }

  /** The names of s, in increasing order. */
  ghost function SortedNames(s: set<Name>): seq<Name>
    decreases |s|
  {
    if s == {} then [] else [LeastOf(s)] + SortedNames(s - {LeastOf(s)})
  }

  lemma Prepend(n: Name, rest: seq<Name>)
    requires Increasing(rest) && forall m :: m in rest ==> NameLess(n, m)
    ensures Increasing([n] + rest) && forall m :: m in [n] + rest <==> m == n || m in rest
  {
    hide NameLess;
    forall i, j | 0 <= i < j < |[n] + rest| ensures NameLess(([n] + rest)[i], ([n] + rest)[j]) {
      assert ([n] + rest)[j] in rest;
    }
  }

  lemma Append(names: seq<Name>, n: Name)
    requires Increasing(names) && forall m :: m in names ==> NameLess(m, n)
    ensures Increasing(names + [n]) && forall m :: m in names + [n] <==> m in names || m == n
  {
    hide NameLess;
    forall i, j | 0 <= i < j < |names + [n]| ensures NameLess((names + [n])[i], (names + [n])[j]) {
      assert (names + [n])[i] in names;
    }
  }

  lemma Snoc(names: seq<Name>)
    requires Increasing(names) && names != []
    ensures var (init, last) := (names[..|names| - 1], names[|names| - 1]);
      Increasing(init) && (forall m :: m in init ==> NameLess(m, last)) && forall m :: m in names <==> m in init || m == last
  {
    hide NameLess;
    assert names == names[..|names| - 1] + [names[|names| - 1]];
  }

  lemma {:induction false} SortedNamesFacts(s: set<Name>)
    ensures Increasing(SortedNames(s)) && forall n :: n in SortedNames(s) <==> n in s
    decreases |s|
  {
    if s != {} {
      var n := LeastOf(s);
      SortedNamesFacts(s - {n});
      hide NameLess, Increasing;
      Prepend(n, SortedNames(s - {n}));
    }
  }

  /** There is one such order. */
  lemma {:induction false} SortedIsUnique(a: seq<Name>, b: seq<Name>)
    requires Increasing(a) && Increasing(b) && forall n :: n in a <==> n in b
    ensures a == b
  {
    if a == [] || b == [] {
      FirstIn(a);
      FirstIn(b);
    } else {
      assert a[0] in b;
      assert b[0] in a;
      var i :| 0 <= i < |a| && a[i] == b[0];
      var j :| 0 <= j < |b| && b[j] == a[0];
      if i > 0 && j > 0 {
        StrCmpAntisymmetric(a[0], b[0]);
      }
      assert a[0] == b[0];
      forall n ensures n in a[1..] <==> n in b[1..] {
        TailHas(a, n);
        TailHas(b, n);
      }
      SortedIsUnique(a[1..], b[1..]);
      assert a == [a[0]] + a[1..] && b == [b[0]] + b[1..];
    }
  }

  lemma FirstIn(a: seq<Name>)
    ensures a == [] || a[0] in a
  {
  }

  lemma TailHas(a: seq<Name>, n: Name)
    requires Increasing(a) && a != []
    ensures n in a[1..] <==> n in a && n != a[0]
  {
    StrCmpZero(a[0], a[0]);
    if n in a && n != a[0] {
      var i :| 0 <= i < |a| && a[i] == n;
      assert a[1..][i - 1] == n;
    }
    if n in a[1..] {
      var i :| 0 <= i < |a[1..]| && a[1..][i] == n;
      assert a[i + 1] == n;
    }
  }

  /** The names of a set, as its iterator lists them. */
  method NamesInOrder(s: set<Name>) returns (names: seq<Name>)
    ensures names == SortedNames(s)
  {
    names := [];
    var rest := s;
    while rest != {}
      invariant SortedNames(s) == names + SortedNames(rest)
      decreases |rest|
    {
      ghost var least := LeastOf(rest);
      assert Least(rest, least);
      var n :| n in rest && forall m :: m in rest && m != n ==> NameLess(n, m);
      LeastIsOne(rest, n, least);
      assert names + ([n] + SortedNames(rest - {n})) == names + [n] + SortedNames(rest - {n});
      names := names + [n];
      rest := rest - {n};
    }
  }
}
