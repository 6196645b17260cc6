/** Names as C strings, ordered as strcmp(3) orders them: by the first differing byte,
    a proper prefix first.  A string here is the bytes before the terminating NUL. */
module Names {

  type Name = string

  /** The sign of strcmp(a, b). */
  function StrCmp(a: Name, b: Name): int
  {
    if a == [] then (if b == [] then 0 else -1)
    else if b == [] then 1
    else if a[0] < b[0] then -1
    else if b[0] < a[0] then 1
    else StrCmp(a[1..], b[1..])
  }

  predicate NameLess(a: Name, b: Name)
  {
    StrCmp(a, b) < 0
  }

  lemma {:induction false} StrCmpZero(a: Name, b: Name)
    ensures StrCmp(a, b) == 0 <==> a == b
  {
    if a == [] || b == [] {
    } else {
      StrCmpZero(a[1..], b[1..]);
      assert a == [a[0]] + a[1..] && b == [b[0]] + b[1..];
    }
  }

  lemma {:induction false} StrCmpAntisymmetric(a: Name, b: Name)
    ensures StrCmp(a, b) == -StrCmp(b, a)
  {
    if a == [] || b == [] {
    } else {
      StrCmpAntisymmetric(a[1..], b[1..]);
    }
  }

  /** The names agree up to k, and there a ends or has the smaller byte. */
  predicate LessAt(a: Name, b: Name, k: nat)
  {
    k <= |a| && k < |b| && a[..k] == b[..k] && (k == |a| || a[k] < b[k])
  }

  lemma LessAtHead(a: Name, b: Name, k: nat)
    requires a != [] && b != [] && LessAt(a, b, k)
    ensures if k == 0 then a[0] < b[0] else a[0] == b[0]
  {
    assert k > 0 ==> a[..k][0] == a[0] && b[..k][0] == b[0];
  }

  /** One name is less than another exactly when it is a proper prefix, or has the smaller byte where they first differ. */
  lemma {:induction false} LessWhere(a: Name, b: Name)
    ensures NameLess(a, b) <==> exists k: nat :: LessAt(a, b, k)
    ensures StrCmp(a, b) in {-1, 0, 1}
  {
    if a == [] || b == [] {
      if b != [] {
        assert LessAt(a, b, 0);
      }
    } else if a[0] != b[0] {
      if a[0] < b[0] {
        assert LessAt(a, b, 0);
      }
      forall k: nat | LessAt(a, b, k) ensures a[0] < b[0] {
        LessAtHead(a, b, k);
      }
    } else {
      LessWhere(a[1..], b[1..]);
      if k: nat :| LessAt(a[1..], b[1..], k) {
        assert a[..k + 1] == [a[0]] + a[1..][..k] && b[..k + 1] == [b[0]] + b[1..][..k];
        assert LessAt(a, b, k + 1);
      }
      if k: nat :| LessAt(a, b, k) {
        assert k > 0 && a[..k][1..] == a[1..][..k - 1] && b[..k][1..] == b[1..][..k - 1];
        assert LessAt(a[1..], b[1..], k - 1);
      }
    }
  }

  lemma {:induction false} NameLessTransitive(a: Name, b: Name, c: Name)
    requires NameLess(a, b) && NameLess(b, c)
    ensures NameLess(a, c)
  {
    if a == [] || b == [] || c == [] {
    } else if a[0] == b[0] && b[0] == c[0] {
      NameLessTransitive(a[1..], b[1..], c[1..]);
    }
  }

  /** The bytes before the terminating NUL. */
  function CString(b: seq<char>): string
  {
    if b == [] || b[0] == '\0' then [] else [b[0]] + CString(b[1..])
  }

  lemma {:induction false} CStringTo(b: seq<char>, k: nat)
    requires k < |b| && b[k] == '\0' && forall i :: 0 <= i < k ==> b[i] != '\0'
    ensures CString(b) == b[..k]
  {
    if k > 0 {
      CStringTo(b[1..], k - 1);
      assert b[..k] == [b[0]] + b[1..][..k - 1];
    }
  }
}
