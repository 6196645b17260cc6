/** Listing the names of extended attributes into a buffer, each ended by a NUL. */
module ListXattr {
  import opened Names
  import opened Listing

  const ERANGE := -34

  /** What the buffer holds: the names, each followed by a NUL. */
  function Packed(names: seq<Name>): string
  {
    if names == [] then "" else Packed(names[..|names| - 1]) + names[|names| - 1] + "\0"
  }

  /** The strings of a buffer, one after the other. */
  function Unpacked(s: string): seq<string>
    decreases |s|
  {
    if s == "" then []
    else
      var n := CString(s);
      CStringFits(s);
      if |n| >= |s| then [n] else [n] + Unpacked(s[|n| + 1..])
  }

  lemma {:induction false} CStringFits(s: string)
    ensures |CString(s)| <= |s| && CString(s) == s[..|CString(s)|]
  {
    if s != "" && s[0] != '\0' {
      CStringFits(s[1..]);
    }
  }

  lemma {:induction false} CStringOf(n: string, rest: string)
    requires '\0' !in n
    ensures CString(n + "\0" + rest) == n
  {
    var s := n + "\0" + rest;
    if n == "" {
      assert s[0] == '\0';
    } else {
      assert s[0] == n[0] && s[1..] == n[1..] + "\0" + rest;
      CStringOf(n[1..], rest);
    }
  }

  lemma {:induction false} PackedCons(n: Name, names: seq<Name>)
    ensures Packed([n] + names) == n + "\0" + Packed(names)
  {
    if names == [] {
      assert [n] + names == [n] && Packed([n]) == Packed([]) + n + "\0";
    } else {
      var last := |names| - 1;
      PackedCons(n, names[..last]);
      assert ([n] + names)[..last + 1] == [n] + names[..last];
      assert n + "\0" + Packed(names[..last]) + names[last] + "\0" == n + "\0" + (Packed(names[..last]) + names[last] + "\0");
    }
  }

  /** Splitting the buffer at NULs gives back the names. */
  lemma {:induction false} UnpackedPacked(names: seq<Name>)
    requires forall n :: n in names ==> '\0' !in n
    ensures Unpacked(Packed(names)) == names
    decreases |names|
  {
    if names != [] {
      var n, rest := names[0], names[1..];
      assert names == [n] + rest;
      PackedCons(n, rest);
      CStringOf(n, Packed(rest));
      var s := n + "\0" + Packed(rest);
      assert s[|n| + 1..] == Packed(rest);
      UnpackedPacked(rest);
    }
  }

  lemma PackedSnoc(names: seq<Name>, i: nat)
    requires i < |names|
    ensures Packed(names[..i + 1]) == Packed(names[..i]) + names[i] + "\0"
  {
    assert names[..i + 1][..i] == names[..i];
  }

  lemma {:induction false} PackedGrows(names: seq<Name>, i: nat)
    requires i <= |names|
    ensures |Packed(names[..i])| <= |Packed(names)|
    decreases |names| - i
  {
    if i < |names| {
      PackedSnoc(names, i);
      PackedGrows(names, i + 1);
    } else {
      assert names[..i] == names;
    }
  }

  /** fskit_listxattr_len. */
  method Length(names: seq<Name>) returns (size: nat)
    ensures size == |Packed(names)|
  {
    size := 0;
    var i := 0;
    while i < |names|
      invariant i <= |names| && size == |Packed(names[..i])|
    {
      PackedSnoc(names, i);
      size := size + |names[i]| + 1;
      i := i + 1;
    }
    assert names[..i] == names;
  }

  /** memcpy into a buffer. */
  method CopyTo(list: array<char>, offset: nat, s: string)
    requires offset + |s| <= list.Length
    modifies list
    ensures list[..] == old(list[..offset]) + s + old(list[offset + |s|..])
  {
    var i := 0;
    while i < |s|
      invariant i <= |s| && list[..] == old(list[..offset]) + s[..i] + old(list[offset + i..])
    {
      list[offset + i] := s[i];
      i := i + 1;
    }
    assert s[..i] == s;
  }

  /** One name and its NUL, behind what is done. */
  method CopyName(list: array<char>, offset: nat, name: Name, ghost done: string, ghost was: seq<char>)
    requires offset == |done| && offset + |name| + 1 <= list.Length == |was| && list[..] == done + was[offset..]
    modifies list
    ensures list[..] == done + name + "\0" + was[offset + |name| + 1..]
  {
    CopyTo(list, offset, name + "\0");
    AfterCopy(was, done, name, offset);
  }

  /** fskit_listxattr_copy_names. */
  method CopyNames(names: seq<Name>, list: array<char>)
    requires |Packed(names)| <= list.Length
    modifies list
    ensures list[..] == Packed(names) + old(list[|Packed(names)|..])
  {
    var offset, i := 0, 0;
    while i < |names|
      invariant i <= |names| && offset == |Packed(names[..i])| <= list.Length
      invariant list[..] == Packed(names[..i]) + old(list[..])[offset..]
    {
      PackedSnoc(names, i);
      PackedGrows(names, i + 1);
      var name := names[i];
      CopyName(list, offset, name, Packed(names[..i]), old(list[..]));
      offset := offset + |name| + 1;
      i := i + 1;
    }
    assert names[..i] == names;
  }

  lemma AfterCopy(was: seq<char>, done: string, name: Name, offset: nat)
    requires offset == |done| && offset + |name| + 1 <= |was|
    ensures var list := done + was[offset..];
      list[..offset] + (name + "\0") + list[offset + |name + "\0"|..] == done + name + "\0" + was[offset + |name| + 1..]
  {
  }

  /** fskit_xattr_flistxattr: the length alone, or the names in order if they fit; a short buffer stays as it is. */
  method FListXattr<V>(xattrs: map<Name, V>, list: array?<char>, size: nat) returns (rc: int)
    requires list != null ==> size <= list.Length
    modifies list
    ensures var all := Packed(SortedNames(xattrs.Keys));
      if list == null || size == 0 then rc == |all| && (list != null ==> list[..] == old(list[..]))
      else if |all| > size then rc == ERANGE && list[..] == old(list[..])
      else rc == |all| && list[..] == all + old(list[|all|..])
  {
    var names := NamesInOrder(xattrs.Keys);
    var total := Length(names);
    if list == null || size == 0 {
      return total;
    }
    if total > size {
      return ERANGE;
    }
    CopyNames(names, list);
    return total;
  }
}
