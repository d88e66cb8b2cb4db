/**
 Hidesets of the preprocessor: sets of macro names, interned as ascending,
 null-terminated arrays and referred to by index. A set of more than thirty
 names is not stored; adding a name then leaves the hideset as it is.
 */
module Hideset {

  /** A macro name, identified by the address of its table entry; 0 is the null pointer. */
  type Name = n: int | n > 0 witness 1

  const HSSIZ := 32

  ghost predicate Ascending(s: seq<Name>) {
    forall i, j :: 0 <= i < j < |s| ==> s[i] < s[j]
  }

  ghost function Elems(s: seq<Name>): set<Name> {
    set x | x in s
  }

  /** Sorted insertion, keeping a name that is already there. */
  function Insert(s: seq<Name>, n: Name): seq<Name> {
    if s == [] then [n]
    else if s[0] < n then [s[0]] + Insert(s[1..], n)
    else if s[0] == n then s
    else [n] + s
  }

  lemma {:induction false} InsertMembers(s: seq<Name>, n: Name)
    ensures forall x :: x in Insert(s, n) <==> x in s || x == n
  {
    if s != [] && s[0] < n {
      InsertMembers(s[1..], n);
      assert s == [s[0]] + s[1..];
    }
  }

  lemma {:induction false} InsertAscending(s: seq<Name>, n: Name)
    requires Ascending(s)
    ensures Ascending(Insert(s, n)) && |Insert(s, n)| == if n in s then |s| else |s| + 1
  {
    if s != [] && s[0] < n {
      var t := Insert(s[1..], n);
      InsertAscending(s[1..], n);
      InsertMembers(s[1..], n);
      assert n in s <==> n in s[1..];
      forall j | 0 <= j < |t| ensures s[0] < t[j] {
        assert t[j] in t;
      }
    }
  }

  lemma {:induction false} InsertElems(s: seq<Name>, n: Name)
    requires Ascending(s)
    ensures Ascending(Insert(s, n)) && Elems(Insert(s, n)) == Elems(s) + {n}
    ensures |Insert(s, n)| <= |s| + 1
  {
    InsertMembers(s, n);
    InsertAscending(s, n);
  }

  lemma ElemsCons(x: Name, s: seq<Name>)
    ensures Elems([x] + s) == {x} + Elems(s)
  {
  }

  lemma {:induction false} ElemsCard(s: seq<Name>)
    requires Ascending(s)
    ensures |Elems(s)| == |s|
  {
    if s != [] {
      ElemsCard(s[1..]);
      ElemsCons(s[0], s[1..]);
      assert s == [s[0]] + s[1..];
      assert s[0] !in s[1..];
    }
  }

  /** An ascending array is determined by its set of names. */
  lemma {:induction false} AscendingUnique(s: seq<Name>, t: seq<Name>)
    requires Ascending(s) && Ascending(t) && Elems(s) == Elems(t)
    ensures s == t
  {
    ElemsCard(s);
    ElemsCard(t);
    if s != [] {
      assert s[0] in Elems(t) && t[0] in Elems(s);
      assert s[0] == t[0];
      assert s == [s[0]] + s[1..] && t == [t[0]] + t[1..];
      forall x ensures x in Elems(s[1..]) <==> x in Elems(t[1..]) {
        assert x in Elems(s[1..]) <==> x in Elems(s) && x != s[0];
        assert x in Elems(t[1..]) <==> x in Elems(t) && x != t[0];
      }
      AscendingUnique(s[1..], t[1..]);
    }
  }

  /** The table: entry 0 is empty, entries are ascending, at most thirty names long and pairwise different. */
  ghost predicate TableOk(sets: seq<seq<Name>>) {
    && |sets| > 0 && sets[0] == []
    && (forall i :: 0 <= i < |sets| ==> Ascending(sets[i]) && |sets[i]| <= HSSIZ - 2)
    && forall i, j :: 0 <= i < j < |sets| ==> sets[i] != sets[j]
  }

  /** Different indices denote different sets. */
  lemma DistinctSets(sets: seq<seq<Name>>, i: nat, j: nat)
    requires TableOk(sets) && i < j < |sets|
    ensures Elems(sets[i]) != Elems(sets[j])
  {
    if Elems(sets[i]) == Elems(sets[j]) {
      AscendingUnique(sets[i], sets[j]);
    }
  }

  /** Insertion where the names before `k` are smaller and the one at `k`, if any, is not. */
  lemma {:induction false} InsertAt(s: seq<Name>, n: Name, k: nat)
    requires k <= |s| && (forall i :: 0 <= i < k ==> s[i] < n) && (k < |s| ==> s[k] >= n)
    ensures Insert(s, n) == s[..k] + (if k < |s| && s[k] == n then [] else [n]) + s[k..]
  {
    if k > 0 {
      InsertAt(s[1..], n, k - 1);
      assert s[..k] == [s[0]] + s[1..][..k - 1] && s[1..][k - 1..] == s[k..];
    }
  }

  /** Copies the names below n. */
  method CopyHead(dst: array<int>, src: seq<Name>, n: Name) returns (s: nat)
    requires |src| <= dst.Length
    modifies dst
    ensures s <= |src| && dst[..s] == src[..s] && (forall i :: 0 <= i < s ==> src[i] < n) && (s < |src| ==> src[s] >= n)
  {
    s := 0;
    while s < |src| && src[s] < n
      invariant s <= |src| && dst[..s] == src[..s] && forall i :: 0 <= i < s ==> src[i] < n
    {
      dst[s] := src[s];
      s := s + 1;
    }
  }

  /** Merges n into the null-terminated src, writing the result and its terminator to the scratch array. */
  method InsertHs(dst: array<int>, src: seq<Name>, n: Name) returns (len: nat)
    requires Ascending(src) && |src| <= HSSIZ - 2 && dst.Length == HSSIZ + 3
    modifies dst
    ensures 0 < len <= HSSIZ && len == |Insert(src, n)| + 1
    ensures dst[..len - 1] == Insert(src, n) && dst[len - 1] == 0
  {
    var s := CopyHead(dst, src, n);
    InsertAt(src, n, s);
    var d := s;
    if s == |src| || src[s] != n {
      dst[d] := n;
      d := d + 1;
    }
    assert dst[..d] == src[..s] + if s < |src| && src[s] == n then [] else [n];
    len := CopyTail(dst, d, src, s);
  }

  /** Copies src[k..] and a terminator to the scratch array from d on. */
  method CopyTail(dst: array<int>, d: nat, src: seq<Name>, k: nat) returns (len: nat)
    requires k <= |src| && d + |src| - k < dst.Length
    modifies dst
    ensures len == d + |src| - k + 1
    ensures dst[..len - 1] == old(dst[..d]) + src[k..] && dst[len - 1] == 0
  {
    var s := k;
    while s < |src|
      invariant k <= s <= |src|
      invariant dst[..d] == old(dst[..d])
      invariant forall i :: k <= i < s ==> dst[d + i - k] == src[i]
    {
      dst[d + s - k] := src[s];
      s := s + 1;
    }
    dst[d + s - k] := 0;
    len := d + s - k + 1;
  }

  class Table {
    var hidesets: seq<seq<Name>>

    ghost predicate Valid()
      reads this
    {
      TableOk(hidesets)
    }

    constructor ()
      ensures Valid() && hidesets == [[]]
    {
      hidesets := [[]];
    }

    /** Is n in hideset hs? */
    method Check(hs: nat, n: Name) returns (b: bool)
      requires Valid() && hs < |hidesets|
      ensures b <==> n in Elems(hidesets[hs])
    {
      for i := 0 to |hidesets[hs]|
        invariant n !in hidesets[hs][..i]
      {
        if hidesets[hs][i] == n {
          return true;
        }
      }
      return false;
    }

    /** Hideset hs with n added, or hs itself when that would be more than thirty names. */
    method New(hs: nat, n: Name) returns (r: nat)
      requires Valid() && hs < |hidesets|
      modifies this
      ensures Valid() && old(hidesets) <= hidesets && r < |hidesets|
      ensures |Elems(hidesets[hs]) + {n}| <= 30 ==> Elems(hidesets[r]) == Elems(hidesets[hs]) + {n}
      ensures |Elems(hidesets[hs]) + {n}| > 30 ==> r == hs
    {
      var nhs := new int[HSSIZ + 3];
      var len := InsertHs(nhs, hidesets[hs], n);
      ghost var s := Insert(hidesets[hs], n);
      InsertElems(hidesets[hs], n);
      ElemsCard(s);
      for i := 0 to |hidesets|
        invariant forall j :: 0 <= j < i ==> hidesets[j] != s
        invariant hidesets == old(hidesets) && nhs[..len - 1] == s
      {
        if nhs[..len - 1] == hidesets[i] {
          return i;
        }
      }
      if len >= HSSIZ {
        return hs;
      }
      r := |hidesets|;
      hidesets := hidesets + [nhs[..len - 1]];
    }

    /** The union of two hidesets as far as thirty names go. */
    method Union(hs1: nat, hs2: nat) returns (r: nat)
      requires Valid() && hs1 < |hidesets| && hs2 < |hidesets|
      modifies this
      ensures Valid() && old(hidesets) <= hidesets && r < |hidesets|
      ensures var a, b := Elems(hidesets[hs1]), Elems(hidesets[hs2]);
        && a <= Elems(hidesets[r]) <= a + b && |Elems(hidesets[r])| <= 30
        && (Elems(hidesets[r]) == a + b || |Elems(hidesets[r])| == 30)
    {
      r := hs1;
      ghost var a, b := Elems(hidesets[hs1]), Elems(hidesets[hs2]);
      ghost var s := hidesets[hs2];
      for i := 0 to |hidesets[hs2]|
        invariant Valid() && old(hidesets) <= hidesets && r < |hidesets| && hidesets[hs2] == s
        invariant UnitedBy(a, b, Elems(hidesets[r]), Elems(s[..i]))
      {
        ghost var e := Elems(hidesets[r]);
        r := New(r, hidesets[hs2][i]);
        ElemsSnoc(s, i);
        JoinOne(a, b, e, Elems(hidesets[r]), Elems(s[..i]), s[i]);
      }
      assert s[..|s|] == s;
      ElemsCard(hidesets[r]);
    }
  }

  /** e is a and the names in `front`, as far as thirty names go. */
  ghost predicate UnitedBy(a: set<Name>, b: set<Name>, e: set<Name>, front: set<Name>) {
    a <= e <= a + b && (e == a + front || |e| >= HSSIZ - 2)
  }

  lemma JoinOne(a: set<Name>, b: set<Name>, e: set<Name>, e': set<Name>, front: set<Name>, n: Name)
    requires UnitedBy(a, b, e, front) && n in b && e' == if |e + {n}| <= HSSIZ - 2 then e + {n} else e
    ensures UnitedBy(a, b, e', front + {n})
  {
    Smaller(e, e + {n});
    if n !in e {
      assert |e + {n}| == |e| + 1;
    }
  }

  lemma ElemsSnoc(s: seq<Name>, i: nat)
    requires i < |s|
    ensures Elems(s[..i + 1]) == Elems(s[..i]) + {s[i]}
  {
    assert s[..i + 1] == s[..i] + [s[i]];
  }

  lemma {:induction false} Smaller<T>(a: set<T>, b: set<T>)
    requires a <= b
    ensures |a| <= |b|
  {
    assert b == a + (b - a);
  }
}
