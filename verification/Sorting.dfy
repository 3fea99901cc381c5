/**
 * Stable sorting by a total preorder: what Python's sorted(), SQL's ORDER BY
 * and ECMAScript's Array.prototype.sort promise their callers. StableSortOf
 * is the promise; Sort is one function that keeps it, and the only one.
 */
module Sorting {

  ghost predicate TotalPreorder<T(!new)>(leq: (T, T) -> bool) {
    && (forall x, y :: leq(x, y) || leq(y, x))
    && (forall x, y, z :: leq(x, y) && leq(y, z) ==> leq(x, z))
  }

  ghost predicate Sorted<T>(leq: (T, T) -> bool, s: seq<T>) {
    forall i, j :: 0 <= i < j < |s| ==> leq(s[i], s[j])
  }

  predicate Tied<T>(leq: (T, T) -> bool, x: T, y: T) {
    leq(x, y) && leq(y, x)
  }

  /** The elements of s tied with x, in the order of s. */
  function Class<T>(leq: (T, T) -> bool, x: T, s: seq<T>): seq<T> {
    if s == [] then []
    else
      var last := s[|s| - 1];
      Class(leq, x, s[..|s| - 1]) + if Tied(leq, x, last) then [last] else []
  }

  /** t holds the elements of s in order, ties in their original order. */
  ghost predicate StableSortOf<T(!new)>(leq: (T, T) -> bool, s: seq<T>, t: seq<T>) {
    && Sorted(leq, t)
    && forall x :: Class(leq, x, t) == Class(leq, x, s)
  }

  /** Inserts x into a sorted s, after everything that is not above it. */
  function Insert<T>(leq: (T, T) -> bool, s: seq<T>, x: T): seq<T> {
    if s == [] || leq(s[|s| - 1], x) then s + [x]
    else Insert(leq, s[..|s| - 1], x) + [s[|s| - 1]]
  }

  function Sort<T>(leq: (T, T) -> bool, s: seq<T>): seq<T> {
    if s == [] then [] else Insert(leq, Sort(leq, s[..|s| - 1]), s[|s| - 1])
  }

  /** Insertion sort: a[..i] is always the sorted form of the first i elements. */
  method SortInPlace<T>(leq: (T, T) -> bool, a: array<T>)
    modifies a
    ensures a[..] == Sort(leq, old(a[..]))
  {
    ghost var s := a[..];
    for i := 0 to a.Length
      invariant a[..i] == Sort(leq, s[..i])
      invariant a[i..] == s[i..]
    {
      assert s[i] == s[i..][0] == a[i..][0] == a[i];
      assert s[..i + 1][..i] == s[..i];
      assert s[i + 1..] == s[i..][1..] == a[i..][1..] == a[i + 1..];
      InsertLast(leq, a, i);
    }
    assert s[..a.Length] == s && a[..a.Length] == a[..];
  }

  /** Moves a[i] down to its place in the sorted prefix before it. */
  method InsertLast<T>(leq: (T, T) -> bool, a: array<T>, i: nat)
    requires i < a.Length
    modifies a
    ensures a[..i + 1] == Insert(leq, old(a[..i]), old(a[i]))
    ensures a[i + 1..] == old(a[i + 1..])
  {
    ghost var s := a[..i];
    var x, j := a[i], i;
    assert s[..i] == s && s[i..] == [];
    while j > 0 && !leq(a[j - 1], x)
      invariant 0 <= j <= i
      invariant forall k :: 0 <= k < j ==> a[k] == s[k]
      invariant forall k :: j < k <= i ==> a[k] == s[k - 1]
      invariant forall k :: i < k < a.Length ==> a[k] == old(a[k])
      invariant Above(leq, s, x, j)
    {
      a[j] := a[j - 1];
      j := j - 1;
    }
    a[j] := x;
    InsertAt(leq, s, x, j, a[..i + 1]);
  }

  /** From j on everything in s belongs after x. */
  ghost predicate Above<T>(leq: (T, T) -> bool, s: seq<T>, x: T, j: int) {
    forall k :: 0 <= j <= k < |s| ==> !leq(s[k], x)
  }

  /** t is s with x put in at position j. */
  ghost predicate Spliced<T>(s: seq<T>, x: T, j: nat, t: seq<T>) {
    && |t| == |s| + 1 && j <= |s| && t[j] == x
    && (forall k :: 0 <= k < j ==> t[k] == s[k])
    && (forall k :: j < k < |t| ==> t[k] == s[k - 1])
  }

  lemma {:induction false} InsertAt<T>(leq: (T, T) -> bool, s: seq<T>, x: T, j: nat, t: seq<T>)
    requires Spliced(s, x, j, t) && Above(leq, s, x, j) && (j > 0 ==> leq(s[j - 1], x))
    ensures t == Insert(leq, s, x)
  {
    if j < |s| {
      InsertAt(leq, s[..|s| - 1], x, j, t[..|s|]);
    }
  }

  lemma {:induction false} InsertPermutes<T>(leq: (T, T) -> bool, s: seq<T>, x: T)
    ensures multiset(Insert(leq, s, x)) == multiset(s) + multiset{x}
  {
    if s != [] && !leq(s[|s| - 1], x) {
      InsertPermutes(leq, s[..|s| - 1], x);
      assert s == s[..|s| - 1] + [s[|s| - 1]];
    }
  }

  lemma {:induction false} SortPermutes<T>(leq: (T, T) -> bool, s: seq<T>)
    ensures multiset(Sort(leq, s)) == multiset(s)
    ensures |Sort(leq, s)| == |s|
  {
    if s != [] {
      SortPermutes(leq, s[..|s| - 1]);
      InsertPermutes(leq, Sort(leq, s[..|s| - 1]), s[|s| - 1]);
      assert s == s[..|s| - 1] + [s[|s| - 1]];
    }
    assert |multiset(Sort(leq, s))| == |multiset(s)|;
  }

  lemma {:induction false} InsertSorted<T(!new)>(leq: (T, T) -> bool, s: seq<T>, x: T)
    requires TotalPreorder(leq) && Sorted(leq, s)
    ensures Sorted(leq, Insert(leq, s, x))
  {
    if s == [] {
    } else if leq(s[|s| - 1], x) {
      forall i | 0 <= i < |s| ensures leq(s[i], x) {
        assert i == |s| - 1 || leq(s[i], s[|s| - 1]);
      }
    } else {
      var front, last := s[..|s| - 1], s[|s| - 1];
      InsertSorted(leq, front, x);
      InsertPermutes(leq, front, x);
      var r := Insert(leq, front, x);
      forall i | 0 <= i < |r| ensures leq(r[i], last) {
        assert r[i] in multiset(r);
        assert r[i] == x || r[i] in front;
      }
    }
  }

  lemma {:induction false} InsertClass<T(!new)>(leq: (T, T) -> bool, s: seq<T>, x: T, y: T)
    requires TotalPreorder(leq)
    ensures Class(leq, y, Insert(leq, s, x)) == Class(leq, y, s + [x])
  {
    assert (s + [x])[..|s|] == s;
    if s != [] && !leq(s[|s| - 1], x) {
      var front, last := s[..|s| - 1], s[|s| - 1];
      var r := Insert(leq, front, x);
      InsertClass(leq, front, x, y);
      assert (r + [last])[..|r|] == r;
      assert (front + [x])[..|front|] == front;
      assert !(Tied(leq, y, x) && Tied(leq, y, last));
    }
  }

  /** Sort keeps the promise. */
  lemma {:induction false} SortIsStable<T(!new)>(leq: (T, T) -> bool, s: seq<T>)
    requires TotalPreorder(leq)
    ensures StableSortOf(leq, s, Sort(leq, s))
  {
    if s != [] {
      var front, last := s[..|s| - 1], s[|s| - 1];
      SortIsStable(leq, front);
      InsertSorted(leq, Sort(leq, front), last);
      assert s == front + [last];
      forall x ensures Class(leq, x, Sort(leq, s)) == Class(leq, x, s) {
        var r := Sort(leq, front);
        InsertClass(leq, r, last, x);
        assert (r + [last])[..|r|] == r;
      }
    }
  }

  lemma {:induction false} ClassMembers<T>(leq: (T, T) -> bool, x: T, s: seq<T>)
    ensures forall y :: y in Class(leq, x, s) <==> y in s && Tied(leq, x, y)
  {
    if s != [] {
      ClassMembers(leq, x, s[..|s| - 1]);
      assert s == s[..|s| - 1] + [s[|s| - 1]];
    }
  }

  lemma ClassNonempty<T(!new)>(leq: (T, T) -> bool, s: seq<T>, x: T)
    requires TotalPreorder(leq) && x in s
    ensures Class(leq, x, s) != []
  {
    ClassMembers(leq, x, s);
    assert x in Class(leq, x, s);
  }

  lemma LastIsTop<T(!new)>(leq: (T, T) -> bool, a: seq<T>, b: seq<T>)
    requires TotalPreorder(leq) && Sorted(leq, a) && a != [] && b != []
    requires forall x :: Class(leq, x, a) == Class(leq, x, b)
    ensures leq(b[|b| - 1], a[|a| - 1])
  {
    var y := b[|b| - 1];
    ClassMembers(leq, y, a);
    ClassMembers(leq, y, b);
    assert y in Class(leq, y, a);
    var i :| 0 <= i < |a| && a[i] == y;
    assert i == |a| - 1 || leq(a[i], a[|a| - 1]);
  }

  /** Two sorted sequences with the same ties in the same order are equal. */
  lemma {:induction false} SortedUnique<T(!new)>(leq: (T, T) -> bool, a: seq<T>, b: seq<T>)
    requires TotalPreorder(leq) && Sorted(leq, a) && Sorted(leq, b)
    requires forall x :: Class(leq, x, a) == Class(leq, x, b)
    ensures a == b
  {
    if a == [] || b == [] {
      if a != [] {
        ClassNonempty(leq, a, a[0]);
      }
      if b != [] {
        ClassNonempty(leq, b, b[0]);
      }
    } else {
      var a', x, b', y := a[..|a| - 1], a[|a| - 1], b[..|b| - 1], b[|b| - 1];
      LastIsTop(leq, a, b);
      LastIsTop(leq, b, a);
      assert Class(leq, x, a) == Class(leq, x, a') + [x];
      assert Class(leq, x, b) == Class(leq, x, b') + [y];
      var ca := Class(leq, x, a);
      assert ca[|ca| - 1] == x && ca[|ca| - 1] == y;
      assert x == y;
      forall z ensures Class(leq, z, a') == Class(leq, z, b') {
        var p, q := Class(leq, z, a'), Class(leq, z, b');
        var e := if Tied(leq, z, x) then [x] else [];
        assert p + e == Class(leq, z, a) == Class(leq, z, b) == q + e;
        assert (p + e)[..|p|] == p && (q + e)[..|q|] == q;
      }
      SortedUnique(leq, a', b');
    }
  }

  /** Any implementation that keeps the promise computes Sort. */
  lemma StableSortUnique<T(!new)>(leq: (T, T) -> bool, s: seq<T>, t: seq<T>)
    requires TotalPreorder(leq)
    ensures StableSortOf(leq, s, t) <==> t == Sort(leq, s)
  {
    SortIsStable(leq, s);
    if StableSortOf(leq, s, t) {
      SortedUnique(leq, t, Sort(leq, s));
    }
  }

  /** No two different elements of s are tied. */
  ghost predicate TieFree<T>(leq: (T, T) -> bool, s: seq<T>) {
    forall x, y {:trigger Tied(leq, x, y)} :: x in s && y in s && Tied(leq, x, y) ==> x == y
  }

  lemma DropLast<T>(s: seq<T>)
    requires s != []
    ensures multiset(s[..|s| - 1]) == multiset(s) - multiset{s[|s| - 1]}
  {
    assert s == s[..|s| - 1] + [s[|s| - 1]];
  }

  lemma SameLast<T(!new)>(leq: (T, T) -> bool, a: seq<T>, b: seq<T>)
    requires forall x, y :: leq(x, y) || leq(y, x)
    requires Sorted(leq, a) && Sorted(leq, b) && TieFree(leq, a)
    requires multiset(a) == multiset(b) && a != [] && b != []
    ensures a[|a| - 1] == b[|b| - 1]
  {
    var x, y := a[|a| - 1], b[|b| - 1];
    assert x in multiset(b) && y in multiset(a);
    var i :| 0 <= i < |b| && b[i] == x;
    var j :| 0 <= j < |a| && a[j] == y;
    assert i == |b| - 1 || leq(x, y);
    assert j == |a| - 1 || leq(y, x);
    assert x == y || Tied(leq, x, y);
  }

  /** Without ties, a sorted sequence is determined by its elements alone. */
  lemma {:induction false} StrictUnique<T(!new)>(leq: (T, T) -> bool, a: seq<T>, b: seq<T>)
    requires forall x, y :: leq(x, y) || leq(y, x)
    requires Sorted(leq, a) && Sorted(leq, b) && TieFree(leq, a)
    requires multiset(a) == multiset(b)
    ensures a == b
  {
    assert |multiset(a)| == |multiset(b)|;
    if a != [] {
      SameLast(leq, a, b);
      DropLast(a);
      DropLast(b);
      StrictUnique(leq, a[..|a| - 1], b[..|b| - 1]);
    }
  }
}
