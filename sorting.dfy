/** The stable sort that `Array.prototype.sort` performs
    (ECMAScript 2023, section 23.1.3.30), over a comparator that returns a
    number: negative when its first argument goes first, zero when the two
    are equivalent, positive otherwise.

    The sort is given as a functional insertion sort (`InsertionSort`), which is
    proved to be sorted, a permutation and stable, and as an in-place method
    over an array (`SortInPlace`) proved to leave exactly that sequence in the
    array. `SortedStableIsInsertionSort` shows that every sorted, stable
    rearrangement is this one, so the model gives the result of any engine that
    meets the standard. */
module Sorting {
  import opened Seqs

  /** What the standard calls a consistent comparator: reflexive, antisymmetric
      in sign, and transitive. */
  ghost predicate ValidComparator<T(!new)>(cmp: (T, T) -> int) {
    && (forall a :: cmp(a, a) == 0)
    && (forall a, b :: cmp(a, b) < 0 <==> cmp(b, a) > 0)
    && (forall a, b, c :: cmp(a, b) <= 0 && cmp(b, c) <= 0 ==> cmp(a, c) <= 0)
  }

  /** No element is placed after one that the comparator wants later. */
  ghost predicate Sorted<T>(s: seq<T>, cmp: (T, T) -> int) {
    forall i, j :: 0 <= i < j < |s| ==> cmp(s[i], s[j]) <= 0
  }

  /** The elements of `s` that the comparator finds equivalent to `e`, in
      their order in `s`. */
  function ClassOf<T>(s: seq<T>, e: T, cmp: (T, T) -> int): seq<T> {
    Filter(s, y => cmp(y, e) == 0)
  }

  /** `r` is a stable rearrangement of `s`: every group of equivalent elements
      appears in `r` in the same relative order as in `s`. */
  ghost predicate Stable<T(!new)>(s: seq<T>, r: seq<T>, cmp: (T, T) -> int) {
    forall e :: ClassOf(r, e, cmp) == ClassOf(s, e, cmp)
  }

  /** Insert `x` after every element of `s` that it does not precede. */
  function Insert<T>(s: seq<T>, x: T, cmp: (T, T) -> int): (r: seq<T>)
    ensures |r| == |s| + 1
    decreases |s|
  {
    if s == [] then [x]
    else if cmp(x, s[|s| - 1]) < 0 then
      assert s == s[..|s| - 1] + [s[|s| - 1]];
      Insert(s[..|s| - 1], x, cmp) + [s[|s| - 1]]
    else s + [x]
  }

  /** Insertion sort: sort all but the last element, then insert the last. */
  function InsertionSort<T>(s: seq<T>, cmp: (T, T) -> int): (r: seq<T>)
    ensures |r| == |s|
    decreases |s|
  {
    if s == [] then []
    else
      assert s == s[..|s| - 1] + [s[|s| - 1]];
      Insert(InsertionSort(s[..|s| - 1], cmp), s[|s| - 1], cmp)
  }

  /** Inserting adds exactly `x` to the multiset of elements. */
  lemma {:induction false} InsertPermutes<T>(s: seq<T>, x: T, cmp: (T, T) -> int)
    ensures multiset(Insert(s, x, cmp)) == multiset(s) + multiset{x}
    decreases |s|
  {
    if s != [] && cmp(x, s[|s| - 1]) < 0 {
      var n := |s| - 1;
      InsertPermutes(s[..n], x, cmp);
      assert s == s[..n] + [s[n]];
    }
  }

  /** Insertion sort returns a permutation of its input. */
  lemma {:induction false} InsertionSortPermutes<T>(s: seq<T>, cmp: (T, T) -> int)
    ensures multiset(InsertionSort(s, cmp)) == multiset(s)
    decreases |s|
  {
    if s != [] {
      var n := |s| - 1;
      InsertionSortPermutes(s[..n], cmp);
      InsertPermutes(InsertionSort(s[..n], cmp), s[n], cmp);
      assert s == s[..n] + [s[n]];
    }
  }

  /** Appending one element adds it to its own equivalence group only. */
  lemma ClassOfSnoc<T>(s: seq<T>, x: T, e: T, cmp: (T, T) -> int)
    ensures ClassOf(s + [x], e, cmp) == ClassOf(s, e, cmp) + (if cmp(x, e) == 0 then [x] else [])
  {
    FilterConcat(s, [x], y => cmp(y, e) == 0);
    assert [x][1..] == [];
  }

  /** Inserting an element that precedes-or-equals `b` into a sequence whose
      elements all precede-or-equal `b` gives such a sequence again. */
  lemma InsertBounded<T>(s: seq<T>, x: T, b: T, cmp: (T, T) -> int)
    requires forall k :: 0 <= k < |s| ==> cmp(s[k], b) <= 0
    requires cmp(x, b) <= 0
    ensures forall i :: 0 <= i < |Insert(s, x, cmp)| ==> cmp(Insert(s, x, cmp)[i], b) <= 0
  {
    var r := Insert(s, x, cmp);
    InsertPermutes(s, x, cmp);
    forall i | 0 <= i < |r| ensures cmp(r[i], b) <= 0 {
      assert r[i] in multiset(r);
      if r[i] != x {
        assert r[i] in multiset(s);
        var k :| 0 <= k < |s| && s[k] == r[i];
      }
    }
  }

  /** Inserting into a sorted sequence keeps it sorted. */
  lemma {:induction false} InsertSorted<T(!new)>(s: seq<T>, x: T, cmp: (T, T) -> int)
    requires ValidComparator(cmp) && Sorted(s, cmp)
    ensures Sorted(Insert(s, x, cmp), cmp)
    decreases |s|
  {
    if s != [] {
      var n := |s| - 1;
      var last, init := s[n], s[..n];
      if cmp(x, last) < 0 {
        assert Sorted(init, cmp);
        InsertSorted(init, x, cmp);
        assert forall k :: 0 <= k < |init| ==> cmp(init[k], last) <= 0 by {
          forall k | 0 <= k < |init| ensures cmp(init[k], last) <= 0 {
            assert init[k] == s[k];
          }
        }
        InsertBounded(init, x, last, cmp);
        var r' := Insert(init, x, cmp);
        assert Sorted(r' + [last], cmp);
      } else {
        assert cmp(last, x) <= 0;
        assert Sorted(s + [x], cmp);
      }
    }
  }

  /** An element that strictly precedes `x` is not equivalent to anything `x`
      is equivalent to. */
  lemma PrecedesNotEquivalent<T(!new)>(x: T, y: T, e: T, cmp: (T, T) -> int)
    requires ValidComparator(cmp) && cmp(x, y) < 0 && cmp(x, e) == 0
    ensures cmp(y, e) != 0
  {
    assert cmp(e, x) <= 0;
    assert cmp(y, e) <= 0 && cmp(e, x) <= 0 ==> cmp(y, x) <= 0;
  }

  /** Inserting `x` adds it at the end of its own equivalence group and leaves
      every other group as it was. */
  lemma {:induction false} InsertClass<T(!new)>(s: seq<T>, x: T, e: T, cmp: (T, T) -> int)
    requires ValidComparator(cmp)
    ensures ClassOf(Insert(s, x, cmp), e, cmp) == ClassOf(s, e, cmp) + (if cmp(x, e) == 0 then [x] else [])
    decreases |s|
  {
    var mine := if cmp(x, e) == 0 then [x] else [];
    if s == [] {
      ClassOfSnoc(s, x, e, cmp);
      assert [] + [x] == [x];
    } else {
      var n := |s| - 1;
      var last, init := s[n], s[..n];
      assert s == init + [last];
      ClassOfSnoc(init, last, e, cmp);
      var theirs := if cmp(last, e) == 0 then [last] else [];
      if cmp(x, last) < 0 {
        var r' := Insert(init, x, cmp);
        assert Insert(s, x, cmp) == r' + [last];
        InsertClass(init, x, e, cmp);
        ClassOfSnoc(r', last, e, cmp);
        if cmp(x, e) == 0 {
          PrecedesNotEquivalent(x, last, e, cmp);
          assert theirs == [];
        } else {
          assert mine == [];
        }
        assert mine + theirs == theirs + mine;
        calc {
          ClassOf(Insert(s, x, cmp), e, cmp);
          ClassOf(r', e, cmp) + theirs;
          ClassOf(init, e, cmp) + mine + theirs;
          ClassOf(init, e, cmp) + (mine + theirs);
          ClassOf(init, e, cmp) + (theirs + mine);
          ClassOf(init, e, cmp) + theirs + mine;
          ClassOf(s, e, cmp) + mine;
        }
      } else {
        assert Insert(s, x, cmp) == s + [x];
        ClassOfSnoc(s, x, e, cmp);
      }
    }
  }

  /** Insertion sort orders the sequence. */
  lemma {:induction false} InsertionSortSorted<T(!new)>(s: seq<T>, cmp: (T, T) -> int)
    requires ValidComparator(cmp)
    ensures Sorted(InsertionSort(s, cmp), cmp)
    decreases |s|
  {
    if s != [] {
      InsertionSortSorted(s[..|s| - 1], cmp);
      InsertSorted(InsertionSort(s[..|s| - 1], cmp), s[|s| - 1], cmp);
    }
  }

  /** Insertion sort is stable. */
  lemma {:induction false} InsertionSortStable<T(!new)>(s: seq<T>, cmp: (T, T) -> int)
    requires ValidComparator(cmp)
    ensures Stable(s, InsertionSort(s, cmp), cmp)
    decreases |s|
  {
    if s != [] {
      var n := |s| - 1;
      InsertionSortStable(s[..n], cmp);
      assert s == s[..n] + [s[n]];
      forall e ensures ClassOf(InsertionSort(s, cmp), e, cmp) == ClassOf(s, e, cmp) {
        InsertClass(InsertionSort(s[..n], cmp), s[n], e, cmp);
        ClassOfSnoc(s[..n], s[n], e, cmp);
      }
    }
  }

  /** An element belongs to its own equivalence group in any sequence holding it. */
  lemma InOwnClass<T(!new)>(s: seq<T>, k: nat, cmp: (T, T) -> int)
    requires ValidComparator(cmp) && k < |s|
    ensures s[k] in ClassOf(s, s[k], cmp)
  {
    assert cmp(s[k], s[k]) == 0;
    FilterMembers(s, y => cmp(y, s[k]) == 0);
  }

  /** The last element of a sorted sequence is no earlier than any element of it. */
  lemma LastIsGreatest<T(!new)>(s: seq<T>, y: T, cmp: (T, T) -> int)
    requires ValidComparator(cmp) && Sorted(s, cmp) && y in s
    ensures cmp(y, s[|s| - 1]) <= 0
  {
    var k :| 0 <= k < |s| && s[k] == y;
    if k < |s| - 1 {
      assert cmp(s[k], s[|s| - 1]) <= 0;
    }
  }

  /** The last element of a non-empty `u` is no later than the last element of
      a sorted `r` that has the same group of elements equivalent to it. */
  lemma LastBelowLast<T(!new)>(r: seq<T>, u: seq<T>, cmp: (T, T) -> int)
    requires ValidComparator(cmp) && Sorted(r, cmp) && u != []
    requires ClassOf(r, u[|u| - 1], cmp) == ClassOf(u, u[|u| - 1], cmp)
    ensures r != [] && cmp(u[|u| - 1], r[|r| - 1]) <= 0
  {
    var y := u[|u| - 1];
    InOwnClass(u, |u| - 1, cmp);
    FilterMembers(r, z => cmp(z, y) == 0);
    LastIsGreatest(r, y, cmp);
  }

  /** Two non-empty sorted sequences whose equivalence groups agree end with
      the same element: each one's last element belongs to the other's last
      group. */
  lemma SortedLastsAgree<T(!new)>(r: seq<T>, u: seq<T>, cmp: (T, T) -> int)
    requires ValidComparator(cmp) && Sorted(r, cmp) && Sorted(u, cmp)
    requires r != [] && u != []
    requires forall e :: ClassOf(r, e, cmp) == ClassOf(u, e, cmp)
    ensures r[|r| - 1] == u[|u| - 1]
  {
    var x, y := r[|r| - 1], u[|u| - 1];
    LastBelowLast(r, u, cmp);
    assert ClassOf(u, x, cmp) == ClassOf(r, x, cmp);
    LastBelowLast(u, r, cmp);
    assert cmp(y, x) == 0;
    var r', u' := r[..|r| - 1], u[..|u| - 1];
    assert r == r' + [x] && u == u' + [y];
    ClassOfSnoc(r', x, x, cmp);
    ClassOfSnoc(u', y, x, cmp);
    assert ClassOf(r, x, cmp) == ClassOf(u, x, cmp);
    LastOfEqual(ClassOf(r', x, cmp), x, ClassOf(u', x, cmp), y);
  }

  lemma LastOfEqual<T>(a: seq<T>, x: T, b: seq<T>, y: T)
    requires a + [x] == b + [y]
    ensures x == y && a == b
  {
    assert x == (a + [x])[|a|];
    assert |a| == |b|;
    assert a == (a + [x])[..|a|];
    assert b == (b + [y])[..|b|];
  }

  /** Taking the same last element off two sequences whose equivalence groups
      agree leaves sequences whose groups agree. */
  lemma ClassesOfInit<T>(r: seq<T>, u: seq<T>, x: T, cmp: (T, T) -> int)
    requires forall e :: ClassOf(r + [x], e, cmp) == ClassOf(u + [x], e, cmp)
    ensures forall e :: ClassOf(r, e, cmp) == ClassOf(u, e, cmp)
  {
    forall e ensures ClassOf(r, e, cmp) == ClassOf(u, e, cmp) {
      ClassOfSnoc(r, x, e, cmp);
      ClassOfSnoc(u, x, e, cmp);
      var tail := if cmp(x, e) == 0 then [x] else [];
      assert ClassOf(r, e, cmp) + tail == ClassOf(u, e, cmp) + tail;
      assert ClassOf(r, e, cmp) == (ClassOf(r, e, cmp) + tail)[..|ClassOf(r, e, cmp)|];
      assert ClassOf(u, e, cmp) == (ClassOf(u, e, cmp) + tail)[..|ClassOf(u, e, cmp)|];
    }
  }

  /** The groups of the empty sequence are empty, so a sequence whose groups
      agree with them is empty. */
  lemma NoClassesEmpty<T(!new)>(u: seq<T>, cmp: (T, T) -> int)
    requires ValidComparator(cmp)
    requires forall e :: ClassOf([], e, cmp) == ClassOf(u, e, cmp)
    ensures u == []
  {
    if u != [] {
      InOwnClass(u, 0, cmp);
    }
  }

  /** Two sorted sequences whose equivalence groups agree are equal. */
  lemma {:induction false} SortedStableUnique<T(!new)>(r: seq<T>, u: seq<T>, cmp: (T, T) -> int)
    requires ValidComparator(cmp) && Sorted(r, cmp) && Sorted(u, cmp)
    requires forall e :: ClassOf(r, e, cmp) == ClassOf(u, e, cmp)
    ensures r == u
    decreases |r|
  {
    if r == [] {
      NoClassesEmpty(u, cmp);
    } else if u == [] {
      assert forall e :: ClassOf([], e, cmp) == ClassOf(r, e, cmp);
      NoClassesEmpty(r, cmp);
    } else {
      SortedLastsAgree(r, u, cmp);
      var x := r[|r| - 1];
      var r', u' := r[..|r| - 1], u[..|u| - 1];
      assert r == r' + [x] && u == u' + [x];
      ClassesOfInit(r', u', x, cmp);
      assert Sorted(r', cmp) && Sorted(u', cmp);
      SortedStableUnique(r', u', cmp);
    }
  }

  /** Any sorted, stable rearrangement of `s` is the insertion sort of `s`. */
  lemma SortedStableIsInsertionSort<T(!new)>(s: seq<T>, r: seq<T>, cmp: (T, T) -> int)
    requires ValidComparator(cmp) && Sorted(r, cmp) && Stable(s, r, cmp)
    ensures r == InsertionSort(s, cmp)
  {
    InsertionSortSorted(s, cmp);
    InsertionSortStable(s, cmp);
    SortedStableUnique(r, InsertionSort(s, cmp), cmp);
  }

  /** Where the inner loop of `SortInPlace` stops is where `Insert` puts `x`. */
  lemma {:induction false} InsertAt<T>(s: seq<T>, x: T, j: nat, cmp: (T, T) -> int)
    requires j <= |s|
    requires j == 0 || cmp(x, s[j - 1]) >= 0
    requires forall k :: j <= k < |s| ==> cmp(x, s[k]) < 0
    ensures Insert(s, x, cmp) == s[..j] + [x] + s[j..]
    decreases |s|
  {
    if j < |s| {
      var n := |s| - 1;
      InsertAt(s[..n], x, j, cmp);
      assert s[..n][..j] == s[..j];
      assert s[..n][j..] + [s[n]] == s[j..];
    }
  }

  /** One pass of the sort: moves `a[i]` left past the elements it precedes,
      so that the first `i + 1` elements are `Insert` of the first `i` and `a[i]`. */
  method InsertInPlace<T>(a: array<T>, i: nat, cmp: (T, T) -> int)
    requires i < a.Length
    modifies a
    ensures a[..i + 1] == Insert(old(a[..i]), old(a[i]), cmp)
    ensures a[i + 1..] == old(a[i + 1..])
  {
    ghost var sorted := a[..i];
    var x := a[i];
    var j := i;
    while j > 0 && cmp(x, a[j - 1]) < 0
      invariant 0 <= j <= i
      invariant a[..j] == sorted[..j]
      invariant a[j + 1..i + 1] == sorted[j..]
      invariant a[i + 1..] == old(a[i + 1..])
      invariant forall k :: j <= k < i ==> cmp(x, sorted[k]) < 0
    {
      a[j] := a[j - 1];
      j := j - 1;
    }
    a[j] := x;
    InsertAt(sorted, x, j, cmp);
    assert a[..i + 1] == a[..j] + [a[j]] + a[j + 1..i + 1];
  }

  /** `a.sort(cmp)`: sorts the array in place, as an insertion sort. */
  method SortInPlace<T>(a: array<T>, cmp: (T, T) -> int)
    modifies a
    ensures a[..] == InsertionSort(old(a[..]), cmp)
  {
    ghost var input := a[..];
    var i := 0;
    while i < a.Length
      invariant 0 <= i <= a.Length
      invariant a[..i] == InsertionSort(input[..i], cmp)
      invariant a[i..] == input[i..]
    {
      InsertInPlace(a, i, cmp);
      assert input[..i + 1][..i] == input[..i];
      i := i + 1;
    }
    assert input[..a.Length] == input;
  }
}
