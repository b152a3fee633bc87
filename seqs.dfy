/** `Array.prototype.filter` on sequences, and the facts about it that the
    store and the views share. */
module Seqs {

  /** The elements of `s` that satisfy `p`, in their order in `s`. */
  function Filter<T>(s: seq<T>, p: T -> bool): (r: seq<T>)
    ensures |r| <= |s|
    decreases |s|
  {
    if s == [] then []
    else (if p(s[0]) then [s[0]] else []) + Filter(s[1..], p)
  }

  /** Filtering keeps exactly the elements that satisfy `p`. */
  lemma {:induction false} FilterMembers<T>(s: seq<T>, p: T -> bool)
    ensures forall x :: x in Filter(s, p) ==> x in s && p(x)
    ensures forall x :: x in s && p(x) ==> x in Filter(s, p)
    ensures multiset(Filter(s, p)) <= multiset(s)
    decreases |s|
  {
    if s != [] {
      FilterMembers(s[1..], p);
      assert s == [s[0]] + s[1..];
    }
  }

  /** `r` can be obtained from `s` by deleting elements: an order-preserving
      subsequence. */
  ghost predicate IsSubsequence<T>(r: seq<T>, s: seq<T>)
    decreases |s|
  {
    if r == [] then true
    else if s == [] then false
    else if r[0] == s[0] then IsSubsequence(r[1..], s[1..])
    else IsSubsequence(r, s[1..])
  }

  /** Filtering keeps the remaining elements in their original order. */
  lemma {:induction false} FilterIsSubsequence<T>(s: seq<T>, p: T -> bool)
    ensures IsSubsequence(Filter(s, p), s)
    decreases |s|
  {
    if s != [] {
      var rest := Filter(s[1..], p);
      FilterIsSubsequence(s[1..], p);
      if p(s[0]) {
        assert Filter(s, p) == [s[0]] + rest && ([s[0]] + rest)[1..] == rest;
      } else {
        assert Filter(s, p) == rest;
        SubsequenceOfTail(rest, s);
      }
    }
  }

  /** A subsequence of the tail is a subsequence of the whole. */
  lemma {:induction false} SubsequenceOfTail<T>(r: seq<T>, s: seq<T>)
    requires s != [] && IsSubsequence(r, s[1..])
    ensures IsSubsequence(r, s)
    decreases |s|, |r|
  {
    if r != [] && r[0] == s[0] {
      SubsequenceDropHead(r, s[1..]);
    }
  }

  /** Dropping the head of a subsequence keeps it a subsequence. */
  lemma {:induction false} SubsequenceDropHead<T>(r: seq<T>, s: seq<T>)
    requires r != [] && IsSubsequence(r, s)
    ensures IsSubsequence(r[1..], s)
    decreases |s|, |r|
  {
    if s != [] {
      if r[0] == s[0] {
        if r[1..] != [] {
          SubsequenceDropHead(r[1..], s[1..]);
          SubsequenceOfTail(r[1..], s);
        }
      } else {
        SubsequenceDropHead(r, s[1..]);
        SubsequenceOfTail(r[1..], s);
      }
    }
  }

  /** Filtering a concatenation filters each part. */
  lemma {:induction false} FilterConcat<T>(a: seq<T>, b: seq<T>, p: T -> bool)
    ensures Filter(a + b, p) == Filter(a, p) + Filter(b, p)
    decreases |a|
  {
    if a != [] {
      var h := if p(a[0]) then [a[0]] else [];
      assert (a + b)[0] == a[0] && (a + b)[1..] == a[1..] + b;
      assert Filter(a + b, p) == h + Filter(a[1..] + b, p);
      FilterConcat(a[1..], b, p);
      assert Filter(a, p) == h + Filter(a[1..], p);
    } else {
      assert a + b == b;
    }
  }

  /** When every element satisfies `p`, filtering returns the sequence itself. */
  lemma {:induction false} FilterAll<T>(s: seq<T>, p: T -> bool)
    requires forall x :: x in s ==> p(x)
    ensures Filter(s, p) == s
    decreases |s|
  {
    if s != [] {
      FilterAll(s[1..], p);
      assert [s[0]] + s[1..] == s;
    }
  }

  /** Filtering keeps every copy of an element that satisfies `p` and no copy
      of one that does not. */
  lemma {:induction false} FilterCount<T>(s: seq<T>, p: T -> bool, x: T)
    ensures multiset(Filter(s, p))[x] == if p(x) then multiset(s)[x] else 0
    decreases |s|
  {
    if s != [] {
      FilterCount(s[1..], p, x);
      assert s == [s[0]] + s[1..];
    }
  }

  /** Filtering twice by the same predicate is filtering once. */
  lemma FilterIdempotent<T>(s: seq<T>, p: T -> bool)
    ensures Filter(Filter(s, p), p) == Filter(s, p)
  {
    FilterMembers(s, p);
    FilterAll(Filter(s, p), p);
  }

  /** The elements that satisfy `p` and those that do not together make up `s`. */
  lemma {:induction false} FilterSplitsLength<T>(s: seq<T>, p: T -> bool, q: T -> bool)
    requires forall x :: q(x) == !p(x)
    ensures |Filter(s, p)| + |Filter(s, q)| == |s|
    decreases |s|
  {
    if s != [] {
      FilterSplitsLength(s[1..], p, q);
    }
  }

  /** Filtering by a predicate that holds of no more elements gives no more
      elements. */
  lemma {:induction false} FilterMonotone<T>(s: seq<T>, p: T -> bool, q: T -> bool)
    requires forall x :: p(x) ==> q(x)
    ensures |Filter(s, p)| <= |Filter(s, q)|
    decreases |s|
  {
    if s != [] {
      FilterMonotone(s[1..], p, q);
    }
  }

  /** Filtering keeps every element exactly when it drops none. */
  lemma {:induction false} FilterKeepsAllIff<T>(s: seq<T>, p: T -> bool)
    ensures |Filter(s, p)| == |s| <==> forall i :: 0 <= i < |s| ==> p(s[i])
    decreases |s|
  {
    if s != [] {
      FilterKeepsAllIff(s[1..], p);
      assert forall i :: 1 <= i < |s| ==> s[i] == s[1..][i - 1];
    }
  }

  /** Filtering keeps nothing exactly when no element satisfies `p`. */
  lemma {:induction false} FilterKeepsNoneIff<T>(s: seq<T>, p: T -> bool)
    ensures Filter(s, p) == [] <==> forall i :: 0 <= i < |s| ==> !p(s[i])
    decreases |s|
  {
    if s != [] {
      FilterKeepsNoneIff(s[1..], p);
      assert forall i :: 1 <= i < |s| ==> s[i] == s[1..][i - 1];
    }
  }

  /** Taking out the element at `j` takes its one occurrence out of the multiset. */
  lemma {:induction false} RemoveAtMultiset<T>(b: seq<T>, j: nat)
    requires j < |b|
    ensures multiset(b[..j] + b[j + 1..]) == multiset(b) - multiset{b[j]}
  {
    assert b == b[..j] + [b[j]] + b[j + 1..];
  }

  /** Filtering a sequence with the element at `j` taken out. */
  lemma {:induction false} RemoveAtFilter<T>(b: seq<T>, j: nat, p: T -> bool)
    requires j < |b|
    ensures Filter(b, p) == Filter(b[..j], p) + Filter([b[j]], p) + Filter(b[j + 1..], p)
    ensures Filter(b[..j] + b[j + 1..], p) == Filter(b[..j], p) + Filter(b[j + 1..], p)
  {
    assert b == b[..j] + ([b[j]] + b[j + 1..]);
    FilterConcat(b[..j], [b[j]] + b[j + 1..], p);
    FilterConcat([b[j]], b[j + 1..], p);
    FilterConcat(b[..j], b[j + 1..], p);
  }

  /** Permuting a sequence does not change what a filter keeps, as a multiset. */
  lemma {:induction false} FilterPermutation<T>(a: seq<T>, b: seq<T>, p: T -> bool)
    requires multiset(a) == multiset(b)
    ensures multiset(Filter(a, p)) == multiset(Filter(b, p))
    decreases |a|
  {
    if a != [] {
      var x := a[0];
      assert x in multiset(b);
      var j :| 0 <= j < |b| && b[j] == x;
      PermutationStep(a, b, j, p);
    }
  }

  lemma {:induction false} PermutationStep<T>(a: seq<T>, b: seq<T>, j: nat, p: T -> bool)
    requires multiset(a) == multiset(b)
    requires a != [] && j < |b| && b[j] == a[0]
    ensures multiset(Filter(a, p)) == multiset(Filter(b, p))
    decreases |a|, 0
  {
    var x := a[0];
    var rest := b[..j] + b[j + 1..];
    RemoveAtMultiset(b, j);
    RemoveAtMultiset(a, 0);
    assert a[..0] + a[1..] == a[1..];
    FilterPermutation(a[1..], rest, p);
    RemoveAtFilter(b, j, p);
    var fx, fl, fr := Filter([x], p), Filter(b[..j], p), Filter(b[j + 1..], p);
    assert [x][1..] == [];
    assert fx == if p(x) then [x] else [];
    ShuffleMultiset(Filter(a, p), fx, Filter(a[1..], p), Filter(b, p), fl, fr);
  }

  lemma ShuffleMultiset<T>(whole: seq<T>, head: seq<T>, tail: seq<T>, other: seq<T>, left: seq<T>, right: seq<T>)
    requires whole == head + tail && other == left + head + right
    requires multiset(tail) == multiset(left + right)
    ensures multiset(whole) == multiset(other)
  {
  }

  /** Permuting a sequence does not change how many elements a filter keeps. */
  lemma FilterPermutationLength<T>(a: seq<T>, b: seq<T>, p: T -> bool)
    requires multiset(a) == multiset(b)
    ensures |Filter(a, p)| == |Filter(b, p)|
  {
    FilterPermutation(a, b, p);
    assert |Filter(a, p)| == |multiset(Filter(a, p))|;
    assert |Filter(b, p)| == |multiset(Filter(b, p))|;
  }
}
