/** Order-preserving selection over sequences: the boolean-mask indexing `df[mask]`. */
module Seqs {

  /** `a` is `b` with some elements dropped, the rest in their original order. */
  predicate IsSubsequence<T(==)>(a: seq<T>, b: seq<T>)
    decreases |b|
  {
    a == [] || (b != [] && ((a[0] == b[0] && IsSubsequence(a[1..], b[1..])) || IsSubsequence(a, b[1..])))
  }

  /** The elements of `s` that satisfy `p`, in the order of `s`. */
  function Filter<T(==,!new)>(p: T -> bool, s: seq<T>): (r: seq<T>)
    ensures forall x :: x in r <==> x in s && p(x)
    ensures forall x :: multiset(r)[x] == if p(x) then multiset(s)[x] else 0
    ensures IsSubsequence(r, s)
  {
    if s == [] then []
    else
      var rest := Filter(p, s[1..]);
      assert s == [s[0]] + s[1..];
      if p(s[0]) then
        assert ([s[0]] + rest)[1..] == rest;
        [s[0]] + rest
      else
        rest
  }

  /** Filtering a three-element sequence of which only the middle element fails `p`. */
  lemma FilterDropsMiddle<T(!new)>(p: T -> bool, s: seq<T>)
    requires |s| == 3 && p(s[0]) && !p(s[1]) && p(s[2])
    ensures Filter(p, s) == [s[0], s[2]]
  {
    assert s[1..][1..] == [s[2]] && [s[2]][1..] == [];
    assert Filter(p, [s[2]]) == [s[2]];
    assert Filter(p, s[1..]) == [s[2]];
    assert [s[0]] + [s[2]] == [s[0], s[2]];
  }

  lemma {:induction false} SubsequenceLength<T>(a: seq<T>, b: seq<T>)
    requires IsSubsequence(a, b)
    ensures |a| <= |b|
    decreases |b|
  {
    if a != [] {
      if a[0] == b[0] && IsSubsequence(a[1..], b[1..]) {
        SubsequenceLength(a[1..], b[1..]);
      } else {
        SubsequenceLength(a, b[1..]);
      }
    }
  }

  /** A stronger predicate keeps a subsequence of what a weaker one keeps. */
  lemma {:induction false} FilterMonotone<T(!new)>(p: T -> bool, q: T -> bool, s: seq<T>)
    requires forall x :: q(x) ==> p(x)
    ensures IsSubsequence(Filter(q, s), Filter(p, s))
  {
    if s != [] {
      FilterMonotone(p, q, s[1..]);
      var fq, fp := Filter(q, s[1..]), Filter(p, s[1..]);
      if q(s[0]) {
        assert ([s[0]] + fq)[1..] == fq && ([s[0]] + fp)[1..] == fp;
      } else if p(s[0]) {
        assert ([s[0]] + fp)[1..] == fp;
      }
    }
  }
}
