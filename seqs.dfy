/** Order-preserving filtering, the model of JavaScript's `Array.prototype.filter`. */
module Seqs {

  /** `a` can be obtained from `b` by deleting elements (order is kept). */
  predicate IsSubseq<T(==)>(a: seq<T>, b: seq<T>)
    decreases |b|
  {
    |a| <= |b| &&
    (a == [] || (a[0] == b[0] && IsSubseq(a[1..], b[1..])) || IsSubseq(a, b[1..]))
  }

  /** The elements of `s` satisfying `p`, in their original order. */
  function Filter<T(==)>(p: T -> bool, s: seq<T>): (r: seq<T>)
    ensures |r| <= |s|
    ensures IsSubseq(r, s)
    ensures forall k :: 0 <= k < |r| ==> r[k] in s && p(r[k])
    ensures forall k :: 0 <= k < |s| && p(s[k]) ==> s[k] in r
    decreases |s|
  {
    if s == [] then []
    else if p(s[0]) then [s[0]] + Filter(p, s[1..])
    else Filter(p, s[1..])
  }

  /** The filter keeps every element satisfying `p` as often as it occurs, and no other. */
  lemma {:induction false} FilterCounts<T(!new)>(p: T -> bool, s: seq<T>)
    ensures forall x :: multiset(Filter(p, s))[x] == if p(x) then multiset(s)[x] else 0
    decreases |s|
  {
    if s != [] {
      FilterCounts(p, s[1..]);
      var rest := Filter(p, s[1..]);
      assert s == [s[0]] + s[1..];
      assert multiset(s) == multiset{s[0]} + multiset(s[1..]);
      if p(s[0]) {
        assert multiset([s[0]] + rest) == multiset{s[0]} + multiset(rest);
      }
    }
  }

  lemma {:induction false} SubseqRefl<T>(s: seq<T>)
    ensures IsSubseq(s, s)
    decreases |s|
  {
    if s != [] {
      SubseqRefl(s[1..]);
    }
  }

  lemma {:induction false} SubseqTrans<T>(a: seq<T>, b: seq<T>, c: seq<T>)
    requires IsSubseq(a, b) && IsSubseq(b, c)
    ensures IsSubseq(a, c)
    decreases |c|
  {
    if a != [] && c != [] {
      if b[0] == c[0] && IsSubseq(b[1..], c[1..]) {
        if a[0] == b[0] && IsSubseq(a[1..], b[1..]) {
          SubseqTrans(a[1..], b[1..], c[1..]);
        } else {
          SubseqTrans(a, b[1..], c[1..]);
        }
      } else {
        SubseqTrans(a, b, c[1..]);
      }
    }
  }

  /** A filter whose predicate holds everywhere keeps the sequence as it is. */
  lemma {:induction false} FilterAll<T>(p: T -> bool, s: seq<T>)
    requires forall k :: 0 <= k < |s| ==> p(s[k])
    ensures Filter(p, s) == s
    decreases |s|
  {
    if s != [] {
      FilterAll(p, s[1..]);
    }
  }

  /** Filters whose predicates agree on the elements select the same elements. */
  lemma {:induction false} FilterCongruent<T>(p: T -> bool, q: T -> bool, s: seq<T>)
    requires forall k :: 0 <= k < |s| ==> p(s[k]) == q(s[k])
    ensures Filter(p, s) == Filter(q, s)
    decreases |s|
  {
    if s != [] {
      FilterCongruent(p, q, s[1..]);
    }
  }

  /** Filtering by `p` and then by `q` is filtering once by any test that is their
      conjunction on the elements. */
  lemma {:induction false} FilterFilterBy<T>(p: T -> bool, q: T -> bool, both: T -> bool, s: seq<T>)
    requires forall k :: 0 <= k < |s| ==> both(s[k]) == (p(s[k]) && q(s[k]))
    ensures Filter(q, Filter(p, s)) == Filter(both, s)
    decreases |s|
  {
    if s != [] {
      FilterFilterBy(p, q, both, s[1..]);
      if p(s[0]) {
        assert Filter(p, s) == [s[0]] + Filter(p, s[1..]);
        assert ([s[0]] + Filter(p, s[1..]))[1..] == Filter(p, s[1..]);
      }
    }
  }

  /** Three pairwise exclusive filters together select at most every element once. */
  lemma {:induction false} ExclusiveFilterCounts<T>(p: T -> bool, q: T -> bool, r: T -> bool, s: seq<T>)
    requires forall k :: 0 <= k < |s| ==> !(p(s[k]) && q(s[k])) && !(p(s[k]) && r(s[k])) && !(q(s[k]) && r(s[k]))
    ensures |Filter(p, s)| + |Filter(q, s)| + |Filter(r, s)| <= |s|
    decreases |s|
  {
    if s != [] {
      ExclusiveFilterCounts(p, q, r, s[1..]);
    }
  }
}
