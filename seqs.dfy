/** Sequence helpers shared by the pages: index ranges, permutations, first-match search. */
module Seqs {
  import opened Wrappers

  /** The indices 0, 1, ..., n-1. */
  function Range(n: nat): (r: seq<nat>)
    ensures |r| == n
    ensures forall i :: 0 <= i < n ==> r[i] == i
  {
    seq(n, i requires 0 <= i < n => i as nat)
  }

  /** `p` lists each of 0 .. n-1 exactly once. */
  predicate IsPermutation(p: seq<nat>, n: nat) {
    multiset(p) == multiset(Range(n))
  }

  predicate InBounds(p: seq<nat>, n: nat) {
    forall i :: 0 <= i < |p| ==> p[i] < n
  }

  /** The elements of `s` taken in the order `p` names them. */
  function Permute<T>(s: seq<T>, p: seq<nat>): (r: seq<T>)
    requires InBounds(p, |s|)
  {
    seq(|p|, i requires 0 <= i < |p| => s[p[i]])
  }

  /** `x` copies of `m`. */
  function Repeat<T>(m: T, x: nat): (r: seq<T>)
    ensures |r| == x
    ensures forall i :: 0 <= i < x ==> r[i] == m
  {
    seq(x, _ => m)
  }

  lemma PermutationBounded(p: seq<nat>, n: nat)
    requires IsPermutation(p, n)
    ensures |p| == n && InBounds(p, n)
  {
    calc {
      |p|;
      |multiset(p)|;
      |multiset(Range(n))|;
      n;
    }
    forall i | 0 <= i < |p|
      ensures p[i] < n
    {
      assert p[i] in multiset(p);
      assert p[i] in Range(n);
    }
  }

  lemma PermuteAppend<T>(s: seq<T>, a: seq<nat>, b: seq<nat>)
    requires InBounds(a, |s|) && InBounds(b, |s|)
    ensures InBounds(a + b, |s|)
    ensures Permute(s, a + b) == Permute(s, a) + Permute(s, b)
  {
  }

  /** Taking index `j` out of `b` takes `b[j]` out of its multiset and `s[b[j]]` out of the permuted one. */
  lemma RemoveAt<T>(s: seq<T>, b: seq<nat>, j: nat)
    requires InBounds(b, |s|) && j < |b|
    ensures InBounds(b[..j] + b[j + 1..], |s|)
    ensures multiset(b) == multiset(b[..j] + b[j + 1..]) + multiset{b[j]}
    ensures multiset(Permute(s, b)) == multiset(Permute(s, b[..j] + b[j + 1..])) + multiset{s[b[j]]}
  {
    var l, r := b[..j], b[j + 1..];
    assert b == l + [b[j]] + r;
    PermuteAppend(s, l, [b[j]]);
    PermuteAppend(s, l + [b[j]], r);
    PermuteAppend(s, l, r);
  }

  /** Reading `s` in two orders that name the same indices gives the same multiset. */
  lemma {:induction false} PermuteSameMultiset<T>(s: seq<T>, a: seq<nat>, b: seq<nat>)
    requires InBounds(a, |s|) && InBounds(b, |s|)
    requires multiset(a) == multiset(b)
    ensures multiset(Permute(s, a)) == multiset(Permute(s, b))
    decreases |a|
  {
    if a == [] {
      assert |b| == |multiset(b)| == 0;
    } else {
      var x := a[0];
      assert x in multiset(b);
      var j :| 0 <= j < |b| && b[j] == x;
      RemoveAt(s, b, j);
      RemoveAt(s, a, 0);
      assert a[..0] + a[1..] == a[1..];
      assert multiset(a[1..]) == multiset(a) - multiset{x};
      assert multiset(b[..j] + b[j + 1..]) == multiset(b) - multiset{x};
      PermuteSameMultiset(s, a[1..], b[..j] + b[j + 1..]);
    }
  }

  /** Reading `s` in the order of a permutation of its indices keeps its multiset. */
  lemma PermutePreservesMultiset<T>(s: seq<T>, p: seq<nat>)
    requires IsPermutation(p, |s|)
    ensures |p| == |s| && InBounds(p, |s|)
    ensures multiset(Permute(s, p)) == multiset(s)
  {
    PermutationBounded(p, |s|);
    PermuteSameMultiset(s, p, Range(|s|));
    assert Permute(s, Range(|s|)) == s;
  }

  /** The first index whose element satisfies `p`, or None when there is none. */
  function FirstIndexOf<T>(s: seq<T>, p: T -> bool): (r: Option<nat>)
    ensures r.Some? ==> r.value < |s| && p(s[r.value])
    ensures r.Some? ==> forall j :: 0 <= j < r.value ==> !p(s[j])
    ensures r.None? ==> forall j :: 0 <= j < |s| ==> !p(s[j])
  {
    if s == [] then None
    else if p(s[0]) then Some(0)
    else
      match FirstIndexOf(s[1..], p)
      case None => None
      case Some(k) => Some(k + 1)
  }
}
