/** Order-preserving merges of sequences, used to say that a split of a
    list into two keeps every element exactly once and in order, and a few
    regrouping facts the other proofs lean on. */
module Seqs {

  /** `s` is `a` and `b` merged without reordering either: every element
      of `s` comes from exactly one of them, in order. */
  predicate Interleaves<T(==)>(s: seq<T>, a: seq<T>, b: seq<T>)
    decreases |s|
  {
    if |s| == 0 then a == [] && b == []
    else
      || (|a| > 0 && a[0] == s[0] && Interleaves(s[1..], a[1..], b))
      || (|b| > 0 && b[0] == s[0] && Interleaves(s[1..], a, b[1..]))
  }

  lemma {:induction false} InterleavesLength<T>(s: seq<T>, a: seq<T>, b: seq<T>)
    requires Interleaves(s, a, b)
    ensures |s| == |a| + |b|
    ensures multiset(s) == multiset(a) + multiset(b)
    decreases |s|
  {
    if |s| > 0 {
      if |a| > 0 && a[0] == s[0] && Interleaves(s[1..], a[1..], b) {
        InterleavesLength(s[1..], a[1..], b);
        assert a == [a[0]] + a[1..];
      } else {
        InterleavesLength(s[1..], a, b[1..]);
        assert b == [b[0]] + b[1..];
      }
      assert s == [s[0]] + s[1..];
    }
  }

  lemma {:induction false} NoRemovalInterleaves<T>(s: seq<T>)
    ensures Interleaves(s, s, [])
    decreases |s|
  {
    if |s| > 0 {
      NoRemovalInterleaves(s[1..]);
    }
  }

  /* Regrouping facts. Each is immediate, but inside a larger proof the
     solver spends most of its effort finding such a regrouping of a
     concatenation, so the proofs that need one call these instead. */

  lemma SliceThree<T>(s: seq<T>, i: int, j: int)
    requires 0 <= i <= j <= |s|
    ensures s == s[..i] + s[i..j] + s[j..]
  {
  }

  lemma Regroup<T>(a: seq<T>, b: seq<T>, m: seq<T>, d: seq<T>, e: seq<T>)
    ensures a + (b + m + d) + e == (a + b) + m + (d + e)
  {
  }

  lemma ConsRegroup<T>(a: seq<T>, s: seq<T>)
    requires |a| > 0
    ensures a + s == [a[0]] + (a[1..] + s)
  {
  }

  lemma SnocRegroup<T>(s: seq<T>, c: seq<T>)
    requires |c| > 0
    ensures s + c == (s + c[..|c| - 1]) + [c[|c| - 1]]
  {
  }

  lemma InitLast<T>(xs: seq<T>)
    requires |xs| > 0
    ensures xs == xs[..|xs| - 1] + [xs[|xs| - 1]]
  {
  }

  /** Maps with the same keys and the same value at every key are equal. */
  lemma SameMaps<K, V>(a: map<K, V>, b: map<K, V>)
    requires forall k :: k in a <==> k in b
    requires forall k :: k in a ==> a[k] == b[k]
    ensures a == b
  {
  }
}
