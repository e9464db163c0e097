/** `Array.prototype.filter` and `find`, with the order-preservation facts the views rely on. */
module Seqs {
  import opened Wrappers

  /** `r` can be obtained from `s` by deleting elements, keeping the order of the rest. */
  predicate Subsequence<T(==)>(r: seq<T>, s: seq<T>)
    decreases |s|
  {
    if r == [] then true
    else if s == [] then false
    else if r[0] == s[0] then Subsequence(r[1..], s[1..])
    else Subsequence(r, s[1..])
  }

  /** `s.filter(p)`: the elements of `s` that satisfy `p`, each as often as in `s`. */
  function Filter<T>(s: seq<T>, p: T -> bool): (r: seq<T>)
    ensures |r| <= |s|
    ensures forall i :: 0 <= i < |r| ==> p(r[i])
  {
    if s == [] then []
    else
      var rest := Filter(s[1..], p);
      if p(s[0]) then [s[0]] + rest else rest
  }

  /** Each element satisfying `p` occurs in `s.filter(p)` as often as in `s`; no other element occurs. */
  lemma {:induction false} FilterMultiset<T(!new)>(s: seq<T>, p: T -> bool)
    ensures forall x :: multiset(Filter(s, p))[x] == if p(x) then multiset(s)[x] else 0
  {
    if s != [] {
      FilterMultiset(s[1..], p);
      assert s == [s[0]] + s[1..];
    }
  }

  /** The filtered sequence keeps the relative order of the elements it keeps. */
  lemma {:induction false} FilterSubsequence<T(!new)>(s: seq<T>, p: T -> bool)
    ensures Subsequence(Filter(s, p), s)
  {
    if s != [] {
      FilterSubsequence(s[1..], p);
      var r := Filter(s, p);
      if p(s[0]) {
        assert r[1..] == Filter(s[1..], p);
      }
    }
  }

  /** Elements taken from `s` in order are among the elements of `s`. */
  lemma {:induction false} SubsequenceMultiset<T>(r: seq<T>, s: seq<T>)
    requires Subsequence(r, s)
    ensures multiset(r) <= multiset(s)
    decreases |s|
  {
    if r != [] {
      assert s == [s[0]] + s[1..];
      if r[0] == s[0] {
        SubsequenceMultiset(r[1..], s[1..]);
        assert r == [r[0]] + r[1..];
      } else {
        SubsequenceMultiset(r, s[1..]);
      }
    }
  }

  /**
   * `Filter` is the only sequence that keeps exactly the elements satisfying `p`
   * in their original order: any subsequence of `s` with those elements equals it.
   */
  lemma {:induction false} FilterUnique<T(!new)>(s: seq<T>, p: T -> bool, r: seq<T>)
    requires Subsequence(r, s)
    requires forall i :: 0 <= i < |r| ==> p(r[i])
    requires forall x :: multiset(r)[x] == if p(x) then multiset(s)[x] else 0
    ensures r == Filter(s, p)
    decreases |s|
  {
    if s == [] {
      assert r == [];
    } else {
      assert s == [s[0]] + s[1..];
      var m1 := multiset(s[1..]);
      if r != [] && r[0] == s[0] {
        assert r == [r[0]] + r[1..];
        forall x ensures multiset(r[1..])[x] == if p(x) then m1[x] else 0 {
          assert multiset(r)[x] == multiset(r[1..])[x] + (if x == s[0] then 1 else 0);
        }
        FilterUnique(s[1..], p, r[1..]);
      } else {
        assert Subsequence(r, s[1..]);
        SubsequenceMultiset(r, s[1..]);
        assert !p(s[0]) by {
          assert multiset(s)[s[0]] == m1[s[0]] + 1;
        }
        forall x ensures multiset(r)[x] == if p(x) then m1[x] else 0 {
          if p(x) { assert x != s[0]; }
        }
        FilterUnique(s[1..], p, r);
      }
    }
  }

  /** Filtering after an append filters the prefix and then decides on the new element. */
  lemma {:induction false} FilterAppend<T(!new)>(s: seq<T>, x: T, p: T -> bool)
    ensures Filter(s + [x], p) == Filter(s, p) + (if p(x) then [x] else [])
  {
    if s == [] {
      assert [] + [x] == [x];
    } else {
      assert (s + [x])[1..] == s[1..] + [x];
      FilterAppend(s[1..], x, p);
    }
  }

  /** When every element satisfies `p`, filtering changes nothing. */
  lemma {:induction false} FilterKeepsAll<T(!new)>(s: seq<T>, p: T -> bool)
    requires forall i :: 0 <= i < |s| ==> p(s[i])
    ensures Filter(s, p) == s
  {
    if s != [] {
      FilterKeepsAll(s[1..], p);
    }
  }

  /** The filtered sequence is empty exactly when no element satisfies `p`. */
  lemma {:induction false} FilterEmptyIff<T>(s: seq<T>, p: T -> bool)
    ensures Filter(s, p) == [] <==> forall i :: 0 <= i < |s| ==> !p(s[i])
  {
    if s != [] {
      FilterEmptyIff(s[1..], p);
      assert forall i :: 1 <= i < |s| ==> s[i] == s[1..][i - 1];
    }
  }

  /** `s.findIndex(p)`: the first position whose element satisfies `p`, if any. */
  function FindIndex<T>(s: seq<T>, p: T -> bool): (r: Option<nat>)
    ensures r.None? <==> forall i :: 0 <= i < |s| ==> !p(s[i])
    ensures r.Some? ==> r.value < |s| && p(s[r.value]) && forall k :: 0 <= k < r.value ==> !p(s[k])
  {
    if s == [] then None
    else if p(s[0]) then Some(0)
    else match FindIndex(s[1..], p)
      case None => None
      case Some(i) => Some(i + 1)
  }

  /** Two sequences on which the predicates agree position by position are searched alike. */
  lemma {:induction false} FindIndexPointwise<T, U>(s: seq<T>, p: T -> bool, s': seq<U>, q: U -> bool)
    requires |s| == |s'|
    requires forall i :: 0 <= i < |s| ==> p(s[i]) == q(s'[i])
    ensures FindIndex(s, p) == FindIndex(s', q)
  {
    if s != [] {
      FindIndexPointwise(s[1..], p, s'[1..], q);
    }
  }
}
