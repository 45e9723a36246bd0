/**
  Generic sequence operations behind the list comprehensions of the recommender
  (`[f(x) for x in s]`, `[x for x in s if p(x)]`) and behind `pd.concat` on
  blocks of rows.
 */
module Seqs {

  /** `[x for x in s if keep(x)]`: the elements that satisfy `keep`, in order. */
  function Filter<T>(s: seq<T>, keep: T -> bool): (r: seq<T>)
    ensures |r| <= |s|
    ensures forall i :: 0 <= i < |r| ==> keep(r[i])
  {
    if s == [] then []
    else (if keep(s[0]) then [s[0]] else []) + Filter(s[1..], keep)
  }

  /** `[f(x) for x in s]`. */
  function Map<T, U>(s: seq<T>, f: T -> U): seq<U>
  {
    seq(|s|, i requires 0 <= i < |s| => f(s[i]))
  }

  /** The blocks of `parts` one after the other, in order. */
  function Concat<T>(parts: seq<seq<T>>): seq<T>
  {
    if parts == [] then [] else parts[0] + Concat(parts[1..])
  }

  /** Sum of the lengths of the blocks. */
  function TotalLength<T>(parts: seq<seq<T>>): nat
  {
    if parts == [] then 0 else |parts[0]| + TotalLength(parts[1..])
  }

  /** `r` is obtained from `s` by deleting some elements (order kept). */
  ghost predicate IsSubsequence<T>(r: seq<T>, s: seq<T>)
    decreases |s|
  {
    if r == [] then true
    else if s == [] then false
    else (r[0] == s[0] && IsSubsequence(r[1..], s[1..])) || IsSubsequence(r, s[1..])
  }

  /** Filtering only deletes elements: the result is a subsequence of the input. */
  lemma {:induction false} FilterIsSubsequence<T>(s: seq<T>, keep: T -> bool)
    ensures IsSubsequence(Filter(s, keep), s)
  {
    if s != [] {
      FilterIsSubsequence(s[1..], keep);
      var r := Filter(s, keep);
      if keep(s[0]) {
        assert r[0] == s[0] && r[1..] == Filter(s[1..], keep);
      } else {
        assert r == Filter(s[1..], keep);
      }
    }
  }

  /** Every element that satisfies `keep` survives as often as it occurs; no other element survives. */
  lemma {:induction false} FilterCounts<T>(s: seq<T>, keep: T -> bool)
    ensures forall x :: multiset(Filter(s, keep))[x] == if keep(x) then multiset(s)[x] else 0
  {
    if s != [] {
      FilterCounts(s[1..], keep);
      assert s == [s[0]] + s[1..];
      var head := if keep(s[0]) then [s[0]] else [];
      assert Filter(s, keep) == head + Filter(s[1..], keep);
      assert multiset(s) == multiset([s[0]]) + multiset(s[1..]);
      assert multiset(Filter(s, keep)) == multiset(head) + multiset(Filter(s[1..], keep));
    }
  }

  /** Filtering distributes over concatenation. */
  lemma {:induction false} FilterAppend<T>(a: seq<T>, b: seq<T>, keep: T -> bool)
    ensures Filter(a + b, keep) == Filter(a, keep) + Filter(b, keep)
  {
    if a == [] {
      assert a + b == b;
    } else {
      assert (a + b)[0] == a[0];
      assert (a + b)[1..] == a[1..] + b;
      FilterAppend(a[1..], b, keep);
    }
  }

  /** A sequence whose every element satisfies `keep` is returned unchanged. */
  lemma {:induction false} FilterKeepsAll<T>(s: seq<T>, keep: T -> bool)
    requires forall i :: 0 <= i < |s| ==> keep(s[i])
    ensures Filter(s, keep) == s
  {
    if s != [] {
      FilterKeepsAll(s[1..], keep);
    }
  }

  /** Filtering twice with the same predicate is filtering once. */
  lemma FilterIdempotent<T>(s: seq<T>, keep: T -> bool)
    ensures Filter(Filter(s, keep), keep) == Filter(s, keep)
  {
    FilterKeepsAll(Filter(s, keep), keep);
  }

  /** Every element of a subsequence occurs in the sequence. */
  lemma {:induction false} SubsequenceMembers<T>(r: seq<T>, s: seq<T>)
    requires IsSubsequence(r, s)
    ensures forall i :: 0 <= i < |r| ==> r[i] in s
    decreases |s|
  {
    if r != [] && s != [] {
      if r[0] == s[0] && IsSubsequence(r[1..], s[1..]) {
        SubsequenceMembers(r[1..], s[1..]);
        forall i | 0 <= i < |r| ensures r[i] in s {
          if i > 0 { assert r[i] == r[1..][i - 1]; }
        }
      } else {
        SubsequenceMembers(r, s[1..]);
      }
    }
  }

  /** A subsequence of a suffix of `s` is a subsequence of `s`. */
  lemma {:induction false} SubsequenceOfSuffix<T>(r: seq<T>, s: seq<T>, k: nat)
    requires k <= |s|
    requires IsSubsequence(r, s[k..])
    ensures IsSubsequence(r, s)
    decreases k
  {
    if k > 0 && r != [] {
      assert s[1..][k - 1..] == s[k..];
      SubsequenceOfSuffix(r, s[1..], k - 1);
    }
  }

  /** `pd.concat` keeps every block in order: concatenating two lists of blocks concatenates the results. */
  lemma {:induction false} ConcatAppend<T>(a: seq<seq<T>>, b: seq<seq<T>>)
    ensures Concat(a + b) == Concat(a) + Concat(b)
    ensures |Concat(a)| == TotalLength(a)
  {
    if a == [] {
      assert a + b == b;
    } else {
      assert (a + b)[0] == a[0];
      assert (a + b)[1..] == a[1..] + b;
      ConcatAppend(a[1..], b);
    }
  }

  /** `list(enumerate(s))`: each element paired with its position. */
  function Enumerate<T>(s: seq<T>): seq<(nat, T)>
  {
    seq(|s|, i requires 0 <= i < |s| => (i, s[i]))
  }

  /** The positions paired with the elements strictly increase along the sequence. */
  predicate IncreasingKeys<T>(s: seq<(nat, T)>)
  {
    forall i, j :: 0 <= i < j < |s| ==> s[i].0 < s[j].0
  }

  /** Filtering keeps positions strictly increasing. */
  lemma {:induction false} FilterIncreasingKeys<T>(s: seq<(nat, T)>, keep: ((nat, T)) -> bool)
    requires IncreasingKeys(s)
    ensures IncreasingKeys(Filter(s, keep))
  {
    if s != [] {
      var rest := Filter(s[1..], keep);
      FilterIncreasingKeys(s[1..], keep);
      FilterIsSubsequence(s[1..], keep);
      SubsequenceMembers(rest, s[1..]);
      if keep(s[0]) {
        var r := Filter(s, keep);
        assert r == [s[0]] + rest;
        forall i, j | 0 <= i < j < |r| ensures r[i].0 < r[j].0 {
          assert r[j] == rest[j - 1];
          if i > 0 {
            assert r[i] == rest[i - 1];
          } else {
            var m :| 0 <= m < |s[1..]| && s[1..][m] == rest[j - 1];
            assert s[1..][m] == s[m + 1];
          }
        }
      }
    }
  }
}
