/**
 * `Array.prototype.filter` over sequences, specified by the positions it keeps:
 * the result is the input read at the increasing list of positions whose
 * element passes the test.
 */
module Subsequences {

  /** `s.filter(keep)` */
  function Filter<T>(s: seq<T>, keep: T -> bool): seq<T> {
    if s == [] then []
    else
      var init := Filter(s[..|s| - 1], keep);
      if keep(s[|s| - 1]) then init + [s[|s| - 1]] else init
  }

  /** Strictly increasing positions. */
  ghost predicate Increasing(idx: seq<int>) {
    forall i, j :: 0 <= i < j < |idx| ==> idx[i] < idx[j]
  }

  /** The positions of `s` whose element passes `keep`, in increasing order. */
  ghost function KeptPositions<T>(s: seq<T>, keep: T -> bool): (idx: seq<int>)
    ensures Increasing(idx)
    ensures forall i :: 0 <= i < |idx| ==> 0 <= idx[i] < |s| && keep(s[idx[i]])
    ensures forall j :: 0 <= j < |s| && keep(s[j]) ==> j in idx
  {
    if s == [] then []
    else
      var n := |s| - 1;
      var init := KeptPositions(s[..n], keep);
      assert forall i :: 0 <= i < |init| ==> s[..n][init[i]] == s[init[i]];
      assert forall j :: 0 <= j < n ==> s[..n][j] == s[j];
      if keep(s[n]) then init + [n] else init
  }

  /** The filtered sequence is `s` read at the kept positions. */
  lemma {:induction false} FilterAt<T>(s: seq<T>, keep: T -> bool)
    ensures |Filter(s, keep)| == |KeptPositions(s, keep)|
    ensures forall i :: 0 <= i < |Filter(s, keep)| ==> Filter(s, keep)[i] == s[KeptPositions(s, keep)[i]]
  {
    if s != [] {
      var n := |s| - 1;
      FilterAt(s[..n], keep);
      var idx := KeptPositions(s[..n], keep);
      assert forall i :: 0 <= i < |idx| ==> s[..n][idx[i]] == s[idx[i]];
    }
  }

  /** Every element passing the test is kept as often as it occurs; every other element is dropped. */
  lemma {:induction false} FilterCounts<T>(s: seq<T>, keep: T -> bool)
    ensures forall x :: multiset(Filter(s, keep))[x] == if keep(x) then multiset(s)[x] else 0
  {
    if s != [] {
      var n := |s| - 1;
      FilterCounts(s[..n], keep);
      assert s == s[..n] + [s[n]];
    }
  }

  lemma FilterMembers<T>(s: seq<T>, keep: T -> bool)
    ensures forall x :: x in Filter(s, keep) <==> x in s && keep(x)
  {
    FilterCounts(s, keep);
    forall x ensures x in Filter(s, keep) <==> x in s && keep(x) {
      assert x in Filter(s, keep) <==> x in multiset(Filter(s, keep));
      assert x in s <==> x in multiset(s);
    }
  }

  /** Two kept elements keep their relative order in the filtered sequence. */
  lemma KeptInOrder<T>(s: seq<T>, keep: T -> bool, i: int, j: int)
    requires 0 <= i < j < |s| && keep(s[i]) && keep(s[j])
    ensures exists a, b :: 0 <= a < b < |KeptPositions(s, keep)| &&
              KeptPositions(s, keep)[a] == i && KeptPositions(s, keep)[b] == j
  {
    var idx := KeptPositions(s, keep);
    assert i in idx && j in idx;
    var a :| 0 <= a < |idx| && idx[a] == i;
    var b :| 0 <= b < |idx| && idx[b] == j;
  }

  /** An element kept after the one at filtered position `a` appears after `a` in the filtered sequence. */
  lemma LaterKept<T>(s: seq<T>, keep: T -> bool, a: int, j: int)
    requires 0 <= a < |KeptPositions(s, keep)| && KeptPositions(s, keep)[a] < j < |s| && keep(s[j])
    ensures exists b :: a < b < |Filter(s, keep)| && Filter(s, keep)[b] == s[j]
  {
    var idx := KeptPositions(s, keep);
    FilterAt(s, keep);
    var b :| 0 <= b < |idx| && idx[b] == j;
    assert a < b;
  }
}
