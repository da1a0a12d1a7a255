/**
 * A stable sort by an integer key. Both `_.sortBy` (lodash) and, since ES2019,
 * `Array.prototype.sort` are stable, so the same definition serves the backend's
 * sort by arrival and the frontend's sort by departure.
 */
module StableSort {

  /** Ascending order by `key`. */
  ghost predicate SortedBy<T>(s: seq<T>, key: T -> int) {
    forall i, j :: 0 <= i < j < |s| ==> key(s[i]) <= key(s[j])
  }

  /** The elements of `s` whose key is `k`, in their order in `s`. */
  function RunOf<T>(s: seq<T>, key: T -> int, k: int): seq<T> {
    if s == [] then []
    else (if key(s[0]) == k then [s[0]] else []) + RunOf(s[1..], key, k)
  }

  /** Puts `x` in front of the first element whose key is not smaller than its own. */
  function Insert<T>(x: T, s: seq<T>, key: T -> int): seq<T> {
    if s == [] || key(x) <= key(s[0]) then [x] + s
    else [s[0]] + Insert(x, s[1..], key)
  }

  /** Insertion sort from the back: the head is inserted into the sorted tail. */
  function SortBy<T>(s: seq<T>, key: T -> int): seq<T> {
    if s == [] then [] else Insert(s[0], SortBy(s[1..], key), key)
  }

  /** Sorting one element into a sorted sequence keeps it sorted; the head is `x` or the old head. */
  lemma {:induction false} InsertSorted<T>(x: T, s: seq<T>, key: T -> int)
    requires SortedBy(s, key)
    ensures SortedBy(Insert(x, s, key), key)
    ensures |Insert(x, s, key)| == |s| + 1
    ensures Insert(x, s, key)[0] == x || Insert(x, s, key)[0] == s[0]
  {
    if s == [] || key(x) <= key(s[0]) {
    } else {
      var r := Insert(x, s[1..], key);
      InsertSorted(x, s[1..], key);
      assert key(s[0]) <= key(r[0]);
      forall i, j | 0 <= i < j < |r| + 1 ensures key(([s[0]] + r)[i]) <= key(([s[0]] + r)[j]) {
        if i > 0 {
          assert ([s[0]] + r)[i] == r[i - 1];
        }
        assert ([s[0]] + r)[j] == r[j - 1];
      }
    }
  }

  /** Inserting adds exactly `x` to the elements. */
  lemma {:induction false} InsertPermutes<T>(x: T, s: seq<T>, key: T -> int)
    ensures multiset(Insert(x, s, key)) == multiset(s) + multiset{x}
  {
    if s != [] && key(x) > key(s[0]) {
      InsertPermutes(x, s[1..], key);
      assert s == [s[0]] + s[1..];
    }
  }

  lemma RunOfCons<T>(y: T, t: seq<T>, key: T -> int, k: int)
    ensures RunOf([y] + t, key, k) == (if key(y) == k then [y] else []) + RunOf(t, key, k)
  {
    assert ([y] + t)[1..] == t;
  }

  lemma {:induction false} InsertRun<T>(x: T, s: seq<T>, key: T -> int, k: int)
    ensures RunOf(Insert(x, s, key), key, k) == (if key(x) == k then [x] else []) + RunOf(s, key, k)
  {
    if s == [] || key(x) <= key(s[0]) {
      RunOfCons(x, s, key, k);
    } else {
      InsertRun(x, s[1..], key, k);
      RunOfCons(s[0], Insert(x, s[1..], key), key, k);
      RunOfCons(s[0], s[1..], key, k);
      assert [s[0]] + s[1..] == s;
    }
  }

  /** The result is ordered by key and is a permutation of the input. */
  lemma {:induction false} SortByCorrect<T>(s: seq<T>, key: T -> int)
    ensures SortedBy(SortBy(s, key), key)
    ensures multiset(SortBy(s, key)) == multiset(s)
    ensures |SortBy(s, key)| == |s|
  {
    if s != [] {
      SortByCorrect(s[1..], key);
      InsertSorted(s[0], SortBy(s[1..], key), key);
      InsertPermutes(s[0], SortBy(s[1..], key), key);
      assert s == [s[0]] + s[1..];
    }
  }

  /** Sorting neither adds nor drops an element. */
  lemma SortByMembers<T>(s: seq<T>, key: T -> int)
    ensures forall x :: x in SortBy(s, key) <==> x in s
  {
    SortByCorrect(s, key);
    forall x ensures x in SortBy(s, key) <==> x in s {
      assert x in SortBy(s, key) <==> x in multiset(SortBy(s, key));
      assert x in s <==> x in multiset(s);
    }
  }

  /**
   * Stability: for every key value, the elements carrying it appear in the output
   * in exactly their input order.
   */
  lemma {:induction false} SortByStable<T>(s: seq<T>, key: T -> int, k: int)
    ensures RunOf(SortBy(s, key), key, k) == RunOf(s, key, k)
  {
    if s != [] {
      SortByStable(s[1..], key, k);
      InsertRun(s[0], SortBy(s[1..], key), key, k);
    }
  }

  /** Where `Insert` puts `x`: past the leading elements with a smaller key. */
  ghost function InsertPos<T>(x: T, s: seq<T>, key: T -> int): (m: nat)
    ensures m <= |s|
  {
    if s == [] || key(x) <= key(s[0]) then 0 else InsertPos(x, s[1..], key) + 1
  }

  /** `Insert` splices `x` in at `InsertPos`, after elements whose keys are all smaller. */
  lemma {:induction false} InsertAt<T>(x: T, s: seq<T>, key: T -> int)
    ensures var m := InsertPos(x, s, key);
      Insert(x, s, key) == s[..m] + [x] + s[m..] && forall i :: 0 <= i < m ==> key(s[i]) < key(x)
  {
    if s != [] && key(x) > key(s[0]) {
      var m := InsertPos(x, s[1..], key);
      InsertAt(x, s[1..], key);
      assert s[..m + 1] == [s[0]] + s[1..][..m];
      assert s[m + 1..] == s[1..][m..];
      forall i | 0 < i < m + 1 ensures key(s[i]) < key(x) {
        assert s[i] == s[1..][i - 1];
      }
    }
  }

  /** `Insert` keeps the order of the elements already there. */
  lemma InsertKeepsOrder<T>(x: T, t: seq<T>, key: T -> int, p: int, q: int)
    requires 0 <= p < q < |t|
    ensures exists p', q' :: 0 <= p' < q' < |Insert(x, t, key)| && Insert(x, t, key)[p'] == t[p] && Insert(x, t, key)[q'] == t[q]
  {
    var m := InsertPos(x, t, key);
    InsertAt(x, t, key);
    var r := Insert(x, t, key);
    var p' := if p < m then p else p + 1;
    var q' := if q < m then q else q + 1;
    assert r[p'] == t[p] && r[q'] == t[q];
  }

  /** `Insert` puts `x` before every element with the same key. */
  lemma InsertBeforeEqual<T>(x: T, t: seq<T>, key: T -> int, q: int)
    requires 0 <= q < |t| && key(t[q]) == key(x)
    ensures exists p', q' :: 0 <= p' < q' < |Insert(x, t, key)| && Insert(x, t, key)[p'] == x && Insert(x, t, key)[q'] == t[q]
  {
    var m := InsertPos(x, t, key);
    InsertAt(x, t, key);
    var r := Insert(x, t, key);
    assert r[m] == x && r[q + 1] == t[q];
  }

  /**
   * Stability by position: two elements with the same key, the first before the
   * second in the input, appear in that order in the output.
   */
  lemma {:induction false} SortByKeepsOrder<T>(s: seq<T>, key: T -> int, a: int, b: int)
    requires 0 <= a < b < |s| && key(s[a]) == key(s[b])
    ensures exists p, q :: 0 <= p < q < |SortBy(s, key)| && SortBy(s, key)[p] == s[a] && SortBy(s, key)[q] == s[b]
  {
    var t := SortBy(s[1..], key);
    assert SortBy(s, key) == Insert(s[0], t, key);
    if a == 0 {
      SortByMembers(s[1..], key);
      assert s[b] == s[1..][b - 1];
      assert s[b] in s[1..];
      var q :| 0 <= q < |t| && t[q] == s[b];
      InsertBeforeEqual(s[0], t, key, q);
    } else {
      SortByKeepsOrder(s[1..], key, a - 1, b - 1);
      var p, q :| 0 <= p < q < |t| && t[p] == s[1..][a - 1] && t[q] == s[1..][b - 1];
      InsertKeepsOrder(s[0], t, key, p, q);
    }
  }
}
