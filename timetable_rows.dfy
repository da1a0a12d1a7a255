/**
 * The frontend's view of one station-timetable row (the backend's row as the
 * browser receives it) and the two lookups the diagram code applies to lists of
 * them: lodash `keyBy` and `Array.prototype.find` by train number.
 */
module TimetableRows {
  import opened Wrappers

  /** Instants are milliseconds since the epoch; links are station point ids. */
  datatype TimetableRow = TimetableRow(
    trainNoLocal: string,
    trainType: string,
    fromPost: Option<string>,
    fromPostId: Option<string>,
    toPost: Option<string>,
    toPostId: Option<string>,
    scheduledArrival: int,
    scheduledDeparture: int)

  /** JavaScript truthiness of an optional string: absent and "" are both falsy. */
  predicate Truthy(s: Option<string>) {
    s.Some? && s.value != ""
  }

  function TrainNumber(row: TimetableRow): string {
    row.trainNoLocal
  }

  /** `rows.find(v => v.trainNoLocal === trainNo)` */
  function FindTrain(rows: seq<TimetableRow>, trainNo: string): (r: Option<TimetableRow>)
    ensures r.Some? ==> r.value in rows && r.value.trainNoLocal == trainNo
  {
    if rows == [] then None
    else if rows[0].trainNoLocal == trainNo then Some(rows[0])
    else FindTrain(rows[1..], trainNo)
  }

  /**
   * `find` gives `undefined` exactly when no row carries the number, and
   * otherwise the first row that does.
   */
  lemma {:induction false} FindTrainSpec(rows: seq<TimetableRow>, trainNo: string)
    ensures FindTrain(rows, trainNo).None? <==> forall i :: 0 <= i < |rows| ==> rows[i].trainNoLocal != trainNo
    ensures FindTrain(rows, trainNo).Some? ==>
      exists i :: 0 <= i < |rows| && rows[i] == FindTrain(rows, trainNo).value && rows[i].trainNoLocal == trainNo &&
                  forall j :: 0 <= j < i ==> rows[j].trainNoLocal != trainNo
  {
    if rows != [] && rows[0].trainNoLocal != trainNo {
      FindTrainSpec(rows[1..], trainNo);
      var r := FindTrain(rows[1..], trainNo);
      if r.None? {
        forall i | 0 <= i < |rows| ensures rows[i].trainNoLocal != trainNo {
          if i > 0 { assert rows[i] == rows[1..][i - 1]; }
        }
      } else {
        var i :| 0 <= i < |rows[1..]| && rows[1..][i] == r.value && rows[1..][i].trainNoLocal == trainNo &&
                 forall j :: 0 <= j < i ==> rows[1..][j].trainNoLocal != trainNo;
        assert rows[i + 1] == r.value;
        forall j | 0 <= j < i + 1 ensures rows[j].trainNoLocal != trainNo {
          if j > 0 { assert rows[j] == rows[1..][j - 1]; }
        }
      }
    }
  }

  /** lodash `keyBy(xs, key)`: an object from each key to the LAST element carrying it. */
  function KeyBy<T>(xs: seq<T>, key: T -> string): (m: map<string, T>)
    ensures forall k :: k in m ==> key(m[k]) == k
  {
    if xs == [] then map[]
    else
      var last := xs[|xs| - 1];
      KeyBy(xs[..|xs| - 1], key)[key(last) := last]
  }

  /**
   * The keys of `keyBy` are exactly the keys of the elements, and each key maps to
   * the last element that carries it: later duplicates overwrite earlier ones.
   */
  lemma {:induction false} KeyByLastWins<T>(xs: seq<T>, key: T -> string)
    ensures forall k :: k in KeyBy(xs, key) <==> exists i :: 0 <= i < |xs| && key(xs[i]) == k
    ensures forall k :: k in KeyBy(xs, key) ==>
              exists i :: 0 <= i < |xs| && KeyBy(xs, key)[k] == xs[i] && key(xs[i]) == k &&
                          forall j :: i < j < |xs| ==> key(xs[j]) != k
  {
    if xs != [] {
      var n := |xs| - 1;
      var init := xs[..n];
      KeyByLastWins(init, key);
      var m := KeyBy(xs, key);
      assert m == KeyBy(init, key)[key(xs[n]) := xs[n]];
      forall k ensures k in m <==> exists i :: 0 <= i < |xs| && key(xs[i]) == k {
        if k in m && k != key(xs[n]) {
          assert k in KeyBy(init, key);
          var i :| 0 <= i < |init| && key(init[i]) == k;
          assert xs[i] == init[i];
        }
        if exists i :: 0 <= i < |xs| && key(xs[i]) == k {
          var i :| 0 <= i < |xs| && key(xs[i]) == k;
          if i < n { assert init[i] == xs[i]; }
        }
      }
      forall k | k in m
        ensures exists i :: 0 <= i < |xs| && m[k] == xs[i] && key(xs[i]) == k &&
                            forall j :: i < j < |xs| ==> key(xs[j]) != k
      {
        if k == key(xs[n]) {
          assert m[k] == xs[n];
        } else {
          var i :| 0 <= i < |init| && KeyBy(init, key)[k] == init[i] && key(init[i]) == k &&
                   forall j :: i < j < |init| ==> key(init[j]) != k;
          assert xs[i] == init[i];
          forall j | i < j < |xs| ensures key(xs[j]) != k {
            if j < n { assert xs[j] == init[j]; }
          }
        }
      }
    }
  }
}
