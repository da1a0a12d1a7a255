/**
 * Choice of the reference ("base") train: the station's timetable is sorted by
 * scheduled departure and the first train departing strictly after the server
 * time becomes the base train; when none does, the base train stays as it was.
 */
module BaseTrain {
  import opened StableSort
  import opened TimetableRows

  function Departure(row: TimetableRow): int {
    row.scheduledDeparture
  }

  /**
   * `stationCodesLoaded` stands for the guard that the station codes have been
   * downloaded (the timetable and the server time are always present). The
   * returned sequence is the order the timetable is left in by the in-place sort.
   */
  method SelectBaseTrain(timetable: seq<TimetableRow>, now: int, current: string, stationCodesLoaded: bool)
    returns (baseTrainNumber: string, sortedTimetable: seq<TimetableRow>)
    ensures !stationCodesLoaded ==> baseTrainNumber == current && sortedTimetable == timetable
    ensures stationCodesLoaded ==> sortedTimetable == SortBy(timetable, Departure)
    ensures stationCodesLoaded && (exists r :: r in timetable && r.scheduledDeparture > now) ==>
              exists i :: 0 <= i < |sortedTimetable| && sortedTimetable[i].trainNoLocal == baseTrainNumber &&
                          sortedTimetable[i].scheduledDeparture > now &&
                          (forall j :: 0 <= j < i ==> sortedTimetable[j].scheduledDeparture <= now) &&
                          (forall r :: r in timetable && r.scheduledDeparture > now ==>
                                         sortedTimetable[i].scheduledDeparture <= r.scheduledDeparture)
    ensures (forall r :: r in timetable ==> r.scheduledDeparture <= now) ==> baseTrainNumber == current
  {
    baseTrainNumber, sortedTimetable := current, timetable;
    if !stationCodesLoaded {
      return;
    }
    sortedTimetable := SortBy(timetable, Departure);
    SortByCorrect(timetable, Departure);
    for i := 0 to |sortedTimetable|
      invariant forall j :: 0 <= j < i ==> sortedTimetable[j].scheduledDeparture <= now
    {
      if sortedTimetable[i].scheduledDeparture > now {
        baseTrainNumber := sortedTimetable[i].trainNoLocal;
        FirstLaterIsEarliest(timetable, sortedTimetable, now, i);
        assert sortedTimetable[i] in multiset(timetable);
        return;
      }
    }
    NoneLater(timetable, sortedTimetable, now);
  }

  /** In the sorted order, the first train departing after `now` departs no later than any other such train. */
  lemma FirstLaterIsEarliest(timetable: seq<TimetableRow>, sorted: seq<TimetableRow>, now: int, i: int)
    requires SortedBy(sorted, Departure) && multiset(sorted) == multiset(timetable)
    requires 0 <= i < |sorted| && sorted[i].scheduledDeparture > now
    requires forall j :: 0 <= j < i ==> sorted[j].scheduledDeparture <= now
    ensures forall r :: r in timetable && r.scheduledDeparture > now ==> sorted[i].scheduledDeparture <= r.scheduledDeparture
  {
    forall r | r in timetable && r.scheduledDeparture > now
      ensures sorted[i].scheduledDeparture <= r.scheduledDeparture
    {
      assert r in multiset(sorted);
      var k :| 0 <= k < |sorted| && sorted[k] == r;
      assert Departure(sorted[k]) == r.scheduledDeparture;
    }
  }

  /** When no train of the sorted order departs after `now`, none of the timetable does. */
  lemma NoneLater(timetable: seq<TimetableRow>, sorted: seq<TimetableRow>, now: int)
    requires multiset(sorted) == multiset(timetable)
    requires forall j :: 0 <= j < |sorted| ==> sorted[j].scheduledDeparture <= now
    ensures forall r :: r in timetable ==> r.scheduledDeparture <= now
  {
    forall r | r in timetable ensures r.scheduledDeparture <= now {
      assert r in multiset(sorted);
    }
  }
}
