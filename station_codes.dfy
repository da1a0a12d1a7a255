/**
 * `getStationIdentifierFromNumber`: the reverse lookup from a station's number to
 * its identifier in the loaded station-code object. The object is given by its
 * entries, in the order `Object.entries` lists them; which entry comes first
 * decides the answer when two keys share a number.
 */
module StationCodes {
  import opened Wrappers

  type CodeEntries = seq<(string, int)>

  /** The first key, in entry order, whose value is `number`. */
  function FirstKeyOf(entries: CodeEntries, number: int): (r: Option<string>)
    ensures r.None? <==> forall i :: 0 <= i < |entries| ==> entries[i].1 != number
    ensures r.Some? ==> exists i :: 0 <= i < |entries| && entries[i] == (r.value, number) &&
                                    forall j :: 0 <= j < i ==> entries[j].1 != number
  {
    if entries == [] then None
    else if entries[0].1 == number then Some(entries[0].0)
    else
      var r := FirstKeyOf(entries[1..], number);
      assert r.Some? ==> exists i :: 1 <= i < |entries| && entries[i] == (r.value, number) &&
                                      forall j :: 0 <= j < i ==> entries[j].1 != number by {
        if r.Some? {
          var i :| 0 <= i < |entries[1..]| && entries[1..][i] == (r.value, number) &&
                   forall j :: 0 <= j < i ==> entries[1..][j].1 != number;
          assert entries[i + 1] == (r.value, number);
          forall j | 1 <= j < i + 1 ensures entries[j].1 != number {
            assert entries[j] == entries[1..][j - 1];
          }
        }
      }
      r
  }

  /**
   * Undefined when the codes are not loaded or no entry has this number;
   * otherwise the first matching key, so that looking the key up gives the number.
   */
  function StationIdentifierFromNumber(stationCodes: Option<CodeEntries>, number: int): (r: Option<string>)
    ensures stationCodes.None? ==> r.None?
    ensures stationCodes.Some? ==>
              (r.None? <==> forall i :: 0 <= i < |stationCodes.value| ==> stationCodes.value[i].1 != number)
    ensures r.Some? ==> exists i :: 0 <= i < |stationCodes.value| && stationCodes.value[i] == (r.value, number) &&
                                    forall j :: 0 <= j < i ==> stationCodes.value[j].1 != number
  {
    if stationCodes.None? then None else FirstKeyOf(stationCodes.value, number)
  }
}
