/**
 * The backend's per-station timetable: from the list of trains on a server, the
 * rows of the trains that call at one station, each row carrying the train's own
 * fields, the data of its checkpoint at that station and links to the checkpoints
 * just before and just after it, ordered by scheduled arrival.
 */
module StationTimetable {
  import opened Wrappers
  import opened StableSort
  import opened Subsequences

  /** A loosely typed field value of a train record, as JSON delivers it. */
  datatype Value = Str(s: string) | Num(n: int) | Bool(b: bool) | Null

  /** One entry of a train's route. Instants are milliseconds since the epoch. */
  datatype Checkpoint = Checkpoint(
    pointId: string,
    nameForPerson: string,
    trainType: string,
    stopTypeNumber: int,
    track: Option<int>,
    platform: Option<string>,
    arrivalTime: Option<int>,
    departureTime: Option<int>,
    maxSpeed: int,
    line: int,
    plannedStop: int,
    indexOfPoint: int)

  /** A train as the server lists it: `fields` holds every field except `timetable`. */
  datatype ServerTrain = ServerTrain(fields: map<string, Value>, timetable: seq<Checkpoint>)

  /**
   * The row built for one train. `EmptyRow` is the `{}` the mapping falls back to
   * when no station entry is found.
   */
  datatype StationTrainRow =
    | EmptyRow
    | Row(
        carried: map<string, Value>,
        trainType: string,
        stopType: int,
        track: Option<int>,
        platform: Option<string>,
        scheduledArrival: int,
        scheduledDeparture: int,
        maxSpeed: int,
        fromPost: Option<string>,
        fromPostId: Option<string>,
        toPost: Option<string>,
        toPostId: Option<string>,
        line: int,
        plannedStop: int,
        pointId: string,
        stationIndex: int)

  /** The names the row literal sets after spreading the train; they override the train's fields. */
  const StationKeys: set<string> := {
    "trainType", "stopType", "track", "platform", "scheduledArrivalObject",
    "scheduledDepartureObject", "maxSpeed", "fromPost", "fromPostId", "toPost",
    "toPostId", "line", "plannedStop", "pointId", "stationIndex"}

  /** `new Date(0)`: the arrival given to an entry without one. */
  const EpochArrival: int := 0

  /**
   * `new Date(3000, 12, 31)`: month 12 rolls over into January, so this is
   * 3001-01-31T00:00, read here as UTC.
   */
  const FarFutureDeparture: int := 32537808000000

  /** `timetable.some(checkpoint => checkpoint.pointId === stationId)` */
  predicate CallsAt(train: ServerTrain, stationId: string) {
    exists c :: c in train.timetable && c.pointId == stationId
  }

  /** `timetable.find(...)`: the first checkpoint at the station. */
  function FindEntry(tt: seq<Checkpoint>, stationId: string): (r: Option<Checkpoint>)
    ensures r.Some? <==> exists c :: c in tt && c.pointId == stationId
    ensures r.Some? ==> r.value in tt && r.value.pointId == stationId
  {
    if tt == [] then None
    else if tt[0].pointId == stationId then Some(tt[0])
    else FindEntry(tt[1..], stationId)
  }

  /** `timetable.findIndex(...)`: the index of the first checkpoint at the station, or -1. */
  function FindEntryIndex(tt: seq<Checkpoint>, stationId: string): (i: int)
    ensures -1 <= i < |tt|
    ensures 0 <= i ==> tt[i].pointId == stationId
    ensures 0 <= i ==> forall j :: 0 <= j < i ==> tt[j].pointId != stationId
    ensures i == -1 ==> forall j :: 0 <= j < |tt| ==> tt[j].pointId != stationId
  {
    if tt == [] then -1
    else if tt[0].pointId == stationId then 0
    else
      var k := FindEntryIndex(tt[1..], stationId);
      if k < 0 then -1 else k + 1
  }

  /** `find` and `findIndex` scan for the same predicate, so they agree on the entry. */
  lemma {:induction false} FindAgreesWithFindIndex(tt: seq<Checkpoint>, stationId: string)
    ensures FindEntry(tt, stationId) ==
            (var i := FindEntryIndex(tt, stationId); if i < 0 then None else Some(tt[i]))
  {
    if tt != [] && tt[0].pointId != stationId {
      FindAgreesWithFindIndex(tt[1..], stationId);
    }
  }

  function CallsAtStation(stationId: string): ServerTrain -> bool {
    train => CallsAt(train, stationId)
  }

  /**
   * `trainList.filter(train => train.timetable.some(...))`: the calling trains,
   * each as often as listed, in list order.
   */
  function TrainsForStation(stationId: string, trains: seq<ServerTrain>): (r: seq<ServerTrain>)
    ensures forall t :: multiset(r)[t] == if CallsAt(t, stationId) then multiset(trains)[t] else 0
    ensures |r| == |KeptPositions(trains, CallsAtStation(stationId))|
    ensures forall i :: 0 <= i < |r| ==> r[i] == trains[KeptPositions(trains, CallsAtStation(stationId))[i]]
  {
    FilterCounts(trains, CallsAtStation(stationId));
    FilterAt(trains, CallsAtStation(stationId));
    Filter(trains, CallsAtStation(stationId))
  }

  /** The row literal built for one train (the body of the `map` callback). */
  function MakeRow(train: ServerTrain, stationId: string): (r: StationTrainRow)
    ensures r.EmptyRow? <==> !CallsAt(train, stationId)
    ensures r.Row? ==> r.pointId == stationId && r.carried == train.fields - StationKeys
  {
    var tt := train.timetable;
    match FindEntry(tt, stationId)
    case None => EmptyRow
    case Some(entry) =>
      var stationIndex := FindEntryIndex(tt, stationId);
      var previousEntry := if stationIndex > 0 then Some(tt[stationIndex - 1]) else None;
      var nextEntry := if stationIndex < |tt| - 1 then Some(tt[stationIndex + 1]) else None;
      Row(
        carried := train.fields - StationKeys,
        trainType := entry.trainType,
        stopType := entry.stopTypeNumber,
        track := entry.track,
        platform := entry.platform,
        scheduledArrival := if entry.arrivalTime.Some? then entry.arrivalTime.value else EpochArrival,
        scheduledDeparture := if entry.departureTime.Some? then entry.departureTime.value else FarFutureDeparture,
        maxSpeed := entry.maxSpeed,
        fromPost := if previousEntry.Some? then Some(previousEntry.value.nameForPerson) else None,
        fromPostId := if previousEntry.Some? then Some(previousEntry.value.pointId) else None,
        toPost := if nextEntry.Some? then Some(nextEntry.value.nameForPerson) else None,
        toPostId := if nextEntry.Some? then Some(nextEntry.value.pointId) else None,
        line := entry.line,
        plannedStop := entry.plannedStop,
        pointId := entry.pointId,
        stationIndex := entry.indexOfPoint)
  }

  /** `trainsForStation.map(...)` */
  function WithDynamicData(stationId: string, trains: seq<ServerTrain>): (r: seq<StationTrainRow>)
    ensures |r| == |trains|
    ensures forall i :: 0 <= i < |trains| ==> r[i] == MakeRow(trains[i], stationId)
  {
    if trains == [] then [] else [MakeRow(trains[0], stationId)] + WithDynamicData(stationId, trains[1..])
  }

  /** The sort key `scheduledArrivalObject`; `{}` has none and is given the epoch. */
  function ArrivalKey(row: StationTrainRow): int {
    if row.Row? then row.scheduledArrival else 0
  }

  /** `getStationTimetable(stationId, trainList)` */
  function GetStationTimetable(stationId: string, trainList: seq<ServerTrain>): (r: seq<StationTrainRow>)
    ensures SortedBy(r, ArrivalKey)
    ensures |r| == |TrainsForStation(stationId, trainList)|
  {
    SortByCorrect(WithDynamicData(stationId, TrainsForStation(stationId, trainList)), ArrivalKey);
    SortBy(WithDynamicData(stationId, TrainsForStation(stationId, trainList)), ArrivalKey)
  }

  /** The checkpoint at index `i` is the train's first call at the station. */
  ghost predicate FirstCallAt(tt: seq<Checkpoint>, stationId: string, i: int) {
    0 <= i < |tt| && tt[i].pointId == stationId &&
    forall j :: 0 <= j < i ==> tt[j].pointId != stationId
  }

  /**
   * The row of a train that calls at the station, described from the train's
   * first call there: its data from that checkpoint, the previous/next links from
   * the neighbouring checkpoints (absent at either end of the route), the time
   * defaults, and the train's fields that the row literal does not override.
   */
  lemma RowOfCallingTrain(train: ServerTrain, stationId: string, i: int)
    requires FirstCallAt(train.timetable, stationId, i)
    ensures var r := MakeRow(train, stationId);
      var tt := train.timetable;
      && r.Row?
      && r.pointId == stationId
      && r.trainType == tt[i].trainType && r.stopType == tt[i].stopTypeNumber
      && r.track == tt[i].track && r.platform == tt[i].platform
      && r.maxSpeed == tt[i].maxSpeed && r.line == tt[i].line
      && r.plannedStop == tt[i].plannedStop && r.stationIndex == tt[i].indexOfPoint
      && (r.fromPostId.Some? <==> i > 0)
      && (i > 0 ==> r.fromPostId == Some(tt[i - 1].pointId) && r.fromPost == Some(tt[i - 1].nameForPerson))
      && (r.toPostId.Some? <==> i < |tt| - 1)
      && (i < |tt| - 1 ==> r.toPostId == Some(tt[i + 1].pointId) && r.toPost == Some(tt[i + 1].nameForPerson))
      && (tt[i].arrivalTime == None ==> r.scheduledArrival == EpochArrival)
      && (tt[i].arrivalTime.Some? ==> r.scheduledArrival == tt[i].arrivalTime.value)
      && (tt[i].departureTime == None ==> r.scheduledDeparture == FarFutureDeparture)
      && (tt[i].departureTime.Some? ==> r.scheduledDeparture == tt[i].departureTime.value)
      && (forall k :: k in r.carried <==> k in train.fields && k !in StationKeys)
      && (forall k :: k in r.carried ==> r.carried[k] == train.fields[k])
  {
    var tt := train.timetable;
    FindAgreesWithFindIndex(tt, stationId);
    var k := FindEntryIndex(tt, stationId);
    assert tt[i] in tt;
    assert k == i;
  }

  /**
   * The whole result: ordered by arrival, a permutation of the rows of the calling
   * trains (one each), stable for equal arrivals, never the `{}` fallback, and
   * every row about the requested station.
   */
  lemma GetStationTimetableCorrect(stationId: string, trainList: seq<ServerTrain>)
    ensures var result := GetStationTimetable(stationId, trainList);
      var rows := WithDynamicData(stationId, TrainsForStation(stationId, trainList));
      && SortedBy(result, ArrivalKey)
      && multiset(result) == multiset(rows)
      && |result| == |TrainsForStation(stationId, trainList)|
      && (forall k :: RunOf(result, ArrivalKey, k) == RunOf(rows, ArrivalKey, k))
      && (forall r :: r in result ==> r.Row? && r.pointId == stationId)
  {
    var trains := TrainsForStation(stationId, trainList);
    var rows := WithDynamicData(stationId, trains);
    var result := GetStationTimetable(stationId, trainList);
    SortByCorrect(rows, ArrivalKey);
    forall k ensures RunOf(result, ArrivalKey, k) == RunOf(rows, ArrivalKey, k) {
      SortByStable(rows, ArrivalKey, k);
    }
    forall r | r in result ensures r.Row? && r.pointId == stationId {
      assert r in multiset(rows);
      var j :| 0 <= j < |rows| && rows[j] == r;
      var t := trains[j];
      assert t in multiset(trains);
      assert CallsAt(t, stationId);
      var i := FindEntryIndex(t.timetable, stationId);
      RowOfCallingTrain(t, stationId, i);
    }
  }

  /** `r` is the row of some listed train that calls at the station. */
  ghost predicate RowOfListedTrain(r: StationTrainRow, stationId: string, trainList: seq<ServerTrain>) {
    exists t :: t in trainList && CallsAt(t, stationId) && r == MakeRow(t, stationId)
  }

  /** A train has a row in the result exactly when it calls at the station. */
  lemma RowsAreForCallingTrains(stationId: string, trainList: seq<ServerTrain>, train: ServerTrain)
    requires train in trainList
    ensures CallsAt(train, stationId) ==> MakeRow(train, stationId) in GetStationTimetable(stationId, trainList)
    ensures forall r :: r in GetStationTimetable(stationId, trainList) ==> RowOfListedTrain(r, stationId, trainList)
  {
    var rows := WithDynamicData(stationId, TrainsForStation(stationId, trainList));
    SortByMembers(rows, ArrivalKey);
    assert GetStationTimetable(stationId, trainList) == SortBy(rows, ArrivalKey);
    if CallsAt(train, stationId) {
      CallingTrainHasRow(stationId, trainList, train);
    }
    RowsFromCallingTrains(stationId, trainList);
  }

  lemma CallingTrainHasRow(stationId: string, trainList: seq<ServerTrain>, train: ServerTrain)
    requires train in trainList && CallsAt(train, stationId)
    ensures MakeRow(train, stationId) in WithDynamicData(stationId, TrainsForStation(stationId, trainList))
  {
    var trains := TrainsForStation(stationId, trainList);
    var rows := WithDynamicData(stationId, trains);
    assert train in multiset(trainList);
    assert train in multiset(trains);
    var j :| 0 <= j < |trains| && trains[j] == train;
    assert rows[j] == MakeRow(train, stationId);
  }

  lemma RowsFromCallingTrains(stationId: string, trainList: seq<ServerTrain>)
    ensures forall r :: r in WithDynamicData(stationId, TrainsForStation(stationId, trainList)) ==>
              RowOfListedTrain(r, stationId, trainList)
  {
    var trains := TrainsForStation(stationId, trainList);
    var rows := WithDynamicData(stationId, trains);
    forall r | r in rows
      ensures RowOfListedTrain(r, stationId, trainList)
    {
      var j :| 0 <= j < |rows| && rows[j] == r;
      assert trains[j] in multiset(trains);
      assert r == MakeRow(trains[j], stationId);
    }
  }

  /** Two calling trains listed in order have their rows in that order before the sort. */
  lemma CallingTrainsInOrder(stationId: string, trainList: seq<ServerTrain>, i: int, j: int)
    requires 0 <= i < j < |trainList|
    requires CallsAt(trainList[i], stationId) && CallsAt(trainList[j], stationId)
    ensures var trains := TrainsForStation(stationId, trainList);
      exists a, b :: 0 <= a < b < |trains| && trains[a] == trainList[i] && trains[b] == trainList[j]
  {
    var keep := CallsAtStation(stationId);
    var idx := KeptPositions(trainList, keep);
    KeptInOrder(trainList, keep, i, j);
    var a, b :| 0 <= a < b < |idx| && idx[a] == i && idx[b] == j;
    var trains := TrainsForStation(stationId, trainList);
    assert trains[a] == trainList[i] && trains[b] == trainList[j];
  }

  /**
   * Stability against the server's list: of two calling trains with the same
   * arrival, the one listed first has its row first in the result.
   */
  lemma EqualArrivalsKeepListOrder(stationId: string, trainList: seq<ServerTrain>, i: int, j: int)
    requires 0 <= i < j < |trainList|
    requires CallsAt(trainList[i], stationId) && CallsAt(trainList[j], stationId)
    requires ArrivalKey(MakeRow(trainList[i], stationId)) == ArrivalKey(MakeRow(trainList[j], stationId))
    ensures var result := GetStationTimetable(stationId, trainList);
      exists p, q :: 0 <= p < q < |result| &&
        result[p] == MakeRow(trainList[i], stationId) && result[q] == MakeRow(trainList[j], stationId)
  {
    var trains := TrainsForStation(stationId, trainList);
    var rows := WithDynamicData(stationId, trains);
    CallingTrainsInOrder(stationId, trainList, i, j);
    var a, b :| 0 <= a < b < |trains| && trains[a] == trainList[i] && trains[b] == trainList[j];
    assert rows[a] == MakeRow(trainList[i], stationId);
    assert rows[b] == MakeRow(trainList[j], stationId);
    SortByKeepsOrder(rows, ArrivalKey, a, b);
    assert GetStationTimetable(stationId, trainList) == SortBy(rows, ArrivalKey);
  }
}
