# Train-graph core of the dispatcher timetable viewer, in Dafny

This project models two parts of the dispatcher timetable viewer for a train simulator (its
"EDR" screen) and proves properties about them:

* **The backend's per-station timetable** (`getStationTimetable`). From the list of trains on a
  server it keeps the trains whose route calls at one station. For each such train it builds a
  row from the train's fields and its first checkpoint at the station. The row links to the
  checkpoints just before and just after that one (`fromPost`/`fromPostId`,
  `toPost`/`toPostId`), and a missing time gets a default. The rows are sorted stably by
  scheduled arrival (modules `StationTimetable`, `StableSort`).
* **The diagram component of the frontend**:
  * the choice of the base train: the first train, in departure order, that departs after the
    server time (module `BaseTrain`);
  * the guards before the station-chain walk and the walk itself (module `ChainWalk`). The walk
    starts from the base train at the current post. It follows the base train's `toPostId`
    links forward and its `fromPostId` links backward. Each link goes through `parseInt` and
    the reverse station-code lookup. Each neighbouring post's timetable is fetched until seven
    posts are held. The walk is modelled both as a specification function (`Iterate`, `Walk`)
    and as a class holding the record array and the two stop flags. Its methods mirror
    `pushRecord` and the `while` loop (`ChainWalker`);
  * the reverse station-code lookup (module `StationCodes`) and JavaScript `parseInt`
    (module `JsParseInt`);
  * the `HHmm` integer encoding of a time, the legacy diagram's window of rows around the
    current time, and the day-rollover flags of `makeDate` (module `GraphTime`);
  * the legacy diagram's data: two rows per scanned post, each built with
    `Object.fromEntries` (module `LegacyChart`);
  * lodash `keyBy` and `find` by train number (module `TimetableRows`), and `Array.prototype.filter`,
    specified by the positions it keeps (module `Subsequences`).

Instants are integers: milliseconds since the epoch. Times of day are read in UTC. These are
treated as parameters of the model:

* the timetable fetch, as a total function from a post id to an optional list of rows;
* the loaded station codes, as their `Object.entries` list;
* the post configuration and path finding of the legacy diagram, as the posts to scan and a
  "next on path" test;
* the internal-id table and `getDateWithHourAndMinutes`.

The legacy diagram's data is modelled twice. `ChartData` is the data as the source builds it,
including the stray `"undefined"` key. `IntendedChartData` is the corrected version, described
under "## Findings".

Where the code and its surrounding description differ, the model follows the code. For
example, the walk can fail to terminate, and `parseInt` can return NaN although a comment
says it never fails.

## Model

| member | source | states |
|---|---|---|
| StationTimetable.FindEntry | backend/src/dataTransformer/stations.ts:8 | The station entry is found exactly when some checkpoint of the route is at the station, and it is then such a checkpoint of the route |
| StationTimetable.FindEntryIndex | backend/src/dataTransformer/stations.ts:13 | The index is -1 exactly when no checkpoint is at the station; otherwise it is the first checkpoint at the station |
| StationTimetable.FindAgreesWithFindIndex | backend/src/dataTransformer/stations.ts:8-16 | `find` and `findIndex` pick the same checkpoint, so the neighbours read through the index surround the entry that the row's data comes from |
| StationTimetable.TrainsForStation | backend/src/dataTransformer/stations.ts:6 | Every train that calls at the station is kept as often as it occurs in the list; every other train is dropped. The result is the list read at the increasing positions of the calling trains, so list order is kept |
| StationTimetable.CallingTrainsInOrder | backend/src/dataTransformer/stations.ts:6 | Two calling trains at list positions `i < j` appear in the filtered list in that order |
| StationTimetable.MakeRow | backend/src/dataTransformer/stations.ts:7-40 | The row is `{}` exactly when the train does not call at the station. Otherwise it is about the requested station and carries the train's fields other than those the row sets |
| StationTimetable.WithDynamicData | backend/src/dataTransformer/stations.ts:7-41 | One row per kept train, in the same order, each built from its own train |
| StationTimetable.RowOfCallingTrain | backend/src/dataTransformer/stations.ts:8-40 | A train calling at the station gets a real row, never `{}`. The row takes its data from the first checkpoint at the station. `fromPost(Id)` is present exactly when that checkpoint is not the route's first, and names the previous checkpoint; `toPost(Id)` likewise names the next one. A missing arrival gives the epoch and a missing departure gives 3001-01-31. The train's other fields are carried over unchanged except those the row overrides |
| StationTimetable.GetStationTimetable | backend/src/dataTransformer/stations.ts:5-44 | The result is sorted by scheduled arrival and has one row per calling train |
| StationTimetable.EqualArrivalsKeepListOrder | backend/src/dataTransformer/stations.ts:5-44 | Two calling trains with equal arrival have their rows in the result in the order the trains are listed |
| StationTimetable.GetStationTimetableCorrect | backend/src/dataTransformer/stations.ts:5-44 | The result is sorted by arrival and is a permutation of the calling trains' rows, one per train. Rows with equal arrival keep their order. Every row is a real row for the requested station |
| StationTimetable.RowsAreForCallingTrains | backend/src/dataTransformer/stations.ts:6-43 | A listed train has a row in the result if it calls at the station, and every row of the result is the row of some listed train that calls there |
| StableSort.SortByCorrect | backend/src/dataTransformer/stations.ts:43 | `sortBy` returns its input reordered (same multiset, same length) in non-decreasing key order |
| StableSort.SortByStable | backend/src/dataTransformer/stations.ts:43 | For every key, the elements with that key appear in the output in their input order |
| StableSort.SortByMembers | backend/src/dataTransformer/stations.ts:43 | The sorted sequence has exactly the members of the input |
| StableSort.SortByKeepsOrder | backend/src/dataTransformer/stations.ts:43 | Two elements with equal keys appear in the output in their input order |
| Subsequences.KeptPositions | backend/src/dataTransformer/stations.ts:6 | The positions whose element passes the test, each exactly once, in increasing order |
| Subsequences.FilterAt | backend/src/dataTransformer/stations.ts:6 | `filter` returns the input read at the kept positions |
| Subsequences.FilterCounts | backend/src/dataTransformer/stations.ts:6 | `filter` keeps every passing element as often as it occurs and drops every other element |
| Subsequences.KeptInOrder | backend/src/dataTransformer/stations.ts:6 | Two passing elements at positions `i < j` are kept at filtered positions `a < b` |
| Subsequences.LaterKept | frontend/src/EDR/components/Graph/Graph.tsx:123-124 | A passing element after the one kept at filtered position `a` is kept after position `a` |
| TimetableRows.FindTrainSpec | frontend/src/EDR/components/Graph/Graph.tsx:318 | `find` by train number gives `undefined` exactly when no row has the number, and otherwise the first row that has it |
| TimetableRows.FindTrain | frontend/src/EDR/components/Graph/Graph.tsx:318 | A row found is one of the rows and has the train number |
| TimetableRows.KeyBy | frontend/src/EDR/components/Graph/Graph.tsx:123-125 | Every key maps to an element that carries that key |
| TimetableRows.KeyByLastWins | frontend/src/EDR/components/Graph/Graph.tsx:123-125 | `keyBy` has as keys exactly the elements' keys, and each key maps to the last element that carries it |
| JsParseInt.TrimStart | frontend/src/EDR/components/Graph/Graph.tsx:350 | It drops exactly the leading white space: what remains is a suffix that does not start with white space, and everything dropped is white space |
| JsParseInt.DigitRunLength | frontend/src/EDR/components/Graph/Graph.tsx:350 | The digit run read is the longest prefix made of digits of the radix |
| JsParseInt.ParseInt | frontend/src/EDR/components/Graph/Graph.tsx:350 | A number is returned only when something is left after the leading white space, and a negative one only after a leading `-` |
| JsParseInt.ParseIntOfDecimal | frontend/src/EDR/components/Graph/Graph.tsx:350 | Reading back the decimal spelling of any integer gives that integer, so a numeric link resolves to its own number |
| JsParseInt.ParseIntSkipsWhiteSpace | frontend/src/EDR/components/Graph/Graph.tsx:363 | Leading white space does not change what `parseInt` returns |
| JsParseInt.ParseIntNaN | frontend/src/EDR/components/Graph/Graph.tsx:350 | A link that does not start with white space, a sign or a digit of base 10 or 16 parses to NaN. So `parseInt` can fail, despite the comment beside the call |
| StationCodes.FirstKeyOf | frontend/src/EDR/components/Graph/Graph.tsx:269 | The reverse lookup finds nothing exactly when no entry has the number, and otherwise gives the key of the first entry, in entry order, whose value is the number |
| StationCodes.StationIdentifierFromNumber | frontend/src/EDR/components/Graph/Graph.tsx:267-270 | The result is `undefined` while the codes are not loaded. Once they are loaded, it is undefined exactly when no entry has the number; otherwise it is the first key mapping to the number |
| BaseTrain.SelectBaseTrain | frontend/src/EDR/components/Graph/Graph.tsx:296-306 | Without station codes nothing changes. Otherwise the timetable is left stably sorted by departure. If some train departs after `now`, the base train is the first such train in the sorted order, which departs no later than any other such train. If none does, the base train stays as it was |
| BaseTrain.FirstLaterIsEarliest | frontend/src/EDR/components/Graph/Graph.tsx:298-305 | In a departure-sorted permutation, the first train after `now` departs no later than any train of the timetable that departs after `now` |
| BaseTrain.NoneLater | frontend/src/EDR/components/Graph/Graph.tsx:301-306 | When the loop finds no later departure, no train of the timetable departs after `now` |
| ChainWalk.StartWalk | frontend/src/EDR/components/Graph/Graph.tsx:311-319 | Nothing happens exactly when the base train is `"PENDING"`, the server code is empty or the codes are not loaded. A new base train is requested exactly when the base train is in no row. Otherwise the walk starts from the first row with the base train's number |
| ChainWalk.StartWalkValid | frontend/src/EDR/components/Graph/Graph.tsx:318-327 | A started walk begins in a state that satisfies the walk invariant |
| ChainWalk.ChainWalker.constructor | frontend/src/EDR/components/Graph/Graph.tsx:325-327 | The record holds just the current post at offset 0 with the base train's row, and both directions are open |
| ChainWalk.ResolveStation | frontend/src/EDR/components/Graph/Graph.tsx:350 | A link resolves exactly when it parses to a number that some station-code entry has, and it resolves to that entry's key |
| ChainWalk.Pushed | frontend/src/EDR/components/Graph/Graph.tsx:329-339 | A push succeeds exactly when the fetch gives a timetable holding the base train. It then adds one post, with the requested id, at the end for a positive offset and at the front otherwise |
| ChainWalk.PushShape | frontend/src/EDR/components/Graph/Graph.tsx:329-339 | A successful push means the fetch gave a timetable holding the base train. The new post then goes at the end for a positive offset and at the front otherwise |
| ChainWalk.PushRefused | frontend/src/EDR/components/Graph/Graph.tsx:331-334 | A push fails exactly when the fetch is falsy or no fetched row has the base train's number |
| ChainWalk.ChainWalker.PushRecord | frontend/src/EDR/components/Graph/Graph.tsx:329-339 | It returns true exactly when the post is added. The record then becomes the spliced record, and otherwise it is untouched |
| ChainWalk.ChainWalker.BrowseForward | frontend/src/EDR/components/Graph/Graph.tsx:349-358 | It follows the last post's `toPostId` when the link is truthy and forward browsing is open. An unresolved link closes the direction and takes the `continue`; a refused push closes the direction |
| ChainWalk.ChainWalker.BrowseBackward | frontend/src/EDR/components/Graph/Graph.tsx:362-371 | Likewise backward, from the first post as read at the start of the body |
| ChainWalk.ChainWalker.Step | frontend/src/EDR/components/Graph/Graph.tsx:345-371 | One pass of the loop body takes the state exactly where the specification's `Iterate` does, and it reports whether a `break` ended it |
| ChainWalk.Iterate | frontend/src/EDR/components/Graph/Graph.tsx:345-371 | An iteration never shrinks the record and never reopens a direction. A `break` leaves the state as it was unless seven posts are held |
| ChainWalk.IterateKeepsValid | frontend/src/EDR/components/Graph/Graph.tsx:344-372 | Each iteration keeps the walk invariant: at most seven posts, consecutive offsets, the current post still at offset 0, and every post holding the base train's row as `find` returns it from that post's timetable |
| ChainWalk.IterateShape | frontend/src/EDR/components/Graph/Graph.tsx:344-372 | An iteration only ever closes directions and adds one post at either end, in one of four forms |
| ChainWalk.StuckIff | frontend/src/EDR/components/Graph/Graph.tsx:344-372 | An iteration leaves the state unchanged without a `break` exactly in the `Stuck` states. In those states one direction is closed, the other is open, and the open direction's end has no link while the closed direction's end has one |
| ChainWalk.IterateProgress | frontend/src/EDR/components/Graph/Graph.tsx:344-372 | Outside the stuck states, every iteration that does not `break` adds a post or closes a direction |
| ChainWalk.IterateExit | frontend/src/EDR/components/Graph/Graph.tsx:346-360 | A `break` happens only when seven posts are held, neither end has a link, or both directions are closed |
| ChainWalk.Walk | frontend/src/EDR/components/Graph/Graph.tsx:344-372 | A completed walk holds at least the posts it started with, and a closed forward direction stays closed. A walk that does not complete stops below seven posts in a `Stuck` state |
| ChainWalk.WalkOutcomeSound | frontend/src/EDR/components/Graph/Graph.tsx:341-372 | A completed walk holds at most seven consecutive posts around offset 0, each with a row of the base train's number. It ended for one of the loop's three reasons. A walk that does not complete is in a stuck state that one iteration leaves unchanged |
| ChainWalk.SpinsAtTerminus | frontend/src/EDR/components/Graph/Graph.tsx:344-372 | A concrete walk never ends: the base train starts at the current post and the next post's timetable cannot be fetched |
| ChainWalk.NoWayOnIff | frontend/src/EDR/components/Graph/Graph.tsx:346-347 | The corrected exit test fires exactly where one of the source's two `break`s fires or where the source spins |
| ChainWalk.IterateFixedProgress | frontend/src/EDR/components/Graph/Graph.tsx:344-372 | Every iteration of the corrected loop that does not exit keeps the invariant and lowers the measure |
| ChainWalk.WalkFixed | frontend/src/EDR/components/Graph/Graph.tsx:344-372 | The corrected walk always ends in a valid state with seven posts or with no way left to extend the record |
| ChainWalk.WalkFixedAgrees | frontend/src/EDR/components/Graph/Graph.tsx:344-372 | The corrected walk ends in the source's final state wherever the source's walk ends, and in the state where the source spins otherwise |
| ChainWalk.ChainWalker.Run | frontend/src/EDR/components/Graph/Graph.tsx:344-372 | The loop keeps the invariant. It reports spinning exactly when the specification's walk spins, and its final state is that of the corrected walk |
| ChainWalk.WalkFromPost | frontend/src/EDR/components/Graph/Graph.tsx:325-372 | A whole walk from the base train at the current post ends valid, matches the specification's walk outcome, and equals the corrected walk |
| GraphTime.RepresentIntTime | frontend/src/EDR/components/Graph/Graph.tsx:103-105 | The encoding lies between 0 and 2359, and its last two digits are below 60 |
| GraphTime.RepresentIntTimeDecodes | frontend/src/EDR/components/Graph/Graph.tsx:103-105 | Hundreds times 60 plus the last two digits is the minute of the day |
| GraphTime.RepresentIntTimeDaily | frontend/src/EDR/components/Graph/Graph.tsx:103-105 | Instants one day apart have the same encoding |
| GraphTime.WithinRangeInIntegers | frontend/src/EDR/components/Graph/Graph.tsx:124 | For a positive zoom, `abs(a - now) <= 130 / zoom` in real division is `abs(a - now) * zoom <= 130` |
| GraphTime.FilterWithinRange | frontend/src/EDR/components/Graph/Graph.tsx:123-124 | A row is kept exactly when it is in the timetable and its arrival's encoding is within the window around the current time's. The result is the timetable read at the increasing positions of those rows, so timetable order is kept |
| GraphTime.RowsWithinRange | frontend/src/EDR/components/Graph/Graph.tsx:122-125 | Every key maps to a row with that train number |
| GraphTime.InWindowInIntegers | frontend/src/EDR/components/Graph/Graph.tsx:124 | The filter's callback keeps a row exactly when `abs(HHmm(arrival) - HHmm(now)) * zoom <= 130` |
| GraphTime.RowsWithinRangeKeys | frontend/src/EDR/components/Graph/Graph.tsx:122-125 | A train number is a key exactly when one of its rows arrives in the window. It maps to the last such row of the timetable: no later row of that train arrives in the window |
| GraphTime.RowsWithinRangeLastWins | frontend/src/EDR/components/Graph/Graph.tsx:122-125 | When a train has several rows in the window, its key keeps the last one listed |
| GraphTime.FilteredKeyLastWins | frontend/src/EDR/components/Graph/Graph.tsx:123-125 | `keyBy` after `filter` keeps, for each key, the last element of the unfiltered input that passes the test |
| GraphTime.DayRollover | frontend/src/EDR/components/Graph/Graph.tsx:43-44 | The two flags are never both set. "Next day" needs the current hour to be 20 or later, and "previous day" needs it to be before 12 |
| GraphTime.DayRolloverOfFormattedHour | frontend/src/EDR/components/Graph/Graph.tsx:36-47 | For an hour formatted as two digits, "next day" holds exactly when now is 20:00 or later and the hour is before 12. "Previous day" holds exactly when the hour is 20 or later and now is before 12:00 |
| GraphTime.ParseIntOfTwoDigits | frontend/src/EDR/components/Graph/Graph.tsx:39-44 | The zero-padded two-digit hour or minute that `format` writes parses back to its number |
| LegacyChart.Entry | frontend/src/EDR/components/Graph/Graph.tsx:173-190 | An entry holds a value exactly when the train is found at the post and its next post has an internal id. The value is then under the train's number. In the departures row it is the stamp of the departure when the train heads along the post's path, and of the arrival otherwise; the arrivals row is the other way round. An entry without a value is the `[]` entry, whose key is `"undefined"` |
| LegacyChart.WrittenSeries | frontend/src/EDR/components/Graph/Graph.tsx:173-190 | The row as written has exactly the keys of its entries, `"undefined"` included |
| LegacyChart.WrittenSeriesValues | frontend/src/EDR/components/Graph/Graph.tsx:173-190 | As written, over rows keyed by train number, a train whose entry holds a value is in the row under its number with exactly that value. The key `"undefined"`, when present, holds `undefined` |
| LegacyChart.EntryKeyOfNumber | frontend/src/EDR/components/Graph/Graph.tsx:173-190 | Over rows keyed by train number, an entry's key is its train's number or `"undefined"` |
| LegacyChart.FromEntriesUniqueKey | frontend/src/EDR/components/Graph/Graph.tsx:173 | An entry whose key no other entry has is in `Object.fromEntries` with its own value |
| LegacyChart.FromEntriesEmptyKey | frontend/src/EDR/components/Graph/Graph.tsx:173 | A key all of whose entries hold `undefined` holds `undefined` in `Object.fromEntries` |
| LegacyChart.ChartData | frontend/src/EDR/components/Graph/Graph.tsx:171-198 | The data as written holds two rows per scanned post |
| LegacyChart.ChartDataShape | frontend/src/EDR/components/Graph/Graph.tsx:171-198 | As written, post `i` gives rows `2i` and `2i + 1`, in scan order, both named after the post: first the arrivals series, then the departures series, each as `Object.fromEntries` builds it |
| LegacyChart.IntendedChartData | frontend/src/EDR/components/Graph/Graph.tsx:171-198 | The corrected data holds two rows per scanned post |
| LegacyChart.IntendedChartDataShape | frontend/src/EDR/components/Graph/Graph.tsx:171-198 | The corrected data has the same shape, each row holding the intended series |
| LegacyChart.FlatMapPairs | frontend/src/EDR/components/Graph/Graph.tsx:172 | When every post contributes two rows, post `i` contributes rows `2i` and `2i + 1` |
| LegacyChart.FlatMapPairsLength | frontend/src/EDR/components/Graph/Graph.tsx:172 | When every post contributes two rows, there are twice as many rows as posts |
| LegacyChart.PairsInOrder | frontend/src/EDR/components/Graph/Graph.tsx:172 | When every post contributes two rows, every post `i` contributes rows `2i` and `2i + 1` |
| LegacyChart.EntriesSwap | frontend/src/EDR/components/Graph/Graph.tsx:173-190 | A train's two entries at a post have the same key. When they hold values, one row gets the stamp of the departure and the other the stamp of the arrival |
| LegacyChart.FromEntriesKeys | frontend/src/EDR/components/Graph/Graph.tsx:173 | `Object.fromEntries` has exactly the keys of its entries |
| LegacyChart.WrittenRowsStrayKey | frontend/src/EDR/components/Graph/Graph.tsx:173-190 | As written, the two rows of a post have the same keys. They contain the key `"undefined"` exactly when some entry is `[]`, and any skipped train puts it there |
| LegacyChart.UndefinedKeyExample | frontend/src/EDR/components/Graph/Graph.tsx:173-181 | A train missing from a neighbour's timetable makes that post's row `{undefined: undefined}` instead of `{}` |
| LegacyChart.KeptEntries | frontend/src/EDR/components/Graph/Graph.tsx:175-177 | The kept entries are exactly the entries that hold a value |
| LegacyChart.IntendedSeriesKeys | frontend/src/EDR/components/Graph/Graph.tsx:173-190 | In the intended row, a key is present exactly when some in-window train has an entry with a value under that key |
| LegacyChart.IntendedSeriesValues | frontend/src/EDR/components/Graph/Graph.tsx:173-190 | Every value of the intended row is a timestamp, never `undefined` |
| LegacyChart.IntendedSeriesDropsStrayKey | frontend/src/EDR/components/Graph/Graph.tsx:173-190 | The intended row and the row as written have the same keys, apart from `"undefined"` |
| LegacyChart.IntendedRowsSameKeys | frontend/src/EDR/components/Graph/Graph.tsx:171-198 | The intended arrivals and departures rows of a post name the same trains |

## Left out

- The React component around the code: state hooks, effects, the periodic refresh, rendering and the recharts configuration. Only the computations inside the effects are modelled.
- The network: `getTimetable`, `getStationCodes` and the neighbours' timetables are parameters. The fetch is a function of the post id, so fetching one post twice gives the same answer.
- `await` and concurrency: the walk runs as one sequence of steps, and the results of pushes are not interleaved with other effects.
- ChainWalk.ChainWalker.Run: where the source loops forever, the method stops and returns `spins`. The state it stops in is the state the source repeats, so the non-terminating loop itself is not modelled.
- Time zones and `Date` parsing: instants are read in UTC, so `format`, `getHours` and `new Date(3000, 12, 31)` are taken in UTC rather than local time.
- JsParseInt.ParseInt: the model works over unbounded integers, so it does not capture how digit runs longer than a double's precision round. Only the empty second argument is modelled; the source never passes a radix.
- StationTimetable.ArrivalKey: the `{}` row would sort by an undefined key. The model gives it the epoch instead, which is harmless because GetStationTimetableCorrect proves that no `{}` row occurs.
- `config.ts`, the post configuration and the path finding of the legacy diagram: `postsToScan`, `postToInternalIds` (including `encodeURIComponent`) and `allPathsOfPosts[...].next` are given as parameters.
- LegacyChart.ChartContext: the order of `Object.values(timetableRowsWithinRange)` is a parameter (the in-window rows as a sequence), not derived from key insertion order.
- LegacyChart.PostRows: `{ name: postId, ...series }` is modelled as the name plus a separate series map. A train numbered `name` overriding the post name is not captured.
- getDateWithHourAndMinutes is a parameter (`dateWith`), so the chart timestamps are stated in terms of it.
- BaseTrain.SelectBaseTrain: the in-place `timetable.sort` is modelled as a returned sorted sequence. That the caller's array is mutated, including across later renders, is not captured.
- The unfinished stages after the walk (its record is only logged) and the `console.log` calls are not modelled.

## Findings

| source | as written | input that shows it | evidently intended | confidence | as-written member | corrected member |
|---|---|---|---|---|---|---|
| frontend/src/EDR/components/Graph/Graph.tsx:344-372 | The loop ends when seven posts are held (its `while` guard or the `break` after the forward step), or at the `break`s for "no link at either end" and "both directions closed". Below seven posts, take a state where one direction is closed while its end still has a link, and the other direction is open but its end has no link. Then no test fires and the iteration changes nothing; this is the `Stuck` state of the model. No `await` runs in such an iteration either, so the loop repeats forever and the page hangs | The base train starts its run at the current post (no `fromPostId`) and has a `toPostId`. The next post's timetable cannot be fetched or lacks the train. The first iteration closes forward browsing; every later one does nothing | Stop once neither end can be extended, that is once each direction is closed or has no link | high, not executed | ChainWalk.SpinsAtTerminus | ChainWalk.WalkFixed |
| frontend/src/EDR/components/Graph/Graph.tsx:173-190 | A skipped train returns the entry `[]`, which `Object.fromEntries` turns into the key `"undefined"` with value `undefined` | A train in the window that is missing from a neighbour's timetable: that neighbour's rows become `{ name, undefined: undefined }` | A skipped train leaves no key at all | medium, not executed | LegacyChart.UndefinedKeyExample | LegacyChart.IntendedChartDataShape |
