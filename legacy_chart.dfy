/**
 * The data of the legacy diagram: for every post on screen two chart rows, one
 * of arrival-side and one of departure-side times, each an object from train
 * number to a chart timestamp. Which of a train's two scheduled instants lands
 * in which row depends on whether the train heads along the post's configured
 * path (towards Katowice).
 *
 * The path finding, the post configuration, the internal-id table and the
 * `getDateWithHourAndMinutes` helper are parameters of the model.
 */
module LegacyChart {
  import opened Wrappers
  import opened TimetableRows
  import opened GraphTime

  /**
   * What the chart data is computed from: the current post, the posts to scan
   * (`[...pre, post, ...post]`), the in-window rows of the current post in
   * `Object.values` order, the neighbours' timetables keyed by train number,
   * the internal id of a `toPost` name (`None` when missing or falsy), the test
   * whether a post's path continues to a given id, the current local hour and
   * `getDateWithHourAndMinutes` for the current day.
   */
  datatype ChartContext = ChartContext(
    post: string,
    postsToScan: seq<string>,
    rowsInRange: seq<TimetableRow>,
    neighbours: map<string, map<string, TimetableRow>>,
    internalId: string -> Option<string>,
    nextOnPath: (string, string) -> bool,
    nowHours: int,
    dateWith: (int, int, bool, bool) -> int)

  /** `{ name: postId, ...series }`: a value `None` is JavaScript's `undefined`. */
  datatype ChartRow = ChartRow(name: string, series: map<string, Option<int>>)

  /** The key `Object.fromEntries` makes of the empty entry `[]`. */
  const UndefinedKey: string := "undefined"

  /**
   * `makeDate(dateFormatter(instant).split(":"), serverTime)`: the instant's
   * "HH" and "mm" fields, parsed back, with the day-rollover flags of the hour
   * field against the current hour.
   */
  function ChartStamp(ctx: ChartContext, instant: int): int {
    var hour := HourOf(instant);
    var flags := DayRollover(ctx.nowHours, TwoDigits(hour));
    ctx.dateWith(hour, MinuteOf(instant), flags.0, flags.1)
  }

  /** The row of train `t` at post `p`: the in-window row itself at the current post. */
  function TargetTrain(ctx: ChartContext, p: string, t: TimetableRow): Option<TimetableRow> {
    if p == ctx.post then Some(t)
    else if p in ctx.neighbours && t.trainNoLocal in ctx.neighbours[p] then Some(ctx.neighbours[p][t.trainNoLocal])
    else None
  }

  /**
   * One entry of a row: `[]` (the `undefined` key) when the train is not at `p`
   * or its next post has no internal id; otherwise the train number and the
   * stamp of departure or arrival. The departures row takes the departure of a
   * train heading along the path and the arrival of any other; the arrivals
   * row the other way round.
   */
  function Entry(ctx: ChartContext, p: string, t: TimetableRow, departures: bool): (r: (string, Option<int>))
    ensures r.1.None? ==> r.0 == UndefinedKey
    ensures r.1.Some? <==> TargetTrain(ctx, p, t).Some? && Truthy(TargetTrain(ctx, p, t).value.toPost) &&
                           Truthy(ctx.internalId(TargetTrain(ctx, p, t).value.toPost.value))
    ensures r.1.Some? ==> r.0 == TargetTrain(ctx, p, t).value.trainNoLocal
    ensures r.1.Some? && departures ==>
      var target := TargetTrain(ctx, p, t).value;
      r.1.value == if ctx.nextOnPath(p, NextPostId(ctx, target).value)
                   then ChartStamp(ctx, target.scheduledDeparture) else ChartStamp(ctx, target.scheduledArrival)
    ensures r.1.Some? && !departures ==>
      var target := TargetTrain(ctx, p, t).value;
      r.1.value == if ctx.nextOnPath(p, NextPostId(ctx, target).value)
                   then ChartStamp(ctx, target.scheduledArrival) else ChartStamp(ctx, target.scheduledDeparture)
  {
    match TargetTrain(ctx, p, t)
    case None => (UndefinedKey, None)
    case Some(target) =>
      var nextPost := NextPostId(ctx, target);
      if !Truthy(nextPost) then (UndefinedKey, None)
      else
        var going := ctx.nextOnPath(p, nextPost.value);
        var instant := if going == departures then target.scheduledDeparture else target.scheduledArrival;
        (target.trainNoLocal, Some(ChartStamp(ctx, instant)))
  }

  /** The internal id of the train's `toPost`, `None` when the name is falsy or has no id. */
  function NextPostId(ctx: ChartContext, target: TimetableRow): Option<string> {
    if Truthy(target.toPost) then ctx.internalId(target.toPost.value) else None
  }

  function EntryKey(e: (string, Option<int>)): string { e.0 }

  /** `Object.fromEntries`: a later entry with the same key overwrites an earlier one. */
  function FromEntries(entries: seq<(string, Option<int>)>): map<string, Option<int>> {
    var m := KeyBy(entries, EntryKey);
    map k | k in m :: m[k].1
  }

  function Entries(ctx: ChartContext, p: string, departures: bool): (r: seq<(string, Option<int>)>)
    ensures |r| == |ctx.rowsInRange|
    ensures forall i :: 0 <= i < |r| ==> r[i] == Entry(ctx, p, ctx.rowsInRange[i], departures)
  {
    seq(|ctx.rowsInRange|, i requires 0 <= i < |ctx.rowsInRange| => Entry(ctx, p, ctx.rowsInRange[i], departures))
  }

  /** One series as the source writes it: `Object.fromEntries` over all entries, `[]` included. */
  function WrittenSeries(ctx: ChartContext, p: string, departures: bool): (r: map<string, Option<int>>)
    ensures forall k :: k in r <==> exists i :: 0 <= i < |ctx.rowsInRange| && Entry(ctx, p, ctx.rowsInRange[i], departures).0 == k
  {
    FromEntriesKeys(Entries(ctx, p, departures));
    FromEntries(Entries(ctx, p, departures))
  }

  /** The arrivals row and the departures row of post `p`, in that order, as written. */
  function PostRows(ctx: ChartContext, p: string): seq<ChartRow> {
    [ChartRow(p, WrittenSeries(ctx, p, false)), ChartRow(p, WrittenSeries(ctx, p, true))]
  }

  /** The two rows of post `p` as evidently intended: skipped trains leave no key. */
  function IntendedPostRows(ctx: ChartContext, p: string): seq<ChartRow> {
    [ChartRow(p, IntendedSeries(ctx, p, false)), ChartRow(p, IntendedSeries(ctx, p, true))]
  }

  /** `xs.flatMap(f)` */
  function FlatMap<T, U>(f: T -> seq<U>, xs: seq<T>): seq<U> {
    if xs == [] then [] else f(xs[0]) + FlatMap(f, xs[1..])
  }

  /** When `f` always gives two elements, `xs[i]` contributes elements `2i` and `2i + 1`. */
  lemma {:induction false} FlatMapPairs<T, U>(f: T -> seq<U>, xs: seq<T>, i: int)
    requires forall x :: |f(x)| == 2
    requires 0 <= i < |xs|
    ensures |FlatMap(f, xs)| == 2 * |xs|
    ensures FlatMap(f, xs)[2 * i] == f(xs[i])[0] && FlatMap(f, xs)[2 * i + 1] == f(xs[i])[1]
  {
    var tail := FlatMap(f, xs[1..]);
    if i > 0 {
      FlatMapPairs(f, xs[1..], i - 1);
      assert xs[1..][i - 1] == xs[i];
    } else if |xs| > 1 {
      FlatMapPairs(f, xs[1..], 0);
    } else {
      assert tail == [];
    }
  }

  /** When `f` always gives two elements, the result is twice as long as `xs`. */
  lemma FlatMapPairsLength<T, U>(f: T -> seq<U>, xs: seq<T>)
    requires forall x :: |f(x)| == 2
    ensures |FlatMap(f, xs)| == 2 * |xs|
  {
    if xs == [] {
      assert FlatMap(f, xs) == [];
    } else {
      FlatMapPairs(f, xs, 0);
    }
  }

  /** `postsToScan.flatMap(postId => [arrivalsRow, departuresRow])`, as written. */
  function ChartData(ctx: ChartContext, posts: seq<string>): (r: seq<ChartRow>)
    ensures |r| == 2 * |posts|
  {
    FlatMapPairsLength(RowsOfPost(ctx), posts);
    FlatMap(RowsOfPost(ctx), posts)
  }

  function RowsOfPost(ctx: ChartContext): string -> seq<ChartRow> {
    p => PostRows(ctx, p)
  }

  /** The chart data as evidently intended: the same rows, without stray keys. */
  function IntendedChartData(ctx: ChartContext, posts: seq<string>): (r: seq<ChartRow>)
    ensures |r| == 2 * |posts|
  {
    FlatMapPairsLength(IntendedRowsOfPost(ctx), posts);
    FlatMap(IntendedRowsOfPost(ctx), posts)
  }

  function IntendedRowsOfPost(ctx: ChartContext): string -> seq<ChartRow> {
    p => IntendedPostRows(ctx, p)
  }

  /** Post `i` contributes elements `2i` and `2i + 1`, for every post. */
  lemma PairsInOrder<U>(f: string -> seq<U>, posts: seq<string>)
    requires forall p :: |f(p)| == 2
    ensures |FlatMap(f, posts)| == 2 * |posts|
    ensures forall i :: 0 <= i < |posts| ==>
      FlatMap(f, posts)[2 * i] == f(posts[i])[0] && FlatMap(f, posts)[2 * i + 1] == f(posts[i])[1]
  {
    FlatMapPairsLength(f, posts);
    forall i | 0 <= i < |posts|
      ensures FlatMap(f, posts)[2 * i] == f(posts[i])[0] && FlatMap(f, posts)[2 * i + 1] == f(posts[i])[1]
    {
      FlatMapPairs(f, posts, i);
    }
  }

  /** As written: two rows per scanned post, in scan order, arrivals first. */
  lemma ChartDataShape(ctx: ChartContext, posts: seq<string>)
    ensures var d := ChartData(ctx, posts);
      forall i :: 0 <= i < |posts| ==>
        && d[2 * i] == ChartRow(posts[i], WrittenSeries(ctx, posts[i], false))
        && d[2 * i + 1] == ChartRow(posts[i], WrittenSeries(ctx, posts[i], true))
  {
    PairsInOrder(RowsOfPost(ctx), posts);
  }

  /** As intended: the same shape, each row holding the intended series. */
  lemma IntendedChartDataShape(ctx: ChartContext, posts: seq<string>)
    ensures var d := IntendedChartData(ctx, posts);
      forall i :: 0 <= i < |posts| ==>
        && d[2 * i] == ChartRow(posts[i], IntendedSeries(ctx, posts[i], false))
        && d[2 * i + 1] == ChartRow(posts[i], IntendedSeries(ctx, posts[i], true))
  {
    PairsInOrder(IntendedRowsOfPost(ctx), posts);
  }

  /**
   * The two entries of one train at one post have the same key, and when that
   * key is the train's number they hold the train's two scheduled instants, one
   * each: the departure in one row and the arrival in the other.
   */
  lemma EntriesSwap(ctx: ChartContext, p: string, t: TimetableRow)
    ensures Entry(ctx, p, t, false).0 == Entry(ctx, p, t, true).0
    ensures Entry(ctx, p, t, false).1.None? <==> Entry(ctx, p, t, true).1.None?
    ensures Entry(ctx, p, t, true).1.Some? ==>
      var target := TargetTrain(ctx, p, t).value;
      {Entry(ctx, p, t, false).1.value, Entry(ctx, p, t, true).1.value} ==
        {ChartStamp(ctx, target.scheduledArrival), ChartStamp(ctx, target.scheduledDeparture)}
  {
  }

  /** The keys of `Object.fromEntries` are the keys of its entries. */
  lemma FromEntriesKeys(entries: seq<(string, Option<int>)>)
    ensures forall k :: k in FromEntries(entries) <==> exists i :: 0 <= i < |entries| && entries[i].0 == k
  {
    KeyByLastWins(entries, EntryKey);
  }

  /** An entry whose key no other entry carries is in `Object.fromEntries` with its own value. */
  lemma FromEntriesUniqueKey(entries: seq<(string, Option<int>)>, i: int)
    requires 0 <= i < |entries|
    requires forall j :: 0 <= j < |entries| && j != i ==> entries[j].0 != entries[i].0
    ensures entries[i].0 in FromEntries(entries) && FromEntries(entries)[entries[i].0] == entries[i].1
  {
    KeyByLastWins(entries, EntryKey);
  }

  /** A key whose entries all hold `undefined` holds `undefined` in `Object.fromEntries`. */
  lemma FromEntriesEmptyKey(entries: seq<(string, Option<int>)>, k: string)
    requires forall j :: 0 <= j < |entries| && entries[j].0 == k ==> entries[j].1.None?
    ensures k in FromEntries(entries) ==> FromEntries(entries)[k].None?
  {
    KeyByLastWins(entries, EntryKey);
  }

  /**
   * What the rows are built from, as the surrounding code guarantees: the
   * in-window rows are the values of an object keyed by train number, so their
   * numbers are distinct; each neighbour's timetable is keyed the same way; and
   * no train is numbered `"undefined"`.
   */
  ghost predicate KeyedByNumber(ctx: ChartContext) {
    && (forall a, b :: 0 <= a < b < |ctx.rowsInRange| ==> ctx.rowsInRange[a].trainNoLocal != ctx.rowsInRange[b].trainNoLocal)
    && (forall a :: 0 <= a < |ctx.rowsInRange| ==> ctx.rowsInRange[a].trainNoLocal != UndefinedKey)
    && (forall q, n :: q in ctx.neighbours && n in ctx.neighbours[q] ==> ctx.neighbours[q][n].trainNoLocal == n)
  }

  /** Over rows keyed by number, an entry's key is its train's number or `"undefined"`. */
  lemma EntryKeyOfNumber(ctx: ChartContext, p: string, t: TimetableRow, departures: bool)
    requires KeyedByNumber(ctx)
    ensures Entry(ctx, p, t, departures).0 == t.trainNoLocal || Entry(ctx, p, t, departures).0 == UndefinedKey
  {
  }

  /**
   * As written, a train whose entry holds a value appears in the row under its
   * number with exactly that value, and the key `"undefined"`, when present,
   * holds `undefined`.
   */
  lemma WrittenSeriesValues(ctx: ChartContext, p: string, departures: bool)
    requires KeyedByNumber(ctx)
    ensures forall i :: 0 <= i < |ctx.rowsInRange| && Entry(ctx, p, ctx.rowsInRange[i], departures).1.Some? ==>
      var t := ctx.rowsInRange[i];
      t.trainNoLocal in WrittenSeries(ctx, p, departures) &&
      WrittenSeries(ctx, p, departures)[t.trainNoLocal] == Entry(ctx, p, t, departures).1
    ensures UndefinedKey in WrittenSeries(ctx, p, departures) ==> WrittenSeries(ctx, p, departures)[UndefinedKey].None?
  {
    var rows := ctx.rowsInRange;
    var es := Entries(ctx, p, departures);
    forall a | 0 <= a < |rows| ensures es[a].0 == rows[a].trainNoLocal || (es[a].0 == UndefinedKey && es[a].1.None?) {
      EntryKeyOfNumber(ctx, p, rows[a], departures);
    }
    forall i | 0 <= i < |rows| && es[i].1.Some?
      ensures rows[i].trainNoLocal in FromEntries(es) && FromEntries(es)[rows[i].trainNoLocal] == es[i].1
    {
      forall j | 0 <= j < |es| && j != i ensures es[j].0 != es[i].0 {
        assert rows[j].trainNoLocal != rows[i].trainNoLocal;
      }
      FromEntriesUniqueKey(es, i);
    }
    FromEntriesEmptyKey(es, UndefinedKey);
  }

  /**
   * As written, both rows of a post name the same series. A train missing at the post, or
   * heading to a post without an internal id, leaves behind the key
   * `"undefined"` (holding `undefined`) in both rows instead of being left out.
   */
  lemma WrittenRowsStrayKey(ctx: ChartContext, p: string)
    ensures WrittenSeries(ctx, p, false).Keys == WrittenSeries(ctx, p, true).Keys
    ensures UndefinedKey in WrittenSeries(ctx, p, true) <==>
      exists i :: 0 <= i < |ctx.rowsInRange| && Entry(ctx, p, ctx.rowsInRange[i], true).0 == UndefinedKey
    ensures (exists i :: 0 <= i < |ctx.rowsInRange| && Entry(ctx, p, ctx.rowsInRange[i], true).1.None?) ==>
      UndefinedKey in WrittenSeries(ctx, p, true)
  {
    var a := Entries(ctx, p, false);
    var b := Entries(ctx, p, true);
    FromEntriesKeys(a);
    FromEntriesKeys(b);
    forall i | 0 <= i < |ctx.rowsInRange| ensures a[i].0 == b[i].0 && (b[i].1.None? ==> b[i].0 == UndefinedKey) {
      EntriesSwap(ctx, p, ctx.rowsInRange[i]);
    }
    forall k ensures k in FromEntries(a) <==> k in FromEntries(b) {
      if k in FromEntries(a) {
        var i :| 0 <= i < |a| && a[i].0 == k;
        assert b[i].0 == k;
      }
      if k in FromEntries(b) {
        var i :| 0 <= i < |b| && b[i].0 == k;
        assert a[i].0 == k;
      }
    }
  }

  /**
   * A concrete case of the stray key: one in-window train, scanned at a
   * neighbouring post whose timetable does not list it. The row gets the key
   * `"undefined"` instead of no key at all.
   */
  lemma UndefinedKeyExample(train: TimetableRow, internalId: string -> Option<string>,
                            nextOnPath: (string, string) -> bool, dateWith: (int, int, bool, bool) -> int)
    ensures var ctx := ChartContext("A", ["B", "A"], [train], map[], internalId, nextOnPath, 12, dateWith);
      WrittenSeries(ctx, "B", true) == map[UndefinedKey := None]
  {
    var ctx := ChartContext("A", ["B", "A"], [train], map[], internalId, nextOnPath, 12, dateWith);
    var es := Entries(ctx, "B", true);
    assert es == [(UndefinedKey, None)];
    assert KeyBy(es, EntryKey) == map[UndefinedKey := (UndefinedKey, None)] by {
      assert es[..0] == [];
    }
  }

  /** The entries the `return []` branches evidently mean to leave out. */
  function KeptEntries(entries: seq<(string, Option<int>)>): (r: seq<(string, Option<int>)>)
    ensures forall e :: e in r <==> e in entries && e.1.Some?
  {
    if entries == [] then []
    else (if entries[0].1.Some? then [entries[0]] else []) + KeptEntries(entries[1..])
  }

  /** A row as evidently intended: skipped trains leave no key behind. */
  function IntendedSeries(ctx: ChartContext, p: string, departures: bool): map<string, Option<int>> {
    FromEntries(KeptEntries(Entries(ctx, p, departures)))
  }

  /** Some entry of `entries` with key `k` holds a value. */
  ghost predicate Kept(entries: seq<(string, Option<int>)>, k: string) {
    exists i :: 0 <= i < |entries| && entries[i].0 == k && entries[i].1.Some?
  }

  /** `Object.fromEntries` of the kept entries has the keys of the entries holding a value. */
  lemma KeptKeys(entries: seq<(string, Option<int>)>)
    ensures forall k :: k in FromEntries(KeptEntries(entries)) <==> Kept(entries, k)
  {
    var ks := KeptEntries(entries);
    FromEntriesKeys(ks);
    forall k ensures k in FromEntries(ks) ==> Kept(entries, k) {
      if k in FromEntries(ks) {
        var j :| 0 <= j < |ks| && ks[j].0 == k;
        assert ks[j] in ks;
        var i :| 0 <= i < |entries| && entries[i] == ks[j];
      }
    }
    forall k ensures Kept(entries, k) ==> k in FromEntries(ks) {
      if Kept(entries, k) {
        var i :| 0 <= i < |entries| && entries[i].0 == k && entries[i].1.Some?;
        assert entries[i] in ks;
        var j :| 0 <= j < |ks| && ks[j] == entries[i];
      }
    }
  }

  /**
   * In the intended row every key is the number of a train that is at the post
   * and heads to a post with an internal id.
   */
  lemma IntendedSeriesKeys(ctx: ChartContext, p: string, departures: bool)
    ensures forall k :: k in IntendedSeries(ctx, p, departures) <==> Kept(Entries(ctx, p, departures), k)
  {
    KeptKeys(Entries(ctx, p, departures));
  }

  /**
   * The intended row differs from the row as written only in the stray key:
   * every other key is in one exactly when it is in the other.
   */
  lemma IntendedSeriesDropsStrayKey(ctx: ChartContext, p: string, departures: bool)
    ensures forall k :: k != UndefinedKey ==>
      (k in IntendedSeries(ctx, p, departures) <==> k in WrittenSeries(ctx, p, departures))
  {
    var es := Entries(ctx, p, departures);
    KeptKeys(es);
    FromEntriesKeys(es);
    assert forall i :: 0 <= i < |es| ==> es[i] == Entry(ctx, p, ctx.rowsInRange[i], departures);
  }

  /** In the intended row every value is a timestamp. */
  lemma IntendedSeriesValues(ctx: ChartContext, p: string, departures: bool)
    ensures forall k :: k in IntendedSeries(ctx, p, departures) ==> IntendedSeries(ctx, p, departures)[k].Some?
  {
    var ks := KeptEntries(Entries(ctx, p, departures));
    KeyByLastWins(ks, EntryKey);
    forall k | k in FromEntries(ks) ensures FromEntries(ks)[k].Some? {
      var j :| 0 <= j < |ks| && KeyBy(ks, EntryKey)[k] == ks[j] && ks[j].0 == k &&
               forall j' :: j < j' < |ks| ==> ks[j'].0 != k;
      assert ks[j] in ks;
    }
  }

  /** The intended arrivals and departures rows of a post name the same trains. */
  lemma IntendedRowsSameKeys(ctx: ChartContext, p: string)
    ensures IntendedSeries(ctx, p, false).Keys == IntendedSeries(ctx, p, true).Keys
  {
    var a := Entries(ctx, p, false);
    var b := Entries(ctx, p, true);
    KeptKeys(a);
    KeptKeys(b);
    forall i | 0 <= i < |ctx.rowsInRange| ensures a[i].0 == b[i].0 && (a[i].1.Some? <==> b[i].1.Some?) {
      EntriesSwap(ctx, p, ctx.rowsInRange[i]);
    }
    forall k ensures Kept(a, k) <==> Kept(b, k) {
      if Kept(a, k) {
        var i :| 0 <= i < |a| && a[i].0 == k && a[i].1.Some?;
        assert b[i].0 == k && b[i].1.Some?;
      }
      if Kept(b, k) {
        var i :| 0 <= i < |b| && b[i].0 == k && b[i].1.Some?;
        assert a[i].0 == k && a[i].1.Some?;
      }
    }
  }
}
