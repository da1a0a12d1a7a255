/**
 * Time arithmetic of the diagram component: the `HHmm` integer encoding of a
 * clock time, the legacy diagram's window of rows around the current time, and
 * the day-rollover flags computed when an `HH:mm` string is turned back into an
 * instant. Instants are milliseconds since the epoch, read in UTC.
 */
module GraphTime {
  import opened Wrappers
  import opened JsParseInt
  import opened TimetableRows
  import opened Subsequences

  const MsPerMinute: int := 60000
  const MsPerHour: int := 3600000
  const MsPerDay: int := 86400000
  const MinutesPerDay: int := 1440

  /** The half-width of the legacy window, in `HHmm` units, at zoom 1. */
  const WindowHalfWidth: int := 130

  function HourOf(t: int): int { (t / MsPerHour) % 24 }
  function MinuteOf(t: int): int { (t / MsPerMinute) % 60 }

  /** `parseInt(format(time, "HHmm"))`: hours times 100 plus minutes. */
  function RepresentIntTime(t: int): (r: int)
    ensures 0 <= r <= 2359 && r % 100 < 60
  {
    HourOf(t) * 100 + MinuteOf(t)
  }

  /** The encoding is the minute of the day written in base 100/60: it decodes back to it. */
  lemma RepresentIntTimeDecodes(t: int)
    ensures var r := RepresentIntTime(t);
            (r / 100) * 60 + r % 100 == (t / MsPerMinute) % MinutesPerDay
  {
    var m := t / MsPerMinute;
    assert t / MsPerHour == m / 60;
    var h := (m / 60) % 24;
    assert m % MinutesPerDay == h * 60 + m % 60 by {
      assert m == (m / 60) * 60 + m % 60;
      assert m / 60 == ((m / 60) / 24) * 24 + h;
      assert m == ((m / 60) / 24) * MinutesPerDay + (h * 60 + m % 60);
    }
  }

  /** Two instants a whole day apart have the same encoding. */
  lemma RepresentIntTimeDaily(t: int)
    ensures RepresentIntTime(t + MsPerDay) == RepresentIntTime(t)
  {
    DivShift(t, MsPerHour, 24);
    DivShift(t, MsPerMinute, MinutesPerDay);
    assert (t / MsPerMinute + MinutesPerDay) % 60 == (t / MsPerMinute) % 60;
  }

  lemma DivShift(a: int, b: int, k: int)
    requires b > 0
    ensures (a + k * b) / b == a / b + k
  {
    var r := a % b;
    assert a + k * b == (a / b + k) * b + r;
    DivUnique(a + k * b, b, a / b + k, r);
  }

  /** Euclidean division has one quotient and remainder. */
  lemma DivUnique(n: int, b: int, q: int, r: int)
    requires b > 0 && 0 <= r < b && n == q * b + r
    ensures n / b == q
  {
    var d := q - n / b;
    assert d * b == n % b - r;
    MulSign(d, b);
  }

  lemma MulSign(d: int, b: int)
    requires b > 0
    ensures d >= 1 ==> d * b >= b
    ensures d <= -1 ==> d * b <= -b
  {
    if d >= 1 {
      MulNat(d - 1, b);
      assert d * b == (d - 1) * b + b;
    } else if d <= -1 {
      MulNat(-d - 1, b);
      assert d * b == -((-d - 1) * b) - b;
    }
  }

  function Abs(x: int): nat { if x < 0 then -x else x }

  /** `Math.abs(a - now) <= 130 / zoom`, with JavaScript's real division. */
  predicate WithinRange(a: int, now: int, zoom: int)
    requires zoom > 0
  {
    (Abs(a - now) as real) <= (WindowHalfWidth as real) / (zoom as real)
  }

  /** For a positive zoom the real comparison is the integer one `|a - now| * zoom <= 130`. */
  lemma WithinRangeInIntegers(a: int, now: int, zoom: int)
    requires zoom > 0
    ensures WithinRange(a, now, zoom) <==> Abs(a - now) * zoom <= WindowHalfWidth
  {
    var d := Abs(a - now) as real;
    var z := zoom as real;
    var w := WindowHalfWidth as real;
    assert (Abs(a - now) * zoom) as real == d * z;
    if d <= w / z {
      assert d * z <= (w / z) * z;
    }
    if d * z <= w {
      assert d == (d * z) / z;
      assert (d * z) / z <= w / z;
    }
  }

  /** The window test of one row, as the filter's callback. */
  function InWindow(now: int, zoom: int): TimetableRow -> bool
    requires zoom > 0
  {
    (x: TimetableRow) => WithinRange(RepresentIntTime(x.scheduledArrival), RepresentIntTime(now), zoom)
  }

  /**
   * `timetable.filter(...)`: the rows whose arrival lies in the window around
   * `now`, each as often as listed, in timetable order.
   */
  function FilterWithinRange(timetable: seq<TimetableRow>, now: int, zoom: int): (r: seq<TimetableRow>)
    requires zoom > 0
    ensures forall x :: x in r <==> (x in timetable &&
              WithinRange(RepresentIntTime(x.scheduledArrival), RepresentIntTime(now), zoom))
    ensures |r| == |KeptPositions(timetable, InWindow(now, zoom))|
    ensures forall i :: 0 <= i < |r| ==> r[i] == timetable[KeptPositions(timetable, InWindow(now, zoom))[i]]
  {
    FilterMembers(timetable, InWindow(now, zoom));
    FilterAt(timetable, InWindow(now, zoom));
    Filter(timetable, InWindow(now, zoom))
  }

  /** The window test in integers: `|HHmm(arrival) - HHmm(now)| * zoom <= 130`. */
  predicate ArrivesInWindow(x: TimetableRow, now: int, zoom: int) {
    Abs(RepresentIntTime(x.scheduledArrival) - RepresentIntTime(now)) * zoom <= WindowHalfWidth
  }

  /** `timetableRowsWithinRange`: the kept rows keyed by train number. */
  function RowsWithinRange(timetable: seq<TimetableRow>, now: int, zoom: int): (m: map<string, TimetableRow>)
    requires zoom > 0
    ensures forall k :: k in m ==> m[k].trainNoLocal == k
  {
    KeyBy(FilterWithinRange(timetable, now, zoom), TrainNumber)
  }

  /** The filter keeps exactly the rows passing the window test in integers. */
  lemma FilterWithinRangeInIntegers(timetable: seq<TimetableRow>, now: int, zoom: int)
    requires zoom > 0
    ensures forall x :: x in FilterWithinRange(timetable, now, zoom) <==> x in timetable && ArrivesInWindow(x, now, zoom)
  {
    forall x | x in timetable
      ensures WithinRange(RepresentIntTime(x.scheduledArrival), RepresentIntTime(now), zoom) <==>
              ArrivesInWindow(x, now, zoom)
    {
      WithinRangeInIntegers(RepresentIntTime(x.scheduledArrival), RepresentIntTime(now), zoom);
    }
  }

  /**
   * A train number is a key exactly when one of its rows arrives within
   * `|HHmm(arrival) - HHmm(now)| * zoom <= 130`, and it maps to such a row.
   */
  lemma RowsWithinRangeKeys(timetable: seq<TimetableRow>, now: int, zoom: int)
    requires zoom > 0
    ensures var m := RowsWithinRange(timetable, now, zoom);
      && (forall k :: k in m <==> exists x :: x in timetable && x.trainNoLocal == k && ArrivesInWindow(x, now, zoom))
      && (forall k :: k in m ==> m[k] in timetable && m[k].trainNoLocal == k && ArrivesInWindow(m[k], now, zoom))
      && (forall k :: k in m ==> exists i :: LastInWindow(timetable, i, k, now, zoom) && m[k] == timetable[i])
  {
    var f := FilterWithinRange(timetable, now, zoom);
    FilterWithinRangeInIntegers(timetable, now, zoom);
    KeyedRows(f, timetable, now, zoom);
    assert RowsWithinRange(timetable, now, zoom) == KeyBy(f, TrainNumber);
    RowsWithinRangeLastWins(timetable, now, zoom);
  }

  /**
   * Row `i` is an in-window row of train `k` and no later row of `k` is in the
   * window.
   */
  ghost predicate LastInWindow(timetable: seq<TimetableRow>, i: int, k: string, now: int, zoom: int) {
    && 0 <= i < |timetable|
    && timetable[i].trainNoLocal == k
    && ArrivesInWindow(timetable[i], now, zoom)
    && forall j :: i < j < |timetable| && ArrivesInWindow(timetable[j], now, zoom) ==> timetable[j].trainNoLocal != k
  }

  /** When a train has several rows in the window, the key keeps the last one listed. */
  lemma RowsWithinRangeLastWins(timetable: seq<TimetableRow>, now: int, zoom: int)
    requires zoom > 0
    ensures var m := RowsWithinRange(timetable, now, zoom);
      forall k :: k in m ==> exists i :: LastInWindow(timetable, i, k, now, zoom) && m[k] == timetable[i]
  {
    var keep := InWindow(now, zoom);
    var m := KeyBy(Filter(timetable, keep), TrainNumber);
    assert RowsWithinRange(timetable, now, zoom) == m;
    InWindowInIntegers(now, zoom);
    forall k | k in m ensures exists i :: LastInWindow(timetable, i, k, now, zoom) && m[k] == timetable[i] {
      FilteredKeyLastWins(timetable, keep, TrainNumber, k);
      var i :| 0 <= i < |timetable| && keep(timetable[i]) && TrainNumber(timetable[i]) == k && m[k] == timetable[i] &&
               forall j :: i < j < |timetable| && keep(timetable[j]) ==> TrainNumber(timetable[j]) != k;
      assert timetable[i] in timetable;
      assert LastInWindow(timetable, i, k, now, zoom);
    }
  }

  /** Keying a filtered sequence keeps, per key, the last element of `s` that passes the test. */
  lemma FilteredKeyLastWins<T>(s: seq<T>, keep: T -> bool, key: T -> string, k: string)
    requires k in KeyBy(Filter(s, keep), key)
    ensures exists i :: 0 <= i < |s| && keep(s[i]) && key(s[i]) == k && KeyBy(Filter(s, keep), key)[k] == s[i] &&
              forall j :: i < j < |s| && keep(s[j]) ==> key(s[j]) != k
  {
    var f := Filter(s, keep);
    var idx := KeptPositions(s, keep);
    FilterAt(s, keep);
    KeyByLastWins(f, key);
    var a :| 0 <= a < |f| && KeyBy(f, key)[k] == f[a] && key(f[a]) == k &&
             forall b :: a < b < |f| ==> key(f[b]) != k;
    forall j | idx[a] < j < |s| && keep(s[j]) ensures key(s[j]) != k {
      LaterKept(s, keep, a, j);
    }
  }

  /** The filter's callback is the window test in integers. */
  lemma InWindowInIntegers(now: int, zoom: int)
    requires zoom > 0
    ensures forall x :: InWindow(now, zoom)(x) <==> ArrivesInWindow(x, now, zoom)
  {
    forall x ensures InWindow(now, zoom)(x) <==> ArrivesInWindow(x, now, zoom) {
      WithinRangeInIntegers(RepresentIntTime(x.scheduledArrival), RepresentIntTime(now), zoom);
    }
  }

  lemma KeyedRows(f: seq<TimetableRow>, timetable: seq<TimetableRow>, now: int, zoom: int)
    requires forall x :: x in f <==> x in timetable && ArrivesInWindow(x, now, zoom)
    ensures var m := KeyBy(f, TrainNumber);
      && (forall k :: k in m <==> exists x :: x in timetable && x.trainNoLocal == k && ArrivesInWindow(x, now, zoom))
      && (forall k :: k in m ==> m[k] in timetable && m[k].trainNoLocal == k && ArrivesInWindow(m[k], now, zoom))
  {
    var m := KeyBy(f, TrainNumber);
    KeyByLastWins(f, TrainNumber);
    forall k ensures k in m <==> exists x :: x in timetable && x.trainNoLocal == k && ArrivesInWindow(x, now, zoom)
    {
      if k in m {
        var i :| 0 <= i < |f| && TrainNumber(f[i]) == k;
        assert f[i] in f;
      }
      if exists x :: x in timetable && x.trainNoLocal == k && ArrivesInWindow(x, now, zoom) {
        var x :| x in timetable && x.trainNoLocal == k && ArrivesInWindow(x, now, zoom);
        assert x in f;
        var i :| 0 <= i < |f| && f[i] == x;
        assert TrainNumber(f[i]) == k;
      }
    }
    forall k | k in m
      ensures m[k] in timetable && m[k].trainNoLocal == k && ArrivesInWindow(m[k], now, zoom)
    {
      var i :| 0 <= i < |f| && m[k] == f[i] && TrainNumber(f[i]) == k &&
               forall j :: i < j < |f| ==> TrainNumber(f[j]) != k;
      assert f[i] in f;
    }
  }

  /**
   * The day-rollover flags of `makeDate`: the time is taken to be on the next
   * day when it is now evening (from 20:00) and the time is before noon, and on
   * the previous day in the opposite case. `hourField` is the text before the
   * colon; a field that parses to NaN sets neither flag.
   */
  function DayRollover(nowHours: int, hourField: string): (flags: (bool, bool))
    ensures !(flags.0 && flags.1)
    ensures flags.0 ==> nowHours >= 20
    ensures flags.1 ==> nowHours < 12
  {
    var h := ParseInt(hourField);
    var isDepartureNextDay := nowHours >= 20 && h.Some? && h.value < 12;
    var isDeparturePreviousDay := h.Some? && h.value >= 20 && nowHours < 12;
    (isDepartureNextDay, isDeparturePreviousDay)
  }

  /** The two-digit, zero-padded hour that `format(date, "HH:mm")` writes. */
  function TwoDigits(n: nat): string
    requires n < 100
  {
    [('0' as int + n / 10) as char, ('0' as int + n % 10) as char]
  }

  lemma ParseIntOfTwoDigits(n: nat)
    requires n < 100
    ensures ParseInt(TwoDigits(n)) == Some(n)
  {
    var s := TwoDigits(n);
    TrimStartKeeps(s);
    assert StripSign(s) == s;
    assert !(s[0] == '0' && (s[1] == 'x' || s[1] == 'X'));
    assert IsDigit(s[0], 10) && IsDigit(s[1], 10);
    RunOfDigits(s, 10);
    assert s[..2] == s;
    assert s[..1] == [s[0]] && s[..1][..0] == [];
    assert DigitValue(s[0]).value == n / 10 && DigitValue(s[1]).value == n % 10;
    assert DigitsValue(s[..1], 10) == n / 10;
    assert DigitsValue(s, 10) == n;
  }

  /**
   * For an hour written by `format`, the flags say exactly: next day when now is
   * 20:00 or later and the hour is before 12; previous day when the hour is 20 or
   * later and now is before 12:00.
   */
  lemma DayRolloverOfFormattedHour(nowHours: int, hour: nat)
    requires hour < 24
    ensures DayRollover(nowHours, TwoDigits(hour)) == (nowHours >= 20 && hour < 12, hour >= 20 && nowHours < 12)
  {
    ParseIntOfTwoDigits(hour);
  }
}
