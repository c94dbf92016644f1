/** The Dukascopy tick downloader (`DukascopyTickDataDownloader`): it
    fetches one decompressed `.bi5` file per hour of every day from the
    start date to the end date, turns its records into ticks priced in the
    symbol's points, and writes one CSV row per tick. The HTTP fetch and
    the LZMA decompression are one oracle from URL to decompressed bytes;
    the CSV file is the sequence of rows written. */
module TickDownloader {

  import opened Options
  import opened Decimal
  import opened Calendar
  import opened TickRecords

  // ----- symbol and point value ---------------------------------------------

  predicate IsAsciiLower(c: char) {
    'a' <= c <= 'z'
  }

  function UpperChar(c: char): char {
    if IsAsciiLower(c) then (c as int - 32) as char else c
  }

  /** `str.upper()` on ASCII text. */
  function Upper(s: string): string {
    seq(|s|, i requires 0 <= i < |s| => UpperChar(s[i]))
  }

  /** Upper-casing twice changes nothing more. */
  lemma UpperIdempotent(s: string)
    ensures Upper(Upper(s)) == Upper(s)
  {
    forall i | 0 <= i < |s|
      ensures Upper(Upper(s))[i] == Upper(s)[i]
    {
      assert !IsAsciiLower(UpperChar(s[i]));
    }
  }

  /** Two spellings of a symbol that differ only in the case of ASCII
      letters. */
  predicate SameIgnoringCase(a: string, b: string) {
    && |a| == |b|
    && forall i :: 0 <= i < |a| ==>
         || a[i] == b[i]
         || (IsAsciiLower(a[i]) && b[i] as int == a[i] as int - 32)
         || (IsAsciiLower(b[i]) && a[i] as int == b[i] as int - 32)
  }

  /** Symbols with a point of 10^-3 rather than 10^-5. */
  const ThousandthSymbols: seq<string> := ["USDRUB", "XAGUSD", "XAUUSD"]

  /** How many raw units make one price unit. */
  type Point = p: int | p == 1000 || p == 100000 witness 1000

  /** The point value chosen in `__init__` from the upper-cased symbol. */
  function PointValue(symbol: string): Point {
    if symbol in ThousandthSymbols then 1000 else 100000
  }

  /** The symbol is upper-cased before the point is chosen, so its case
      does not matter: "xauusd" is priced like "XAUUSD". */
  lemma SameIgnoringCasePointValue(a: string, b: string)
    requires SameIgnoringCase(a, b)
    ensures Upper(a) == Upper(b)
    ensures PointValue(Upper(a)) == PointValue(Upper(b))
    ensures PointValue(Upper(a)) == 1000 <==> Upper(a) in ThousandthSymbols
  {
    forall i | 0 <= i < |a|
      ensures Upper(a)[i] == Upper(b)[i]
    {
    }
  }

  // ----- ticks --------------------------------------------------------------

  const MicrosPerMs := 1000
  const MicrosPerHour := 3_600_000_000

  /** The last instant a `datetime` holds, 9999-12-31 23:59:59.999999,
      in microseconds since 0001-01-01 00:00. */
  const LastInstant := 315_537_897_599_999_999

  lemma LastInstantIsDatetimeMax()
    ensures LastInstant == EpochMicros(DateTime(LastDay, MicrosPerDay - 1))
    ensures forall t: DateTime :: EpochMicros(t) <= LastInstant
  {
    assert Ordinal(LastDay) == 3_652_059;
    forall t: DateTime
      ensures EpochMicros(t) <= LastInstant
    {
      OrdinalAtMostLast(t.date);
      assert (Ordinal(t.date) - 1) * MicrosPerDay <= 3_652_058 * MicrosPerDay;
      assert t.time < MicrosPerDay;
    }
  }

  /** How ticks are shaped: the symbol's point value, whether the ask is the
      feed's own or the bid plus a fixed spread, and whether volumes are
      kept. */
  datatype TickConfig = TickConfig(point: Point, realAsk: bool, spread: real, includeVolumes: bool)

  /** The two volume fields, as the raw words of their floats. */
  datatype Volumes = Volumes(bidVolume: Word, askVolume: Word)

  /** A tick of `parse_ticks`: its instant in microseconds since
      0001-01-01 00:00, the prices, and the volumes when they are kept. */
  datatype Tick = Tick(time: int, bid: real, ask: real, volumes: Option<Volumes>)

  /** `date + timedelta(hours=hour, milliseconds=ms)` for a date at
      midnight, as microseconds. */
  function TickInstant(d: Day, hour: int, ms: Word): int {
    EpochMicros(DateTime(d, 0)) + hour * MicrosPerHour + ms * MicrosPerMs
  }

  /** One record as `parse_ticks` shapes it; None where the tick's instant
      is past `datetime.max` and Python raises `OverflowError`. */
  function ShapeTick(cfg: TickConfig, r: RawRecord, d: Day, hour: int): (t: Option<Tick>)
    ensures t.Some? <==> TickInstant(d, hour, r.timestampMs) <= LastInstant
  {
    var time := TickInstant(d, hour, r.timestampMs);
    if time > LastInstant then None
    else
      var bid := r.bid as real / cfg.point as real;
      var ask := if cfg.realAsk then r.ask as real / cfg.point as real else bid + cfg.spread;
      var volumes := if cfg.includeVolumes then Some(Volumes(r.bidVolume, r.askVolume)) else None;
      Some(Tick(time, bid, ask, volumes))
  }

  /** A shaped tick gives back the record it came from: the bid (and the
      ask, when it is the feed's) times the point is the raw price, the
      millisecond offset is its distance from the start of the hour, and
      the volumes are there exactly when they are kept, bid volume being
      the fifth field and ask volume the fourth. */
  lemma ShapedTickRecovers(cfg: TickConfig, r: RawRecord, d: Day, hour: int)
    requires ShapeTick(cfg, r, d, hour).Some?
    ensures var t := ShapeTick(cfg, r, d, hour).value;
            && t.bid * cfg.point as real == r.bid as real
            && (cfg.realAsk ==> t.ask * cfg.point as real == r.ask as real)
            && (!cfg.realAsk ==> t.ask == t.bid + cfg.spread)
            && t.time - EpochMicros(DateTime(d, 0)) - hour * MicrosPerHour == r.timestampMs * MicrosPerMs
            && (t.volumes.Some? <==> cfg.includeVolumes)
            && (cfg.includeVolumes ==> t.volumes.value == Volumes(r.bidVolume, r.askVolume))
  {
    var p := cfg.point as real;
    assert (r.bid as real / p) * p == r.bid as real;
    assert (r.ask as real / p) * p == r.ask as real;
  }

  /** Records shaped in order; None as soon as one of them overflows. */
  function ShapeAll(cfg: TickConfig, rs: seq<RawRecord>, d: Day, hour: int): (ts: Option<seq<Tick>>)
    ensures ts.Some? <==> forall i :: 0 <= i < |rs| ==> ShapeTick(cfg, rs[i], d, hour).Some?
    ensures ts.Some? ==>
              |ts.value| == |rs| && forall i :: 0 <= i < |rs| ==> ts.value[i] == ShapeTick(cfg, rs[i], d, hour).value
    decreases |rs|
  {
    if rs == [] then Some([])
    else
      match (ShapeAll(cfg, rs[..|rs| - 1], d, hour), ShapeTick(cfg, rs[|rs| - 1], d, hour))
      case (Some(ts), Some(t)) => Some(ts + [t])
      case _ => None
  }

  /** What `parse_ticks` returns for decompressed data (None where it
      raises). */
  function TicksOf(cfg: TickConfig, data: seq<Byte>, d: Day, hour: int): Option<seq<Tick>> {
    ShapeAll(cfg, Records(data), d, hour)
  }

  /** `parse_ticks` yields ⌊|data| / 20⌋ ticks, tick i shaped from bytes
      [20i, 20i + 20), unless one of them overflows. */
  lemma ParsedTicks(cfg: TickConfig, data: seq<Byte>, d: Day, hour: int)
    ensures var ts := TicksOf(cfg, data, d, hour);
            && (ts.Some? <==> forall i :: 0 <= i < |data| / RecordSize ==>
                  ShapeTick(cfg, DecodeRecord(data[RecordSize * i..RecordSize * i + RecordSize]), d, hour).Some?)
            && (ts.Some? ==> |ts.value| == |data| / RecordSize)
            && (ts.Some? ==> forall i :: 0 <= i < |data| / RecordSize ==>
                  ts.value[i] == ShapeTick(cfg, DecodeRecord(data[RecordSize * i..RecordSize * i + RecordSize]), d, hour).value)
  {
    RecordsAt(data);
  }

  // ----- CSV rows -----------------------------------------------------------

  /** The `Flags` column, the same for every row. */
  const RowFlags := 6

  /** One CSV row: the tick's columns, `Flags`, and the volume columns when
      volumes are kept. */
  datatype Row = Row(timestamp: int, bid: real, ask: real, flags: int, volumes: Option<Volumes>)

  /** The CSV header. */
  function Fieldnames(includeVolumes: bool): (names: seq<string>)
    ensures |names| == if includeVolumes then 6 else 4
    ensures names[..4] == ["timestamp", "bid", "ask", "Flags"]
    ensures includeVolumes ==> names[4..] == ["bid_volume", "ask_volume"]
    ensures "bid_volume" in names <==> includeVolumes
    ensures "ask_volume" in names <==> includeVolumes
  {
    if includeVolumes then ["timestamp", "bid", "ask", "Flags", "bid_volume", "ask_volume"]
    else ["timestamp", "bid", "ask", "Flags"]
  }

  function RowOf(t: Tick): Row {
    Row(t.time, t.bid, t.ask, RowFlags, t.volumes)
  }

  function RowsOf(ts: seq<Tick>): seq<Row>
    decreases |ts|
  {
    if ts == [] then [] else RowsOf(ts[..|ts| - 1]) + [RowOf(ts[|ts| - 1])]
  }

  // ----- URLs, days and hours -----------------------------------------------

  const Endpoint := "https://datafeed.dukascopy.com/datafeed/"
  const FileSuffix := "h_ticks.bi5"

  /** The URL of one hour's file: Dukascopy numbers months from zero; month,
      day and hour take two digits. */
  function HourUrl(symbol: string, d: Day, hour: nat): string {
    Endpoint + symbol + "/" + HourPath(d, hour)
  }

  function HourPath(d: Day, hour: nat): string {
    NatToStr(d.year) + "/" + ZeroPad2(d.month - 1) + "/" + ZeroPad2(d.day) + "/" + ZeroPad2(hour) + FileSuffix
  }

  /** The fields of the path sit at fixed distances from its end. */
  lemma HourPathParts(d: Day, hour: nat)
    requires hour < 24
    ensures var t := HourPath(d, hour);
            && 21 <= |t|
            && AllDigits(t[..|t| - 20]) && DigitsValue(t[..|t| - 20]) == d.year
            && AllDigits(t[|t| - 19..|t| - 17]) && DigitsValue(t[|t| - 19..|t| - 17]) == d.month - 1
            && AllDigits(t[|t| - 16..|t| - 14]) && DigitsValue(t[|t| - 16..|t| - 14]) == d.day
            && AllDigits(t[|t| - 13..|t| - 11]) && DigitsValue(t[|t| - 13..|t| - 11]) == hour
  {
    var y, m, dd, h := NatToStr(d.year), ZeroPad2(d.month - 1), ZeroPad2(d.day), ZeroPad2(hour);
    var t := HourPath(d, hour);
    assert t == y + "/" + m + "/" + dd + "/" + h + FileSuffix;
    SlashedFields(y, m, dd, h, FileSuffix);
    assert t[..|t| - 20] == y;
    assert t[|t| - 19..|t| - 17] == m;
    assert t[|t| - 16..|t| - 14] == dd;
    assert t[|t| - 13..|t| - 11] == h;
  }

  /** Joining a field with three two-character fields by slashes, then an
      11-character suffix, puts each field at a fixed distance from the
      end. */
  lemma SlashedFields(y: string, m: string, dd: string, h: string, suffix: string)
    requires |m| == |dd| == |h| == 2 && |suffix| == 11
    ensures var t := y + "/" + m + "/" + dd + "/" + h + suffix;
            && |t| == |y| + 20
            && t[..|t| - 20] == y
            && t[|t| - 19..|t| - 17] == m
            && t[|t| - 16..|t| - 14] == dd
            && t[|t| - 13..|t| - 11] == h
  {
  }

  /** Different hours of the same symbol are different files. */
  lemma HourUrlInjective(symbol: string, d1: Day, h1: nat, d2: Day, h2: nat)
    requires h1 < 24 && h2 < 24
    requires HourUrl(symbol, d1, h1) == HourUrl(symbol, d2, h2)
    ensures d1 == d2 && h1 == h2
  {
    var p := Endpoint + symbol + "/";
    var t1, t2 := HourPath(d1, h1), HourPath(d2, h2);
    assert (p + t1)[|p|..] == t1;
    assert (p + t2)[|p|..] == t2;
    HourPathParts(d1, h1);
    HourPathParts(d2, h2);
  }

  /** The days `download_and_save_csv` visits: from `start` on, one day at a
      time, while the day is not after `end`; `date.max` is the last day
      there can be. */
  function Days(start: Day, end: Day): seq<Day>
    decreases Ordinal(end) - Ordinal(start)
  {
    if Ordinal(end) < Ordinal(start) then []
    else
      match NextDay(start)
      case None => [start]
      case Some(next) =>
        NextDayIsSuccessor(start);
        [start] + Days(next, end)
  }

  lemma DaysStep(start: Day, end: Day)
    requires Ordinal(start) <= Ordinal(end)
    ensures NextDay(start).None? ==> Days(start, end) == [start]
    ensures NextDay(start).Some? ==> Days(start, end) == [start] + Days(NextDay(start).value, end)
  {
  }

  /** Every day from `start` to `end` inclusive, each once, in calendar
      order. */
  lemma {:induction false} DaysEnumerate(start: Day, end: Day)
    ensures |Days(start, end)| == if Ordinal(end) < Ordinal(start) then 0 else Ordinal(end) - Ordinal(start) + 1
    ensures forall i :: 0 <= i < |Days(start, end)| ==> Ordinal(Days(start, end)[i]) == Ordinal(start) + i
    decreases Ordinal(end) - Ordinal(start)
  {
    if Ordinal(start) <= Ordinal(end) {
      match NextDay(start)
      case None =>
        OrdinalAtMostLast(end);
      case Some(next) =>
        NextDayIsSuccessor(start);
        DaysEnumerate(next, end);
    }
  }

  /** A day between `start` and `end` is visited, at its distance from
      `start`. */
  lemma DayVisited(start: Day, end: Day, d: Day)
    requires Ordinal(start) <= Ordinal(d) <= Ordinal(end)
    ensures Ordinal(d) - Ordinal(start) < |Days(start, end)|
    ensures Days(start, end)[Ordinal(d) - Ordinal(start)] == d
  {
    DaysEnumerate(start, end);
    OrdinalInjective(Days(start, end)[Ordinal(d) - Ordinal(start)], d);
  }

  lemma AppendAssoc<T>(a: seq<T>, b: seq<T>, c: seq<T>)
    ensures (a + b) + c == a + (b + c)
  {
  }

  /** The calls `download_hour_data(date, hour)` for hours 0 .. n-1 of a
      day. */
  function HourRequests(d: Day, n: nat): (calls: seq<(Day, nat)>)
    ensures |calls| == n
    decreases n
  {
    if n == 0 then [] else HourRequests(d, n - 1) + [(d, n - 1)]
  }

  /** The calls made for the given days, hours 0..23 of each. */
  function DayRequests(days: seq<Day>): (calls: seq<(Day, nat)>)
    ensures |calls| == 24 * |days|
    decreases |days|
  {
    if days == [] then [] else DayRequests(days[..|days| - 1]) + HourRequests(days[|days| - 1], 24)
  }

  lemma {:induction false} HourRequestsAt(d: Day, n: nat)
    ensures forall h :: 0 <= h < n ==> HourRequests(d, n)[h] == (d, h)
  {
    if n > 0 {
      HourRequestsAt(d, n - 1);
    }
  }

  /** Call k is for hour k % 24 of day k / 24. */
  lemma {:induction false} DayRequestsAt(days: seq<Day>)
    ensures forall k :: 0 <= k < 24 * |days| ==> DayRequests(days)[k] == (days[k / 24], k % 24)
    decreases |days|
  {
    if days != [] {
      var init, last := days[..|days| - 1], days[|days| - 1];
      DayRequestsAt(init);
      HourRequestsAt(last, 24);
      forall k | 0 <= k < 24 * |init|
        ensures DayRequests(days)[k] == (days[k / 24], k % 24)
      {
        EarlierDayRequest(days, k);
      }
      forall k | 24 * |init| <= k < 24 * |days|
        ensures DayRequests(days)[k] == (days[k / 24], k % 24)
      {
        LastDayRequest(days, k);
      }
    }
  }

  /** A call made before the last day keeps its place when a day is added. */
  lemma EarlierDayRequest(days: seq<Day>, k: nat)
    requires days != [] && k < 24 * (|days| - 1)
    requires DayRequests(days[..|days| - 1])[k] == (days[..|days| - 1][k / 24], k % 24)
    ensures DayRequests(days)[k] == (days[k / 24], k % 24)
  {
    DivMod24(k);
  }

  /** The calls of the last day come after those of the days before it. */
  lemma LastDayRequest(days: seq<Day>, k: nat)
    requires days != [] && 24 * (|days| - 1) <= k < 24 * |days|
    ensures DayRequests(days)[k] == (days[k / 24], k % 24)
  {
    DivMod24(k);
    var r := k - 24 * (|days| - 1);
    HourRequestsAt(days[|days| - 1], 24);
    assert k / 24 == |days| - 1 && k % 24 == r;
    assert DayRequests(days)[k] == HourRequests(days[|days| - 1], 24)[r];
  }

  /** Each (day, hour) is asked for once, with an hour of 0..23. */
  lemma CallsDistinct(start: Day, end: Day)
    ensures forall k :: 0 <= k < |DayRequests(Days(start, end))| ==> DayRequests(Days(start, end))[k].1 < 24
    ensures forall j, k :: 0 <= j < k < |DayRequests(Days(start, end))| ==>
              DayRequests(Days(start, end))[j] != DayRequests(Days(start, end))[k]
  {
    var days := Days(start, end);
    DaysEnumerate(start, end);
    DayRequestsAt(days);
    var calls := DayRequests(days);
    forall k | 0 <= k < |calls|
      ensures calls[k].1 < 24
    {
      DivMod24(k);
    }
    forall j, k | 0 <= j < k < |calls|
      ensures calls[j] != calls[k]
    {
      var qj, rj, qk, rk := j / 24, j % 24, k / 24, k % 24;
      DivMod24(j);
      DivMod24(k);
      assert calls[j] == (days[qj], rj) && calls[k] == (days[qk], rk);
      if qj != qk {
        assert Ordinal(days[qj]) != Ordinal(days[qk]);
      }
    }
  }

  lemma DivMod24(n: nat)
    ensures n == 24 * (n / 24) + n % 24 && 0 <= n % 24 < 24
  {
  }

  /** No file is requested twice: distinct hours have distinct URLs. */
  lemma NoRequestRepeated(symbol: string, start: Day, end: Day)
    ensures var calls := DayRequests(Days(start, end));
            forall j, k :: 0 <= j < k < |calls| ==>
              calls[j].1 < 24 && HourUrl(symbol, calls[j].0, calls[j].1) != HourUrl(symbol, calls[k].0, calls[k].1)
  {
    var calls := DayRequests(Days(start, end));
    CallsDistinct(start, end);
    forall j, k | 0 <= j < k < |calls|
      ensures calls[j].1 < 24 && HourUrl(symbol, calls[j].0, calls[j].1) != HourUrl(symbol, calls[k].0, calls[k].1)
    {
      assert calls[j].1 < 24 && calls[k].1 < 24 && calls[j] != calls[k];
      UrlsDiffer(symbol, calls[j], calls[k]);
    }
  }

  lemma UrlsDiffer(symbol: string, a: (Day, nat), b: (Day, nat))
    requires a.1 < 24 && b.1 < 24 && a != b
    ensures HourUrl(symbol, a.0, a.1) != HourUrl(symbol, b.0, b.1)
  {
    if HourUrl(symbol, a.0, a.1) == HourUrl(symbol, b.0, b.1) {
      HourUrlInjective(symbol, a.0, a.1, b.0, b.1);
    }
  }

  /** The rows one hour contributes: none unless the fetch brought
      non-empty data and every record of it could be shaped. */
  function HourRows(cfg: TickConfig, symbol: string, fetch: string -> Option<seq<Byte>>, d: Day, hour: nat): seq<Row> {
    var data := fetch(HourUrl(symbol, d, hour));
    if data.None? || data.value == [] then []
    else match TicksOf(cfg, data.value, d, hour)
      case None => []
      case Some(ts) => RowsOf(ts)
  }

  /** The rows of hours 0 .. n-1 of a day. */
  function RowsUpTo(cfg: TickConfig, symbol: string, fetch: string -> Option<seq<Byte>>, d: Day, n: nat): seq<Row>
    decreases n
  {
    if n == 0 then [] else RowsUpTo(cfg, symbol, fetch, d, n - 1) + HourRows(cfg, symbol, fetch, d, n - 1)
  }

  /** The rows of the given days, in order. */
  function RowsFor(cfg: TickConfig, symbol: string, fetch: string -> Option<seq<Byte>>, days: seq<Day>): seq<Row>
    decreases |days|
  {
    if days == [] then [] else RowsFor(cfg, symbol, fetch, days[..|days| - 1]) + RowsUpTo(cfg, symbol, fetch, days[|days| - 1], 24)
  }

  /** A row fits the header: `Flags` is 6, and the volume columns are
      filled exactly when the header has them. */
  predicate FitsHeader(r: Row, includeVolumes: bool) {
    r.flags == RowFlags && (r.volumes.Some? <==> "bid_volume" in Fieldnames(includeVolumes))
  }

  lemma {:induction false} RowsOfFit(cfg: TickConfig, ts: seq<Tick>)
    requires forall i :: 0 <= i < |ts| ==> (ts[i].volumes.Some? <==> cfg.includeVolumes)
    ensures forall r :: r in RowsOf(ts) ==> FitsHeader(r, cfg.includeVolumes)
    decreases |ts|
  {
    if ts != [] {
      RowsOfFit(cfg, ts[..|ts| - 1]);
    }
  }

  lemma HourRowsFit(cfg: TickConfig, symbol: string, fetch: string -> Option<seq<Byte>>, d: Day, hour: nat)
    ensures forall r :: r in HourRows(cfg, symbol, fetch, d, hour) ==> FitsHeader(r, cfg.includeVolumes)
  {
    var data := fetch(HourUrl(symbol, d, hour));
    if data.Some? && data.value != [] {
      var rs := Records(data.value);
      var ts := TicksOf(cfg, data.value, d, hour);
      if ts.Some? {
        forall i | 0 <= i < |ts.value|
          ensures ts.value[i].volumes.Some? <==> cfg.includeVolumes
        {
          ShapedTickRecovers(cfg, rs[i], d, hour);
        }
        RowsOfFit(cfg, ts.value);
      }
    }
  }

  lemma {:induction false} RowsUpToFit(cfg: TickConfig, symbol: string, fetch: string -> Option<seq<Byte>>, d: Day, n: nat)
    ensures forall r :: r in RowsUpTo(cfg, symbol, fetch, d, n) ==> FitsHeader(r, cfg.includeVolumes)
  {
    if n > 0 {
      RowsUpToFit(cfg, symbol, fetch, d, n - 1);
      HourRowsFit(cfg, symbol, fetch, d, n - 1);
    }
  }

  /** Every row written fits the header written. */
  lemma {:induction false} RowsFitHeader(cfg: TickConfig, symbol: string, fetch: string -> Option<seq<Byte>>, days: seq<Day>)
    ensures forall r :: r in RowsFor(cfg, symbol, fetch, days) ==> FitsHeader(r, cfg.includeVolumes)
    decreases |days|
  {
    if days != [] {
      RowsFitHeader(cfg, symbol, fetch, days[..|days| - 1]);
      RowsUpToFit(cfg, symbol, fetch, days[|days| - 1], 24);
    }
  }

  /** `download_and_save_csv` stops with `OverflowError` after the last
      day when that day is `date.max`, the one day with no successor. */
  predicate RunsOffCalendar(start: Day, end: Day) {
    Ordinal(start) <= Ordinal(end) && end == LastDay
  }

  /** Visiting one more day appends its rows and its calls. */
  lemma VisitDay(cfg: TickConfig, symbol: string, fetch: string -> Option<seq<Byte>>, visited: seq<Day>, d: Day)
    ensures RowsFor(cfg, symbol, fetch, visited + [d]) == RowsFor(cfg, symbol, fetch, visited) + RowsUpTo(cfg, symbol, fetch, d, 24)
    ensures DayRequests(visited + [d]) == DayRequests(visited) + HourRequests(d, 24)
  {
    assert (visited + [d])[..|visited|] == visited;
  }

  /** The walk goes on from the next day. */
  lemma NextDayVisited(start: Day, end: Day, visited: seq<Day>, current: Day)
    requires visited + Days(current, end) == Days(start, end)
    requires Ordinal(current) <= Ordinal(end) && NextDay(current).Some?
    ensures (visited + [current]) + Days(NextDay(current).value, end) == Days(start, end)
    ensures Ordinal(NextDay(current).value) == Ordinal(current) + 1
  {
    NextDayIsSuccessor(current);
    DaysStep(current, end);
    AppendAssoc(visited, [current], Days(NextDay(current).value, end));
  }

  /** The walk reaches `date.max`: it was the end date, and every day has
      been visited. */
  lemma LastDayVisited(start: Day, end: Day, visited: seq<Day>, current: Day)
    requires visited + Days(current, end) == Days(start, end)
    requires Ordinal(current) <= Ordinal(end) && NextDay(current).None?
    ensures visited + [current] == Days(start, end)
    ensures RunsOffCalendar(start, end)
  {
    DaysStep(current, end);
    OrdinalAtMostLast(end);
    OrdinalInjective(end, LastDay);
    DaysEnumerate(start, end);
  }

  /** The walk stepped past the end date: every day has been visited, and
      the end date was not `date.max`. */
  lemma WalkPassedEnd(start: Day, end: Day, visited: seq<Day>, current: Day)
    requires visited + Days(current, end) == Days(start, end)
    requires Ordinal(end) < Ordinal(current)
    ensures visited == Days(start, end)
    ensures !RunsOffCalendar(start, end)
  {
    assert Days(current, end) == [];
    assert visited == visited + Days(current, end);
    if RunsOffCalendar(start, end) {
      OrdinalAtMostLast(current);
    }
  }

  /** There is one record per full 20-byte chunk. */
  lemma RecordCount(data: seq<Byte>)
    ensures |Records(data)| == |data| / RecordSize
  {
    RecordsAt(data);
  }

  /** The chunk at offset 20n is record n. */
  lemma RecordAtOffset(data: seq<Byte>, n: nat)
    requires RecordSize * n + RecordSize <= |data|
    ensures n < |Records(data)|
    ensures Records(data)[n] == DecodeRecord(data[RecordSize * n..RecordSize * n + RecordSize])
  {
    RecordsAt(data);
  }

  /** A chunk shorter than 20 bytes can only be the last one. */
  lemma LastPartialChunk(data: seq<Byte>, n: nat)
    requires RecordSize * n < |data| < RecordSize * n + RecordSize
    ensures n == |Records(data)|
  {
    RecordsAt(data);
  }

  /** Ticks shaped one by one from every record are what `ShapeAll` gives. */
  lemma ShapeAllOf(cfg: TickConfig, rs: seq<RawRecord>, ts: seq<Tick>, d: Day, hour: int)
    requires |ts| == |rs|
    requires forall i :: 0 <= i < |ts| ==> ShapeTick(cfg, rs[i], d, hour) == Some(ts[i])
    ensures ShapeAll(cfg, rs, d, hour) == Some(ts)
  {
    var r := ShapeAll(cfg, rs, d, hour);
    assert r.Some?;
    assert forall i :: 0 <= i < |ts| ==> r.value[i] == ts[i];
    assert r.value == ts;
  }

  /** A record that cannot be shaped makes the whole hour fail. */
  lemma ShapeAllStops(cfg: TickConfig, rs: seq<RawRecord>, n: nat, d: Day, hour: int)
    requires n < |rs| && ShapeTick(cfg, rs[n], d, hour).None?
    ensures ShapeAll(cfg, rs, d, hour) == None
  {
  }

  /** What `download_and_save_csv` leaves behind. */
  datatype Download = Download(header: seq<string>, rows: seq<Row>, requested: seq<(Day, nat)>, overflowed: bool)

  class TickDataDownloader {
    /** The upper-cased symbol. */
    const symbol: string
    const startDate: Day
    const endDate: Day
    const realAsk: bool
    const spreadValue: real
    const includeVolumes: bool
    const pointValue: Point

    /** `__init__`: the symbol is upper-cased and its point value fixed. */
    constructor (symbol: string, startDate: Day, endDate: Day, realAsk: bool, spreadValue: real, includeVolumes: bool)
      ensures this.symbol == Upper(symbol) && pointValue == PointValue(Upper(symbol))
      ensures this.startDate == startDate && this.endDate == endDate
      ensures this.realAsk == realAsk && this.spreadValue == spreadValue && this.includeVolumes == includeVolumes
    {
      this.symbol := Upper(symbol);
      this.startDate := startDate;
      this.endDate := endDate;
      this.realAsk := realAsk;
      this.spreadValue := spreadValue;
      this.includeVolumes := includeVolumes;
      pointValue := PointValue(Upper(symbol));
    }

    function Config(): TickConfig {
      TickConfig(pointValue, realAsk, spreadValue, includeVolumes)
    }

    /** `parse_ticks`: walks the data 20 bytes at a time, skipping a
        trailing partial chunk; None where a tick's time overflows. */
    method ParseTicks(data: seq<Byte>, date: Day, hour: nat) returns (ticks: Option<seq<Tick>>)
      ensures ticks == TicksOf(Config(), data, date, hour)
    {
      var cfg := Config();
      ghost var rs := Records(data);
      RecordCount(data);
      var result: seq<Tick> := [];
      var offset := 0;
      while offset < |data|
        invariant |result| <= |rs|
        invariant offset == RecordSize * |result| || (|data| < offset && |result| == |rs|)
        invariant forall i :: 0 <= i < |result| ==> ShapeTick(cfg, rs[i], date, hour) == Some(result[i])
        decreases |data| - offset
      {
        var chunk := data[offset..if offset + RecordSize <= |data| then offset + RecordSize else |data|];
        if |chunk| == RecordSize {
          RecordAtOffset(data, |result|);
          var tick := ShapeTick(cfg, DecodeRecord(chunk), date, hour);
          if tick.None? {
            ShapeAllStops(cfg, rs, |result|, date, hour);
            return None;
          }
          result := result + [tick.value];
        } else {
          LastPartialChunk(data, |result|);
        }
        offset := offset + RecordSize;
      }
      ShapeAllOf(cfg, rs, result, date, hour);
      ticks := Some(result);
    }

    /** One hour of the loop in `download_and_save_csv`: fetch, parse, and
        write a row per tick. Nothing is written when the fetch brings no
        data or when parsing raises, which the loop's `except` swallows. */
    method SaveHour(fetch: string -> Option<seq<Byte>>, date: Day, hour: nat) returns (written: seq<Row>)
      requires hour < 24
      ensures written == HourRows(Config(), symbol, fetch, date, hour)
    {
      written := [];
      var data := fetch(HourUrl(symbol, date, hour));
      if data.Some? && |data.value| > 0 {
        var ticks := ParseTicks(data.value, date, hour);
        if ticks.Some? {
          written := WriteRows(ticks.value);
        }
      }
    }

    /** The `writer.writerow` loop: one row per tick, in order, with
        `Flags` set. */
    static method WriteRows(ts: seq<Tick>) returns (written: seq<Row>)
      ensures written == RowsOf(ts)
    {
      written := [];
      for k := 0 to |ts|
        invariant written == RowsOf(ts[..k])
      {
        assert ts[..k + 1][..k] == ts[..k];
        written := written + [RowOf(ts[k])];
      }
      assert ts[..|ts|] == ts;
    }

    /** The 24 hours of one day, in order. */
    method SaveDay(fetch: string -> Option<seq<Byte>>, date: Day) returns (written: seq<Row>, calls: seq<(Day, nat)>)
      ensures written == RowsUpTo(Config(), symbol, fetch, date, 24)
      ensures calls == HourRequests(date, 24)
    {
      written, calls := [], [];
      for hour := 0 to 24
        invariant written == RowsUpTo(Config(), symbol, fetch, date, hour)
        invariant calls == HourRequests(date, hour)
      {
        calls := calls + [(date, hour)];
        var hourRows := SaveHour(fetch, date, hour);
        written := written + hourRows;
      }
    }

    /** One pass of the day loop of `download_and_save_csv`: the day's
        hours are written after the rows of the days already visited. */
    method AppendDay(fetch: string -> Option<seq<Byte>>, ghost visited: seq<Day>, rows: seq<Row>, requested: seq<(Day, nat)>, date: Day)
      returns (rows': seq<Row>, requested': seq<(Day, nat)>)
      requires rows == RowsFor(Config(), symbol, fetch, visited)
      requires requested == DayRequests(visited)
      ensures rows' == RowsFor(Config(), symbol, fetch, visited + [date])
      ensures requested' == DayRequests(visited + [date])
    {
      var dayRows, dayCalls := SaveDay(fetch, date);
      VisitDay(Config(), symbol, fetch, visited, date);
      rows', requested' := rows + dayRows, requested + dayCalls;
    }

    /** `download_and_save_csv`, given the fetch-and-decompress oracle
        (None for a failed request, a non-200 answer, an empty body, or
        data that does not decompress). */
    method DownloadAndSaveCsv(fetch: string -> Option<seq<Byte>>) returns (d: Download)
      ensures d.header == Fieldnames(includeVolumes)
      ensures d.requested == DayRequests(Days(startDate, endDate))
      ensures d.rows == RowsFor(Config(), symbol, fetch, Days(startDate, endDate))
      ensures d.overflowed <==> RunsOffCalendar(startDate, endDate)
    {
      var header := Fieldnames(includeVolumes);
      var rows: seq<Row> := [];
      var requested: seq<(Day, nat)> := [];
      ghost var visited: seq<Day> := [];
      var current := startDate;
      while Ordinal(current) <= Ordinal(endDate)
        invariant visited + Days(current, endDate) == Days(startDate, endDate)
        invariant rows == RowsFor(Config(), symbol, fetch, visited)
        invariant requested == DayRequests(visited)
        decreases Ordinal(endDate) - Ordinal(current)
      {
        rows, requested := AppendDay(fetch, visited, rows, requested, current);
        var next := NextDay(current);
        if next.None? {
          LastDayVisited(startDate, endDate, visited, current);
          visited := visited + [current];
          return Download(header, rows, requested, true);
        }
        NextDayVisited(startDate, endDate, visited, current);
        visited := visited + [current];
        current := next.value;
      }
      WalkPassedEnd(startDate, endDate, visited, current);
      d := Download(header, rows, requested, false);
    }
  }
}
