/** The trading rules of the MT5 -> Robinhood options copier: the market
    hours window, the pattern-day-trade (PDT) gate, the in-memory day-trade
    counter and the shape of the option orders it sends. The clock, the
    account profile and the option quotes are inputs. */
module RobinhoodRules {

  import opened Options
  import opened Calendar
  import opened Terminal

  // ----- market hours -------------------------------------------------------

  type Weekday = w: int | 0 <= w < 7
  type Hour = h: int | 0 <= h < 24
  type Sixty = m: int | 0 <= m < 60
  type Micro = u: int | 0 <= u < 1_000_000

  /** The US/Eastern wall clock: weekday 0 is Monday, 6 is Sunday. */
  datatype EasternClock = EasternClock(weekday: Weekday, hour: Hour, minute: Sixty, second: Sixty, microsecond: Micro)

  /** 09:30:00.000000 and 16:00:00.000000 in microseconds since midnight. */
  const SessionOpen: int := 34_200_000_000
  const SessionClose: int := 57_600_000_000

  function SinceMidnight(c: EasternClock): (t: int)
    ensures 0 <= t < MicrosPerDay
  {
    ((c.hour * 60 + c.minute) * 60 + c.second) * 1_000_000 + c.microsecond
  }

  /** The regular session read off the clock's fields: from 9:30 on, and up
      to 16:00 sharp. */
  predicate InRegularSession(c: EasternClock) {
    || (c.hour == 9 && c.minute >= 30)
    || (10 <= c.hour < 16)
    || (c.hour == 16 && c.minute == 0 && c.second == 0 && c.microsecond == 0)
  }

  /** `is_market_open_now`; `None` stands for a clock that could not be read,
      where the function answers that the market is closed. Both ends of
      the session are inclusive. */
  function IsMarketOpenNow(clock: Option<EasternClock>): (open: bool)
    ensures open <==> clock.Some? && clock.value.weekday < 5 && InRegularSession(clock.value)
  {
    match clock
    case None => false
    case Some(c) => c.weekday < 5 && SessionOpen <= SinceMidnight(c) <= SessionClose
  }

  // ----- pattern-day-trade gate ---------------------------------------------

  const PdtEquityThreshold: real := 25000.0
  const PdtDayTradeLimit := 3
  const PdtWindowDays := 7

  /** The `portfolio_cash` field of the account profile: the profile could
      not be loaded or the field is not a number, the field is missing
      (read as "0"), or its value. */
  datatype CashReading = Unavailable | Absent | Cash(amount: real)

  function AccountValue(cash: CashReading): (value: Option<real>)
    ensures value.None? <==> cash.Unavailable?
    ensures cash.Absent? ==> value == Some(0.0)
    ensures cash.Cash? ==> value == Some(cash.amount)
  {
    match cash
    case Unavailable => None
    case Absent => Some(0.0)
    case Cash(amount) => Some(amount)
  }

  /** The `(bool, reason)` pair of `account_equity_and_pdt_check`, with the
      number of day trades used where the reason reports it. */
  datatype PdtVerdict = EquityUnavailable | NoPdtRestriction | PdtLimitReached(used: int) | WithinPdtLimit(used: int)

  predicate CanTrade(v: PdtVerdict) {
    v.NoPdtRestriction? || v.WithinPdtLimit?
  }

  /** `day_trades_count`: date text -> number of day trades, as a dict in
      insertion order (the order `items()` visits). */
  type DayTradeCounts = seq<(string, int)>

  predicate DistinctKeys(counts: DayTradeCounts) {
    forall i, j :: 0 <= i < j < |counts| ==> counts[i].0 != counts[j].0
  }

  /** `counts.get(key, 0)` for a dict without repeated keys. */
  function CountOf(counts: DayTradeCounts, key: string): (n: int)
    ensures (forall i :: 0 <= i < |counts| ==> counts[i].0 != key) ==> n == 0
  {
    if counts == [] then 0
    else if counts[|counts| - 1].0 == key then counts[|counts| - 1].1
    else CountOf(counts[..|counts| - 1], key)
  }

  /** With no repeated key, a stored date counts what is stored under it. */
  lemma {:induction false} CountOfStored(counts: DayTradeCounts, i: nat)
    requires DistinctKeys(counts) && i < |counts|
    ensures CountOf(counts, counts[i].0) == counts[i].1
    decreases |counts|
  {
    if i < |counts| - 1 {
      var init := counts[..|counts| - 1];
      assert init[i] == counts[i];
      CountOfStored(init, i);
    }
  }

  /** `dt.now() - timedelta(days=7)`, in microseconds. */
  function Cutoff(now: DateTime): int {
    EpochMicros(now) - PdtWindowDays * MicrosPerDay
  }

  /** The key parses as a date whose midnight is not before the cutoff; a
      malformed key never counts. */
  predicate InWindow(key: string, now: DateTime) {
    match ParseIsoDate(key)
    case None => false
    case Some(d) => EpochMicros(DateTime(d, 0)) >= Cutoff(now)
  }

  /** `day_trades_in_7_days`: the counts of the keys in the window. */
  function WindowSum(counts: DayTradeCounts, now: DateTime): int {
    if counts == [] then 0
    else
      var last := counts[|counts| - 1];
      WindowSum(counts[..|counts| - 1], now) + (if InWindow(last.0, now) then last.1 else 0)
  }

  /** The rolling window in whole dates: today and the six dates before it
      always count, the seventh date before only at midnight exactly. */
  lemma InWindowByDates(key: string, now: DateTime)
    requires ParseIsoDate(key).Some?
    ensures var d := ParseIsoDate(key).value;
            InWindow(key, now) <==>
              Ordinal(d) > Ordinal(now.date) - PdtWindowDays
              || (Ordinal(d) == Ordinal(now.date) - PdtWindowDays && now.time == 0)
  {
  }

  /** What `account_equity_and_pdt_check` decides: no equity figure blocks
      trading, an account worth at least 25000 is never restricted, and
      below that the day trades in the window must stay under three. */
  function PdtVerdictFor(cash: CashReading, counts: DayTradeCounts, now: DateTime): (v: PdtVerdict)
    ensures v.EquityUnavailable? <==> cash.Unavailable?
    ensures CanTrade(v) <==>
              AccountValue(cash).Some?
              && (AccountValue(cash).value >= PdtEquityThreshold || WindowSum(counts, now) < PdtDayTradeLimit)
    ensures v.PdtLimitReached? || v.WithinPdtLimit? ==> v.used == WindowSum(counts, now)
  {
    match AccountValue(cash)
    case None => EquityUnavailable
    case Some(value) =>
      if value >= PdtEquityThreshold then NoPdtRestriction
      else
        var used := WindowSum(counts, now);
        if used >= PdtDayTradeLimit then PdtLimitReached(used) else WithinPdtLimit(used)
  }

  /** `account_equity_and_pdt_check`, summing the counts entry by entry. */
  method AccountEquityAndPdtCheck(cash: CashReading, counts: DayTradeCounts, now: DateTime)
    returns (verdict: PdtVerdict)
    ensures verdict == PdtVerdictFor(cash, counts, now)
  {
    var accountValue: real;
    match cash {
      case Unavailable => return EquityUnavailable;
      case Absent => accountValue := 0.0;
      case Cash(amount) => accountValue := amount;
    }
    if accountValue >= PdtEquityThreshold {
      return NoPdtRestriction;
    }
    var cutoff := Cutoff(now);
    var used := 0;
    for i := 0 to |counts|
      invariant used == WindowSum(counts[..i], now)
    {
      assert counts[..i + 1][..i] == counts[..i];
      var (dayText, count) := counts[i];
      match ParseIsoDate(dayText) {
        case None =>
        case Some(day) =>
          if EpochMicros(DateTime(day, 0)) >= cutoff {
            used := used + count;
          }
      }
    }
    assert counts[..|counts|] == counts;
    if used >= PdtDayTradeLimit {
      return PdtLimitReached(used);
    }
    return WithinPdtLimit(used);
  }

  // ----- day-trade counter --------------------------------------------------

  /** The position of key in counts, or |counts| when it is absent. */
  function IndexOfKey(counts: DayTradeCounts, key: string): (i: nat)
    ensures i <= |counts|
    ensures i < |counts| ==> counts[i].0 == key
    ensures forall j :: 0 <= j < i ==> counts[j].0 != key
  {
    if counts == [] then 0
    else if counts[0].0 == key then 0
    else 1 + IndexOfKey(counts[1..], key)
  }

  /** `record_day_trade_if_applicable`: when the position was opened on the
      date it is closed, that date's count goes up by one (Increment,
      DayTradeRecorded); otherwise nothing changes. */
  function RecordDayTrade(counts: DayTradeCounts, openedAt: DateTime, now: DateTime): (r: DayTradeCounts)
    ensures openedAt.date != now.date ==> r == counts
    ensures DistinctKeys(counts) ==> DistinctKeys(r)
  {
    if !SameDayText(now.date, openedAt.date) then counts
    else Increment(counts, FormatIsoDate(now.date))
  }

  /** `now_day_str == open_day_str`: the `%Y-%m-%d` texts agree exactly
      when the dates do. */
  predicate SameDayText(a: Day, b: Day)
    ensures SameDayText(a, b) <==> a == b
  {
    if FormatIsoDate(a) == FormatIsoDate(b) then
      FormatIsoDateInjective(a, b);
      true
    else false
  }

  /** `counts[key] = counts.get(key, 0) + 1` on a dict kept in insertion
      order: a new key is appended with a count of one, a present one keeps
      its place (IncrementCounts). */
  function Increment(counts: DayTradeCounts, key: string): (r: DayTradeCounts)
    ensures DistinctKeys(counts) ==> DistinctKeys(r)
    ensures |r| == |counts| || r == counts + [(key, 1)]
  {
    var i := IndexOfKey(counts, key);
    if i == |counts| then
      KeysAfterAppend(counts, key, 1);
      counts + [(key, 1)]
    else
      KeysAfterUpdate(counts, i, counts[i].1 + 1);
      counts[i := (key, counts[i].1 + 1)]
  }

  /** The incremented key's count goes up by one, and no other key's
      count changes. */
  lemma IncrementCounts(counts: DayTradeCounts, key: string)
    ensures DistinctKeys(counts) ==> CountOf(Increment(counts, key), key) == CountOf(counts, key) + 1
    ensures forall k :: k != key ==> CountOf(Increment(counts, key), k) == CountOf(counts, k)
  {
    var i := IndexOfKey(counts, key);
    if i == |counts| {
      CountsAfterAppend(counts, key, 1);
    } else {
      CountsAfterUpdate(counts, i, counts[i].1 + 1);
    }
  }

  /** A day trade recorded on a closing day adds one to that day's count
      and leaves every other day's count as it was. */
  lemma DayTradeRecorded(counts: DayTradeCounts, openedAt: DateTime, now: DateTime)
    requires DistinctKeys(counts) && openedAt.date == now.date
    ensures var key := FormatIsoDate(now.date);
            && CountOf(RecordDayTrade(counts, openedAt, now), key) == CountOf(counts, key) + 1
            && forall k :: k != key ==> CountOf(RecordDayTrade(counts, openedAt, now), k) == CountOf(counts, k)
  {
    assert RecordDayTrade(counts, openedAt, now) == Increment(counts, FormatIsoDate(now.date));
    IncrementCounts(counts, FormatIsoDate(now.date));
  }

  lemma KeysAfterAppend(counts: DayTradeCounts, key: string, n: int)
    requires forall j :: 0 <= j < |counts| ==> counts[j].0 != key
    ensures DistinctKeys(counts) ==> DistinctKeys(counts + [(key, n)])
  {
  }

  lemma KeysAfterUpdate(counts: DayTradeCounts, i: nat, n: int)
    requires i < |counts|
    ensures DistinctKeys(counts) ==> DistinctKeys(counts[i := (counts[i].0, n)])
  {
    var r := counts[i := (counts[i].0, n)];
    assert forall j :: 0 <= j < |r| ==> r[j].0 == counts[j].0;
  }

  lemma CountsAfterAppend(counts: DayTradeCounts, key: string, n: int)
    requires forall j :: 0 <= j < |counts| ==> counts[j].0 != key
    ensures CountOf(counts + [(key, n)], key) == CountOf(counts, key) + n
    ensures forall k :: k != key ==> CountOf(counts + [(key, n)], k) == CountOf(counts, k)
  {
    assert (counts + [(key, n)])[..|counts|] == counts;
  }

  /** Changing the count stored at one position keeps every key in place
      and changes the lookup of that key only. */
  lemma CountsAfterUpdate(counts: DayTradeCounts, i: nat, n: int)
    requires i < |counts|
    ensures DistinctKeys(counts) ==>
              CountOf(counts[i := (counts[i].0, n)], counts[i].0) == CountOf(counts, counts[i].0) - counts[i].1 + n
    ensures forall k :: k != counts[i].0 ==> CountOf(counts[i := (counts[i].0, n)], k) == CountOf(counts, k)
  {
    var r := counts[i := (counts[i].0, n)];
    assert forall j :: 0 <= j < |r| ==> r[j].0 == counts[j].0;
    if DistinctKeys(counts) {
      CountOfStored(counts, i);
      CountOfStored(r, i);
    }
    forall k | k != counts[i].0
      ensures CountOf(r, k) == CountOf(counts, k)
    {
      CountOfOtherKey(counts, i, n, k);
    }
  }

  lemma {:induction false} CountOfOtherKey(counts: DayTradeCounts, i: nat, n: int, k: string)
    requires i < |counts| && k != counts[i].0
    ensures CountOf(counts[i := (counts[i].0, n)], k) == CountOf(counts, k)
    decreases |counts|
  {
    var r := counts[i := (counts[i].0, n)];
    var init := counts[..|counts| - 1];
    if i < |counts| - 1 {
      assert r[..|r| - 1] == init[i := (counts[i].0, n)];
      CountOfOtherKey(init, i, n, k);
    } else {
      assert r[..|r| - 1] == init;
    }
  }

  /** Changing the count stored at one position moves the window sum by the
      difference exactly when that key lies in the window. */
  lemma {:induction false} WindowSumAfterUpdate(counts: DayTradeCounts, i: nat, n: int, now: DateTime)
    requires i < |counts|
    ensures WindowSum(counts[i := (counts[i].0, n)], now) ==
              WindowSum(counts, now) + (if InWindow(counts[i].0, now) then n - counts[i].1 else 0)
    decreases |counts|
  {
    var r := counts[i := (counts[i].0, n)];
    var init := counts[..|counts| - 1];
    if i < |counts| - 1 {
      assert r[..|r| - 1] == init[i := (counts[i].0, n)];
      WindowSumAfterUpdate(init, i, n, now);
    } else {
      assert r[..|r| - 1] == init;
    }
  }

  /** A day trade recorded now falls in the window the next PDT check uses
      at the same instant, so it raises the count of used day trades by
      exactly one. (A year below 1000 is written with fewer than four
      digits, which the date parser refuses.) */
  lemma RecordedDayTradeCounts(counts: DayTradeCounts, openedAt: DateTime, now: DateTime)
    requires openedAt.date == now.date && now.date.year >= 1000
    ensures WindowSum(RecordDayTrade(counts, openedAt, now), now) == WindowSum(counts, now) + 1
  {
    var today := FormatIsoDate(now.date);
    TodayInWindow(now);
    assert RecordDayTrade(counts, openedAt, now) == Increment(counts, today);
    WindowSumAfterIncrement(counts, today, now);
  }

  /** Incrementing a key moves the window sum by one exactly when the key
      lies in the window. */
  lemma WindowSumAfterIncrement(counts: DayTradeCounts, key: string, now: DateTime)
    ensures WindowSum(Increment(counts, key), now) == WindowSum(counts, now) + (if InWindow(key, now) then 1 else 0)
  {
    var i := IndexOfKey(counts, key);
    if i == |counts| {
      assert Increment(counts, key) == counts + [(key, 1)];
      WindowSumAfterAppend(counts, key, 1, now);
    } else {
      assert Increment(counts, key) == counts[i := (counts[i].0, counts[i].1 + 1)];
      WindowSumAfterUpdate(counts, i, counts[i].1 + 1, now);
    }
  }

  /** The key written for today is read back and lies in the window. */
  lemma TodayInWindow(now: DateTime)
    requires now.date.year >= 1000
    ensures InWindow(FormatIsoDate(now.date), now)
  {
    IsoDateRoundTrip(now.date);
  }

  /** Appending a key adds its count to the window sum when it lies in the
      window. */
  lemma WindowSumAfterAppend(counts: DayTradeCounts, key: string, n: int, now: DateTime)
    ensures WindowSum(counts + [(key, n)], now) == WindowSum(counts, now) + (if InWindow(key, now) then n else 0)
  {
    assert (counts + [(key, n)])[..|counts|] == counts;
  }

  // ----- option orders ------------------------------------------------------

  datatype Side = Buy | Sell
  datatype OptionType = Call | Put
  datatype PositionEffect = Open | Close
  datatype Settlement = Debit | Credit

  /** The arguments of one `order_buy_option_limit` or
      `order_sell_option_limit` call. */
  datatype OptionOrder = OptionOrder(
    symbol: string, expirationDate: string, strike: real, optionType: OptionType,
    quantity: int, side: Side, effect: PositionEffect, limitPrice: real, settlement: Settlement)

  /** The `rh_info` dict kept per copied ticket. */
  datatype RhInfo = RhInfo(
    symbol: string, expirationDate: string, strike: real, optionType: OptionType, quantity: int, side: Side)

  const Underlying := "TSLA"
  /** The open limit sits 0.1% above the best bid, the close limit 0.5%
      below the best ask. */
  const OpenLimitFactor: real := 1.001
  const CloseLimitFactor: real := 0.995

  /** How an MT5 position is mirrored: always bought to open, a call for a
      BUY position and a put for anything else. */
  function OpenContract(orderType: int): (choice: (Side, OptionType))
    ensures choice.0 == Buy
    ensures choice.1 == Call <==> orderType == ORDER_TYPE_BUY
  {
    if orderType == ORDER_TYPE_BUY then (Buy, Call) else (Buy, Put)
  }

  /** The side that unwinds a position: the other one. */
  function CloseSide(original: Side): (side: Side)
    ensures side != original
  {
    if original == Buy then Sell else Buy
  }

  lemma CloseSideUndoes(side: Side)
    ensures CloseSide(CloseSide(side)) == side
  {
  }

  /** `place_robinhood_option_order` pays a debit to buy and takes a credit
      to sell. */
  function SettlementFor(side: Side): (s: Settlement)
    ensures s == Debit <==> side == Buy
  {
    if side == Buy then Debit else Credit
  }

  /** Python's `int(x)` on a float: the integer part, truncated toward zero. */
  function TruncateToInt(x: real): (n: int)
    ensures x >= 0.0 ==> n >= 0 && n as real <= x < n as real + 1.0
    ensures x < 0.0 ==> n <= 0 && n as real - 1.0 < x <= n as real
  {
    if x >= 0.0 then x.Floor else -((-x).Floor)
  }

  /** `round(x, 2)`: the nearest whole number of cents, ties to even. */
  function RoundCents(x: real): (r: real)
    ensures (r * 100.0).Floor as real == r * 100.0
    ensures -0.005 <= r - x <= 0.005
    ensures r - x == 0.005 || x - r == 0.005 ==> (r * 100.0).Floor % 2 == 0
  {
    var scaled := x * 100.0;
    var whole := scaled.Floor;
    var fraction := scaled - whole as real;
    var cents := if fraction > 0.5 || (fraction == 0.5 && whole % 2 == 1) then whole + 1 else whole;
    var r := cents as real / 100.0;
    assert (r * 100.0).Floor == cents by { WholeFloor(cents); }
    assert r - x == 0.005 || x - r == 0.005 ==> fraction == 0.5;
    r
  }

  lemma WholeFloor(n: int)
    ensures (n as real / 100.0 * 100.0).Floor == n
  {
    assert n as real / 100.0 * 100.0 == n as real;
  }

  /** The order `place_robinhood_option_order` sends for a contract. */
  function OrderFor(info: RhInfo, side: Side, effect: PositionEffect, limitPrice: real): (o: OptionOrder)
    ensures o.side == side && o.effect == effect && o.limitPrice == limitPrice
    ensures o.settlement == Debit <==> side == Buy
    ensures ContractOf(o) == info.(side := side)
  {
    OptionOrder(info.symbol, info.expirationDate, info.strike, info.optionType, info.quantity,
                side, effect, limitPrice, SettlementFor(side))
  }

  /** The contract an order is for, in the shape of `rh_info`. */
  function ContractOf(o: OptionOrder): RhInfo {
    RhInfo(o.symbol, o.expirationDate, o.strike, o.optionType, o.quantity, o.side)
  }

  /** The outside world as one `copy_mt5_trade_to_robinhood` call sees it:
      the Eastern clock, the profile's cash field, the local time the PDT
      cutoff is taken from, today's date, the latest TSLA price and the
      best option bid (`None` where fetching or parsing fails or the list
      is empty), whether Robinhood answered the order with a truthy
      response, and the local time recorded as the opening time. */
  datatype OpenWorld = OpenWorld(
    clock: Option<EasternClock>, cash: CashReading, pdtNow: DateTime, today: Day,
    lastPrice: Option<real>, bestBid: Option<real>, accepted: bool, openedAt: DateTime)

  /** The outside world as one close sees it; `recordNow` is the local time
      `record_day_trade_if_applicable` reads. */
  datatype CloseWorld = CloseWorld(
    clock: Option<EasternClock>, cash: CashReading, pdtNow: DateTime, bestAsk: Option<real>, recordNow: DateTime)

  /** The order sent (if any) and the `rh_info` returned (if any). */
  datatype OpenAttempt = OpenAttempt(order: Option<OptionOrder>, info: Option<RhInfo>)

  /** `copy_mt5_trade_to_robinhood`, given the PDT verdict its check would
      reach (consulted only while the market is open). An order goes out
      only when the market is open, the PDT gate passes and both quotes
      are available; the trade counts as copied only when Robinhood
      accepted that order. */
  function CopyTrade(p: Position, w: OpenWorld, verdict: PdtVerdict): (a: OpenAttempt)
    ensures a.order.Some? <==>
              IsMarketOpenNow(w.clock) && CanTrade(verdict) && w.lastPrice.Some? && w.bestBid.Some?
    ensures a.info.Some? <==> a.order.Some? && w.accepted
    ensures a.order.Some? ==>
              var o := a.order.value;
              && o.side == Buy && o.effect == Open && o.settlement == Debit
              && o.symbol == Underlying && o.expirationDate == FormatIsoDate(w.today)
              && (o.optionType == Call <==> p.orderType == ORDER_TYPE_BUY)
              && o.quantity == TruncateToInt(p.volume)
              && o.strike == RoundCents(w.lastPrice.value)
              && o.limitPrice == OpenLimitFactor * w.bestBid.value
    ensures a.info.Some? ==> a.info.value == ContractOf(a.order.value)
  {
    if !IsMarketOpenNow(w.clock) || !CanTrade(verdict) then OpenAttempt(None, None)
    else
      var (side, optionType) := OpenContract(p.orderType);
      var info := RhInfo(Underlying, FormatIsoDate(w.today), 0.0, optionType, TruncateToInt(p.volume), side);
      match (w.lastPrice, w.bestBid)
      case (Some(last), Some(bid)) =>
        var info := info.(strike := RoundCents(last));
        var order := OrderFor(info, side, Open, OpenLimitFactor * bid);
        OpenAttempt(Some(order), if w.accepted then Some(info) else None)
      case _ => OpenAttempt(None, None)
  }

  /** `close_robinhood_position`, given the PDT verdict its check would
      reach: the same contract on the other side, limited 0.5% under the
      best ask, sent only when the market is open, the PDT gate passes and
      an ask is available. */
  function ClosePosition(info: RhInfo, w: CloseWorld, verdict: PdtVerdict): (o: Option<OptionOrder>)
    ensures o.Some? <==> IsMarketOpenNow(w.clock) && CanTrade(verdict) && w.bestAsk.Some?
    ensures o.Some? ==>
              && o.value.side == CloseSide(info.side) && o.value.effect == Close
              && ContractOf(o.value) == info.(side := CloseSide(info.side))
              && o.value.limitPrice == CloseLimitFactor * w.bestAsk.value
              && (o.value.settlement == Debit <==> o.value.side == Buy)
  {
    if !IsMarketOpenNow(w.clock) || !CanTrade(verdict) || w.bestAsk.None? then None
    else Some(OrderFor(info, CloseSide(info.side), Close, CloseLimitFactor * w.bestAsk.value))
  }

  /** What is opened is closed by selling the very same contract for a
      credit. */
  lemma CloseUnwindsOpen(p: Position, ow: OpenWorld, ov: PdtVerdict, cw: CloseWorld, cv: PdtVerdict)
    requires CopyTrade(p, ow, ov).info.Some?
    requires ClosePosition(CopyTrade(p, ow, ov).info.value, cw, cv).Some?
    ensures var openOrder := CopyTrade(p, ow, ov).order.value;
            var closing := ClosePosition(CopyTrade(p, ow, ov).info.value, cw, cv).value;
            && openOrder.side == Buy && closing.side == Sell && closing.settlement == Credit
            && ContractOf(closing) == ContractOf(openOrder).(side := Sell)
  {
  }
}
