# MT5 trade copiers and Dukascopy tick downloader, modelled in Dafny

This project models the decision logic of three small Python tools:

- **MT5 → TradeLocker copier** (`mt5totradelockercopier.py`).
  - Each pass of `copy_trades` compares the tickets MetaTrader 5 lists with those of the previous pass.
  - It places one TradeLocker market order for each new position with magic number 15.
  - It closes the TradeLocker order of each vanished position it has a mapping for.
  - It keeps the ticket → order-id mapping in step: an entry is added when placement returns a truthy id and removed only when the close succeeds.
  - The mapping's JSON keys are converted int → str on save and str → int on load.
- **MT5 → Robinhood options copier** (`mt5torobinhood.py`).
  - The regular-session check: Monday to Friday, 09:30–16:00, both ends inclusive.
  - The pattern-day-trade (PDT) gate: equity of at least 25000 passes; below that, fewer than 3 day trades dated within the last 7 days.
  - The in-memory day-trade counter.
  - The option orders sent: a BUY position is mirrored by buying a call, anything else by buying a put, and a close sells the same contract.
  - One pass of `monitor_trades_forever`: new tickets are copied; a vanished ticket's entry is dropped whatever became of its close.
- **Dukascopy tick downloader** (`tickdownloader.py`).
  - Decoding a decompressed `.bi5` hour into 20-byte big-endian records (`!3I2f`), dropping a trailing partial record.
  - Shaping each record into a tick: point value, real ask or bid plus spread, volumes kept or not.
  - The per-hour URL, with its zero-based month.
  - The walk over every day from the start date to the end date inclusive, 24 hours each, and the CSV rows it writes.

The broker, terminal and network calls are oracles passed in as parameters:

- `positions_get` is a `PositionsReply`: positions, `None`, or a raise.
- Placement and close answers are given per ticket.
- The fetch-and-decompress of an hour is a function from URL to optional bytes.
- Clocks, the account profile and option quotes are inputs of type `OpenWorld` and `CloseWorld`.

Python sets are iterated in an order the language does not fix. Where that order matters, it is an explicit input: the Robinhood close loop records day trades in visit order, so its visit order is the `closeOrder` input.

Modules:

- `Options`, `Decimal` (decimal text of integers), `Calendar` (proleptic Gregorian dates of `datetime`);
- `Terminal` (the MT5 position snapshot and the ticket set differences);
- `TradeLockerCopier`, `TradeLockerMapping`;
- `RobinhoodRules`, `RobinhoodCopier`;
- `TickRecords`, `TickDownloader`.

The classes `TradeLockerCopier.Copier`, `RobinhoodCopier.Copier` and `TickDownloader.TickDataDownloader` are imperative. They hold the state the Python code updates in place. Each of their methods is proved against a pure function. The properties are proved as lemmas about those functions.

The TradeLocker copier makes one placement attempt and one close attempt per ticket (`mt5totradelockercopier.py:186`, `:202`), and sends `position.volume` unscaled as the quantity (`mt5totradelockercopier.py:179`).

## Model

| member | source | states |
|---|---|---|
| Terminal.TicketsOf | mt5totradelockercopier.py:162 | a ticket is current iff some listed position has it; a `None` reply gives no tickets |
| Terminal.NewTickets | mt5totradelockercopier.py:165 | new tickets are exactly those current and not old |
| Terminal.ClosedTickets | mt5totradelockercopier.py:195 | closed tickets are exactly those old and not current |
| Terminal.NewAndClosedDisjoint | mt5totradelockercopier.py:165-195 | new and closed tickets are disjoint, and with the kept tickets they cover old ∪ current |
| Terminal.FirstWithTicket | mt5totradelockercopier.py:167 | the position found for a listed ticket carries that ticket and is among the listed positions |
| TradeLockerCopier.RequestFor | mt5totradelockercopier.py:177-183 | the order copies symbol and volume unscaled, is a market order, and is a buy iff the position is a BUY |
| TradeLockerCopier.PlaceCallsAmong | mt5totradelockercopier.py:166-186 | a placement call is made for a new ticket iff its position has magic 15, with that position's request; a mismatch makes no call |
| TradeLockerCopier.InsertionsAmong | mt5totradelockercopier.py:186-189 | a new ticket gains an entry iff a call was made and it returned a truthy id (0 and None fail); the stored value is that id |
| TradeLockerCopier.CloseCallsAmong | mt5totradelockercopier.py:196-202 | a close call is made for a closed ticket iff it has an entry, with its mapped id; an unmapped closed ticket makes no call |
| TradeLockerCopier.RemovalsAmong | mt5totradelockercopier.py:202-205 | an entry is deleted iff its ticket closed, it is mapped, and the close returned success |
| TradeLockerCopier.PollMapping | mt5totradelockercopier.py:164-208 | after a pass, gained tickets map to their id, successfully closed tickets have no entry, and every other entry is unchanged |
| TradeLockerCopier.AfterPoll | mt5totradelockercopier.py:159-213 | a pass that raises changes nothing; otherwise `old` becomes the current ticket set |
| TradeLockerCopier.FailedCloseLeavesStaleEntry | mt5totradelockercopier.py:203-210 | a vanished ticket whose close failed keeps its entry unchanged and is no longer in `old` |
| TradeLockerCopier.StaleEntryUntouched | mt5totradelockercopier.py:195-210 | while such a ticket stays unlisted, a pass makes no close call for it and leaves its entry alone |
| TradeLockerCopier.StaleEntryPersists | mt5totradelockercopier.py:210 | over any run of passes that do not list it, the stale entry survives unchanged and is never retried |
| TradeLockerCopier.NoneReplyClosesEverything | mt5totradelockercopier.py:161-162 | when `positions_get()` gives None, every mapped old ticket gets a close call, successful closes drop their entries, and `old` becomes empty |
| TradeLockerCopier.Copier.constructor | mt5totradelockercopier.py:157 | the initial `old` is the key set of the loaded mapping |
| TradeLockerCopier.Copier.Poll | mt5totradelockercopier.py:159-213 | one pass returns the placement and close calls it made and moves the state exactly as `AfterPoll` |
| TradeLockerCopier.Copier.CopyNewPositions | mt5totradelockercopier.py:165-192 | the loop over new tickets makes exactly the placement calls of `PlaceCallsAmong` and adds exactly the entries of `InsertionsAmong` |
| TradeLockerCopier.Copier.CloseVanishedPositions | mt5totradelockercopier.py:195-208 | the loop over closed tickets makes exactly the close calls of `CloseCallsAmong` and removes exactly the entries of `RemovalsAmong` |
| TradeLockerMapping.SaveKeys | mt5totradelockercopier.py:60 | every ticket is saved under its decimal text with its value, and every saved key is the text of a ticket |
| TradeLockerMapping.ConvertKeys | mt5totradelockercopier.py:43 | conversion succeeds iff every key parses as an integer |
| TradeLockerMapping.ConvertKeysDomain | mt5totradelockercopier.py:43 | the converted keys are exactly the parsed file keys |
| TradeLockerMapping.ConvertKeysValue | mt5totradelockercopier.py:43 | an integer key keeps the value of the last loaded item whose text denotes it ("7" and "07" both denote 7) |
| TradeLockerMapping.LoadTradeMapping | mt5totradelockercopier.py:33-51 | a missing or unreadable file, or a key that does not parse, gives the empty mapping; otherwise the converted one |
| TradeLockerMapping.LoadedWithinSaved | mt5totradelockercopier.py:43-60 | a listing of the saved map converts, and every loaded ticket was saved |
| TradeLockerMapping.SavedTicketsLoaded | mt5totradelockercopier.py:43-60 | every saved ticket is loaded with its saved value |
| TradeLockerMapping.SaveLoadRoundTrip | mt5totradelockercopier.py:43-60 | loading what was saved, in any listing order, gives back the original integer-keyed mapping |
| Decimal.IntToStrRoundTrip | mt5totradelockercopier.py:43-60 | `int(str(k)) == k` for every integer |
| Decimal.IntToStrInjective | mt5totradelockercopier.py:60 | distinct tickets are saved under distinct keys |
| RobinhoodRules.IsMarketOpenNow | mt5torobinhood.py:157-177 | the market is open iff the clock could be read, the weekday is Monday–Friday and the time lies between 09:30 and 16:00 inclusive |
| RobinhoodRules.AccountValue | mt5torobinhood.py:193-199 | a profile that cannot be loaded or parsed gives no value; a missing cash field reads as 0 |
| RobinhoodRules.CountOf | mt5torobinhood.py:446-447 | a date without an entry counts 0 |
| RobinhoodRules.CountOfStored | mt5torobinhood.py:446-447 | with no repeated date, a stored date counts exactly what is stored under it |
| RobinhoodRules.InWindowByDates | mt5torobinhood.py:205-211 | a date key is in the window iff it is no earlier than six dates before today (later dates, future ones included, count), or it is the seventh date before and the clock reads exactly midnight |
| RobinhoodRules.PdtVerdictFor | mt5torobinhood.py:183-219 | trading is blocked when equity is unavailable; allowed iff equity ≥ 25000 or fewer than 3 day trades in the window; the reported count is the window sum |
| RobinhoodRules.AccountEquityAndPdtCheck | mt5torobinhood.py:183-219 | the summing loop, skipping malformed keys, reaches the verdict of `PdtVerdictFor` |
| RobinhoodRules.IndexOfKey | mt5torobinhood.py:446 | finds the first entry of the date, or reports there is none |
| RobinhoodRules.RecordDayTrade | mt5torobinhood.py:440-450 | nothing changes unless the position was opened on today's date, and the counts never gain a repeated date |
| RobinhoodRules.SameDayText | mt5torobinhood.py:442-444 | the two `%Y-%m-%d` texts are equal iff the two dates are |
| RobinhoodRules.Increment | mt5torobinhood.py:445-446 | a new date is appended with count 1, a present one keeps its place, and no date is repeated |
| RobinhoodRules.IncrementCounts | mt5torobinhood.py:445-446 | the incremented date's count goes up by one (from 0 when absent) and every other date's count is unchanged |
| RobinhoodRules.DayTradeRecorded | mt5torobinhood.py:440-450 | a position closed on its opening day adds one to today's count and changes no other date's count |
| RobinhoodRules.CountsAfterAppend | mt5torobinhood.py:446-447 | appending a fresh date adds its count and leaves other dates alone |
| RobinhoodRules.CountsAfterUpdate | mt5torobinhood.py:447 | updating one date's count leaves every other date's count alone |
| RobinhoodRules.WindowSumAfterUpdate | mt5torobinhood.py:207-211 | updating one entry moves the window sum by the difference iff that date is in the window |
| RobinhoodRules.WindowSumAfterIncrement | mt5torobinhood.py:207-211 | incrementing a date moves the window sum by one iff that date is in the window |
| RobinhoodRules.TodayInWindow | mt5torobinhood.py:207-211 | the key written for today is read back and lies in the window |
| RobinhoodRules.RecordedDayTradeCounts | mt5torobinhood.py:205-211 | a day trade recorded now raises the count the next PDT check sees by exactly one |
| RobinhoodRules.OpenContract | mt5torobinhood.py:298-304 | the open side is always buy; the option is a call iff the position is a BUY |
| RobinhoodRules.CloseSide | mt5torobinhood.py:397-400 | the close side differs from the original side |
| RobinhoodRules.CloseSideUndoes | mt5torobinhood.py:397-400 | inverting the side twice gives it back |
| RobinhoodRules.SettlementFor | mt5torobinhood.py:241-268 | buy orders are debit orders, sell orders credit orders |
| RobinhoodRules.TruncateToInt | mt5torobinhood.py:306 | `int(x)` truncates toward zero |
| RobinhoodRules.RoundCents | mt5torobinhood.py:318 | the strike is a whole number of cents within half a cent of the price, and an exact half cent goes to the even number of cents |
| RobinhoodRules.OrderFor | mt5torobinhood.py:225-274 | the order sent carries the contract, side, effect and limit, and its settlement follows its side |
| RobinhoodRules.CopyTrade | mt5torobinhood.py:280-364 | an order is sent iff the market is open, the PDT gate passes and both quotes exist; it buys a TSLA option expiring today (call iff BUY) for the truncated volume at the rounded strike and 1.001 × bid; the trade is copied iff the order was accepted, recording that contract |
| RobinhoodRules.ClosePosition | mt5torobinhood.py:370-434 | a close order is sent iff the market is open, the PDT gate passes and an ask exists; it is the same contract on the inverted side at 0.995 × ask |
| RobinhoodRules.CloseUnwindsOpen | mt5torobinhood.py:299-304 | what is opened is closed by selling the very same contract for a credit |
| RobinhoodCopier.OpenOrdersAmong | mt5torobinhood.py:515-523 | an open order goes out for exactly the new tickets whose attempt sent one |
| RobinhoodCopier.CopiedAmong | mt5torobinhood.py:518-523 | exactly the new tickets whose copy returned info gain an entry, holding that info and the opening time |
| RobinhoodCopier.OpenOrdersStep | mt5torobinhood.py:516-523 | handling one more new ticket adds exactly its order |
| RobinhoodCopier.CopiedStep | mt5torobinhood.py:516-523 | handling one more new ticket adds exactly its entry |
| RobinhoodCopier.CloseOne | mt5torobinhood.py:527-533 | an unmapped closed ticket changes nothing; a mapped one gets a close attempt, its day trade is recorded, and its entry is dropped whatever the close outcome |
| RobinhoodCopier.CloseAllEffect | mt5torobinhood.py:526-533 | after the loop every closed ticket has lost its entry, exactly the mapped ones got a close attempt, and when none was mapped the counts are untouched |
| RobinhoodCopier.AfterPoll | mt5torobinhood.py:502-536 | a pass whose `positions_get()` raises changes nothing; otherwise `old` becomes the current ticket set |
| RobinhoodCopier.PollKeepsValid | mt5torobinhood.py:515-536 | every mapped ticket is in `old`, and the counts have no repeated date, before and after a pass |
| RobinhoodCopier.ListedPositionStaysUncopied | mt5torobinhood.py:515-536 | a ticket of the previous pass that is listed again is not new and gains no entry |
| RobinhoodCopier.StartupPositionNeverCopied | mt5torobinhood.py:483-536 | a position open at start-up and listed by every answered pass is never copied |
| RobinhoodCopier.EmptyReplyForgetsOpenPositions | mt5torobinhood.py:510-512 | after `positions_get()` gives None, the next pass takes every listed position as new |
| RobinhoodCopier.Copier.constructor | mt5torobinhood.py:483-494 | `old` is seeded from the positions open at start-up (empty when the call fails), with no entries and no counts |
| RobinhoodCopier.Copier.RecordDayTradeIfApplicable | mt5torobinhood.py:440-450 | updates the counts exactly as `RecordDayTrade` |
| RobinhoodCopier.Copier.CopyMt5TradeToRobinhood | mt5torobinhood.py:280-364 | computes `CopyTrade` with the PDT verdict of the current counts |
| RobinhoodCopier.Copier.CloseRobinhoodPosition | mt5torobinhood.py:370-434 | computes `ClosePosition` with the PDT verdict of the current counts |
| RobinhoodCopier.Copier.CopyNewPosition | mt5torobinhood.py:516-523 | sends the ticket's open order, and adds its entry iff the copy returned info |
| RobinhoodCopier.Copier.CopyNewPositions | mt5torobinhood.py:515-523 | the loop over new tickets sends exactly `OpenOrdersAmong` and adds exactly `CopiedAmong` |
| RobinhoodCopier.Copier.CloseVanishedPosition | mt5torobinhood.py:527-533 | one turn of the close loop moves the state exactly as `CloseOne` |
| RobinhoodCopier.Copier.CloseVanishedPositions | mt5torobinhood.py:526-533 | the loop over closed tickets, in the given order, ends in the state of `CloseAll` |
| RobinhoodCopier.Copier.Poll | mt5torobinhood.py:500-536 | one pass keeps the invariant, moves the state exactly as `AfterPoll`, and returns the orders it sent |
| Calendar.DaysInMonth | mt5torobinhood.py:209 | months have 28 to 31 days, and 29 exactly for February of a leap year |
| Calendar.NextDay | tickdownloader.py:127 | there is a next day for every date but 9999-12-31 |
| Calendar.NextDayIsSuccessor | tickdownloader.py:127 | the next day is one day later |
| Calendar.OrdinalInjective | tickdownloader.py:95 | distinct dates have distinct day numbers |
| Calendar.FormatIsoDateInjective | mt5torobinhood.py:443-445 | distinct dates have distinct `%Y-%m-%d` text |
| Calendar.ParseIsoDate | mt5torobinhood.py:209 | a key is accepted iff it is four year digits, a dash, one or two month digits, a dash and one or two day digits (or a space and one digit), and those numbers make a calendar date; the date read is exactly those three numbers |
| Calendar.IsoDateRoundTrip | mt5torobinhood.py:209 | `strptime(strftime(d, "%Y-%m-%d"), "%Y-%m-%d") == d` for years from 1000 on |
| TickRecords.WordBytesRoundTrip | tickdownloader.py:178 | unpacking a packed big-endian word gives it back |
| TickRecords.BigEndian32RoundTrip | tickdownloader.py:178 | every 4 bytes are the big-endian packing of the word they unpack to |
| TickRecords.RecordRoundTrip | tickdownloader.py:178 | unpacking a packed record gives back every field, in the order ms offset, ask, bid, ask volume, bid volume |
| TickRecords.ChunkRoundTrip | tickdownloader.py:178 | every 20-byte chunk is the packing of the record it unpacks to |
| TickRecords.RecordsAt | tickdownloader.py:172-178 | there are ⌊len(data)/20⌋ records, record i unpacked from bytes [20i, 20i+20) |
| TickRecords.RecordsRoundTrip | tickdownloader.py:172-178 | packed records are read back whatever partial record trails them |
| TickRecords.RecordsAppend | tickdownloader.py:174-176 | splitting the data at a record boundary splits the records |
| TickDownloader.UpperIdempotent | tickdownloader.py:35 | upper-casing twice is upper-casing once |
| TickDownloader.SameIgnoringCasePointValue | tickdownloader.py:35-55 | symbols differing only in case get the same symbol and point; the point is 1000 iff the symbol is USDRUB, XAGUSD or XAUUSD, and 100000 otherwise |
| TickDownloader.LastInstantIsDatetimeMax | tickdownloader.py:181 | the largest tick instant is that of 9999-12-31 23:59:59.999999 |
| TickDownloader.ShapeTick | tickdownloader.py:181-212 | a record is shaped iff its instant date + hour h + ms does not pass `datetime.max` |
| TickDownloader.ShapedTickRecovers | tickdownloader.py:181-212 | bid × point is the raw bid; the ask is raw ask / point with a real ask, else bid + spread; the time is date + hour + ms; volumes are kept iff asked for, bid volume from the fifth field |
| TickDownloader.ShapeAll | tickdownloader.py:174-215 | all records are shaped, in order, iff none overflows |
| TickDownloader.ParsedTicks | tickdownloader.py:172-215 | `parse_ticks` yields ⌊len(data)/20⌋ ticks, tick i shaped from bytes [20i, 20i+20), unless one overflows |
| TickDownloader.TickDataDownloader.constructor | tickdownloader.py:35-55 | the symbol is upper-cased and its point value fixed |
| TickDownloader.TickDataDownloader.ParseTicks | tickdownloader.py:161-215 | the offset loop returns exactly the ticks of `TicksOf` |
| TickDownloader.Fieldnames | tickdownloader.py:83-86 | the header is exactly timestamp, bid, ask, Flags, followed by bid_volume, ask_volume iff volumes are included |
| TickDownloader.RowsFitHeader | tickdownloader.py:106-120 | every row written has Flags 6 and volume values iff the header has volume columns |
| TickDownloader.HourPathParts | tickdownloader.py:136-142 | the path reads back year, zero-based month (month − 1), day and hour, each padded to two digits |
| TickDownloader.HourUrlInjective | tickdownloader.py:136-142 | distinct (date, hour) pairs give distinct URLs |
| TickDownloader.DaysStep | tickdownloader.py:95-127 | the days walked start with the start date and go on from the next day |
| TickDownloader.DaysEnumerate | tickdownloader.py:94-127 | the walk visits end − start + 1 days (none when end < start), day i being start + i |
| TickDownloader.DayVisited | tickdownloader.py:94-127 | every date from start to end is visited |
| TickDownloader.HourRequestsAt | tickdownloader.py:99 | a day asks for hours 0 to 23, in order |
| TickDownloader.DayRequestsAt | tickdownloader.py:94-127 | request k is for day ⌊k/24⌋ of the walk and hour k mod 24 |
| TickDownloader.NoRequestRepeated | tickdownloader.py:94-142 | no URL is requested twice in one run |
| TickDownloader.TickDataDownloader.WriteRows | tickdownloader.py:106-120 | one row per tick, in order |
| TickDownloader.TickDataDownloader.SaveHour | tickdownloader.py:100-125 | an hour whose fetch gives no data or whose parsing raises writes no row; otherwise a row per tick |
| TickDownloader.TickDataDownloader.SaveDay | tickdownloader.py:99-125 | a day requests its 24 hours in order and writes their rows in order |
| TickDownloader.TickDataDownloader.AppendDay | tickdownloader.py:98-124 | one turn of the day loop extends the rows and the requests by exactly those of the visited day |
| TickDownloader.WalkPassedEnd | tickdownloader.py:95-127 | once the loop's date passes the end date, every day from start to end has been visited and no step overflowed |
| TickDownloader.TickDataDownloader.DownloadAndSaveCsv | tickdownloader.py:71-129 | the header is `Fieldnames`, the requests are 24 per visited day, the rows are those of the visited days in order, and the run overflows iff it would step past 9999-12-31 |

## Left out

- MetaTrader 5, TradeLocker and Robinhood logins, credential files, `time.sleep` and the endless polling loops: one pass is modelled, and a run of passes is a sequence of inputs.
- Broker, terminal and HTTP calls are oracles. `place_tradelocker_order` and `close_tradelocker_order` are per-ticket answers. `place_robinhood_option_order` is the `accepted` flag of `OpenWorld`; any exception it catches is folded into that flag.
- Writing the mapping JSON after every insert or delete, and the `print` logging: file I/O. Only the key conversion is modelled.
- The `timestamp` text added to the TradeLocker order is never read by the placing call and is not modelled.
- Floating point: prices, cash, volumes and limit factors are exact reals. IEEE rounding of `price / point`, `1.001 * bid`, `0.995 * ask` and `float(...)` is not captured, nor NaN or infinite cash.
- The two `f` volume fields are kept as their raw 32-bit words; their IEEE-754 decoding is not modelled.
- Time zones (`pytz`) and the local clock: the Eastern clock, the local time and today's date are inputs.
- RobinhoodRules.Cutoff: `dt.now() - timedelta(days=7)` raises `OverflowError` before 0001-01-08. The model subtracts without that error, because no clock of a running copier reads such a date.
- RobinhoodRules.RecordedDayTradeCounts: holds for years from 1000 on only. Earlier years are written with fewer than four digits, which the `%Y-%m-%d` parser of the model refuses.
- RobinhoodCopier.Copier.CloseRobinhoodPosition: the `if not rh_info` branch cannot be reached, because every stored entry holds a non-empty info dict, so it is not modelled.
- The exception wrappers around `copy_mt5_trade_to_robinhood`, `close_robinhood_position` and `record_day_trade_if_applicable` catch only failures of the calls made into the oracles. Those failures are folded into the oracle answers (`None` quotes, `Unavailable` cash).
- The order in which Python iterates a set is not modelled; where it matters it is the `closeOrder` input.
- LZMA decompression and `requests.get`: the fetch oracle returns the decompressed bytes, or None for a failed request, a non-200 status, an empty body or a decompression error.
- CSV text: rows are records (tick time in microseconds, prices, Flags, volumes). The `%Y-%m-%d %H:%M:%S.%f` timestamp text cut to milliseconds is not modelled.
- The `MM-DD-YYYY` parsing of the start and end dates and the output directory creation: the downloader is given the start and end dates.
- `str.upper` is modelled on ASCII letters only; `int()` on decimal text accepts ASCII digits with an optional `+` or `-` sign, but not Unicode digits, surrounding spaces or underscores.
