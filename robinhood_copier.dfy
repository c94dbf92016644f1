/** The monitoring loop of the MT5 -> Robinhood copier
    (`monitor_trades_forever`): each poll diffs the MT5 tickets against the
    previous poll, copies new positions as option orders and closes the
    options of vanished positions, recording same-day closes as day
    trades. Unlike the TradeLocker copier it copies every new position
    (no magic-number filter), forgets a closed ticket whether or not its
    close went through, and starts from the positions already open. */
module RobinhoodCopier {

  import opened Options
  import opened Calendar
  import opened Terminal
  import opened RobinhoodRules

  /** An entry of `ticket_to_rh`: the copied contract and when it was
      opened. */
  datatype OpenRecord = OpenRecord(info: RhInfo, openedAt: DateTime)

  /** `order` visits each ticket of the set once: the order in which
      Python's iteration happens to walk the set. */
  predicate IsOrderOf(order: seq<Ticket>, tickets: set<Ticket>) {
    && (forall t :: t in tickets ==> t in order)
    && (forall i :: 0 <= i < |order| ==> order[i] in tickets)
    && (forall i, j :: 0 <= i < j < |order| ==> order[i] != order[j])
  }

  // ----- new positions ------------------------------------------------------

  /** The attempt to copy new ticket t, with the PDT verdict reached from
      the day-trade counts of the start of the poll (no attempt for a
      ticket the positions do not list). */
  function OpenAttemptFor(ps: seq<Position>, t: Ticket, openWorld: Ticket -> OpenWorld, counts: DayTradeCounts): OpenAttempt {
    if t !in TicketsOf(ps) then OpenAttempt(None, None)
    else
      var w := openWorld(t);
      CopyTrade(FirstWithTicket(ps, t), w, PdtVerdictFor(w.cash, counts, w.pdtNow))
  }

  /** The attempt made for each ticket of a poll, from the state at its
      start. */
  function AttemptsOf(ps: seq<Position>, openWorld: Ticket -> OpenWorld, counts: DayTradeCounts): Ticket -> OpenAttempt {
    t => OpenAttemptFor(ps, t, openWorld, counts)
  }

  /** The open orders sent for the given new tickets. */
  function OpenOrdersAmong(tickets: set<Ticket>, attempts: Ticket -> OpenAttempt): (orders: map<Ticket, OptionOrder>)
    ensures forall t :: t in orders <==> t in tickets && attempts(t).order.Some?
    ensures forall t :: t in orders ==> orders[t] == attempts(t).order.value
  {
    map t | t in tickets && attempts(t).order.Some? :: attempts(t).order.value
  }

  /** The entries the given new tickets add to `ticket_to_rh`: one per
      accepted order, stamped with its opening time. */
  function CopiedAmong(tickets: set<Ticket>, attempts: Ticket -> OpenAttempt, openWorld: Ticket -> OpenWorld)
    : (copied: map<Ticket, OpenRecord>)
    ensures forall t :: t in copied <==> t in tickets && attempts(t).info.Some?
    ensures forall t :: t in copied ==> copied[t] == OpenRecord(attempts(t).info.value, openWorld(t).openedAt)
  {
    map t | t in tickets && attempts(t).info.Some? :: OpenRecord(attempts(t).info.value, openWorld(t).openedAt)
  }

  lemma OpenOrdersStep(done: set<Ticket>, t: Ticket, attempts: Ticket -> OpenAttempt)
    requires t !in done
    ensures OpenOrdersAmong(done + {t}, attempts) ==
              if attempts(t).order.Some? then OpenOrdersAmong(done, attempts)[t := attempts(t).order.value]
              else OpenOrdersAmong(done, attempts)
  {
  }

  lemma CopiedStep(done: set<Ticket>, t: Ticket, attempts: Ticket -> OpenAttempt, openWorld: Ticket -> OpenWorld)
    requires t !in done
    ensures CopiedAmong(done + {t}, attempts, openWorld) ==
              if attempts(t).info.Some?
              then CopiedAmong(done, attempts, openWorld)[t := OpenRecord(attempts(t).info.value, openWorld(t).openedAt)]
              else CopiedAmong(done, attempts, openWorld)
  {
  }

  // ----- closed positions ---------------------------------------------------

  /** What the closed-positions half of a poll has done so far: the
      remaining entries, the day-trade counts, and per ticket handed to
      `close_robinhood_position` the order it sent, if any. */
  datatype CloseProgress = CloseProgress(
    mapping: map<Ticket, OpenRecord>, counts: DayTradeCounts, closes: map<Ticket, Option<OptionOrder>>)

  /** One vanished ticket: nothing happens unless it has an entry; if it
      has, the close is attempted, the day trade is recorded and the entry
      is dropped, whatever became of the close. */
  function CloseOne(p: CloseProgress, ct: Ticket, w: CloseWorld): (q: CloseProgress)
    ensures ct !in p.mapping ==> q == p
    ensures ct in p.mapping ==>
              && q.mapping == p.mapping - {ct}
              && q.counts == RecordDayTrade(p.counts, p.mapping[ct].openedAt, w.recordNow)
              && ct in q.closes
              && q.closes[ct] == ClosePosition(p.mapping[ct].info, w, PdtVerdictFor(w.cash, p.counts, w.pdtNow))
  {
    if ct !in p.mapping then p
    else
      var record := p.mapping[ct];
      var order := ClosePosition(record.info, w, PdtVerdictFor(w.cash, p.counts, w.pdtNow));
      CloseProgress(p.mapping - {ct}, RecordDayTrade(p.counts, record.openedAt, w.recordNow), p.closes[ct := order])
  }

  /** The vanished tickets handled in the order given. */
  function CloseAll(p: CloseProgress, order: seq<Ticket>, closeWorld: Ticket -> CloseWorld): CloseProgress
    decreases |order|
  {
    if order == [] then p
    else
      var last := order[|order| - 1];
      CloseOne(CloseAll(p, order[..|order| - 1], closeWorld), last, closeWorld(last))
  }

  /** Every visited ticket loses its entry, exactly the visited tickets
      that had one get a close attempt, and when none of them had one the
      counts are untouched. */
  lemma CloseAllEffect(p: CloseProgress, order: seq<Ticket>, closeWorld: Ticket -> CloseWorld)
    ensures CloseAll(p, order, closeWorld).mapping == p.mapping - set t | t in order
    ensures CloseAll(p, order, closeWorld).closes.Keys == p.closes.Keys + ((set t | t in order) * p.mapping.Keys)
    ensures (set t | t in order) !! p.mapping.Keys ==> CloseAll(p, order, closeWorld).counts == p.counts
    ensures DistinctKeys(p.counts) ==> DistinctKeys(CloseAll(p, order, closeWorld).counts)
  {
    CloseAllEntries(p, order, closeWorld);
    CloseAllCounts(p, order, closeWorld);
  }

  /** The tickets of a visiting order. */
  function Visited(order: seq<Ticket>): (visited: set<Ticket>)
    ensures forall t :: t in visited <==> t in order
  {
    set t | t in order
  }

  lemma VisitedStep(order: seq<Ticket>)
    requires order != []
    ensures Visited(order) == Visited(order[..|order| - 1]) + {order[|order| - 1]}
  {
    assert order == order[..|order| - 1] + [order[|order| - 1]];
  }

  lemma CloseAllEntries(p: CloseProgress, order: seq<Ticket>, closeWorld: Ticket -> CloseWorld)
    ensures CloseAll(p, order, closeWorld).mapping == p.mapping - Visited(order)
    ensures CloseAll(p, order, closeWorld).closes.Keys == p.closes.Keys + (Visited(order) * p.mapping.Keys)
  {
    CloseAllMapping(p, order, closeWorld);
    CloseAllCloses(p, order, closeWorld);
  }

  lemma {:induction false} CloseAllMapping(p: CloseProgress, order: seq<Ticket>, closeWorld: Ticket -> CloseWorld)
    ensures CloseAll(p, order, closeWorld).mapping == p.mapping - Visited(order)
    decreases |order|
  {
    if order != [] {
      VisitedStep(order);
      CloseAllMapping(p, order[..|order| - 1], closeWorld);
    }
  }

  lemma {:induction false} CloseAllCloses(p: CloseProgress, order: seq<Ticket>, closeWorld: Ticket -> CloseWorld)
    ensures CloseAll(p, order, closeWorld).closes.Keys == p.closes.Keys + (Visited(order) * p.mapping.Keys)
    decreases |order|
  {
    if order != [] {
      var init, last := order[..|order| - 1], order[|order| - 1];
      VisitedStep(order);
      CloseAllMapping(p, init, closeWorld);
      CloseAllCloses(p, init, closeWorld);
      CloseOneKeys(CloseAll(p, init, closeWorld), last, closeWorld(last));
    }
  }

  lemma CloseOneKeys(p: CloseProgress, ct: Ticket, w: CloseWorld)
    ensures CloseOne(p, ct, w).closes.Keys == p.closes.Keys + (if ct in p.mapping then {ct} else {})
  {
  }

  lemma {:induction false} CloseAllCounts(p: CloseProgress, order: seq<Ticket>, closeWorld: Ticket -> CloseWorld)
    ensures Visited(order) !! p.mapping.Keys ==> CloseAll(p, order, closeWorld).counts == p.counts
    ensures DistinctKeys(p.counts) ==> DistinctKeys(CloseAll(p, order, closeWorld).counts)
    decreases |order|
  {
    if order != [] {
      var init, last := order[..|order| - 1], order[|order| - 1];
      VisitedStep(order);
      CloseAllEntries(p, init, closeWorld);
      CloseAllCounts(p, init, closeWorld);
    }
  }

  // ----- the state between polls --------------------------------------------

  /** `ticket_to_rh`, `old_tickets` and the global `day_trades_count`. */
  datatype RhState = RhState(mapping: map<Ticket, OpenRecord>, oldTickets: set<Ticket>, counts: DayTradeCounts)

  /** The invariant the loop keeps: only tickets of the previous poll have
      entries, and the counts dict has no repeated key. */
  predicate ValidState(s: RhState) {
    s.mapping.Keys <= s.oldTickets && DistinctKeys(s.counts)
  }

  /** One poll's view of the outside world: the terminal's reply, the
      world each new ticket's copy sees, the order Python visits the
      vanished tickets in, and the world each close sees. */
  datatype RhPollInput = RhPollInput(
    reply: PositionsReply, openWorld: Ticket -> OpenWorld, closeOrder: seq<Ticket>, closeWorld: Ticket -> CloseWorld)

  predicate WellOrdered(s: RhState, input: RhPollInput) {
    !input.reply.Raised? ==>
      IsOrderOf(input.closeOrder, ClosedTickets(s.oldTickets, TicketsOf(PositionsOf(input.reply))))
  }

  /** Where the closed-positions half starts from: the mapping after the
      new positions were copied. */
  function ClosePhaseStart(s: RhState, ps: seq<Position>, openWorld: Ticket -> OpenWorld): CloseProgress {
    var copied := CopiedAmong(NewTickets(s.oldTickets, TicketsOf(ps)), AttemptsOf(ps, openWorld, s.counts), openWorld);
    CloseProgress(s.mapping + copied, s.counts, map[])
  }

  /** The state after one pass of the loop (`Copier.Poll`). */
  function AfterPoll(s: RhState, input: RhPollInput): (s': RhState)
    ensures input.reply.Raised? ==> s' == s
    ensures !input.reply.Raised? ==> s'.oldTickets == TicketsOf(PositionsOf(input.reply))
  {
    if input.reply.Raised? then s
    else
      var ps := PositionsOf(input.reply);
      var done := CloseAll(ClosePhaseStart(s, ps, input.openWorld), input.closeOrder, input.closeWorld);
      RhState(done.mapping, TicketsOf(ps), done.counts)
  }

  function AfterPolls(s: RhState, inputs: seq<RhPollInput>): RhState
    decreases |inputs|
  {
    if inputs == [] then s else AfterPolls(AfterPoll(s, inputs[0]), inputs[1..])
  }

  /** A poll keeps the invariant: copied tickets are current, and every
      vanished ticket's entry is gone. */
  lemma PollKeepsValid(s: RhState, input: RhPollInput)
    requires ValidState(s) && WellOrdered(s, input)
    ensures ValidState(AfterPoll(s, input))
  {
    if !input.reply.Raised? {
      var ps := PositionsOf(input.reply);
      var start := ClosePhaseStart(s, ps, input.openWorld);
      CloseAllEffect(start, input.closeOrder, input.closeWorld);
      var s' := AfterPoll(s, input);
      forall t | t in s'.mapping
        ensures t in TicketsOf(ps)
      {
        assert t in start.mapping && t !in input.closeOrder;
      }
    }
  }

  /** A position open when the copier starts, and listed by every poll that
      gets an answer, is never new: it is never copied and never gains an
      entry. */
  lemma {:induction false} StartupPositionNeverCopied(s: RhState, inputs: seq<RhPollInput>, t: Ticket)
    requires t in s.oldTickets && t !in s.mapping
    requires forall i :: 0 <= i < |inputs| ==>
               inputs[i].reply.Raised? || t in TicketsOf(PositionsOf(inputs[i].reply))
    ensures t in AfterPolls(s, inputs).oldTickets && t !in AfterPolls(s, inputs).mapping
    decreases |inputs|
  {
    if inputs != [] {
      ListedPositionStaysUncopied(s, inputs[0], t);
      assert forall i :: 0 <= i < |inputs[1..]| ==> inputs[1..][i] == inputs[i + 1];
      StartupPositionNeverCopied(AfterPoll(s, inputs[0]), inputs[1..], t);
    }
  }

  /** One poll of `StartupPositionNeverCopied`: a ticket of the previous
      poll that is listed again is not new, so it gains no entry. */
  lemma ListedPositionStaysUncopied(s: RhState, input: RhPollInput, t: Ticket)
    requires t in s.oldTickets && t !in s.mapping
    requires input.reply.Raised? || t in TicketsOf(PositionsOf(input.reply))
    ensures t in AfterPoll(s, input).oldTickets && t !in AfterPoll(s, input).mapping
  {
    if !input.reply.Raised? {
      var ps := PositionsOf(input.reply);
      var start := ClosePhaseStart(s, ps, input.openWorld);
      assert t !in NewTickets(s.oldTickets, TicketsOf(ps));
      assert t !in start.mapping;
      CloseAllEffect(start, input.closeOrder, input.closeWorld);
    }
  }

  /** After `positions_get()` answers None, the next poll takes every
      listed position for a new one, including those copied before. */
  lemma EmptyReplyForgetsOpenPositions(s: RhState, input: RhPollInput, next: seq<Position>)
    requires input.reply.NoneReturned?
    ensures NewTickets(AfterPoll(s, input).oldTickets, TicketsOf(next)) == TicketsOf(next)
  {
  }

  class Copier {
    /** `ticket_to_rh`: MT5 ticket -> copied contract and opening time. */
    var ticketToRh: map<Ticket, OpenRecord>
    /** `old_tickets`: the tickets of the previous poll. */
    var oldTickets: set<Ticket>
    /** The global `day_trades_count`. */
    var dayTradesCount: DayTradeCounts

    function State(): RhState
      reads this
    {
      RhState(ticketToRh, oldTickets, dayTradesCount)
    }

    /** Start-up: the tickets already open are taken as the previous poll's
        (none when `positions_get()` fails, answers None or lists
        nothing); no entries and no day trades yet. */
    constructor (initial: PositionsReply)
      ensures oldTickets == TicketsOf(PositionsOf(initial))
      ensures ticketToRh == map[] && dayTradesCount == []
      ensures ValidState(State())
    {
      ticketToRh := map[];
      oldTickets := TicketsOf(PositionsOf(initial));
      dayTradesCount := [];
    }

    /** `record_day_trade_if_applicable`. */
    method RecordDayTradeIfApplicable(openedAt: DateTime, now: DateTime)
      modifies this`dayTradesCount
      ensures dayTradesCount == RecordDayTrade(old(dayTradesCount), openedAt, now)
    {
      var today := FormatIsoDate(now.date);
      var openDay := FormatIsoDate(openedAt.date);
      if today == openDay {
        assert SameDayText(now.date, openedAt.date);
        ghost var before := dayTradesCount;
        var i := IndexOfKey(dayTradesCount, today);
        if i == |dayTradesCount| {
          dayTradesCount := dayTradesCount + [(today, 0)];
        }
        dayTradesCount := dayTradesCount[i := (today, dayTradesCount[i].1 + 1)];
        assert i == |before| ==> dayTradesCount == before + [(today, 1)];
        assert dayTradesCount == Increment(before, today);
      } else {
        assert !SameDayText(now.date, openedAt.date);
      }
    }

    /** `copy_mt5_trade_to_robinhood`: with the market closed it gives up
        before the PDT check, which reads the current day-trade counts. */
    method CopyMt5TradeToRobinhood(position: Position, w: OpenWorld) returns (attempt: OpenAttempt)
      ensures attempt == CopyTrade(position, w, PdtVerdictFor(w.cash, dayTradesCount, w.pdtNow))
    {
      if !IsMarketOpenNow(w.clock) {
        return OpenAttempt(None, None);
      }
      var verdict := AccountEquityAndPdtCheck(w.cash, dayTradesCount, w.pdtNow);
      attempt := CopyTrade(position, w, verdict);
    }

    /** `close_robinhood_position`, gated the same way. */
    method CloseRobinhoodPosition(info: RhInfo, w: CloseWorld) returns (order: Option<OptionOrder>)
      ensures order == ClosePosition(info, w, PdtVerdictFor(w.cash, dayTradesCount, w.pdtNow))
    {
      if !IsMarketOpenNow(w.clock) {
        return None;
      }
      var verdict := AccountEquityAndPdtCheck(w.cash, dayTradesCount, w.pdtNow);
      order := ClosePosition(info, w, verdict);
    }

    /** One pass of the monitoring loop. Returns the open order sent per new
        ticket and, per vanished ticket with an entry, the close order sent
        (None when the close was skipped). */
    method Poll(reply: PositionsReply, openWorld: Ticket -> OpenWorld, closeOrder: seq<Ticket>,
                closeWorld: Ticket -> CloseWorld)
      returns (openOrders: map<Ticket, OptionOrder>, closes: map<Ticket, Option<OptionOrder>>)
      requires ValidState(State())
      requires WellOrdered(State(), RhPollInput(reply, openWorld, closeOrder, closeWorld))
      modifies this
      ensures ValidState(State())
      ensures State() == AfterPoll(old(State()), RhPollInput(reply, openWorld, closeOrder, closeWorld))
      ensures reply.Raised? ==> openOrders == map[] && closes == map[]
      ensures !reply.Raised? ==>
                var ps := PositionsOf(reply);
                && openOrders == OpenOrdersAmong(NewTickets(old(oldTickets), TicketsOf(ps)), AttemptsOf(ps, openWorld, old(dayTradesCount)))
                && closes == CloseAll(ClosePhaseStart(old(State()), ps, openWorld), closeOrder, closeWorld).closes
    {
      ghost var s := State();
      PollKeepsValid(s, RhPollInput(reply, openWorld, closeOrder, closeWorld));
      if reply.Raised? {
        return map[], map[];
      }
      var ps := PositionsOf(reply);
      var current := TicketsOf(ps);
      var previous := oldTickets;
      openOrders := CopyNewPositions(ps, NewTickets(previous, current), openWorld);
      closes := CloseVanishedPositions(closeOrder, closeWorld);
      oldTickets := current;
    }

    /** The "new positions" half of a pass. */
    method CopyNewPositions(ps: seq<Position>, newTickets: set<Ticket>, openWorld: Ticket -> OpenWorld)
      returns (openOrders: map<Ticket, OptionOrder>)
      requires newTickets <= TicketsOf(ps)
      modifies this`ticketToRh
      ensures openOrders == OpenOrdersAmong(newTickets, AttemptsOf(ps, openWorld, dayTradesCount))
      ensures ticketToRh == old(ticketToRh) + CopiedAmong(newTickets, AttemptsOf(ps, openWorld, dayTradesCount), openWorld)
    {
      ghost var m0 := ticketToRh;
      ghost var attempts := AttemptsOf(ps, openWorld, dayTradesCount);
      openOrders := map[];
      var pending := newTickets;
      assert newTickets - pending == {};
      assert m0 + map[] == m0;
      while pending != {}
        invariant pending <= newTickets
        invariant openOrders == OpenOrdersAmong(newTickets - pending, attempts)
        invariant ticketToRh == m0 + CopiedAmong(newTickets - pending, attempts, openWorld)
        decreases pending
      {
        NonEmptyHasMember(pending);
        var t :| t in pending;
        OpenOrdersStep(newTickets - pending, t, attempts);
        CopiedStep(newTickets - pending, t, attempts, openWorld);
        assert newTickets - (pending - {t}) == (newTickets - pending) + {t};
        var order := CopyNewPosition(ps, t, openWorld);
        match order {
          case Some(o) => openOrders := openOrders[t := o];
          case None =>
        }
        pending := pending - {t};
      }
      assert newTickets - pending == newTickets;
    }

    /** One new ticket: copy its position and, when Robinhood took the
        order, remember the contract. */
    method CopyNewPosition(ps: seq<Position>, t: Ticket, openWorld: Ticket -> OpenWorld)
      returns (order: Option<OptionOrder>)
      requires t in TicketsOf(ps)
      modifies this`ticketToRh
      ensures order == OpenAttemptFor(ps, t, openWorld, dayTradesCount).order
      ensures var info := OpenAttemptFor(ps, t, openWorld, dayTradesCount).info;
              ticketToRh == if info.Some? then old(ticketToRh)[t := OpenRecord(info.value, openWorld(t).openedAt)]
                            else old(ticketToRh)
    {
      var attempt := CopyMt5TradeToRobinhood(FirstWithTicket(ps, t), openWorld(t));
      order := attempt.order;
      if attempt.info.Some? {
        ticketToRh := ticketToRh[t := OpenRecord(attempt.info.value, openWorld(t).openedAt)];
      }
    }

    /** The "closed positions" half of a pass, visiting the vanished
        tickets in the order given. */
    method CloseVanishedPositions(closeOrder: seq<Ticket>, closeWorld: Ticket -> CloseWorld)
      returns (closes: map<Ticket, Option<OptionOrder>>)
      modifies this`ticketToRh, this`dayTradesCount
      ensures var done := CloseAll(CloseProgress(old(ticketToRh), old(dayTradesCount), map[]), closeOrder, closeWorld);
              ticketToRh == done.mapping && dayTradesCount == done.counts && closes == done.closes
    {
      ghost var start := CloseProgress(ticketToRh, dayTradesCount, map[]);
      closes := map[];
      for i := 0 to |closeOrder|
        invariant var done := CloseAll(start, closeOrder[..i], closeWorld);
                  ticketToRh == done.mapping && dayTradesCount == done.counts && closes == done.closes
      {
        assert closeOrder[..i + 1][..i] == closeOrder[..i];
        closes := CloseVanishedPosition(closeOrder[i], closeWorld(closeOrder[i]), closes);
      }
      assert closeOrder[..|closeOrder|] == closeOrder;
    }

    /** One turn of the close loop: a mapped ticket gets its close attempt,
        its day trade is recorded and its entry is dropped. */
    method CloseVanishedPosition(ct: Ticket, w: CloseWorld, closes: map<Ticket, Option<OptionOrder>>)
      returns (closes': map<Ticket, Option<OptionOrder>>)
      modifies this`ticketToRh, this`dayTradesCount
      ensures var done := CloseOne(CloseProgress(old(ticketToRh), old(dayTradesCount), closes), ct, w);
              ticketToRh == done.mapping && dayTradesCount == done.counts && closes' == done.closes
    {
      closes' := closes;
      if ct in ticketToRh {
        var record := ticketToRh[ct];
        var order := CloseRobinhoodPosition(record.info, w);
        closes' := closes[ct := order];
        RecordDayTradeIfApplicable(record.openedAt, w.recordNow);
        ticketToRh := ticketToRh - {ct};
      }
    }
  }
}
