/** The MT5 -> TradeLocker copier (`copy_trades`): every poll it compares the
    tickets MT5 lists with those of the previous poll, places one TradeLocker
    order for each new position whose magic number is 15, closes the
    TradeLocker order of each vanished position it has a mapping for, and
    keeps the ticket -> order id mapping in step. */
module TradeLockerCopier {

  import opened Options
  import opened Terminal

  /** Only positions opened with this magic number are copied. */
  const MAGIC_NUMBER := 15

  datatype OrderSide = Buy | Sell

  /** The order details handed to `place_tradelocker_order`; the volume is
      passed through as the quantity, unscaled. (The timestamp the source
      adds is never read by the placing call and is not modelled.) */
  datatype OrderRequest = OrderRequest(symbol: string, quantity: real, side: OrderSide, orderType: string)

  /** `'buy' if position.type == mt5.ORDER_TYPE_BUY else 'sell'`. */
  function SideOf(orderType: int): (side: OrderSide)
    ensures side == Buy <==> orderType == ORDER_TYPE_BUY
  {
    if orderType == ORDER_TYPE_BUY then Buy else Sell
  }

  /** The market order that copies a position. */
  function RequestFor(p: Position): (r: OrderRequest)
    ensures r.symbol == p.symbol && r.quantity == p.volume && r.orderType == "market"
    ensures r.side == Buy <==> p.orderType == ORDER_TYPE_BUY
  {
    OrderRequest(p.symbol, p.volume, SideOf(p.orderType), "market")
  }

  /** `if order_id:` -- placement failed when the call gave `None`, and
      also when it gave the falsy id 0. */
  predicate Placed(reply: Option<int>) {
    reply.Some? && reply.value != 0
  }

  /** The placement calls made for the tickets in `tickets` (all listed in
      `ps`): one per ticket whose first listed position has magic 15. */
  function PlaceCallsAmong(tickets: set<Ticket>, ps: seq<Position>): (calls: map<Ticket, OrderRequest>)
    requires tickets <= TicketsOf(ps)
    ensures forall t :: t in calls <==> t in tickets && FirstWithTicket(ps, t).magic == MAGIC_NUMBER
    ensures forall t :: t in calls ==> calls[t] == RequestFor(FirstWithTicket(ps, t))
  {
    map t | t in tickets && FirstWithTicket(ps, t).magic == MAGIC_NUMBER :: RequestFor(FirstWithTicket(ps, t))
  }

  /** The entries gained from those calls that the broker answered with an id. */
  function InsertionsAmong(tickets: set<Ticket>, ps: seq<Position>, placeReply: Ticket -> Option<int>): (ins: map<Ticket, int>)
    requires tickets <= TicketsOf(ps)
    ensures forall t :: t in ins <==> t in PlaceCallsAmong(tickets, ps) && Placed(placeReply(t))
    ensures forall t :: t in ins ==> Placed(placeReply(t)) && ins[t] == placeReply(t).value
  {
    Accepted(PlaceCallsAmong(tickets, ps), placeReply)
  }

  /** The calls among `calls` that the broker answered with an id. */
  function Accepted(calls: map<Ticket, OrderRequest>, placeReply: Ticket -> Option<int>): map<Ticket, int> {
    map t | t in calls && Placed(placeReply(t)) :: placeReply(t).value
  }

  /** The close calls made for the tickets in `tickets`: one per ticket that
      has a mapping, with the mapped order id. */
  function CloseCallsAmong(m: map<Ticket, int>, tickets: set<Ticket>): (calls: map<Ticket, int>)
    ensures forall t :: t in calls <==> t in tickets && t in m
    ensures forall t :: t in calls ==> calls[t] == m[t]
  {
    map t | t in tickets && t in m :: m[t]
  }

  /** The tickets whose close the broker confirmed: their entries go. */
  function RemovalsAmong(m: map<Ticket, int>, tickets: set<Ticket>, closeReply: Ticket -> bool): (gone: set<Ticket>)
    ensures forall t :: t in gone <==> t in tickets && t in m && closeReply(t)
  {
    set t | t in tickets && t in m && closeReply(t)
  }

  /** The two maps agree on ticket t. */
  predicate SameEntry(m: map<Ticket, int>, m': map<Ticket, int>, t: Ticket) {
    (t in m <==> t in m') && (t in m ==> m[t] == m'[t])
  }

  /** Ticket t is new in this poll, has magic 15, and its placement gave an id. */
  predicate GainsEntry(previous: set<Ticket>, ps: seq<Position>, placeReply: Ticket -> Option<int>, t: Ticket) {
    t in NewTickets(previous, TicketsOf(ps)) && FirstWithTicket(ps, t).magic == MAGIC_NUMBER && Placed(placeReply(t))
  }

  /** Ticket t vanished in this poll, has a mapping, and its close succeeded. */
  predicate LosesEntry(m: map<Ticket, int>, previous: set<Ticket>, ps: seq<Position>, closeReply: Ticket -> bool, t: Ticket) {
    t in ClosedTickets(previous, TicketsOf(ps)) && t in m && closeReply(t)
  }

  /** The mapping after one poll that saw positions `ps`, from mapping `m`
      and the tickets of the previous poll: a new magic-15 ticket whose
      placement returned an id maps to that id, a vanished mapped ticket
      whose close succeeded loses its entry, and every other entry (a
      ticket seen in both polls, a failed placement, a failed close, a
      vanished ticket without mapping) stays exactly as it was. */
  function PollMapping(m: map<Ticket, int>, previous: set<Ticket>, ps: seq<Position>,
                       placeReply: Ticket -> Option<int>, closeReply: Ticket -> bool): (r: map<Ticket, int>)
    ensures forall t :: GainsEntry(previous, ps, placeReply, t) ==> t in r && r[t] == placeReply(t).value
    ensures forall t :: LosesEntry(m, previous, ps, closeReply, t) ==> t !in r
    ensures forall t ::
              !GainsEntry(previous, ps, placeReply, t) && !LosesEntry(m, previous, ps, closeReply, t) ==> SameEntry(m, r, t)
  {
    var current := TicketsOf(ps);
    (m + InsertionsAmong(NewTickets(previous, current), ps, placeReply))
      - RemovalsAmong(m, ClosedTickets(previous, current), closeReply)
  }

  lemma PlaceCallsStep(done: set<Ticket>, t: Ticket, ps: seq<Position>)
    requires done + {t} <= TicketsOf(ps) && t !in done
    ensures PlaceCallsAmong(done + {t}, ps) ==
              if FirstWithTicket(ps, t).magic == MAGIC_NUMBER
              then PlaceCallsAmong(done, ps)[t := RequestFor(FirstWithTicket(ps, t))]
              else PlaceCallsAmong(done, ps)
  {
  }

  lemma InsertionsStep(done: set<Ticket>, t: Ticket, ps: seq<Position>, placeReply: Ticket -> Option<int>)
    requires done + {t} <= TicketsOf(ps) && t !in done
    ensures InsertionsAmong(done + {t}, ps, placeReply) ==
              if FirstWithTicket(ps, t).magic == MAGIC_NUMBER && Placed(placeReply(t))
              then InsertionsAmong(done, ps, placeReply)[t := placeReply(t).value]
              else InsertionsAmong(done, ps, placeReply)
  {
    var calls := PlaceCallsAmong(done, ps);
    PlaceCallsStep(done, t, ps);
    if FirstWithTicket(ps, t).magic == MAGIC_NUMBER {
      AcceptedStep(calls, t, RequestFor(FirstWithTicket(ps, t)), placeReply);
    }
  }

  lemma AcceptedStep(calls: map<Ticket, OrderRequest>, t: Ticket, r: OrderRequest, placeReply: Ticket -> Option<int>)
    requires t !in calls
    ensures Accepted(calls[t := r], placeReply) ==
              if Placed(placeReply(t)) then Accepted(calls, placeReply)[t := placeReply(t).value] else Accepted(calls, placeReply)
  {
  }

  lemma NothingPlacedYet(ps: seq<Position>, placeReply: Ticket -> Option<int>)
    ensures PlaceCallsAmong({}, ps) == map[] && InsertionsAmong({}, ps, placeReply) == map[]
  {
  }

  lemma NothingClosedYet(m: map<Ticket, int>, closeReply: Ticket -> bool)
    ensures CloseCallsAmong(m, {}) == map[] && RemovalsAmong(m, {}, closeReply) == {}
  {
  }

  lemma SameOnVanished(m0: map<Ticket, int>, m1: map<Ticket, int>, closed: set<Ticket>, closeReply: Ticket -> bool)
    requires forall t :: t in closed ==> SameEntry(m0, m1, t)
    ensures CloseCallsAmong(m1, closed) == CloseCallsAmong(m0, closed)
    ensures RemovalsAmong(m1, closed, closeReply) == RemovalsAmong(m0, closed, closeReply)
  {
    var a, b := CloseCallsAmong(m1, closed), CloseCallsAmong(m0, closed);
    assert forall t :: t in a <==> t in b;
    assert a.Keys == b.Keys;
    assert forall t :: t in a ==> a[t] == b[t];
  }

  lemma MergeThenUpdate(a: map<Ticket, int>, b: map<Ticket, int>, t: Ticket, v: int)
    ensures (a + b)[t := v] == a + b[t := v]
  {
  }

  lemma CloseStep(m: map<Ticket, int>, done: set<Ticket>, t: Ticket, closeReply: Ticket -> bool)
    requires t !in done
    ensures CloseCallsAmong(m, done + {t}) == if t in m then CloseCallsAmong(m, done)[t := m[t]] else CloseCallsAmong(m, done)
    ensures RemovalsAmong(m, done + {t}, closeReply) ==
              if t in m && closeReply(t) then RemovalsAmong(m, done, closeReply) + {t} else RemovalsAmong(m, done, closeReply)
  {
  }

  /** What the copier keeps between polls: the ticket -> order id mapping
      and the tickets seen by the previous poll. */
  datatype CopierState = CopierState(mapping: map<Ticket, int>, oldTickets: set<Ticket>)

  /** One poll's view of the outside world: the terminal's reply and the
      broker's answers per ticket. */
  datatype PollInput = PollInput(reply: PositionsReply, placeReply: Ticket -> Option<int>, closeReply: Ticket -> bool)

  /** The state after one pass of the loop (`Copier.Poll`). */
  function AfterPoll(s: CopierState, input: PollInput): (s': CopierState)
    ensures input.reply.Raised? ==> s' == s
    ensures !input.reply.Raised? ==> s'.oldTickets == TicketsOf(PositionsOf(input.reply))
  {
    if input.reply.Raised? then s
    else
      var ps := PositionsOf(input.reply);
      CopierState(PollMapping(s.mapping, s.oldTickets, ps, input.placeReply, input.closeReply), TicketsOf(ps))
  }

  /** The state after a run of polls, first to last. */
  function AfterPolls(s: CopierState, inputs: seq<PollInput>): CopierState
    decreases |inputs|
  {
    if inputs == [] then s else AfterPolls(AfterPoll(s, inputs[0]), inputs[1..])
  }

  /** The ticket is not among the positions this poll sees (or the poll
      raised and saw nothing). */
  predicate Unlisted(input: PollInput, t: Ticket) {
    t !in TicketsOf(PositionsOf(input.reply))
  }

  /** A vanished ticket whose close failed keeps its entry, and the poll
      records it as no longer open. */
  lemma FailedCloseLeavesStaleEntry(s: CopierState, input: PollInput, t: Ticket)
    requires !input.reply.Raised? && t in s.oldTickets && Unlisted(input, t)
    requires t in s.mapping && !input.closeReply(t)
    ensures t in AfterPoll(s, input).mapping && AfterPoll(s, input).mapping[t] == s.mapping[t]
    ensures t !in AfterPoll(s, input).oldTickets
  {
    var ps := PositionsOf(input.reply);
    assert !GainsEntry(s.oldTickets, ps, input.placeReply, t);
    assert !LosesEntry(s.mapping, s.oldTickets, ps, input.closeReply, t);
  }

  /** While a ticket with a stale entry stays unlisted, a poll neither closes
      it again nor touches its entry. */
  lemma StaleEntryUntouched(s: CopierState, input: PollInput, t: Ticket)
    requires t in s.mapping && t !in s.oldTickets && Unlisted(input, t)
    ensures !input.reply.Raised? ==> t !in CloseCallsAmong(s.mapping, ClosedTickets(s.oldTickets, TicketsOf(PositionsOf(input.reply))))
    ensures t in AfterPoll(s, input).mapping && AfterPoll(s, input).mapping[t] == s.mapping[t]
    ensures t !in AfterPoll(s, input).oldTickets
  {
    if !input.reply.Raised? {
      var ps := PositionsOf(input.reply);
      assert !GainsEntry(s.oldTickets, ps, input.placeReply, t);
      assert !LosesEntry(s.mapping, s.oldTickets, ps, input.closeReply, t);
    }
  }

  /** `old_tickets = current_tickets` after every pass: a ticket whose close
      failed is never retried, and its entry survives every later poll that
      does not list the ticket again. */
  lemma {:induction false} StaleEntryPersists(s: CopierState, inputs: seq<PollInput>, t: Ticket)
    requires t in s.mapping && t !in s.oldTickets
    requires forall i :: 0 <= i < |inputs| ==> Unlisted(inputs[i], t)
    ensures t in AfterPolls(s, inputs).mapping && AfterPolls(s, inputs).mapping[t] == s.mapping[t]
    ensures t !in AfterPolls(s, inputs).oldTickets
    decreases |inputs|
  {
    if inputs != [] {
      StaleEntryUntouched(s, inputs[0], t);
      assert forall i :: 0 <= i < |inputs[1..]| ==> inputs[1..][i] == inputs[i + 1];
      StaleEntryPersists(AfterPoll(s, inputs[0]), inputs[1..], t);
    }
  }

  /** When `positions_get()` returns None the pass sees no positions: every
      mapped ticket of the previous poll gets a close call, each successful
      close drops its entry, and no entry is added. */
  lemma NoneReplyClosesEverything(s: CopierState, placeReply: Ticket -> Option<int>, closeReply: Ticket -> bool)
    ensures CloseCallsAmong(s.mapping, ClosedTickets(s.oldTickets, TicketsOf(PositionsOf(NoneReturned))))
              == map t | t in s.oldTickets && t in s.mapping :: s.mapping[t]
    ensures var s' := AfterPoll(s, PollInput(NoneReturned, placeReply, closeReply));
            && s'.oldTickets == {}
            && s'.mapping.Keys == s.mapping.Keys - set t | t in s.oldTickets && t in s.mapping && closeReply(t)
  {
    var ps := PositionsOf(NoneReturned);
    assert TicketsOf(ps) == {};
    var s' := AfterPoll(s, PollInput(NoneReturned, placeReply, closeReply));
    forall t | true
      ensures t in s'.mapping <==> t in s.mapping && !(t in s.oldTickets && closeReply(t))
    {
      assert !GainsEntry(s.oldTickets, ps, placeReply, t);
    }
  }

  class Copier {
    /** `ticket_to_tradelocker`: MT5 ticket -> TradeLocker order id. */
    var ticketToTradeLocker: map<Ticket, int>
    /** `old_tickets`: the tickets of the previous poll. */
    var oldTickets: set<Ticket>

    function State(): CopierState
      reads this
    {
      CopierState(ticketToTradeLocker, oldTickets)
    }

    /** `copy_trades` starts from the loaded mapping and takes its keys as
        the tickets of the previous poll. */
    constructor (loaded: map<Ticket, int>)
      ensures ticketToTradeLocker == loaded
      ensures oldTickets == loaded.Keys
    {
      ticketToTradeLocker := loaded;
      oldTickets := loaded.Keys;
    }

    /** One pass of the `while True` loop. `placeReply(t)` and
        `closeReply(t)` are the broker's answers to the one placement and
        the one close this poll makes for ticket t. Returns the calls made:
        the order placed per ticket and the order id closed per ticket. */
    method Poll(reply: PositionsReply, placeReply: Ticket -> Option<int>, closeReply: Ticket -> bool)
      returns (placeCalls: map<Ticket, OrderRequest>, closeCalls: map<Ticket, int>)
      modifies this
      ensures reply.Raised? ==>
                ticketToTradeLocker == old(ticketToTradeLocker) && oldTickets == old(oldTickets)
                && placeCalls == map[] && closeCalls == map[]
      ensures !reply.Raised? ==>
                var ps := PositionsOf(reply);
                && oldTickets == TicketsOf(ps)
                && placeCalls == PlaceCallsAmong(NewTickets(old(oldTickets), TicketsOf(ps)), ps)
                && closeCalls == CloseCallsAmong(old(ticketToTradeLocker), ClosedTickets(old(oldTickets), TicketsOf(ps)))
                && ticketToTradeLocker == PollMapping(old(ticketToTradeLocker), old(oldTickets), ps, placeReply, closeReply)
      ensures State() == AfterPoll(old(State()), PollInput(reply, placeReply, closeReply))
    {
      if reply.Raised? {
        // the exception handler skips the rest of the pass
        return map[], map[];
      }
      var ps := PositionsOf(reply);
      var current := TicketsOf(ps);
      var previous := oldTickets;
      ghost var m0 := ticketToTradeLocker;
      placeCalls := CopyNewPositions(ps, NewTickets(previous, current), placeReply);
      ghost var m1 := ticketToTradeLocker;
      SameOnVanished(m0, m1, ClosedTickets(previous, current), closeReply);
      closeCalls := CloseVanishedPositions(ClosedTickets(previous, current), closeReply);
      oldTickets := current;
    }

    /** The "new positions" half of a pass: one placement per new magic-15
        ticket, and an entry for each that the broker answered with an id. */
    method CopyNewPositions(ps: seq<Position>, newTickets: set<Ticket>, placeReply: Ticket -> Option<int>)
      returns (placeCalls: map<Ticket, OrderRequest>)
      requires newTickets <= TicketsOf(ps)
      modifies this`ticketToTradeLocker
      ensures placeCalls == PlaceCallsAmong(newTickets, ps)
      ensures ticketToTradeLocker == old(ticketToTradeLocker) + InsertionsAmong(newTickets, ps, placeReply)
    {
      ghost var m0 := ticketToTradeLocker;
      placeCalls := map[];
      var pending := newTickets;
      NothingPlacedYet(ps, placeReply);
      assert newTickets - pending == {};
      assert m0 + map[] == m0;
      while pending != {}
        invariant pending <= newTickets
        invariant placeCalls == PlaceCallsAmong(newTickets - pending, ps)
        invariant ticketToTradeLocker == m0 + InsertionsAmong(newTickets - pending, ps, placeReply)
        decreases pending
      {
        NonEmptyHasMember(pending);
        var t :| t in pending;
        PlaceCallsStep(newTickets - pending, t, ps);
        InsertionsStep(newTickets - pending, t, ps, placeReply);
        assert newTickets - (pending - {t}) == (newTickets - pending) + {t};
        var position := FirstWithTicket(ps, t);
        if position.magic == MAGIC_NUMBER {
          var request := RequestFor(position);
          placeCalls := placeCalls[t := request];
          var orderId := placeReply(t);
          if Placed(orderId) {
            MergeThenUpdate(m0, InsertionsAmong(newTickets - pending, ps, placeReply), t, orderId.value);
            ticketToTradeLocker := ticketToTradeLocker[t := orderId.value];
          }
        }
        pending := pending - {t};
      }
      assert newTickets - pending == newTickets;
    }

    /** The "closed positions" half of a pass: one close per vanished ticket
        that has an entry, and the entry goes only when the close succeeded. */
    method CloseVanishedPositions(closedTickets: set<Ticket>, closeReply: Ticket -> bool)
      returns (closeCalls: map<Ticket, int>)
      modifies this`ticketToTradeLocker
      ensures closeCalls == CloseCallsAmong(old(ticketToTradeLocker), closedTickets)
      ensures ticketToTradeLocker == old(ticketToTradeLocker) - RemovalsAmong(old(ticketToTradeLocker), closedTickets, closeReply)
    {
      ghost var m1 := ticketToTradeLocker;
      NothingClosedYet(m1, closeReply);
      closeCalls := map[];
      var pending := closedTickets;
      assert closedTickets - pending == {};
      assert m1 - {} == m1;
      while pending != {}
        invariant pending <= closedTickets
        invariant closeCalls == CloseCallsAmong(m1, closedTickets - pending)
        invariant ticketToTradeLocker == m1 - RemovalsAmong(m1, closedTickets - pending, closeReply)
        decreases pending
      {
        NonEmptyHasMember(pending);
        var t :| t in pending;
        ghost var done := closedTickets - pending;
        CloseStep(m1, done, t, closeReply);
        assert closedTickets - (pending - {t}) == done + {t};
        if t in ticketToTradeLocker {
          var orderId := ticketToTradeLocker[t];
          closeCalls := closeCalls[t := orderId];
          var success := closeReply(t);
          if success {
            ticketToTradeLocker := ticketToTradeLocker - {t};
          }
        }
        pending := pending - {t};
      }
      assert closedTickets - pending == closedTickets;
    }
  }
}
