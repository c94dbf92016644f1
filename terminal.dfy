/** What both copiers see of the MetaTrader 5 terminal: one call to
    `positions_get()` per poll, and the open positions it lists. */
module Terminal {

  /** A position ticket, unique per open position for its lifetime. */
  type Ticket = int

  /** `mt5.ORDER_TYPE_BUY`; every other order type is treated as a sell. */
  const ORDER_TYPE_BUY := 0

  datatype Position = Position(ticket: Ticket, orderType: int, magic: int, symbol: string, volume: real)

  /** The outcome of `positions_get()`: it raised, it returned `None`, or it
      returned a (possibly empty) tuple of positions. */
  datatype PositionsReply = Raised | NoneReturned | Positions(list: seq<Position>)

  /** The positions a reply lists; `None` and a raised call list none. */
  function PositionsOf(reply: PositionsReply): (ps: seq<Position>)
    ensures !reply.Positions? ==> ps == []
  {
    if reply.Positions? then reply.list else []
  }

  /** `{p.ticket for p in positions}`. */
  function TicketsOf(ps: seq<Position>): (tickets: set<Ticket>)
    ensures forall t :: t in tickets <==> exists i :: 0 <= i < |ps| && ps[i].ticket == t
  {
    set i | 0 <= i < |ps| :: ps[i].ticket
  }

  /** The index of the first listed position with ticket t. */
  function FirstIndexOf(ps: seq<Position>, t: Ticket): (i: nat)
    requires t in TicketsOf(ps)
    ensures i < |ps| && ps[i].ticket == t
    ensures forall j :: 0 <= j < i ==> ps[j].ticket != t
  {
    if ps[0].ticket == t then 0
    else
      assert t in TicketsOf(ps[1..]) by {
        var i :| 0 <= i < |ps| && ps[i].ticket == t;
        assert ps[1..][i - 1].ticket == t;
      }
      FirstIndexOf(ps[1..], t) + 1
  }

  /** `next(p for p in positions if p.ticket == t)`: the first listed
      position with that ticket. */
  function FirstWithTicket(ps: seq<Position>, t: Ticket): (p: Position)
    requires t in TicketsOf(ps)
    ensures p.ticket == t && p in ps
  {
    ps[FirstIndexOf(ps, t)]
  }

  /** Tickets listed now that were not listed at the previous poll. */
  function NewTickets(previous: set<Ticket>, current: set<Ticket>): (r: set<Ticket>)
    ensures forall t :: t in r <==> t in current && t !in previous
  {
    current - previous
  }

  /** Tickets listed at the previous poll that are no longer listed. */
  function ClosedTickets(previous: set<Ticket>, current: set<Ticket>): (r: set<Ticket>)
    ensures forall t :: t in r <==> t in previous && t !in current
  {
    previous - current
  }

  /** No ticket is both new and closed in one poll, and a ticket listed in
      both polls is neither. */
  lemma NewAndClosedDisjoint(previous: set<Ticket>, current: set<Ticket>)
    ensures NewTickets(previous, current) !! ClosedTickets(previous, current)
    ensures NewTickets(previous, current) + ClosedTickets(previous, current) + (previous * current) == previous + current
  {
  }

  /** A ticket set that is not empty has a ticket to pick next. */
  lemma NonEmptyHasMember(s: set<Ticket>)
    requires s != {}
    ensures exists t :: t in s
  {
    if forall t :: t !in s {
      assert false;
    }
  }
}
