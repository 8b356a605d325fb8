/** The reserve / book / cancel protocol of booking-service and hotel-service as a
    machine over atomic steps. Hotel-service calls are atomic, because the room row is
    locked; the sequence of calls that makes up one request is not. A crashed request
    takes no further step of its own, but a call it already sent may still arrive. */
module BookingMachine {

  datatype Status = Pending | Confirmed | Cancelled

  datatype Booking = Booking(room: nat, user: nat, status: Status)

  /** Where a request stands between two awaits. */
  datatype Pc =
    | Creating(room: nat, user: nat)
    | Reserved(room: nat, user: nat)
    | Created(booking: nat)
    | Read(booking: nat, room: nat)
    | Released(booking: nat, room: nat)
    | CancelDone(booking: nat)
    | Refused(httpStatus: nat)

  datatype Request = Request(pc: Pc, alive: bool)

  /** One committed change to a room. A release is effective when the room was taken. */
  datatype Entry =
    | ReservedFor(room: nat, request: nat)
    | ReservedDirectly(room: nat)
    | ReleasedFor(room: nat, request: nat, booking: nat, effective: bool)
    | ReleasedDirectly(room: nat, effective: bool)

  /** `initial` and `log` are history: no step depends on them. */
  datatype State = State(
    initial: map<nat, bool>,
    rooms: map<nat, bool>,
    bookings: map<nat, Booking>,
    requests: map<nat, Request>,
    log: seq<Entry>)
  {
    function Move(q: nat, pc: Pc): State
      requires q in requests
    {
      this.(requests := requests[q := requests[q].(pc := pc)])
    }
  }

  const EMPTY := State(map[], map[], map[], map[], [])

  datatype Event =
    | AddRoom(room: nat, available: bool)
    | StartCreate(request: nat, room: nat, user: nat)
    | Reserve(request: nat)
    | Insert(request: nat, booking: nat)
    | StartCancel(request: nat, booking: nat)
    | Release(request: nat)
    | Commit(request: nat)
    | Crash(request: nat)
    | DirectReserve(room: nat)
    | DirectRelease(room: nat)

  function ApplyReserve(s: State, q: nat): State {
    if q in s.requests && s.requests[q].pc.Creating? then
      var pc := s.requests[q].pc;
      if pc.room in s.rooms && s.rooms[pc.room] then
        s.Move(q, Reserved(pc.room, pc.user))
          .(rooms := s.rooms[pc.room := false], log := s.log + [ReservedFor(pc.room, q)])
      else
        s.Move(q, Refused(409))
    else s
  }

  function ApplyInsert(s: State, q: nat, b: nat): State {
    if q in s.requests && s.requests[q].alive && s.requests[q].pc.Reserved? && b !in s.bookings then
      var pc := s.requests[q].pc;
      s.Move(q, Created(b))
        .(bookings := s.bookings[b := Booking(pc.room, pc.user, Pending)])
    else s
  }

  function ApplyStartCancel(s: State, q: nat, b: nat): State {
    if q in s.requests then s
    else
      var pc :=
        if b !in s.bookings then Refused(404)
        else if s.bookings[b].status == Cancelled then Refused(409)
        else Read(b, s.bookings[b].room);
      s.(requests := s.requests[q := Request(pc, true)])
  }

  function ApplyRelease(s: State, q: nat): State {
    if q in s.requests && s.requests[q].pc.Read? then
      var pc := s.requests[q].pc;
      if pc.room in s.rooms then
        s.Move(q, Released(pc.booking, pc.room))
          .(rooms := s.rooms[pc.room := true],
            log := s.log + [ReleasedFor(pc.room, q, pc.booking, !s.rooms[pc.room])])
      else
        s.Move(q, Refused(502))
    else s
  }

  function ApplyCommit(s: State, q: nat): State {
    if q in s.requests && s.requests[q].alive && s.requests[q].pc.Released?
       && s.requests[q].pc.booking in s.bookings
    then
      var b := s.requests[q].pc.booking;
      s.Move(q, CancelDone(b)).(bookings := s.bookings[b := s.bookings[b].(status := Cancelled)])
    else s
  }

  /** The machine's step. An event that is not enabled changes nothing. */
  function Apply(s: State, e: Event): State {
    match e
    case AddRoom(r, available) =>
      if r in s.rooms then s
      else s.(rooms := s.rooms[r := available], initial := s.initial[r := available])
    case StartCreate(q, r, u) =>
      if q in s.requests then s
      else s.(requests := s.requests[q := Request(Creating(r, u), true)])
    case Reserve(q) => ApplyReserve(s, q)
    case Insert(q, b) => ApplyInsert(s, q, b)
    case StartCancel(q, b) => ApplyStartCancel(s, q, b)
    case Release(q) => ApplyRelease(s, q)
    case Commit(q) => ApplyCommit(s, q)
    case Crash(q) =>
      if q in s.requests then s.(requests := s.requests[q := s.requests[q].(alive := false)]) else s
    case DirectReserve(r) =>
      if r in s.rooms && s.rooms[r] then
        s.(rooms := s.rooms[r := false], log := s.log + [ReservedDirectly(r)])
      else s
    case DirectRelease(r) =>
      if r in s.rooms then
        s.(rooms := s.rooms[r := true], log := s.log + [ReleasedDirectly(r, !s.rooms[r])])
      else s
  }

  /** The state after a run: every sequence of events is a run. */
  function Exec(es: seq<Event>): State {
    if es == [] then EMPTY else Apply(Exec(es[..|es| - 1]), es[|es| - 1])
  }

  lemma ExecSnoc(es: seq<Event>, e: Event)
    ensures Exec(es + [e]) == Apply(Exec(es), e)
  {
    assert (es + [e])[..|es|] == es;
  }

  /** A continuation ends with its last event. */
  lemma ExecMore(es: seq<Event>, more: seq<Event>)
    requires more != []
    ensures Exec(es + more) == Apply(Exec(es + more[..|more| - 1]), more[|more| - 1])
  {
    assert (es + more)[..|es + more| - 1] == es + more[..|more| - 1];
  }

  // ---------- what the log and the tables say about one room ----------

  datatype Kind =
    | Requested(room: nat)
    | TakenDirectly(room: nat)
    | EffectiveRelease(room: nat)
    | GivenDirectly(room: nat)
    | ReleaseOf(booking: nat)

  predicate Matches(k: Kind, e: Entry) {
    match k
    case Requested(r) => e.ReservedFor? && e.room == r
    case TakenDirectly(r) => e.ReservedDirectly? && e.room == r
    case EffectiveRelease(r) => (e.ReleasedFor? || e.ReleasedDirectly?) && e.room == r && e.effective
    case GivenDirectly(r) => e.ReleasedDirectly? && e.room == r
    case ReleaseOf(b) => e.ReleasedFor? && e.booking == b
  }

  function Count(log: seq<Entry>, k: Kind): nat {
    if log == [] then 0
    else Count(log[..|log| - 1], k) + if Matches(k, log[|log| - 1]) then 1 else 0
  }

  function BookingsOf(s: State, r: nat): set<nat> {
    set b | b in s.bookings && s.bookings[b].room == r
  }

  /** Creates that hold a reserve of `r` and have not inserted a booking, alive or crashed. */
  function Holding(s: State, r: nat): set<nat> {
    set q | q in s.requests && s.requests[q].pc.Reserved? && s.requests[q].pc.room == r
  }

  function InFlight(s: State, r: nat): set<nat> {
    set q | q in Holding(s, r) && s.requests[q].alive
  }

  function Lost(s: State, r: nat): set<nat> {
    set q | q in Holding(s, r) && !s.requests[q].alive
  }

  /** Bookings of `r` that no cancel has released yet. */
  function Unreleased(s: State, r: nat): set<nat> {
    set b | b in BookingsOf(s, r) && Count(s.log, ReleaseOf(b)) == 0
  }

  function Bit(b: bool): nat { if b then 1 else 0 }
}
