/** When a room has at most one holder, and when it does not. */
module BookingSafety {
  import opened Sets
  import opened BookingMachine
  import opened BookingLedger

  /** What holds a room: a reserve without a booking, a booking no cancel has released, or
      having been created unavailable. */
  function Holders(s: State, r: nat): nat
    requires r in s.initial
  {
    |Holding(s, r)| + |Unreleased(s, r)| + Bit(!s.initial[r])
  }

  /** No direct call changed the room's row or released it, and no booking of the room was
      released twice. */
  ghost predicate Clean(s: State, r: nat) {
    && Count(s.log, TakenDirectly(r)) == 0
    && Count(s.log, GivenDirectly(r)) == 0
    && forall b :: b in s.bookings && s.bookings[b].room == r ==> Count(s.log, ReleaseOf(b)) <= 1
  }

  ghost predicate OneHolder(s: State, r: nat)
    requires r in s.rooms && r in s.initial
  {
    Holders(s, r) == Bit(!s.rooms[r])
  }

  lemma CleanBefore(s: State, e: Event, r: nat)
    requires Tables(s) && Clean(Apply(s, e), r)
    ensures Clean(s, r)
  {
    LogPushed(s, e, TakenDirectly(r));
    LogPushed(s, e, GivenDirectly(r));
    BookingsAdvance(s, e);
    forall b | b in s.bookings && s.bookings[b].room == r ensures Count(s.log, ReleaseOf(b)) <= 1 {
      LogPushed(s, e, ReleaseOf(b));
      assert Count(Apply(s, e).log, ReleaseOf(b)) <= 1;
    }
  }

  lemma {:induction false} NotYetReleased(s: State, log: seq<Entry>, b: nat)
    requires b !in s.bookings && forall i :: 0 <= i < |log| ==> EntryOk(s, log[i])
    ensures Count(log, ReleaseOf(b)) == 0
  {
    if log != [] {
      NotYetReleased(s, log[..|log| - 1], b);
      assert EntryOk(s, log[|log| - 1]);
    }
  }

  lemma OneHolderStep(s: State, e: Event, r: nat)
    requires Tables(s) && r in s.rooms && Clean(Apply(s, e), r) && OneHolder(s, r)
    ensures r in Apply(s, e).rooms && r in Apply(s, e).initial && OneHolder(Apply(s, e), r)
  {
    if e.Reserve? && e.request in s.requests && s.requests[e.request].pc.Creating? {
      ReserveTaken(s, e.request, r);
      UnreleasedKept(s, e, r);
    } else if e.Insert? && ApplyInsert(s, e.request, e.booking) != s {
      InsertTurnsHolder(s, e.request, e.booking, r);
    } else {
      BookingsAdvance(s, e);
      SetsKept(s, e, r);
      if e.Release? && e.request in s.requests && s.requests[e.request].pc.Read? {
        ReleaseFreesItsHolder(s, e.request, r);
      } else {
        RestKeepsHolder(s, e, r);
      }
    }
  }

  lemma RestKeepsHolder(s: State, e: Event, r: nat)
    requires r in s.rooms && r in s.initial && Clean(Apply(s, e), r) && OneHolder(s, r)
    requires BookingsOf(Apply(s, e), r) == BookingsOf(s, r) && Holding(Apply(s, e), r) == Holding(s, r)
    requires !(e.Reserve? && e.request in s.requests && s.requests[e.request].pc.Creating?)
    requires !(e.Release? && e.request in s.requests && s.requests[e.request].pc.Read?)
    ensures r in Apply(s, e).rooms && r in Apply(s, e).initial && OneHolder(Apply(s, e), r)
  {
    LogPushed(s, e, TakenDirectly(r));
    LogPushed(s, e, GivenDirectly(r));
    RowStep(s, e, r);
    OnlyDirectLogs(s, e, r);
    UnreleasedKept(s, e, r);
  }

  lemma InsertTurnsHolder(s: State, q: nat, b: nat, r: nat)
    requires Tables(s) && r in s.rooms && r in s.initial && OneHolder(s, r) && ApplyInsert(s, q, b) != s
    ensures var t := ApplyInsert(s, q, b); r in t.rooms && r in t.initial && OneHolder(t, r)
  {
    Inserted(s, q, b, r);
    NotYetReleased(s, s.log, b);
    InsertUnreleased(s, q, b, r);
  }

  lemma InsertUnreleased(s: State, q: nat, b: nat, r: nat)
    requires ApplyInsert(s, q, b) != s && Count(s.log, ReleaseOf(b)) == 0
    ensures Unreleased(ApplyInsert(s, q, b), r)
        == Unreleased(s, r) + (if s.requests[q].pc.room == r then {b} else {})
    ensures b !in Unreleased(s, r)
  {
    assert ApplyInsert(s, q, b).log == s.log;
  }

  lemma OnlyDirectLogs(s: State, e: Event, r: nat)
    requires !(e.Reserve? && e.request in s.requests && s.requests[e.request].pc.Creating?)
    requires !(e.Release? && e.request in s.requests && s.requests[e.request].pc.Read?)
    ensures !Logs(s, e, Requested(r)) && (Logs(s, e, EffectiveRelease(r)) ==> Logs(s, e, GivenDirectly(r)))
    ensures |Apply(s, e).log| > |s.log| ==> !Apply(s, e).log[|s.log|].ReleasedFor?
  {
  }

  lemma UnreleasedKept(s: State, e: Event, r: nat)
    requires BookingsOf(Apply(s, e), r) == BookingsOf(s, r)
    requires var t := Apply(s, e); |t.log| > |s.log| ==> !t.log[|s.log|].ReleasedFor?
    ensures Unreleased(Apply(s, e), r) == Unreleased(s, r)
  {
    forall b ensures Count(Apply(s, e).log, ReleaseOf(b)) == Count(s.log, ReleaseOf(b)) {
      LogPushed(s, e, ReleaseOf(b));
    }
  }

  /** A first release of a booking finds the room taken, because that booking holds it. */
  lemma ReleaseFreesItsHolder(s: State, q: nat, r: nat)
    requires Tables(s) && r in s.rooms && r in s.initial && OneHolder(s, r)
    requires q in s.requests && s.requests[q].pc.Read? && Clean(ApplyRelease(s, q), r)
    requires Holding(ApplyRelease(s, q), r) == Holding(s, r)
    ensures OneHolder(ApplyRelease(s, q), r)
  {
    var b := s.requests[q].pc.booking;
    assert RequestOk(s, q) && BookingOk(s, b);
    assert b in s.bookings && s.bookings[b].room in s.rooms;
    ReleaseCounts(s, q);
    UnreleasedAfter(s, q, b, r);
    if s.bookings[b].room == r {
      assert Count(ApplyRelease(s, q).log, ReleaseOf(b)) <= 1;
      assert b in Unreleased(s, r);
    }
  }

  lemma ReleaseCounts(s: State, q: nat)
    requires q in s.requests && s.requests[q].pc.Read? && s.requests[q].pc.room in s.rooms
    ensures forall c :: Count(ApplyRelease(s, q).log, ReleaseOf(c))
                     == Count(s.log, ReleaseOf(c)) + Bit(c == s.requests[q].pc.booking)
  {
    forall c
      ensures Count(ApplyRelease(s, q).log, ReleaseOf(c))
           == Count(s.log, ReleaseOf(c)) + Bit(c == s.requests[q].pc.booking)
    {
      LogPushed(s, Release(q), ReleaseOf(c));
    }
  }

  lemma UnreleasedAfter(s: State, q: nat, b: nat, r: nat)
    requires forall c :: Count(ApplyRelease(s, q).log, ReleaseOf(c)) == Count(s.log, ReleaseOf(c)) + Bit(c == b)
    ensures Unreleased(ApplyRelease(s, q), r) == Unreleased(s, r) - {b}
  {
    assert ApplyRelease(s, q).bookings == s.bookings;
  }

  /** Safety over whole runs: while a room is clean, its holders are exactly what its row
      says - one when it is unavailable, none when it is available. */
  lemma {:induction false} SingleHolder(es: seq<Event>, r: nat)
    requires r in Exec(es).rooms && Clean(Exec(es), r)
    ensures r in Exec(es).initial && OneHolder(Exec(es), r)
  {
    TablesHold(es);
    var s, e := Exec(es[..|es| - 1]), es[|es| - 1];
    TablesHold(es[..|es| - 1]);
    if r in s.rooms {
      CleanBefore(s, e, r);
      SingleHolder(es[..|es| - 1], r);
      OneHolderStep(s, e, r);
    } else {
      NothingHeld(s, r);
      NewRoom(s, e, r);
      BookingsAdvance(s, e);
      SetsKept(s, e, r);
      UnreleasedKept(s, e, r);
    }
  }

  lemma NewRoom(s: State, e: Event, r: nat)
    requires Tables(s) && r !in s.rooms && r in Apply(s, e).rooms
    ensures e.AddRoom? && e.room == r && Apply(s, e).rooms[r] == e.available
    ensures r in Apply(s, e).initial && Apply(s, e).initial[r] == e.available
  {
  }

  lemma NothingHeld(s: State, r: nat)
    requires Tables(s) && r !in s.rooms
    ensures BookingsOf(s, r) == {} && Holding(s, r) == {} && Unreleased(s, r) == {}
  {
    forall b | b in s.bookings ensures s.bookings[b].room != r { assert BookingOk(s, b); }
    forall q | q in s.requests ensures q !in Holding(s, r) {
      assert RequestOk(s, q);
      if s.requests[q].pc.Reserved? { LoggedRoom(s, ReservedFor(s.requests[q].pc.room, q)); }
    }
  }

  function ReleasedOf(s: State, r: nat): set<nat> {
    BookingsOf(s, r) - Unreleased(s, r)
  }

  /** Effective releases beyond the first of each booking, less what direct reserves took. */
  function Surplus(s: State, r: nat): int {
    Count(s.log, EffectiveRelease(r)) - |ReleasedOf(s, r)| - Count(s.log, TakenDirectly(r))
  }

  /** How many holders a room has, on every run whatsoever: one when it is unavailable, and
      as many more as its surplus of effective releases. */
  lemma HoldersExactly(es: seq<Event>, r: nat)
    requires r in Exec(es).rooms
    ensures var s := Exec(es);
      && r in s.initial
      && Holders(s, r) == 1 - Bit(s.rooms[r]) + Surplus(s, r)
      && (Holders(s, r) <= 1 <==> Surplus(s, r) <= Bit(s.rooms[r]))
  {
    var s := Exec(es);
    LawsHold(es, r);
    assert BookingsOf(s, r) == (BookingsOf(s, r) - Unreleased(s, r)) + Unreleased(s, r);
  }

  // ---------- runs whose cancels neither overlap nor crash ----------

  /** The request is between reading booking `b` and committing its cancellation. */
  predicate Cancelling(s: State, q: nat, b: nat) {
    q in s.requests && (s.requests[q].pc.Read? || s.requests[q].pc.Released?) && s.requests[q].pc.booking == b
  }

  ghost predicate Polite(s: State, e: Event) {
    match e
    case StartCancel(q, b) => forall p :: p in s.requests ==> !Cancelling(s, p, b)
    case Crash(q) => q in s.requests ==> !s.requests[q].pc.Read? && !s.requests[q].pc.Released?
    case _ => true
  }

  ghost predicate SerialCancels(es: seq<Event>) {
    es == [] || (SerialCancels(es[..|es| - 1]) && Polite(Exec(es[..|es| - 1]), es[|es| - 1]))
  }

  ghost predicate ReleasedOnce(s: State, b: nat)
    requires b in s.bookings
  {
    && (forall p, q :: Cancelling(s, p, b) && Cancelling(s, q, b) ==> p == q)
    && (forall q :: Cancelling(s, q, b) && s.requests[q].pc.Read? ==>
          s.bookings[b].status == Pending && Count(s.log, ReleaseOf(b)) == 0)
    && (s.bookings[b].status == Pending && Count(s.log, ReleaseOf(b)) != 0 ==>
          exists q :: Cancelling(s, q, b) && s.requests[q].pc.Released?)
    && Count(s.log, ReleaseOf(b)) <= 1
  }

  lemma ReleasedOnceStep(s: State, e: Event, b: nat)
    requires Tables(s) && Polite(s, e) && b in Apply(s, e).bookings
    requires b in s.bookings ==> ReleasedOnce(s, b)
    ensures ReleasedOnce(Apply(s, e), b)
  {
    var t := Apply(s, e);
    LogPushed(s, e, ReleaseOf(b));
    if b !in s.bookings {
      NotYetReleased(s, s.log, b);
      forall q ensures !Cancelling(t, q, b) { if q in s.requests { assert RequestOk(s, q); } }
    } else {
      BookingsAdvance(s, e);
      assert BookingOk(s, b);
      match e
      case StartCancel(q, c) => StartCancelOnce(s, q, c, b);
      case Release(q) => ReleaseOnce(s, q, b);
      case Commit(q) => CommitOnce(s, q, b);
      case _ => OthersOnce(s, e, b);
    }
  }

  lemma StartCancelOnce(s: State, q: nat, c: nat, b: nat)
    requires b in s.bookings && ReleasedOnce(s, b) && s.bookings[b].status != Confirmed && Polite(s, StartCancel(q, c))
    ensures ReleasedOnce(ApplyStartCancel(s, q, c), b)
  {
    var t := ApplyStartCancel(s, q, c);
    forall p
      ensures Cancelling(t, p, b)
        <==> Cancelling(s, p, b) || (p == q && c == b && t != s && s.bookings[b].status != Cancelled)
    {
    }
    if s.bookings[b].status == Pending && Count(s.log, ReleaseOf(b)) != 0 {
      var p :| Cancelling(s, p, b) && s.requests[p].pc.Released?;
      assert Cancelling(t, p, b);
    }
  }

  lemma ReleaseOnce(s: State, q: nat, b: nat)
    requires b in s.bookings && ReleasedOnce(s, b)
    ensures b in ApplyRelease(s, q).bookings && ReleasedOnce(ApplyRelease(s, q), b)
  {
    var t := ApplyRelease(s, q);
    LogPushed(s, Release(q), ReleaseOf(b));
    forall p ensures Cancelling(t, p, b) ==> Cancelling(s, p, b) {}
    if s.bookings[b].status == Pending && Count(s.log, ReleaseOf(b)) != 0 {
      var p :| Cancelling(s, p, b) && s.requests[p].pc.Released?;
      assert Cancelling(t, p, b);
    }
    if Cancelling(s, q, b) && s.requests[q].pc.Read? && t.log != s.log {
      assert Cancelling(t, q, b);
    }
  }

  lemma CommitOnce(s: State, q: nat, b: nat)
    requires b in s.bookings && ReleasedOnce(s, b)
    ensures b in ApplyCommit(s, q).bookings && ReleasedOnce(ApplyCommit(s, q), b)
  {
    var t := ApplyCommit(s, q);
    forall p | Cancelling(t, p, b) ensures Cancelling(s, p, b) && s.requests[p].pc == t.requests[p].pc {}
    forall p | Cancelling(t, p, b) && t.requests[p].pc.Read? ensures t.bookings[b].status == Pending {
      if t.bookings[b] != s.bookings[b] { assert Cancelling(s, q, b); }
    }
    if t.bookings[b].status == Pending && Count(s.log, ReleaseOf(b)) != 0 {
      var p :| Cancelling(s, p, b) && s.requests[p].pc.Released?;
      assert Cancelling(t, p, b);
    }
  }

  lemma OthersOnce(s: State, e: Event, b: nat)
    requires b in s.bookings && ReleasedOnce(s, b) && !e.StartCancel? && !e.Release? && !e.Commit?
    ensures b in Apply(s, e).bookings && ReleasedOnce(Apply(s, e), b)
  {
    var t := Apply(s, e);
    LogPushed(s, e, ReleaseOf(b));
    assert b in t.bookings && t.bookings[b] == s.bookings[b];
    assert Count(t.log, ReleaseOf(b)) == Count(s.log, ReleaseOf(b));
    forall p ensures SameCancel(s, t, p, b) { OthersCancelNot(s, e, p, b); }
    OnceCarries(s, t, b);
  }

  predicate SameCancel(s: State, t: State, p: nat, b: nat) {
    && (Cancelling(t, p, b) <==> Cancelling(s, p, b))
    && (Cancelling(s, p, b) ==> t.requests[p].pc == s.requests[p].pc)
  }

  lemma OnceCarries(s: State, t: State, b: nat)
    requires b in s.bookings && b in t.bookings && t.bookings[b] == s.bookings[b] && ReleasedOnce(s, b)
    requires Count(t.log, ReleaseOf(b)) == Count(s.log, ReleaseOf(b)) && forall p :: SameCancel(s, t, p, b)
    ensures ReleasedOnce(t, b)
  {
    if s.bookings[b].status == Pending && Count(s.log, ReleaseOf(b)) != 0 {
      var p :| Cancelling(s, p, b) && s.requests[p].pc.Released?;
      assert SameCancel(s, t, p, b);
    }
    forall p, q | Cancelling(t, p, b) && Cancelling(t, q, b) ensures p == q {
      assert SameCancel(s, t, p, b) && SameCancel(s, t, q, b);
    }
    forall p | Cancelling(t, p, b) && t.requests[p].pc.Read?
      ensures t.bookings[b].status == Pending && Count(t.log, ReleaseOf(b)) == 0
    {
      assert SameCancel(s, t, p, b);
    }
  }

  lemma OthersCancelNot(s: State, e: Event, p: nat, b: nat)
    requires !e.StartCancel? && !e.Release? && !e.Commit?
    ensures SameCancel(s, Apply(s, e), p, b)
  {
  }

  /** Cancels that neither overlap on a booking nor crash half-way release it at most once,
      however everything else interleaves. */
  lemma {:induction false} SerialCancelsReleaseOnce(es: seq<Event>)
    requires SerialCancels(es)
    ensures forall b :: b in Exec(es).bookings ==> ReleasedOnce(Exec(es), b)
  {
    if es != [] {
      SerialCancelsReleaseOnce(es[..|es| - 1]);
      TablesHold(es[..|es| - 1]);
      forall b | b in Exec(es).bookings ensures ReleasedOnce(Exec(es), b) {
        ReleasedOnceStep(Exec(es[..|es| - 1]), es[|es| - 1], b);
      }
    }
  }

  /** So with serial cancels and no direct calls a room is never double-booked: two pending
      bookings of it can only coexist while a cancel of one of them awaits its commit. */
  lemma SerialCancelsNoDoubleBooking(es: seq<Event>, r: nat, b: nat, c: nat)
    requires SerialCancels(es) && r in Exec(es).rooms
    requires Count(Exec(es).log, TakenDirectly(r)) == 0 == Count(Exec(es).log, GivenDirectly(r))
    requires b in WithStatus(Exec(es), r, Pending) && c in WithStatus(Exec(es), r, Pending) && b != c
    ensures exists q :: (Cancelling(Exec(es), q, b) || Cancelling(Exec(es), q, c)) && Exec(es).requests[q].pc.Released?
  {
    var s := Exec(es);
    SerialCancelsReleaseOnce(es);
    assert ReleasedOnce(s, b) && ReleasedOnce(s, c);
    SingleHolder(es, r);
    if Count(s.log, ReleaseOf(b)) == 0 && Count(s.log, ReleaseOf(c)) == 0 {
      assert {b, c} <= Unreleased(s, r);
      assert |{b, c}| <= |Unreleased(s, r)| by { Subset({b, c}, Unreleased(s, r)); }
      assert false;
    }
  }
}
