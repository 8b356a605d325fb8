/** What a crash leaves behind: a dead request never books and never cancels, though a call it
    had sent may still land. */
module BookingCrash {
  import opened BookingMachine
  import opened BookingLedger
  import opened BookingSafety
  import opened DoubleBooking

  // ---------- a dead request ----------

  /** Where a dead request can still come to: where it was, or where a hotel call it had sent
      takes it. */
  predicate CallLands(from: Pc, to: Pc) {
    || to == from
    || (from.Creating? && to in {Reserved(from.room, from.user), Refused(409)})
    || (from.Read? && to in {Released(from.booking, from.room), Refused(502)})
  }

  lemma DeadStep(s: State, e: Event, q: nat)
    requires q in s.requests && !s.requests[q].alive
    ensures q in Apply(s, e).requests && !Apply(s, e).requests[q].alive
    ensures CallLands(s.requests[q].pc, Apply(s, e).requests[q].pc)
  {
  }

  /** On every continuation a dead request stays dead, and comes no further than its sent call
      takes it. So one that holds a reserve or has released is stuck there for ever. */
  lemma {:induction false} DeadStays(es: seq<Event>, more: seq<Event>, q: nat)
    requires q in Exec(es).requests && !Exec(es).requests[q].alive
    ensures q in Exec(es + more).requests && !Exec(es + more).requests[q].alive
    ensures CallLands(Exec(es).requests[q].pc, Exec(es + more).requests[q].pc)
    ensures !Exec(es).requests[q].pc.Creating? && !Exec(es).requests[q].pc.Read? ==>
              Exec(es + more).requests[q] == Exec(es).requests[q]
    decreases |more|
  {
    if more == [] {
      assert es + more == es;
    } else {
      var n := |more| - 1;
      DeadStays(es, more[..n], q);
      ExecMore(es, more);
      DeadStep(Exec(es + more[..n]), more[n], q);
    }
  }

  /** A crash kills its request where it stands and changes nothing else. */
  lemma CrashKills(es: seq<Event>, q: nat)
    requires q in Exec(es).requests
    ensures var s, t := Exec(es), Exec(es + [Crash(q)]);
      && t.requests == s.requests[q := Request(s.requests[q].pc, false)]
      && t.rooms == s.rooms && t.bookings == s.bookings && t.log == s.log
  {
    ExecSnoc(es, Crash(q));
  }

  // ---------- which steps book and which cancel ----------

  /** A step adds a booking if and only if it is the insert of a request that is alive and
      holds a reserve; the booking is then for that room and user, and pending. */
  lemma BookedExactly(es: seq<Event>, e: Event, b: nat)
    requires b !in Exec(es).bookings
    ensures var s, t := Exec(es), Exec(es + [e]);
      && (b in t.bookings <==>
            e.Insert? && e.booking == b && e.request in s.requests
            && s.requests[e.request].alive && s.requests[e.request].pc.Reserved?)
      && (b in t.bookings ==>
            t.bookings[b] == Booking(s.requests[e.request].pc.room, s.requests[e.request].pc.user, Pending))
  {
    ExecSnoc(es, e);
  }

  /** A step cancels a pending booking if and only if it is the commit of a request that is
      alive and past its release of that booking. */
  lemma CancelledExactly(es: seq<Event>, e: Event, b: nat)
    requires b in Exec(es).bookings && Exec(es).bookings[b].status == Pending
    ensures var s, t := Exec(es), Exec(es + [e]);
      && b in t.bookings
      && (t.bookings[b].status == Cancelled <==>
            e.Commit? && HalfWay(s, e.request, b) && s.requests[e.request].alive)
  {
    ExecSnoc(es, e);
  }

  /** A create gets past its hotel call exactly when that finds the room available, whether or
      not it is still alive to see it, and is refused with 409 exactly when it does not. */
  lemma ReservedExactly(es: seq<Event>, e: Event, q: nat)
    requires q in Exec(es).requests && Exec(es).requests[q].pc.Creating?
    ensures var s, t := Exec(es), Exec(es + [e]);
      var pc := s.requests[q].pc;
      && q in t.requests
      && (t.requests[q].pc == Reserved(pc.room, pc.user) <==>
            e == Reserve(q) && pc.room in s.rooms && s.rooms[pc.room])
      && (t.requests[q].pc == Refused(409) <==>
            e == Reserve(q) && !(pc.room in s.rooms && s.rooms[pc.room]))
      && (e != Reserve(q) ==> t.requests[q].pc == pc)
  {
    ExecSnoc(es, e);
  }

  lemma RoomOfCancel(es: seq<Event>, q: nat)
    requires q in Exec(es).requests && Exec(es).requests[q].pc.Read?
    ensures Exec(es).requests[q].pc.room in Exec(es).rooms
  {
    TablesHold(es);
    assert RequestOk(Exec(es), q);
    assert BookingOk(Exec(es), Exec(es).requests[q].pc.booking);
  }

  lemma ReleaseStep(s: State, e: Event, q: nat)
    requires q in s.requests && s.requests[q].pc.Read? && s.requests[q].pc.room in s.rooms
    ensures var t, pc := Apply(s, e), s.requests[q].pc;
      && q in t.requests
      && t.requests[q].pc == (if e == Release(q) then Released(pc.booking, pc.room) else pc)
      && (e == Release(q) ==> pc.room in t.rooms && t.rooms[pc.room])
  {
  }

  /** A cancel always gets past its hotel call, because the room of a booking exists; that
      call frees the room. */
  lemma ReleaseAlwaysLands(es: seq<Event>, e: Event, q: nat)
    requires q in Exec(es).requests && Exec(es).requests[q].pc.Read?
    ensures var s, t := Exec(es), Exec(es + [e]);
      var pc := s.requests[q].pc;
      && q in t.requests
      && t.requests[q].pc == (if e == Release(q) then Released(pc.booking, pc.room) else pc)
      && (e == Release(q) ==> pc.room in t.rooms && t.rooms[pc.room])
  {
    RoomOfCancel(es, q);
    ExecSnoc(es, e);
    ReleaseStep(Exec(es), e, q);
  }

  /** A request starts alive, and a cancel by what it reads of its booking. */
  lemma StartsExactly(es: seq<Event>, e: Event, q: nat)
    requires q !in Exec(es).requests
    ensures var s, t := Exec(es), Exec(es + [e]);
      && (q in t.requests <==> (e.StartCreate? || e.StartCancel?) && e.request == q)
      && (q in t.requests ==> t.requests[q].alive && t.rooms == s.rooms && t.bookings == s.bookings)
      && (q in t.requests && e.StartCreate? ==> t.requests[q].pc == Creating(e.room, e.user))
      && (q in t.requests && e.StartCancel? ==>
            (t.requests[q].pc == Refused(404) <==> e.booking !in s.bookings)
            && (t.requests[q].pc == Refused(409) <==>
                  e.booking in s.bookings && s.bookings[e.booking].status == Cancelled)
            && (IsPending(s, e.booking) <==> t.requests[q].pc.Read?)
            && (IsPending(s, e.booking) ==> t.requests[q].pc == Read(e.booking, s.bookings[e.booking].room)))
  {
    TablesHold(es);
    if e.StartCancel? && e.booking in Exec(es).bookings { assert BookingOk(Exec(es), e.booking); }
    ExecSnoc(es, e);
  }

  // ---------- bookings that nobody can cancel any more ----------

  predicate LiveCancel(s: State, q: nat, b: nat) {
    Cancelling(s, q, b) && s.requests[q].alive
  }

  ghost predicate NoLiveCancel(s: State, b: nat) {
    forall q :: !LiveCancel(s, q, b)
  }

  predicate NoCancelOf(es: seq<Event>, b: nat) {
    forall i :: 0 <= i < |es| && es[i].StartCancel? ==> es[i].booking != b
  }

  predicate IsPending(s: State, b: nat) {
    b in s.bookings && s.bookings[b].status == Pending
  }

  lemma LiveCancelBefore(s: State, e: Event, q: nat, b: nat)
    requires LiveCancel(Apply(s, e), q, b) && (e.StartCancel? ==> e.booking != b)
    ensures LiveCancel(s, q, b)
  {
  }

  lemma {:induction false} NobodyCancels(es: seq<Event>, more: seq<Event>, b: nat)
    requires IsPending(Exec(es), b) && NoLiveCancel(Exec(es), b) && NoCancelOf(more, b)
    ensures IsPending(Exec(es + more), b) && NoLiveCancel(Exec(es + more), b)
    decreases |more|
  {
    if more == [] {
      assert es + more == es;
    } else {
      var n := |more| - 1;
      NobodyCancels(es, more[..n], b);
      ExecMore(es, more);
      OneStepPending(es + more[..n], more[n], b);
    }
  }

  lemma OneStepPending(es: seq<Event>, e: Event, b: nat)
    requires IsPending(Exec(es), b) && NoLiveCancel(Exec(es), b) && (e.StartCancel? ==> e.booking != b)
    ensures IsPending(Apply(Exec(es), e), b) && NoLiveCancel(Apply(Exec(es), e), b)
  {
    ExecSnoc(es, e);
    TablesHold(es);
    BookingsAdvance(Exec(es), e);
    CancelledExactly(es, e, b);
    if e.Commit? { assert !LiveCancel(Exec(es), e.request, b); }
    forall q ensures !LiveCancel(Apply(Exec(es), e), q, b) {
      if LiveCancel(Apply(Exec(es), e), q, b) { LiveCancelBefore(Exec(es), e, q, b); }
    }
  }

  /** Exactly when a pending booking can no longer be cancelled, short of a new cancel of it:
      when no live request is cancelling it. */
  lemma StaysPendingExactly(es: seq<Event>, b: nat)
    requires IsPending(Exec(es), b)
    ensures (forall more: seq<Event> | NoCancelOf(more, b) :: IsPending(Exec(es + more), b))
       <==> NoLiveCancel(Exec(es), b)
  {
    if NoLiveCancel(Exec(es), b) {
      forall more: seq<Event> | NoCancelOf(more, b) ensures IsPending(Exec(es + more), b) {
        NobodyCancels(es, more, b);
      }
    } else {
      var q :| LiveCancel(Exec(es), q, b);
      var more := FinishCancel(es, q, b);
      assert NoCancelOf(more, b) && !IsPending(Exec(es + more), b);
    }
  }

  /** A live cancel can still release and commit. */
  lemma FinishCancel(es: seq<Event>, q: nat, b: nat) returns (more: seq<Event>)
    requires IsPending(Exec(es), b) && LiveCancel(Exec(es), q, b)
    ensures NoCancelOf(more, b) && !IsPending(Exec(es + more), b)
  {
    if Exec(es).requests[q].pc.Read? {
      LiveRelease(es, q, b);
      CancelledExactly(es + [Release(q)], Commit(q), b);
      more := [Release(q)] + [Commit(q)];
      assert es + more == es + [Release(q)] + [Commit(q)];
    } else {
      CancelledExactly(es, Commit(q), b);
      more := [Commit(q)];
    }
  }

  lemma LiveRelease(es: seq<Event>, q: nat, b: nat)
    requires IsPending(Exec(es), b) && LiveCancel(Exec(es), q, b) && Exec(es).requests[q].pc.Read?
    ensures var t := Exec(es + [Release(q)]); IsPending(t, b) && HalfWay(t, q, b) && t.requests[q].alive
  {
    ReleaseAlwaysLands(es, Release(q), q);
    CancelledExactly(es, Release(q), b);
    ExecSnoc(es, Release(q));
  }

  /** After the crashed cancel, both bookings of the room stay pending on every continuation in
      which nobody asks again to cancel them. */
  lemma CrashedCancelStays(more: seq<Event>)
    requires NoCancelOf(more, 100) && NoCancelOf(more, 101)
    ensures IsPending(Exec(CRASHED_CANCEL + more), 100) && IsPending(Exec(CRASHED_CANCEL + more), 101)
  {
    CrashedCancelDoubleBooks();
    NobodyCancels(CRASHED_CANCEL, more, 100);
    NobodyCancels(CRASHED_CANCEL, more, 101);
  }
}
