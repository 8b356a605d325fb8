/** When a room has more than one pending booking, exactly, and the runs that show it. */
module DoubleBooking {
  import opened Sets
  import opened BookingMachine
  import opened BookingLedger
  import opened BookingSafety

  // ---------- pending bookings of one room ----------

  /** Pending bookings that a cancel, alive or crashed, has released and not committed. They
      hold the room no longer. */
  ghost function HalfCancelled(s: State, r: nat): set<nat> {
    set b | b in WithStatus(s, r, Pending) && exists q :: HalfWay(s, q, b)
  }

  /** On every run the pending bookings of a room are those nobody released and those a cancel
      released without committing. With the ledger this counts them: there is at most one if and
      only if the surplus and the half-cancelled bookings are paid for by the room's
      availability, the creates past their reserve and its having been created unavailable. */
  lemma DoubleBookingExactly(es: seq<Event>, r: nat)
    requires r in Exec(es).rooms
    ensures var s := Exec(es);
      && r in s.initial
      && WithStatus(s, r, Pending) == Unreleased(s, r) + HalfCancelled(s, r)
      && |WithStatus(s, r, Pending)| == |Unreleased(s, r)| + |HalfCancelled(s, r)|
      && (|WithStatus(s, r, Pending)| <= 1 <==>
            Surplus(s, r) + |HalfCancelled(s, r)| <= Bit(s.rooms[r]) + |Holding(s, r)| + Bit(!s.initial[r]))
  {
    PendingSplit(es, r);
    HoldersExactly(es, r);
  }

  lemma PendingSplit(es: seq<Event>, r: nat)
    ensures var s := Exec(es);
      && WithStatus(s, r, Pending) == Unreleased(s, r) + HalfCancelled(s, r)
      && |WithStatus(s, r, Pending)| == |Unreleased(s, r)| + |HalfCancelled(s, r)|
  {
    var s := Exec(es);
    TablesHold(es);
    forall b | b in BookingsOf(s, r)
      ensures s.bookings[b].status == Pending <==> b in Unreleased(s, r) || b in HalfCancelled(s, r)
      ensures !(b in Unreleased(s, r) && b in HalfCancelled(s, r))
    {
      ReleasedExactly(es, b);
      assert BookingOk(s, b);
    }
    assert Unreleased(s, r) !! HalfCancelled(s, r);
    assert WithStatus(s, r, Pending) == Unreleased(s, r) + HalfCancelled(s, r);
  }

  /** The step inserts a booking of the room. */
  predicate Books(s: State, e: Event, r: nat) {
    e.Insert? && e.request in s.requests && s.requests[e.request].pc.Reserved? && s.requests[e.request].pc.room == r
    && s.requests[e.request].alive && e.booking !in s.bookings
  }

  /** The same while booking-service's own table already has a pending booking of it. */
  predicate BooksOver(s: State, e: Event, r: nat) {
    Books(s, e, r) && WithStatus(s, r, Pending) != {}
  }

  lemma BookPends(s: State, e: Event, r: nat)
    requires Books(s, e, r)
    ensures e.booking !in WithStatus(s, r, Pending)
    ensures WithStatus(Apply(s, e), r, Pending) == WithStatus(s, r, Pending) + {e.booking}
  {
  }

  lemma OthersPendNot(s: State, e: Event, r: nat)
    requires Tables(s) && !Books(s, e, r)
    ensures WithStatus(Apply(s, e), r, Pending) <= WithStatus(s, r, Pending)
  {
    BookingsAdvance(s, e);
    forall b | b in WithStatus(Apply(s, e), r, Pending) ensures b in s.bookings {
      if b !in s.bookings { OnlyInsertsAdd(s, e, b); }
    }
  }

  lemma OnlyInsertsAdd(s: State, e: Event, b: nat)
    requires b in Apply(s, e).bookings && b !in s.bookings
    ensures Books(s, e, Apply(s, e).bookings[b].room)
  {
  }

  /** From any reachable state without two pending bookings of a room, a step makes a second
      one if and only if it inserts a booking while the table has a pending one. */
  lemma SecondPendingExactly(es: seq<Event>, e: Event, r: nat)
    requires |WithStatus(Exec(es), r, Pending)| <= 1
    ensures |WithStatus(Exec(es + [e]), r, Pending)| <= 1 <==> !BooksOver(Exec(es), e, r)
  {
    var before, after := WithStatus(Exec(es), r, Pending), WithStatus(Exec(es + [e]), r, Pending);
    TablesHold(es);
    ExecSnoc(es, e);
    if Books(Exec(es), e, r) {
      BookPends(Exec(es), e, r);
    } else {
      OthersPendNot(Exec(es), e, r);
      Subset(after, before);
    }
  }

  ghost predicate NeverTwoPending(es: seq<Event>, r: nat) {
    forall n | 0 <= n <= |es| :: |WithStatus(Exec(es[..n]), r, Pending)| <= 1
  }

  ghost predicate NeverBooksOver(es: seq<Event>, r: nat) {
    forall n | 0 <= n < |es| :: !BooksOver(Exec(es[..n]), es[n], r)
  }

  lemma NeverTwoPendingSnoc(es: seq<Event>, e: Event, r: nat)
    ensures NeverTwoPending(es + [e], r)
       <==> NeverTwoPending(es, r) && |WithStatus(Exec(es + [e]), r, Pending)| <= 1
  {
    var all := es + [e];
    assert all[..|all|] == all;
    forall n | 0 <= n <= |es| ensures all[..n] == es[..n] {}
    if NeverTwoPending(all, r) {
      forall n | 0 <= n <= |es| ensures |WithStatus(Exec(es[..n]), r, Pending)| <= 1 { assert all[..n] == es[..n]; }
    }
  }

  lemma NeverBooksOverSnoc(es: seq<Event>, e: Event, r: nat)
    ensures NeverBooksOver(es + [e], r) <==> NeverBooksOver(es, r) && !BooksOver(Exec(es), e, r)
  {
    var all := es + [e];
    assert all[..|es|] == es && all[|es|] == e;
    forall n | 0 <= n < |es| ensures BooksOver(Exec(all[..n]), all[n], r) == BooksOver(Exec(es[..n]), es[n], r) {
      assert all[..n] == es[..n] && all[n] == es[n];
    }
    if NeverBooksOver(all, r) {
      forall n | 0 <= n < |es| ensures !BooksOver(Exec(es[..n]), es[n], r) {
        assert !BooksOver(Exec(all[..n]), all[n], r);
      }
    }
  }

  /** Over whole runs: a room never has two pending bookings if and only if no booking of it is
      ever inserted while booking-service's own table has a pending one. */
  lemma {:induction false} NeverDoubleBookedExactly(es: seq<Event>, r: nat)
    ensures NeverTwoPending(es, r) <==> NeverBooksOver(es, r)
  {
    if es == [] {
      assert es[..0] == [] && WithStatus(EMPTY, r, Pending) == {};
    } else {
      var k := |es| - 1;
      NeverDoubleBookedExactly(es[..k], r);
      assert es == es[..k] + [es[k]];
      NeverTwoPendingSnoc(es[..k], es[k], r);
      NeverBooksOverSnoc(es[..k], es[k], r);
      if NeverTwoPending(es[..k], r) {
        assert es[..k][..k] == es[..k];
        SecondPendingExactly(es[..k], es[k], r);
      }
    }
  }

  /** From a single-holder state, an uninterrupted create of an available room succeeds, and it
      leaves two pending bookings if and only if the table already has a pending one - which is
      then one that a cancel has released and not committed. */
  lemma CreateDoubleBooksExactly(es: seq<Event>, q: nat, r: nat, u: nat, b: nat)
    requires var s := Exec(es);
      q !in s.requests && b !in s.bookings && r in s.rooms && s.rooms[r] && r in s.initial && OneHolder(s, r)
    ensures var s, t := Exec(es), Exec(es + Create(q, r, u, b));
      && WithStatus(t, r, Pending) == WithStatus(s, r, Pending) + {b}
      && (|WithStatus(t, r, Pending)| >= 2 <==> WithStatus(s, r, Pending) != {})
      && WithStatus(s, r, Pending) == HalfCancelled(s, r)
  {
    ExecCreate(es, q, r, u, b);
    PendingSplit(es, r);
    var s, t := Exec(es), Exec(es + Create(q, r, u, b));
    assert Unreleased(s, r) == {};
    assert WithStatus(t, r, Pending) == WithStatus(s, r, Pending) + {b};
  }

  // ---------- what breaks it, exactly ----------

  /** The step is the release call of a cancel that read a booking of the room. */
  predicate ReleasesRoom(s: State, e: Event, r: nat) {
    e.Release? && e.request in s.requests && s.requests[e.request].pc.Read? && s.requests[e.request].pc.room == r
  }

  /** The three calls that can break the single holder of a room: a direct reserve that
      succeeds, a direct release of a taken room, and a release of a taken room for a booking
      that is cancelled or that another cancel has released and not committed. */
  ghost predicate Breaks(s: State, e: Event, r: nat)
    requires r in s.rooms
  {
    || (e == DirectReserve(r) && s.rooms[r])
    || (e == DirectRelease(r) && !s.rooms[r])
    || (ReleasesRoom(s, e, r) && !s.rooms[r] && WasReleased(s, s.requests[e.request].pc.booking))
  }

  /** The step releases booking `b`. */
  predicate ReleasesBooking(s: State, e: Event, b: nat) {
    && e.Release? && e.request in s.requests && s.requests[e.request].pc.Read?
    && s.requests[e.request].pc.booking == b && s.requests[e.request].pc.room in s.rooms
  }

  lemma ReleaseCounted(s: State, e: Event, b: nat)
    ensures Count(Apply(s, e).log, ReleaseOf(b)) == Count(s.log, ReleaseOf(b)) + Bit(ReleasesBooking(s, e, b))
  {
    LogPushed(s, e, ReleaseOf(b));
  }

  lemma ReleasedStep(s: State, e: Event, r: nat, b: nat)
    requires Tables(s)
    ensures b in ReleasedOf(Apply(s, e), r)
      <==> b in ReleasedOf(s, r) || (ReleasesBooking(s, e, b) && ReleasesRoom(s, e, r))
  {
    BookingsAdvance(s, e);
    ReleaseCounted(s, e, b);
    if ReleasesBooking(s, e, b) {
      assert RequestOk(s, e.request);
      assert Apply(s, e).bookings == s.bookings;
    } else if b !in s.bookings {
      NotYetReleased(s, s.log, b);
    }
  }

  lemma ReleasedSet(s: State, e: Event, r: nat)
    requires Tables(s) && r in s.rooms
    ensures ReleasedOf(Apply(s, e), r)
         == ReleasedOf(s, r) + if ReleasesRoom(s, e, r) then {s.requests[e.request].pc.booking} else {}
  {
    forall b
      ensures b in ReleasedOf(Apply(s, e), r)
        <==> b in ReleasedOf(s, r) || (ReleasesBooking(s, e, b) && ReleasesRoom(s, e, r))
    {
      ReleasedStep(s, e, r, b);
    }
  }

  /** How a step moves the surplus. */
  lemma SurplusStep(s: State, e: Event, r: nat)
    requires Tables(s) && r in s.rooms
    ensures var released := ReleasesRoom(s, e, r);
      Surplus(Apply(s, e), r) == Surplus(s, r)
        + (if (released || e == DirectRelease(r)) && !s.rooms[r] then 1 else 0)
        - (if released && s.requests[e.request].pc.booking !in ReleasedOf(s, r) then 1 else 0)
        - (if e == DirectReserve(r) && s.rooms[r] then 1 else 0)
  {
    LogPushed(s, e, EffectiveRelease(r));
    LogPushed(s, e, TakenDirectly(r));
    LogsOf(s, e, r);
    ReleasedSet(s, e, r);
    SurplusMoves(s, Apply(s, e), r, if ReleasesRoom(s, e, r) then {s.requests[e.request].pc.booking} else {});
  }

  lemma SurplusMoves(s: State, t: State, r: nat, released: set<nat>)
    requires ReleasedOf(t, r) == ReleasedOf(s, r) + released
    ensures Surplus(t, r) - Surplus(s, r)
         == Count(t.log, EffectiveRelease(r)) - Count(s.log, EffectiveRelease(r)) - |released - ReleasedOf(s, r)|
            - Count(t.log, TakenDirectly(r)) + Count(s.log, TakenDirectly(r))
  {
    assert ReleasedOf(t, r) == ReleasedOf(s, r) + (released - ReleasedOf(s, r));
  }

  lemma LogsOf(s: State, e: Event, r: nat)
    requires r in s.rooms
    ensures Logs(s, e, TakenDirectly(r)) <==> e == DirectReserve(r) && s.rooms[r]
    ensures Logs(s, e, EffectiveRelease(r)) <==> !s.rooms[r] && (e == DirectRelease(r) || ReleasesRoom(s, e, r))
  {
  }

  /** From any reachable state with a single holder, the next step loses it exactly when it
      is one of the three calls - each decided by the tables and the requests before it. */
  lemma HolderBrokenExactly(es: seq<Event>, e: Event, r: nat)
    requires r in Exec(es).rooms && r in Exec(es).initial && OneHolder(Exec(es), r)
    ensures var t := Exec(es + [e]);
      r in t.rooms && r in t.initial && (OneHolder(t, r) <==> !Breaks(Exec(es), e, r))
  {
    var s := Exec(es);
    ExecSnoc(es, e);
    TablesHold(es);
    RowStep(s, e, r);
    HoldersExactly(es, r);
    HoldersExactly(es + [e], r);
    if ReleasesRoom(s, e, r) {
      assert RequestOk(s, e.request);
      ReleasedExactly(es, s.requests[e.request].pc.booking);
    }
    BreaksBySurplus(s, e, r);
  }

  lemma BreaksBySurplus(s: State, e: Event, r: nat)
    requires Tables(s) && r in s.rooms && r in s.initial && OneHolder(s, r) && Surplus(s, r) == 0
    requires ReleasesRoom(s, e, r) ==>
      var b := s.requests[e.request].pc.booking; Count(s.log, ReleaseOf(b)) > 0 <==> WasReleased(s, b)
    ensures Surplus(Apply(s, e), r) == 0 <==> !Breaks(s, e, r)
  {
    SurplusStep(s, e, r);
    if ReleasesRoom(s, e, r) { ReleaseFindsItTaken(s, e.request, r); }
  }

  /** With a single holder, a booking not yet released means that the room is taken. */
  lemma ReleaseFindsItTaken(s: State, q: nat, r: nat)
    requires Tables(s) && r in s.rooms && r in s.initial && OneHolder(s, r)
    requires q in s.requests && s.requests[q].pc.Read? && s.requests[q].pc.room == r
    ensures var b := s.requests[q].pc.booking;
      && (b in ReleasedOf(s, r) <==> Count(s.log, ReleaseOf(b)) > 0)
      && (b !in ReleasedOf(s, r) ==> !s.rooms[r])
  {
    assert RequestOk(s, q);
    var b := s.requests[q].pc.booking;
    if b !in ReleasedOf(s, r) { assert b in Unreleased(s, r); }
  }

  /** The steps of one create that nothing interrupts. */
  function Create(q: nat, r: nat, u: nat, b: nat): seq<Event> {
    [StartCreate(q, r, u), Reserve(q), Insert(q, b)]
  }

  lemma ExecCreate(es: seq<Event>, q: nat, r: nat, u: nat, b: nat)
    requires var s := Exec(es); q !in s.requests && b !in s.bookings && r in s.rooms && s.rooms[r]
    ensures var s := Exec(es);
      Exec(es + Create(q, r, u, b)) == State(s.initial, s.rooms[r := false],
        s.bookings[b := Booking(r, u, Pending)], s.requests[q := Request(Created(b), true)],
        s.log + [ReservedFor(r, q)])
  {
    var s := Exec(es);
    var s1 := s.(requests := s.requests[q := Request(Creating(r, u), true)]);
    var s2 := s1.(requests := s.requests[q := Request(Reserved(r, u), true)],
                  rooms := s.rooms[r := false], log := s.log + [ReservedFor(r, q)]);
    ExecSnoc(es, StartCreate(q, r, u));
    ExecSnoc(es + [StartCreate(q, r, u)], Reserve(q));
    ExecSnoc(es + [StartCreate(q, r, u)] + [Reserve(q)], Insert(q, b));
    assert s1.requests[q := Request(Reserved(r, u), true)] == s2.requests;
    assert Exec(es + [StartCreate(q, r, u)] + [Reserve(q)]) == s2;
    assert s2.requests[q := Request(Created(b), true)] == s.requests[q := Request(Created(b), true)];
    assert es + Create(q, r, u, b) == es + [StartCreate(q, r, u)] + [Reserve(q)] + [Insert(q, b)];
  }

  lemma ExecReleaseCommit(es: seq<Event>, q: nat, b: nat, r: nat)
    requires var s := Exec(es);
      q in s.requests && s.requests[q] == Request(Read(b, r), true) && r in s.rooms && b in s.bookings
    ensures var s := Exec(es);
      Exec(es + [Release(q), Commit(q)])
        == s.(rooms := s.rooms[r := true], bookings := s.bookings[b := s.bookings[b].(status := Cancelled)],
              requests := s.requests[q := Request(CancelDone(b), true)],
              log := s.log + [ReleasedFor(r, q, b, !s.rooms[r])])
  {
    var s := Exec(es);
    ExecSnoc(es, Release(q));
    ExecSnoc(es + [Release(q)], Commit(q));
    assert es + [Release(q), Commit(q)] == es + [Release(q)] + [Commit(q)];
    assert s.requests[q := Request(Released(b, r), true)][q := Request(CancelDone(b), true)]
        == s.requests[q := Request(CancelDone(b), true)];
  }

  // ---------- the bound is tight ----------

  const TWO_READS: seq<Event> :=
    [AddRoom(7, true)] + Create(0, 7, 1, 100) + [StartCancel(1, 100)] + [StartCancel(2, 100)]
  const ONE_COMMIT: seq<Event> := TWO_READS + [Release(1), Commit(1)]
  const OTHER_COMMIT: seq<Event> := ONE_COMMIT + Create(3, 7, 2, 101) + [Release(2), Commit(2)]
  const TWO_CANCELS: seq<Event> := OTHER_COMMIT + Create(4, 7, 3, 102)

  lemma {:induction false} NoneMatch(log: seq<Entry>, k: Kind)
    requires forall i :: 0 <= i < |log| ==> !Matches(k, log[i])
    ensures Count(log, k) == 0
  {
    if log != [] { NoneMatch(log[..|log| - 1], k); }
  }

  /** Two cancels that both read `pending` release the room twice, without a crash and
      without a direct call, and the room ends with two pending bookings that nobody is
      cancelling: the unconditional claim is false. */
  lemma DoubleBookingHappens()
    ensures var s := Exec(TWO_CANCELS);
      && 101 in Unreleased(s, 7) && 102 in Unreleased(s, 7)
      && s.bookings[101] == Booking(7, 2, Pending) && s.bookings[102] == Booking(7, 3, Pending)
      && Count(s.log, TakenDirectly(7)) == Count(s.log, GivenDirectly(7)) == 0
      && (forall q :: q in s.requests ==>
            s.requests[q].alive && (s.requests[q].pc.Created? || s.requests[q].pc.CancelDone?))
  {
    WholeTrace();
    var s := Exec(TWO_CANCELS);
    NoneMatch(s.log, TakenDirectly(7));
    NoneMatch(s.log, GivenDirectly(7));
    NoneMatch(s.log, ReleaseOf(101));
    NoneMatch(s.log, ReleaseOf(102));
  }

  lemma WholeTrace()
    ensures var s := Exec(TWO_CANCELS);
      && s.bookings
         == map[100 := Booking(7, 1, Cancelled), 101 := Booking(7, 2, Pending), 102 := Booking(7, 3, Pending)]
      && s.requests == map[0 := Request(Created(100), true), 1 := Request(CancelDone(100), true),
                           2 := Request(CancelDone(100), true),
                           3 := Request(Created(101), true), 4 := Request(Created(102), true)]
      && s.log == [ReservedFor(7, 0), ReleasedFor(7, 1, 100, true), ReservedFor(7, 3),
                      ReleasedFor(7, 2, 100, true), ReservedFor(7, 4)]
  {
    AfterOtherCommit();
    ExecCreate(OTHER_COMMIT, 4, 7, 3, 102);
  }

  lemma AfterOtherCommit()
    ensures var s := Exec(OTHER_COMMIT);
      && s.rooms == map[7 := true]
      && s.bookings == map[100 := Booking(7, 1, Cancelled), 101 := Booking(7, 2, Pending)]
      && s.requests == map[0 := Request(Created(100), true), 1 := Request(CancelDone(100), true),
                           2 := Request(CancelDone(100), true),
                           3 := Request(Created(101), true)]
      && s.log == [ReservedFor(7, 0), ReleasedFor(7, 1, 100, true), ReservedFor(7, 3), ReleasedFor(7, 2, 100, true)]
  {
    AfterOneCommit();
    ExecCreate(ONE_COMMIT, 3, 7, 2, 101);
    ExecReleaseCommit(ONE_COMMIT + Create(3, 7, 2, 101), 2, 100, 7);
  }

  lemma AfterOneCommit()
    ensures var s := Exec(ONE_COMMIT);
      && s.rooms == map[7 := true] && s.bookings == map[100 := Booking(7, 1, Cancelled)]
      && s.requests == map[0 := Request(Created(100), true), 1 := Request(CancelDone(100), true),
                           2 := Request(Read(100, 7), true)]
      && s.log == [ReservedFor(7, 0), ReleasedFor(7, 1, 100, true)]
  {
    ExecSnoc([], AddRoom(7, true));
    assert [] + [AddRoom(7, true)] == [AddRoom(7, true)];
    ExecCreate([AddRoom(7, true)], 0, 7, 1, 100);
    ExecSnoc([AddRoom(7, true)] + Create(0, 7, 1, 100), StartCancel(1, 100));
    ExecSnoc([AddRoom(7, true)] + Create(0, 7, 1, 100) + [StartCancel(1, 100)], StartCancel(2, 100));
    assert Exec(TWO_READS).requests == map[0 := Request(Created(100), true), 1 := Request(Read(100, 7), true),
                                           2 := Request(Read(100, 7), true)];
    ExecReleaseCommit(TWO_READS, 1, 100, 7);
  }

  // ---------- a crashed cancel ----------

  const HALF_CANCEL: seq<Event> :=
    [AddRoom(7, true)] + Create(0, 7, 1, 100) + [StartCancel(1, 100)] + [Release(1)] + [Crash(1)]
  const CRASHED_CANCEL: seq<Event> := HALF_CANCEL + Create(2, 7, 2, 101)

  lemma AfterHalfCancel()
    ensures var s := Exec(HALF_CANCEL);
      && s.initial == map[7 := true] && s.rooms == map[7 := true] && s.bookings == map[100 := Booking(7, 1, Pending)]
      && s.requests == map[0 := Request(Created(100), true), 1 := Request(Released(100, 7), false)]
      && s.log == [ReservedFor(7, 0), ReleasedFor(7, 1, 100, true)]
  {
    var booked := [AddRoom(7, true)] + Create(0, 7, 1, 100);
    ExecSnoc([], AddRoom(7, true));
    assert [] + [AddRoom(7, true)] == [AddRoom(7, true)];
    ExecCreate([AddRoom(7, true)], 0, 7, 1, 100);
    ExecSnoc(booked, StartCancel(1, 100));
    ExecSnoc(booked + [StartCancel(1, 100)], Release(1));
    ExecSnoc(booked + [StartCancel(1, 100)] + [Release(1)], Crash(1));
  }

  lemma OneRelease(log: seq<Entry>)
    requires log == [ReservedFor(7, 0), ReleasedFor(7, 1, 100, true), ReservedFor(7, 2)]
    ensures Count(log, ReleaseOf(100)) == 1
  {
    CountPush([], ReservedFor(7, 0), ReleaseOf(100));
    CountPush([] + [ReservedFor(7, 0)], ReleasedFor(7, 1, 100, true), ReleaseOf(100));
    CountPush([] + [ReservedFor(7, 0)] + [ReleasedFor(7, 1, 100, true)], ReservedFor(7, 2), ReleaseOf(100));
    assert log == [] + [ReservedFor(7, 0)] + [ReleasedFor(7, 1, 100, true)] + [ReservedFor(7, 2)];
  }

  /** A cancel that crashes between its release and its commit leaves a clean room with a
      single holder and two pending bookings, and every live request is done. */
  lemma CrashedCancelDoubleBooks()
    ensures var s := Exec(CRASHED_CANCEL);
      && 7 in s.rooms && 7 in s.initial && Clean(s, 7) && OneHolder(s, 7) && Holders(s, 7) == 1
      && s.bookings == map[100 := Booking(7, 1, Pending), 101 := Booking(7, 2, Pending)]
      && (forall q :: q in s.requests && s.requests[q].alive ==> s.requests[q].pc.Created?)
  {
    AfterHalfCancel();
    ExecCreate(HALF_CANCEL, 2, 7, 2, 101);
    var s := Exec(CRASHED_CANCEL);
    assert s.log == [ReservedFor(7, 0), ReleasedFor(7, 1, 100, true), ReservedFor(7, 2)];
    NoneMatch(s.log, TakenDirectly(7));
    NoneMatch(s.log, GivenDirectly(7));
    NoneMatch(s.log, ReleaseOf(101));
    OneRelease(s.log);
    assert Clean(s, 7);
    SingleHolder(CRASHED_CANCEL, 7);
  }
}
