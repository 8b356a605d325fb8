/** What every run of the booking machine keeps. */
module BookingLedger {
  import opened BookingMachine

  lemma CountPush(log: seq<Entry>, e: Entry, k: Kind)
    ensures Count(log + [e], k) == Count(log, k) + if Matches(k, e) then 1 else 0
  {
    assert (log + [e])[..|log|] == log;
  }

  // ---------- tables, log and requests agree ----------

  ghost predicate RequestOk(s: State, q: nat)
    requires q in s.requests
  {
    var pc := s.requests[q].pc;
    match pc
    case Reserved(r, u) => ReservedFor(r, q) in s.log
    case Created(b) => b in s.bookings
    case Read(b, r) => b in s.bookings && s.bookings[b].room == r
    case Released(b, r) =>
      b in s.bookings && s.bookings[b].room == r && ReleaseLogged(s.log, r, q, b)
    case CancelDone(b) =>
      b in s.bookings && s.bookings[b].status == Cancelled && ReleaseLogged(s.log, s.bookings[b].room, q, b)
    case _ => true
  }

  predicate ReleaseLogged(log: seq<Entry>, r: nat, q: nat, b: nat) {
    ReleasedFor(r, q, b, true) in log || ReleasedFor(r, q, b, false) in log
  }

  /** The request whose logged reserve of its room became booking `b`. */
  predicate MadeBy(s: State, b: nat, q: nat)
    requires b in s.bookings
  {
    q in s.requests && s.requests[q].pc == Created(b) && ReservedFor(s.bookings[b].room, q) in s.log
  }

  ghost predicate BookingOk(s: State, b: nat)
    requires b in s.bookings
  {
    s.bookings[b].room in s.rooms && s.bookings[b].status != Confirmed && exists q :: MadeBy(s, b, q)
  }

  ghost predicate CancelOk(s: State, b: nat)
    requires b in s.bookings
  {
    s.bookings[b].status == Cancelled ==> exists q :: q in s.requests && s.requests[q].pc == CancelDone(b)
  }

  ghost predicate EntryOk(s: State, e: Entry) {
    e.room in s.rooms && (e.ReleasedFor? ==> e.booking in s.bookings && s.bookings[e.booking].room == e.room)
  }

  ghost predicate Tables(s: State) {
    && s.rooms.Keys == s.initial.Keys
    && (forall q :: q in s.requests ==> RequestOk(s, q))
    && (forall b :: b in s.bookings ==> BookingOk(s, b))
    && (forall b :: b in s.bookings ==> CancelOk(s, b))
    && (forall i :: 0 <= i < |s.log| ==> EntryOk(s, s.log[i]))
  }

  /** A booking is never removed or moved to another room or user, and its status can only
      go from pending to cancelled. */
  ghost predicate Advances(old_: map<nat, Booking>, new_: map<nat, Booking>) {
    forall b :: b in old_ ==>
      && b in new_
      && new_[b].room == old_[b].room && new_[b].user == old_[b].user
      && (new_[b].status == old_[b].status || (old_[b].status == Pending && new_[b].status == Cancelled))
  }

  lemma BookingsAdvance(s: State, e: Event)
    requires Tables(s)
    ensures Advances(s.bookings, Apply(s, e).bookings)
  {
    if e.Commit? && e.request in s.requests && s.requests[e.request].pc.Released? {
      assert RequestOk(s, e.request);
      assert BookingOk(s, s.requests[e.request].pc.booking);
    }
  }

  /** A request that does not move stays in order while the tables advance. */
  lemma RequestStays(s: State, t: State, q: nat)
    requires q in s.requests && q in t.requests && s.requests[q].pc == t.requests[q].pc
    requires RequestOk(s, q) && Advances(s.bookings, t.bookings) && forall x :: x in s.log ==> x in t.log
    ensures RequestOk(t, q)
  {
  }

  lemma RequestStep(s: State, e: Event, q: nat)
    requires Tables(s) && q in Apply(s, e).requests
    ensures RequestOk(Apply(s, e), q)
  {
    BookingsAdvance(s, e);
    if q in s.requests {
      assert RequestOk(s, q);
      RequestMoves(s, e, q);
    }
  }

  lemma RequestMoves(s: State, e: Event, q: nat)
    requires q in s.requests && RequestOk(s, q) && Advances(s.bookings, Apply(s, e).bookings)
    ensures RequestOk(Apply(s, e), q)
  {
    LogGrows(s, e);
    var pc := s.requests[q].pc;
    if pc.Creating? && e == Reserve(q) { ReserveMoves(s, q); }
    else if pc.Read? && e == Release(q) { ReleaseMoves(s, q); }
    else if pc.Released? && e == Commit(q) { CommitMoves(s, q); }
    else if pc.Reserved? && e.Insert? && e.request == q { InsertMoves(s, q, e.booking); }
    else {
      PcKept(s, e, q);
      RequestStays(s, Apply(s, e), q);
    }
  }

  /** Which events move a request at all. */
  lemma PcKept(s: State, e: Event, q: nat)
    requires q in s.requests
    requires !(e == Reserve(q) && s.requests[q].pc.Creating?) && !(e == Release(q) && s.requests[q].pc.Read?)
    requires !(e == Commit(q) && s.requests[q].pc.Released?)
    requires !(e.Insert? && e.request == q && s.requests[q].pc.Reserved?)
    ensures q in Apply(s, e).requests && Apply(s, e).requests[q].pc == s.requests[q].pc
  {
  }

  lemma ReserveMoves(s: State, q: nat)
    requires q in s.requests && RequestOk(s, q) && s.requests[q].pc.Creating?
    ensures RequestOk(ApplyReserve(s, q), q)
  {
    var t := ApplyReserve(s, q);
    if t.requests[q].pc.Reserved? { assert t.log[|s.log|] in t.log; }
  }

  lemma InsertMoves(s: State, q: nat, b: nat)
    requires q in s.requests && RequestOk(s, q) && s.requests[q].pc.Reserved?
    ensures RequestOk(ApplyInsert(s, q, b), q)
  {
  }

  lemma ReleaseMoves(s: State, q: nat)
    requires q in s.requests && RequestOk(s, q) && s.requests[q].pc.Read?
    ensures RequestOk(ApplyRelease(s, q), q)
  {
    var t := ApplyRelease(s, q);
    if t.requests[q].pc.Released? { assert t.log[|s.log|] in t.log; }
  }

  lemma CommitMoves(s: State, q: nat)
    requires q in s.requests && RequestOk(s, q) && s.requests[q].pc.Released?
    ensures RequestOk(ApplyCommit(s, q), q)
  {
  }

  lemma BookingStep(s: State, e: Event, b: nat)
    requires Tables(s) && b in Apply(s, e).bookings
    ensures BookingOk(Apply(s, e), b)
  {
    var t := Apply(s, e);
    LogGrows(s, e);
    BookingsAdvance(s, e);
    if b in s.bookings {
      assert BookingOk(s, b);
      var q :| MadeBy(s, b, q);
      PcKept(s, e, q);
      assert MadeBy(t, b, q);
    } else {
      assert RequestOk(s, e.request);
      LoggedRoom(s, ReservedFor(s.requests[e.request].pc.room, e.request));
      assert MadeBy(t, b, e.request);
    }
  }

  lemma LoggedRoom(s: State, x: Entry)
    requires Tables(s) && x in s.log
    ensures x.room in s.rooms
  {
    var i :| 0 <= i < |s.log| && s.log[i] == x;
    assert EntryOk(s, s.log[i]);
  }

  lemma CancelStep(s: State, e: Event, b: nat)
    requires Tables(s) && b in Apply(s, e).bookings
    ensures CancelOk(Apply(s, e), b)
  {
    var t := Apply(s, e);
    if b in s.bookings && s.bookings[b].status == Cancelled {
      assert CancelOk(s, b);
      var q :| q in s.requests && s.requests[q].pc == CancelDone(b);
      PcKept(s, e, q);
      assert q in t.requests;
    } else if t.bookings[b].status == Cancelled {
      CancelsOnlyByCommit(s, e, b);
    }
  }

  lemma CancelsOnlyByCommit(s: State, e: Event, b: nat)
    requires b in Apply(s, e).bookings && Apply(s, e).bookings[b].status == Cancelled
    requires b in s.bookings ==> s.bookings[b].status != Cancelled
    ensures e.Commit? && e.request in Apply(s, e).requests && Apply(s, e).requests[e.request].pc == CancelDone(b)
  {
  }

  lemma EntryStep(s: State, e: Event, i: nat)
    requires Tables(s) && i < |Apply(s, e).log|
    ensures EntryOk(Apply(s, e), Apply(s, e).log[i])
  {
    LogGrows(s, e);
    if i < |s.log| { assert EntryOk(s, s.log[i]); }
    else if e.Release? { assert RequestOk(s, e.request); }
  }

  lemma TablesStep(s: State, e: Event)
    requires Tables(s)
    ensures Tables(Apply(s, e))
  {
    forall q | q in Apply(s, e).requests ensures RequestOk(Apply(s, e), q) { RequestStep(s, e, q); }
    forall b | b in Apply(s, e).bookings ensures BookingOk(Apply(s, e), b) { BookingStep(s, e, b); }
    forall b | b in Apply(s, e).bookings ensures CancelOk(Apply(s, e), b) { CancelStep(s, e, b); }
    forall i | 0 <= i < |Apply(s, e).log| ensures EntryOk(Apply(s, e), Apply(s, e).log[i]) { EntryStep(s, e, i); }
  }

  /** The log only grows, and by at most one entry a step. */
  lemma LogGrows(s: State, e: Event)
    ensures s.log <= Apply(s, e).log && |Apply(s, e).log| <= |s.log| + 1
    ensures forall x :: x in s.log ==> x in Apply(s, e).log
  {
    assert forall i :: 0 <= i < |s.log| ==> Apply(s, e).log[i] == s.log[i];
  }

  lemma {:induction false} TablesHold(es: seq<Event>)
    ensures Tables(Exec(es))
  {
    if es != [] {
      TablesHold(es[..|es| - 1]);
      TablesStep(Exec(es[..|es| - 1]), es[|es| - 1]);
    }
  }

  // ---------- bookings and reserves ----------

  /** Every booking has a reserve commit of its own, for its own room. */
  lemma BookingsBackedByReserves(es: seq<Event>)
    ensures exists m: map<nat, nat> ::
      && m.Keys == Exec(es).bookings.Keys
      && (forall b :: b in m ==>
            m[b] < |Exec(es).log| && Exec(es).log[m[b]].ReservedFor?
            && Exec(es).log[m[b]].room == Exec(es).bookings[b].room)
      && (forall b, c :: b in m && c in m && m[b] == m[c] ==> b == c)
  {
    TablesHold(es);
    var s := Exec(es);
    forall b | b in s.bookings ensures BookingOk(s, b) {}
    var m := map b | b in s.bookings :: Receipt(s, b);
    assert m.Keys == s.bookings.Keys;
  }

  /** The position in the log of the reserve a booking was made from. */
  ghost function Receipt(s: State, b: nat): (i: nat)
    requires b in s.bookings && BookingOk(s, b)
    ensures i < |s.log| && s.log[i].ReservedFor? && s.log[i].room == s.bookings[b].room
    ensures MadeBy(s, b, s.log[i].request)
  {
    var q :| MadeBy(s, b, q);
    var i :| 0 <= i < |s.log| && s.log[i] == ReservedFor(s.bookings[b].room, q);
    i
  }

  /** Over any continuation of a run, a booking keeps its room and user and can only go from
      pending to cancelled; `confirmed` is never reached. */
  lemma {:induction false} StatusOnlyAdvances(es: seq<Event>, more: seq<Event>)
    ensures Advances(Exec(es).bookings, Exec(es + more).bookings)
    ensures forall b :: b in Exec(es).bookings ==> Exec(es).bookings[b].status != Confirmed
    decreases |more|
  {
    TablesHold(es);
    forall b | b in Exec(es).bookings ensures Exec(es).bookings[b].status != Confirmed {
      assert BookingOk(Exec(es), b);
    }
    if more == [] {
      assert es + more == es;
    } else {
      var n := |more| - 1;
      StatusOnlyAdvances(es, more[..n]);
      TablesHold(es + more[..n]);
      BookingsAdvance(Exec(es + more[..n]), more[n]);
      ExecMore(es, more);
    }
  }

  /** A booking is cancelled only by committing requests, and every one of them - however many
      - had itself released the booking's room. */
  lemma CancelledAfterOwnRelease(es: seq<Event>, b: nat)
    requires b in Exec(es).bookings
    ensures var s := Exec(es);
      && (s.bookings[b].status == Cancelled <==> exists q :: q in s.requests && s.requests[q].pc == CancelDone(b))
      && (forall q :: q in s.requests && s.requests[q].pc == CancelDone(b) ==>
            ReleaseLogged(s.log, s.bookings[b].room, q, b))
  {
    var s := Exec(es);
    TablesHold(es);
    assert CancelOk(s, b);
    forall q | q in s.requests && s.requests[q].pc == CancelDone(b)
      ensures ReleaseLogged(s.log, s.bookings[b].room, q, b) && s.bookings[b].status == Cancelled
    {
      assert RequestOk(s, q);
    }
  }

  // ---------- which bookings were released ----------

  /** A cancel, alive or crashed, that has released the booking and not committed. */
  predicate HalfWay(s: State, q: nat, b: nat) {
    q in s.requests && s.requests[q].pc.Released? && s.requests[q].pc.booking == b
  }

  /** What the two tables and the requests show of a release. */
  ghost predicate WasReleased(s: State, b: nat) {
    (b in s.bookings && s.bookings[b].status == Cancelled) || exists q :: HalfWay(s, q, b)
  }

  /** The cancel behind a release in the log is past its release. */
  ghost predicate ReleaserOk(s: State, x: Entry) {
    x.ReleasedFor? ==>
      x.request in s.requests
      && (HalfWay(s, x.request, x.booking) || s.requests[x.request].pc == CancelDone(x.booking))
  }

  lemma ReleaserStep(s: State, e: Event, x: Entry)
    requires ReleaserOk(s, x)
    ensures ReleaserOk(Apply(s, e), x)
  {
    if x.ReleasedFor? && !(e == Commit(x.request) && HalfWay(s, x.request, x.booking)) { PcKept(s, e, x.request); }
  }

  lemma NewReleaser(s: State, e: Event)
    requires |Apply(s, e).log| > |s.log|
    ensures ReleaserOk(Apply(s, e), Apply(s, e).log[|s.log|])
  {
  }

  ghost predicate ReleasersOk(s: State) {
    forall i :: 0 <= i < |s.log| ==> ReleaserOk(s, s.log[i])
  }

  lemma ReleasersStep(s: State, e: Event)
    requires ReleasersOk(s)
    ensures ReleasersOk(Apply(s, e))
  {
    LogGrows(s, e);
    var t := Apply(s, e);
    forall i | 0 <= i < |t.log| ensures ReleaserOk(t, t.log[i]) {
      if i < |s.log| { ReleaserStep(s, e, s.log[i]); } else { NewReleaser(s, e); }
    }
  }

  lemma {:induction false} ReleasersHold(es: seq<Event>)
    ensures ReleasersOk(Exec(es))
  {
    if es != [] {
      ReleasersHold(es[..|es| - 1]);
      ReleasersStep(Exec(es[..|es| - 1]), es[|es| - 1]);
    }
  }

  lemma {:induction false} CountFinds(log: seq<Entry>, k: Kind)
    ensures Count(log, k) > 0 <==> exists i :: 0 <= i < |log| && Matches(k, log[i])
  {
    if log != [] {
      var n := |log| - 1;
      CountFinds(log[..n], k);
      if Count(log[..n], k) > 0 {
        var i :| 0 <= i < n && Matches(k, log[..n][i]);
        assert Matches(k, log[i]);
      }
      forall i | 0 <= i < n ensures log[i] == log[..n][i] {}
    }
  }

  /** On every run a booking has been released exactly if it is cancelled or a cancel of it
      stands between its release and its commit. */
  lemma ReleasedExactly(es: seq<Event>, b: nat)
    requires b in Exec(es).bookings
    ensures Count(Exec(es).log, ReleaseOf(b)) > 0 <==> WasReleased(Exec(es), b)
  {
    var s := Exec(es);
    TablesHold(es);
    ReleasersHold(es);
    CountFinds(s.log, ReleaseOf(b));
    if Count(s.log, ReleaseOf(b)) > 0 {
      var i :| 0 <= i < |s.log| && Matches(ReleaseOf(b), s.log[i]);
      assert ReleaserOk(s, s.log[i]) && RequestOk(s, s.log[i].request);
    } else if WasReleased(s, b) {
      var q := Releaser(s, b);
      assert RequestOk(s, q);
      assert forall f :: ReleasedFor(s.bookings[b].room, q, b, f) !in s.log;
    }
  }

  lemma Releaser(s: State, b: nat) returns (q: nat)
    requires Tables(s) && WasReleased(s, b)
    ensures q in s.requests && (HalfWay(s, q, b) || s.requests[q].pc == CancelDone(b))
  {
    if b in s.bookings && s.bookings[b].status == Cancelled {
      assert CancelOk(s, b);
      q :| q in s.requests && s.requests[q].pc == CancelDone(b);
    } else {
      q :| HalfWay(s, q, b);
    }
  }

  // ---------- the ledger of one room ----------

  /** Commits to the room row: each reserve takes it, each effective release gives it back. */
  ghost predicate RoomLaw(s: State, r: nat)
    requires r in s.rooms && r in s.initial
  {
    Count(s.log, Requested(r)) + Count(s.log, TakenDirectly(r)) + Bit(s.rooms[r])
      == Count(s.log, EffectiveRelease(r)) + Bit(s.initial[r])
  }

  lemma RoomLawStep(s: State, e: Event, r: nat)
    requires Tables(s) && r in Apply(s, e).rooms && r in Apply(s, e).initial
    requires r in s.rooms ==> RoomLaw(s, r)
    ensures RoomLaw(Apply(s, e), r)
  {
    if r !in s.rooms {
      NothingLogged(s, s.log, r);
    } else {
      LogPushed(s, e, Requested(r));
      LogPushed(s, e, TakenDirectly(r));
      LogPushed(s, e, EffectiveRelease(r));
      RowStep(s, e, r);
    }
  }

  predicate Logs(s: State, e: Event, k: Kind) {
    |Apply(s, e).log| > |s.log| && Matches(k, Apply(s, e).log[|s.log|])
  }

  /** The row of a room changes exactly with what the step logs about it. */
  lemma RowStep(s: State, e: Event, r: nat)
    requires r in s.rooms && r in s.initial
    ensures var t := Apply(s, e);
      && r in t.rooms && r in t.initial && t.initial[r] == s.initial[r]
      && Bit(t.rooms[r]) + Bit(Logs(s, e, Requested(r))) + Bit(Logs(s, e, TakenDirectly(r)))
         == Bit(s.rooms[r]) + Bit(Logs(s, e, EffectiveRelease(r)))
  {
  }

  /** How a step changes a count. */
  lemma LogPushed(s: State, e: Event, k: Kind)
    ensures var t := Apply(s, e);
      Count(t.log, k) == Count(s.log, k) + Bit(Logs(s, e, k))
  {
    var t := Apply(s, e);
    LogGrows(s, e);
    if |t.log| > |s.log| {
      assert t.log == s.log + [t.log[|s.log|]];
      CountPush(s.log, t.log[|s.log|], k);
    } else {
      assert t.log == s.log;
    }
  }

  lemma {:induction false} NothingLogged(s: State, log: seq<Entry>, r: nat)
    requires r !in s.rooms && forall i :: 0 <= i < |log| ==> EntryOk(s, log[i])
    ensures Count(log, Requested(r)) == Count(log, TakenDirectly(r)) == Count(log, EffectiveRelease(r)) == 0
  {
    if log != [] {
      NothingLogged(s, log[..|log| - 1], r);
      assert EntryOk(s, log[|log| - 1]);
    }
  }

  /** Every reserve taken for a request is either a booking or still held by its create. */
  ghost predicate ReserveLaw(s: State, r: nat) {
    |BookingsOf(s, r)| + |Holding(s, r)| == Count(s.log, Requested(r))
  }

  lemma ReserveLawStep(s: State, e: Event, r: nat)
    requires Tables(s) && ReserveLaw(s, r)
    ensures ReserveLaw(Apply(s, e), r)
  {
    LogPushed(s, e, Requested(r));
    if e.Reserve? && e.request in s.requests && s.requests[e.request].pc.Creating? {
      ReserveTaken(s, e.request, r);
    } else if e.Insert? && ApplyInsert(s, e.request, e.booking) != s {
      Inserted(s, e.request, e.booking, r);
    } else {
      BookingsAdvance(s, e);
      SetsKept(s, e, r);
    }
  }

  lemma SetsKept(s: State, e: Event, r: nat)
    requires Advances(s.bookings, Apply(s, e).bookings)
    requires !(e.Reserve? && e.request in s.requests && s.requests[e.request].pc.Creating?)
    requires !(e.Insert? && ApplyInsert(s, e.request, e.booking) != s)
    ensures BookingsOf(Apply(s, e), r) == BookingsOf(s, r) && Holding(Apply(s, e), r) == Holding(s, r)
    ensures |Apply(s, e).log| > |s.log| ==> !Apply(s, e).log[|s.log|].ReservedFor?
  {
    var t := Apply(s, e);
    assert t.bookings.Keys == s.bookings.Keys;
    forall q | q in t.requests ensures q in Holding(t, r) <==> q in Holding(s, r) {
      if q in s.requests && !(e == Release(q) && s.requests[q].pc.Read?)
         && !(e == Commit(q) && s.requests[q].pc.Released?) && !e.Insert?
      {
        PcKept(s, e, q);
      }
    }
  }

  lemma ReserveTaken(s: State, q: nat, r: nat)
    requires q in s.requests && s.requests[q].pc.Creating?
    ensures var t := ApplyReserve(s, q);
      var took := s.requests[q].pc.room == r && t.log != s.log;
      && Holding(t, r) == Holding(s, r) + (if took then {q} else {}) && q !in Holding(s, r)
      && BookingsOf(t, r) == BookingsOf(s, r)
      && (took <==> |t.log| > |s.log| && Matches(Requested(r), t.log[|s.log|]))
  {
  }

  lemma Inserted(s: State, q: nat, b: nat, r: nat)
    requires ApplyInsert(s, q, b) != s
    requires q in s.requests && s.requests[q].pc.Reserved?
    ensures var t, own := ApplyInsert(s, q, b), s.requests[q].pc.room == r;
      && s.requests[q].pc.Reserved? && b !in s.bookings && t.log == s.log
      && BookingsOf(t, r) == BookingsOf(s, r) + (if own then {b} else {}) && b !in BookingsOf(s, r)
      && Holding(t, r) == Holding(s, r) - (if own then {q} else {}) && (own ==> q in Holding(s, r))
  {
  }

  lemma {:induction false} LawsHold(es: seq<Event>, r: nat)
    ensures r in Exec(es).rooms ==> r in Exec(es).initial && RoomLaw(Exec(es), r)
    ensures ReserveLaw(Exec(es), r)
  {
    if es != [] {
      var s := Exec(es[..|es| - 1]);
      LawsHold(es[..|es| - 1], r);
      TablesHold(es[..|es| - 1]);
      TablesHold(es);
      ReserveLawStep(s, es[|es| - 1], r);
      if r in Exec(es).rooms { RoomLawStep(s, es[|es| - 1], r); }
    }
  }

  /** The conservation law of a room, on every interleaving: bookings, creates past their
      reserve, reserves lost to a crash and direct reserves are paid for by the room's
      initial availability and its effective releases. */
  lemma RoomLedger(es: seq<Event>, r: nat)
    requires r in Exec(es).rooms
    ensures var s := Exec(es);
      && r in s.initial
      && |BookingsOf(s, r)| + |InFlight(s, r)| + |Lost(s, r)| + Count(s.log, TakenDirectly(r))
         == Count(s.log, EffectiveRelease(r)) + Bit(s.initial[r]) - Bit(s.rooms[r])
  {
    var s := Exec(es);
    LawsHold(es, r);
    assert Holding(s, r) == InFlight(s, r) + Lost(s, r);
  }

  function WithStatus(s: State, r: nat, st: Status): set<nat> {
    set b | b in BookingsOf(s, r) && s.bookings[b].status == st
  }

  /** Double bookings are bounded by the releases that no cancellation accounts for. */
  lemma ActiveBookingsBounded(es: seq<Event>, r: nat)
    requires r in Exec(es).rooms
    ensures var s := Exec(es);
      |WithStatus(s, r, Pending)| + |WithStatus(s, r, Cancelled)| <= Count(s.log, EffectiveRelease(r)) + 1
  {
    var s := Exec(es);
    RoomLedger(es, r);
    TablesHold(es);
    forall b | b in BookingsOf(s, r) ensures s.bookings[b].status != Confirmed { assert BookingOk(s, b); }
    assert BookingsOf(s, r) == WithStatus(s, r, Pending) + WithStatus(s, r, Cancelled);
  }
}
