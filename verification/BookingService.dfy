/** The two services as objects whose tables are updated in place. Each atomic step is
    proved to be the step of the booking machine, so every run of the methods, in any
    order, is a run the ledger and safety theorems speak about. */
module BookingService {
  import opened BookingMachine
  import opened BookingLedger
  import opened BookingSafety
  import opened DoubleBooking

  /** The rooms table of hotel-service: room id to `is_available`. */
  class HotelService {
    var available: map<nat, bool>

    constructor ()
      ensures available == map[]
    {
      available := map[];
    }

    /** A new row, available or not; an id that exists is left alone. */
    method CreateRoom(room: nat, isAvailable: bool) returns (created: bool)
      modifies this
      ensures created <==> room !in old(available)
      ensures available == if created then old(available)[room := isAvailable] else old(available)
    {
      created := room !in available;
      if created { available := available[room := isAvailable]; }
    }

    /** Takes the room under its row lock: 404 without the row, 409 when it is taken. */
    method ReserveRoom(room: nat) returns (status: nat)
      modifies this
      ensures status == 200 <==> room in old(available) && old(available)[room]
      ensures status == 404 <==> room !in old(available)
      ensures status in {200, 404, 409}
      ensures available == if status == 200 then old(available)[room := false] else old(available)
    {
      if room !in available { return 404; }
      if !available[room] { return 409; }
      available := available[room := false];
      return 200;
    }

    /** Frees the room whatever its state was. */
    method ReleaseRoom(room: nat) returns (status: nat)
      modifies this
      ensures status == if room in old(available) then 200 else 404
      ensures available == if room in old(available) then old(available)[room := true] else old(available)
    {
      if room !in available { return 404; }
      available := available[room := true];
      return 200;
    }
  }

  class BookingService {
    const hotel: HotelService
    var bookings: map<nat, Booking>
    var requests: map<nat, Request>
    ghost var initial: map<nat, bool>
    ghost var log: seq<Entry>

    ghost function View(): State
      reads this, hotel
    {
      State(initial, hotel.available, bookings, requests, log)
    }

    constructor (hotel: HotelService)
      requires hotel.available == map[]
      ensures this.hotel == hotel && View() == Exec([])
    {
      this.hotel := hotel;
      bookings, requests, initial, log := map[], map[], map[], [];
    }

    method AddRoom(room: nat, isAvailable: bool)
      modifies this, hotel
      ensures View() == Apply(old(View()), Event.AddRoom(room, isAvailable))
    {
      var created := hotel.CreateRoom(room, isAvailable);
      if created { initial := initial[room := isAvailable]; }
    }

    method StartCreate(q: nat, room: nat, user: nat)
      modifies this
      ensures View() == Apply(old(View()), Event.StartCreate(q, room, user))
    {
      if q !in requests {
        requests := requests[q := Request(Creating(room, user), true)];
      }
    }

    method Move(q: nat, pc: Pc)
      requires q in requests
      modifies this`requests
      ensures requests == old(requests)[q := old(requests)[q].(pc := pc)]
    {
      requests := requests[q := requests[q].(pc := pc)];
    }

    /** The awaited call of `reserve_room`; any error of the client becomes a 409. */
    method Reserve(q: nat)
      modifies this, hotel
      ensures View() == Apply(old(View()), Event.Reserve(q))
    {
      if q in requests && requests[q].pc.Creating? {
        var room, user := requests[q].pc.room, requests[q].pc.user;
        var status := hotel.ReserveRoom(room);
        if status == 200 {
          Move(q, Reserved(room, user));
          log := log + [ReservedFor(room, q)];
        } else {
          Move(q, Refused(409));
        }
      }
    }

    method Insert(q: nat, b: nat)
      modifies this
      ensures View() == Apply(old(View()), Event.Insert(q, b))
    {
      if q in requests && requests[q].alive && requests[q].pc.Reserved? && b !in bookings {
        var pc := requests[q].pc;
        bookings := bookings[b := Booking(pc.room, pc.user, Pending)];
        Move(q, Created(b));
      }
    }

    /** The unlocked read of the booking at the head of `cancel_booking`. */
    method StartCancel(q: nat, b: nat)
      modifies this
      ensures View() == Apply(old(View()), Event.StartCancel(q, b))
    {
      if q in requests { return; }
      var pc;
      if b !in bookings { pc := Refused(404); }
      else if bookings[b].status == Cancelled { pc := Refused(409); }
      else { pc := Read(b, bookings[b].room); }
      requests := requests[q := Request(pc, true)];
    }

    method Release(q: nat)
      modifies this, hotel
      ensures View() == Apply(old(View()), Event.Release(q))
    {
      if q in requests && requests[q].pc.Read? {
        var b, room := requests[q].pc.booking, requests[q].pc.room;
        ghost var taken := room in hotel.available && !hotel.available[room];
        var status := hotel.ReleaseRoom(room);
        if status == 200 {
          Move(q, Released(b, room));
          log := log + [ReleasedFor(room, q, b, taken)];
        } else {
          Move(q, Refused(502));
        }
      }
    }

    method Commit(q: nat)
      modifies this
      ensures View() == Apply(old(View()), Event.Commit(q))
    {
      if q in requests && requests[q].alive && requests[q].pc.Released? && requests[q].pc.booking in bookings {
        var b := requests[q].pc.booking;
        bookings := bookings[b := bookings[b].(status := Cancelled)];
        Move(q, CancelDone(b));
      }
    }

    method Crash(q: nat)
      modifies this
      ensures View() == Apply(old(View()), Event.Crash(q))
    {
      if q in requests {
        requests := requests[q := requests[q].(alive := false)];
      }
    }

    method DirectReserve(room: nat) returns (status: nat)
      modifies this, hotel
      ensures View() == Apply(old(View()), Event.DirectReserve(room))
      ensures status == 200 <==> room in old(hotel.available) && old(hotel.available)[room]
    {
      status := hotel.ReserveRoom(room);
      if status == 200 { log := log + [ReservedDirectly(room)]; }
    }

    method DirectRelease(room: nat) returns (status: nat)
      modifies this, hotel
      ensures View() == Apply(old(View()), Event.DirectRelease(room))
      ensures status == 200 <==> room in old(hotel.available)
    {
      ghost var taken := room in hotel.available && !hotel.available[room];
      status := hotel.ReleaseRoom(room);
      if status == 200 { log := log + [ReleasedDirectly(room, taken)]; }
    }

    /** `create_booking` run to its end with nothing in between: it books exactly when the
        room is available, and otherwise changes neither database. */
    method CreateBooking(q: nat, room: nat, user: nat, b: nat) returns (status: nat)
      requires q !in requests && b !in bookings
      modifies this, hotel
      ensures status == if room in old(hotel.available) && old(hotel.available)[room] then 201 else 409
      ensures status == 201 ==>
        && bookings == old(bookings)[b := Booking(room, user, Pending)]
        && hotel.available == old(hotel.available)[room := false]
      ensures status != 201 ==> bookings == old(bookings) && hotel.available == old(hotel.available)
      ensures View()
        == Apply(Apply(Apply(old(View()), Event.StartCreate(q, room, user)), Event.Reserve(q)), Event.Insert(q, b))
    {
      StartCreate(q, room, user);
      Reserve(q);
      Insert(q, b);
      match requests[q].pc {
        case Refused(code) => status := code;
        case _ => status := 201;
      }
    }

    /** `cancel_booking` run to its end with nothing in between. */
    method CancelBooking(q: nat, b: nat) returns (status: nat)
      requires q !in requests
      modifies this, hotel
      ensures status ==
        if b !in old(bookings) then 404
        else if old(bookings)[b].status == Cancelled then 409
        else if old(bookings)[b].room !in old(hotel.available) then 502
        else 200
      ensures status == 200 ==>
        bookings == old(bookings)[b := old(bookings)[b].(status := Cancelled)]
        && hotel.available == old(hotel.available)[old(bookings)[b].room := true]
      ensures status != 200 ==> bookings == old(bookings) && hotel.available == old(hotel.available)
      ensures View() == Apply(Apply(Apply(old(View()), Event.StartCancel(q, b)), Event.Release(q)), Event.Commit(q))
    {
      StartCancel(q, b);
      Release(q);
      Commit(q);
      match requests[q].pc {
        case Refused(code) => status := code;
        case _ => status := 200;
      }
    }
  }

  /** A create and the cancel of its booking, neither interrupted, give the room back and
      leave every other booking and room alone. */
  lemma CancelUndoesCreate(es: seq<Event>, q: nat, p: nat, r: nat, u: nat, b: nat)
    requires var s := Exec(es);
      q !in s.requests && p !in s.requests && p != q && b !in s.bookings && r in s.rooms && s.rooms[r]
    ensures var s := Exec(es);
      var t := Exec(es + Create(q, r, u, b) + [StartCancel(p, b)] + [Release(p), Commit(p)]);
      t.rooms == s.rooms && t.bookings == s.bookings[b := Booking(r, u, Cancelled)]
  {
    ExecCreate(es, q, r, u, b);
    var mid := es + Create(q, r, u, b);
    ExecSnoc(mid, StartCancel(p, b));
    ExecReleaseCommit(mid + [StartCancel(p, b)], p, b, r);
  }
}
