/**
 * The seat-inventory ledger of App.tsx: the list of trains, the list of
 * bookings, and the handlers that change them (reserve, release, and the
 * administrator's add, replace and delete), plus the two derived views
 * (the station list and a user's bookings).
 *
 * Each handler is first given as a function from the old lists to the new
 * ones; the class Ledger at the end holds the two lists as fields and
 * implements the handlers as methods proved equal to those functions.
 */
module Ledger {
  import opened Wrappers
  import opened Types
  import opened Text
  import opened Seqs

  /** The two lists the ledger owns. */
  datatype Inventory = Inventory(trains: seq<Train>, bookings: seq<Booking>)

  // ---------------------------------------------------------------------
  // Lookups and well-formedness
  // ---------------------------------------------------------------------

  /** trains.find(t => t.id === id): the first train with that id. */
  function FindTrain(trains: seq<Train>, id: string): (r: Option<Train>)
    ensures r.None? <==> forall t :: t in trains ==> t.id != id
    ensures r.Some? ==> r.value.id == id && r.value in trains
    ensures r.Some? && trains[0].id != id ==> r == FindTrain(trains[1..], id)
    ensures |trains| > 0 && trains[0].id == id ==> r == Some(trains[0])
  {
    if trains == [] then None
    else if trains[0].id == id then Some(trains[0])
    else FindTrain(trains[1..], id)
  }

  /** find returns the first train with the id: every train before it in
      the list has another id. */
  lemma {:induction false} FindTrainFirst(trains: seq<Train>, id: string)
    requires FindTrain(trains, id).Some?
    ensures exists i :: 0 <= i < |trains| && trains[i] == FindTrain(trains, id).value
                        && forall j :: 0 <= j < i ==> trains[j].id != id
  {
    if trains[0].id != id {
      FindTrainFirst(trains[1..], id);
      var i :| 0 <= i < |trains[1..]| && trains[1..][i] == FindTrain(trains[1..], id).value
               && forall j :: 0 <= j < i ==> trains[1..][j].id != id;
      assert trains[i + 1] == FindTrain(trains, id).value;
    }
  }

  /** Train ids are drawn from the clock and never repeat. */
  predicate UniqueTrainIds(trains: seq<Train>)
  {
    forall i, j :: 0 <= i < j < |trains| ==> trains[i].id != trains[j].id
  }

  /** Booking ids are drawn from the clock and never repeat. */
  predicate UniqueBookingIds(bookings: seq<Booking>)
  {
    forall i, j :: 0 <= i < j < |bookings| ==> bookings[i].id != bookings[j].id
  }

  predicate FreshBookingId(bookings: seq<Booking>, id: string)
  {
    forall b :: b in bookings ==> b.id != id
  }

  /** Release deletes a booking instead of marking it, so every booking
      still in the list is a Confirmed one. */
  predicate AllConfirmed(bookings: seq<Booking>)
  {
    forall b :: b in bookings ==> b.status == Confirmed
  }

  predicate WellFormed(s: Inventory)
  {
    UniqueTrainIds(s.trains) && UniqueBookingIds(s.bookings) && AllConfirmed(s.bookings)
  }

  /** With unique ids, the train with a given id is the one find returns. */
  lemma {:induction false} FindUnique(trains: seq<Train>, t: Train)
    requires UniqueTrainIds(trains) && t in trains
    ensures FindTrain(trains, t.id) == Some(t)
  {
    if trains[0] != t {
      var rest := trains[1..];
      assert t in rest;
      assert UniqueTrainIds(rest) by {
        forall i, j | 0 <= i < j < |rest| ensures rest[i].id != rest[j].id {
          assert rest[i] == trains[i + 1] && rest[j] == trains[j + 1];
        }
      }
      FindUnique(rest, t);
    }
  }

  // ---------------------------------------------------------------------
  // Seat arithmetic
  // ---------------------------------------------------------------------

  /** The train with availableSeats of class c moved by delta; nothing
      else in the train changes. */
  function ShiftSeats(t: Train, c: ClassName, delta: int): (r: Train)
    ensures r.classes.Get(c).availableSeats == t.classes.Get(c).availableSeats + delta
    ensures r.classes.Get(c).totalSeats == t.classes.Get(c).totalSeats
    ensures r.classes.Get(c).price == t.classes.Get(c).price
    ensures forall k :: k != c ==> r.classes.Get(k) == t.classes.Get(k)
    ensures r.(classes := t.classes) == t
  {
    var fc := t.classes.Get(c);
    t.(classes := t.classes.Put(c, fc.(availableSeats := fc.availableSeats + delta)))
  }

  lemma ShiftSeatsInverse(t: Train, c: ClassName, delta: int)
    ensures ShiftSeats(ShiftSeats(t, c, -delta), c, delta) == t
  {
    var r := ShiftSeats(ShiftSeats(t, c, -delta), c, delta);
    assert r.classes.first == t.classes.first by { assert r.classes.Get(First) == t.classes.Get(First); }
    assert r.classes.business == t.classes.business by { assert r.classes.Get(Business) == t.classes.Get(Business); }
    assert r.classes.economy == t.classes.economy by { assert r.classes.Get(Economy) == t.classes.Get(Economy); }
  }

  /** trains.map(t => t.id === id ? shifted t : t): every train with that
      id gets class c moved by delta; every other train is kept as it is,
      at the same position. */
  function AdjustSeats(trains: seq<Train>, id: string, c: ClassName, delta: int): (r: seq<Train>)
    ensures |r| == |trains|
    ensures forall i :: 0 <= i < |trains| && trains[i].id == id ==> r[i] == ShiftSeats(trains[i], c, delta)
    ensures forall i :: 0 <= i < |trains| && trains[i].id != id ==> r[i] == trains[i]
  {
    if trains == [] then []
    else [if trains[0].id == id then ShiftSeats(trains[0], c, delta) else trains[0]]
         + AdjustSeats(trains[1..], id, c, delta)
  }

  /** Adjusting a train that is not in the list changes nothing. */
  lemma AdjustAbsent(trains: seq<Train>, id: string, c: ClassName, delta: int)
    requires FindTrain(trains, id).None?
    ensures AdjustSeats(trains, id, c, delta) == trains
  {
    var r := AdjustSeats(trains, id, c, delta);
    forall i | 0 <= i < |trains| ensures r[i] == trains[i] {
      assert trains[i] in trains;
    }
  }

  /** Sum of the seats still available in class c over the trains with
      that id (with unique ids: the one train's count, or 0). */
  function SeatsOf(trains: seq<Train>, id: string, c: ClassName): int
  {
    if trains == [] then 0
    else (if trains[0].id == id then trains[0].classes.Get(c).availableSeats else 0)
         + SeatsOf(trains[1..], id, c)
  }

  /** Sum of the passengers of the bookings on train id in class c. */
  function BookedSeats(bookings: seq<Booking>, id: string, c: ClassName): int
  {
    if bookings == [] then 0
    else (if bookings[0].trainId == id && bookings[0].fareClass == c then bookings[0].passengers else 0)
         + BookedSeats(bookings[1..], id, c)
  }

  /** Seats of (train id, class c) either still free or held by a booking:
      the quantity that reserve and release conserve. */
  function Load(s: Inventory, id: string, c: ClassName): int
  {
    SeatsOf(s.trains, id, c) + BookedSeats(s.bookings, id, c)
  }

  lemma {:induction false} SeatsOfAbsent(trains: seq<Train>, id: string, c: ClassName)
    requires FindTrain(trains, id).None?
    ensures SeatsOf(trains, id, c) == 0
  {
    if trains != [] {
      assert trains[0] in trains;
      SeatsOfAbsent(trains[1..], id, c);
    }
  }

  /** With unique ids, SeatsOf is the count of the one matching train. */
  lemma {:induction false} SeatsOfFound(trains: seq<Train>, t: Train, c: ClassName)
    requires UniqueTrainIds(trains) && t in trains
    ensures SeatsOf(trains, t.id, c) == t.classes.Get(c).availableSeats
  {
    FindUnique(trains, t);
    if trains[0] == t {
      assert FindTrain(trains[1..], t.id).None? by {
        forall u | u in trains[1..] ensures u.id != t.id {
          var j :| 0 <= j < |trains[1..]| && trains[1..][j] == u;
          assert trains[0].id != trains[j + 1].id;
        }
      }
      SeatsOfAbsent(trains[1..], t.id, c);
    } else {
      assert t in trains[1..];
      SeatsOfFound(trains[1..], t, c);
    }
  }

  /** Shifting the seats of train id, class c, by delta moves SeatsOf by
      delta for that pair only, provided the train exists and ids are unique. */
  lemma {:induction false} SeatsOfAdjust(trains: seq<Train>, id: string, c: ClassName, delta: int, t: string, k: ClassName)
    requires UniqueTrainIds(trains)
    ensures SeatsOf(AdjustSeats(trains, id, c, delta), t, k)
         == SeatsOf(trains, t, k) + (if t == id && k == c && FindTrain(trains, id).Some? then delta else 0)
  {
    if trains != [] {
      var rest := trains[1..];
      assert UniqueTrainIds(rest) by {
        forall i, j | 0 <= i < j < |rest| ensures rest[i].id != rest[j].id {
          assert rest[i] == trains[i + 1] && rest[j] == trains[j + 1];
        }
      }
      SeatsOfAdjust(rest, id, c, delta, t, k);
      assert AdjustSeats(trains, id, c, delta)[1..] == AdjustSeats(rest, id, c, delta);
      if trains[0].id == id {
        assert FindTrain(rest, id).None? by {
          forall u | u in rest ensures u.id != id {
            var j :| 0 <= j < |rest| && rest[j] == u;
            assert trains[0].id != trains[j + 1].id;
          }
        }
      }
    }
  }

  lemma {:induction false} BookedAppend(bookings: seq<Booking>, b: Booking, id: string, c: ClassName)
    ensures BookedSeats(bookings + [b], id, c)
         == BookedSeats(bookings, id, c) + (if b.trainId == id && b.fareClass == c then b.passengers else 0)
  {
    if bookings == [] {
      assert [b][1..] == [];
    } else {
      assert (bookings + [b])[1..] == bookings[1..] + [b];
      BookedAppend(bookings[1..], b, id, c);
    }
  }

  // ---------------------------------------------------------------------
  // Reserve (handleBook)
  // ---------------------------------------------------------------------

  /** The arguments of handleBook. */
  datatype BookRequest = BookRequest(trainId: string, date: string, passengers: int, fareClass: ClassName)

  /** What handleBook reports: the train is unknown, the class has too few
      seats (with the count still available), or the booking it made. */
  datatype BookOutcome = TrainNotFound | SeatsShort(available: int) | Booked(booking: Booking)

  datatype Reservation = Reservation(after: Inventory, outcome: BookOutcome)

  /** The booking handleBook creates for train t; the price is fixed from
      the class's current price. */
  function NewBooking(t: Train, req: BookRequest, userId: string, bookingId: string): (b: Booking)
    ensures b.id == bookingId && b.userId == userId && b.trainId == t.id
    ensures b.trainName == t.trainName && b.trainNumber == t.trainNumber && b.destination == t.destination
    ensures b.date == req.date && b.fareClass == req.fareClass && b.passengers == req.passengers
    ensures b.totalPrice == t.classes.Get(req.fareClass).price * req.passengers
    ensures b.status == Confirmed
  {
    Booking(bookingId, userId, t.id, t.trainNumber, t.trainName, t.destination, req.date,
            req.fareClass, req.passengers, t.classes.Get(req.fareClass).price * req.passengers, Confirmed)
  }

  /** handleBook as a function of the two lists. Nothing is changed unless
      the train exists and its class has at least the requested seats. */
  function Reserve(s: Inventory, req: BookRequest, userId: string, bookingId: string): (r: Reservation)
    ensures r.outcome.TrainNotFound? <==> FindTrain(s.trains, req.trainId).None?
    ensures r.outcome.SeatsShort? <==>
              FindTrain(s.trains, req.trainId).Some? &&
              FindTrain(s.trains, req.trainId).value.classes.Get(req.fareClass).availableSeats < req.passengers
    ensures r.outcome.SeatsShort? ==>
              r.outcome.available == FindTrain(s.trains, req.trainId).value.classes.Get(req.fareClass).availableSeats
    ensures !r.outcome.Booked? ==> r.after == s
    ensures r.outcome.Booked? ==>
              && r.outcome.booking == NewBooking(FindTrain(s.trains, req.trainId).value, req, userId, bookingId)
              && r.after.bookings == s.bookings + [r.outcome.booking]
              && r.after.trains == AdjustSeats(s.trains, req.trainId, req.fareClass, -req.passengers)
  {
    match FindTrain(s.trains, req.trainId)
    case None => Reservation(s, TrainNotFound)
    case Some(t) =>
      var available := t.classes.Get(req.fareClass).availableSeats;
      if available < req.passengers then Reservation(s, SeatsShort(available))
      else
        var b := NewBooking(t, req, userId, bookingId);
        Reservation(Inventory(AdjustSeats(s.trains, req.trainId, req.fareClass, -req.passengers), s.bookings + [b]),
                    Booked(b))
  }

  /** A successful reserve decrements exactly the selected class of the
      selected train; every other class and every other train is as before. */
  lemma ReserveTouchesOnlySelected(s: Inventory, req: BookRequest, userId: string, bookingId: string, i: nat, k: ClassName)
    requires Reserve(s, req, userId, bookingId).outcome.Booked? && i < |s.trains|
    ensures var after := Reserve(s, req, userId, bookingId).after.trains;
      && |after| == |s.trains|
      && after[i].classes.Get(k).availableSeats
         == s.trains[i].classes.Get(k).availableSeats
            - (if s.trains[i].id == req.trainId && k == req.fareClass then req.passengers else 0)
      && after[i].classes.Get(k).totalSeats == s.trains[i].classes.Get(k).totalSeats
      && after[i].classes.Get(k).price == s.trains[i].classes.Get(k).price
      && after[i].(classes := s.trains[i].classes) == s.trains[i]
  {
  }

  /** No overbooking: a successful reserve leaves the booked class of the
      booked train with a non-negative count, whatever it held before. */
  lemma ReserveNeverOverbooks(s: Inventory, req: BookRequest, userId: string, bookingId: string, i: nat)
    requires UniqueTrainIds(s.trains)
    requires Reserve(s, req, userId, bookingId).outcome.Booked?
    requires i < |s.trains| && s.trains[i].id == req.trainId
    ensures Reserve(s, req, userId, bookingId).after.trains[i].classes.Get(req.fareClass).availableSeats >= 0
  {
    FindUnique(s.trains, s.trains[i]);
  }

  /** Seats stay within [0, totalSeats] across a successful reserve, as
      long as the passenger count is not negative. */
  lemma ReserveKeepsBounds(s: Inventory, req: BookRequest, userId: string, bookingId: string, i: nat, k: ClassName)
    requires UniqueTrainIds(s.trains) && req.passengers >= 0 && i < |s.trains|
    requires 0 <= s.trains[i].classes.Get(k).availableSeats <= s.trains[i].classes.Get(k).totalSeats
    ensures var t := Reserve(s, req, userId, bookingId).after.trains[i];
      0 <= t.classes.Get(k).availableSeats <= t.classes.Get(k).totalSeats
  {
    FindUnique(s.trains, s.trains[i]);
  }

  /** Reserving at a listed train with enough seats in the class books,
      and the train at that position has the class shifted down. */
  lemma ReserveAt(s: Inventory, req: BookRequest, userId: string, bookingId: string, i: nat)
    requires UniqueTrainIds(s.trains) && i < |s.trains| && s.trains[i].id == req.trainId
    requires s.trains[i].classes.Get(req.fareClass).availableSeats >= req.passengers
    ensures var r := Reserve(s, req, userId, bookingId);
      && r.outcome.Booked?
      && r.outcome.booking == NewBooking(s.trains[i], req, userId, bookingId)
      && |r.after.trains| == |s.trains|
      && r.after.trains[i] == ShiftSeats(s.trains[i], req.fareClass, -req.passengers)
      && r.after.bookings == s.bookings + [r.outcome.booking]
      && UniqueTrainIds(r.after.trains)
  {
    FindUnique(s.trains, s.trains[i]);
    AdjustKeepsIds(s.trains, req.trainId, req.fareClass, -req.passengers);
  }

  /** handleBook never checks that passengers > 0: a negative count is
      accepted and pushes a full class above its total. */
  lemma ReserveNegativeOverfills(s: Inventory, req: BookRequest, userId: string, bookingId: string, i: nat)
    requires UniqueTrainIds(s.trains) && i < |s.trains| && s.trains[i].id == req.trainId
    requires req.passengers < 0 <= s.trains[i].classes.Get(req.fareClass).availableSeats
    requires s.trains[i].classes.Get(req.fareClass).availableSeats == s.trains[i].classes.Get(req.fareClass).totalSeats
    ensures var r := Reserve(s, req, userId, bookingId);
      && r.outcome.Booked?
      && r.after.trains[i].classes.Get(req.fareClass).availableSeats
         > r.after.trains[i].classes.Get(req.fareClass).totalSeats
  {
    FindUnique(s.trains, s.trains[i]);
  }

  /** Conservation across reserve: for every (train, class) the free seats
      plus the booked seats are the same after the call as before. */
  lemma ReserveConserves(s: Inventory, req: BookRequest, userId: string, bookingId: string, t: string, k: ClassName)
    requires UniqueTrainIds(s.trains)
    ensures Load(Reserve(s, req, userId, bookingId).after, t, k) == Load(s, t, k)
  {
    var r := Reserve(s, req, userId, bookingId);
    if r.outcome.Booked? {
      SeatsOfAdjust(s.trains, req.trainId, req.fareClass, -req.passengers, t, k);
      BookedAppend(s.bookings, r.outcome.booking, t, k);
    }
  }

  // ---------------------------------------------------------------------
  // Release (handleCancel)
  // ---------------------------------------------------------------------

  /** bookings.filter(b => b.id !== id) */
  function DropBooking(bookings: seq<Booking>, id: string): (r: seq<Booking>)
    ensures forall b :: b in r <==> b in bookings && b.id != id
  {
    Filter(bookings, (b: Booking) => b.id != id)
  }

  /** The filter keeps each booking with another id as often as it is
      listed, and no booking with the id. */
  lemma DropBookingCounts(bookings: seq<Booking>, id: string)
    ensures forall b :: multiset(DropBooking(bookings, id))[b] == if b.id != id then multiset(bookings)[b] else 0
  {
    FilterCounts(bookings, (b: Booking) => b.id != id);
  }

  /** handleCancel as a function of the two lists: the passengers go back
      to the train's class (with no cap at totalSeats, and no change at all
      if the train is gone) and every booking with that id is removed. */
  function Release(s: Inventory, bk: Booking): (r: Inventory)
    ensures r.trains == AdjustSeats(s.trains, bk.trainId, bk.fareClass, bk.passengers)
    ensures forall b :: b in r.bookings <==> b in s.bookings && b.id != bk.id
    ensures Embeds(r.bookings, s.bookings)
  {
    FilterEmbeds(s.bookings, (b: Booking) => b.id != bk.id);
    Inventory(AdjustSeats(s.trains, bk.trainId, bk.fareClass, bk.passengers), DropBooking(s.bookings, bk.id))
  }

  /** If the booked train has been deleted, release leaves the trains alone. */
  lemma ReleaseOrphan(s: Inventory, bk: Booking)
    requires FindTrain(s.trains, bk.trainId).None?
    ensures Release(s, bk).trains == s.trains
  {
    AdjustAbsent(s.trains, bk.trainId, bk.fareClass, bk.passengers);
  }

  /** Release adds the passengers back without capping at totalSeats: a
      class already at its total goes above it. */
  lemma ReleaseDoesNotClamp(s: Inventory, bk: Booking, i: nat)
    requires i < |s.trains| && s.trains[i].id == bk.trainId && bk.passengers > 0
    requires s.trains[i].classes.Get(bk.fareClass).availableSeats == s.trains[i].classes.Get(bk.fareClass).totalSeats
    ensures var t := Release(s, bk).trains[i];
      t.classes.Get(bk.fareClass).availableSeats > t.classes.Get(bk.fareClass).totalSeats
  {
  }

  lemma {:induction false} DropAbsent(bookings: seq<Booking>, id: string)
    requires FreshBookingId(bookings, id)
    ensures DropBooking(bookings, id) == bookings
  {
    FilterAll(bookings, (b: Booking) => b.id != id);
  }

  lemma {:induction false} UniqueBookingsTail(bookings: seq<Booking>)
    requires UniqueBookingIds(bookings) && bookings != []
    ensures UniqueBookingIds(bookings[1..])
    ensures FreshBookingId(bookings[1..], bookings[0].id)
  {
    var rest := bookings[1..];
    forall i, j | 0 <= i < j < |rest| ensures rest[i].id != rest[j].id {
      assert rest[i] == bookings[i + 1] && rest[j] == bookings[j + 1];
    }
    forall b | b in rest ensures b.id != bookings[0].id {
      var j :| 0 <= j < |rest| && rest[j] == b;
      assert bookings[0].id != bookings[j + 1].id;
    }
  }

  /** Removing a booking that is in the list (ids unique) takes exactly its
      passengers off the booked count of its (train, class). */
  lemma {:induction false} BookedDrop(bookings: seq<Booking>, bk: Booking, id: string, c: ClassName)
    requires UniqueBookingIds(bookings) && bk in bookings
    ensures BookedSeats(DropBooking(bookings, bk.id), id, c)
         == BookedSeats(bookings, id, c) - (if bk.trainId == id && bk.fareClass == c then bk.passengers else 0)
  {
    UniqueBookingsTail(bookings);
    var rest := bookings[1..];
    if bookings[0] == bk {
      DropAbsent(rest, bk.id);
      assert DropBooking(bookings, bk.id) == DropBooking(rest, bk.id);
    } else {
      assert bk in rest;
      assert bookings[0].id != bk.id;
      BookedDrop(rest, bk, id, c);
      assert DropBooking(bookings, bk.id) == [bookings[0]] + DropBooking(rest, bk.id);
      assert ([bookings[0]] + DropBooking(rest, bk.id))[1..] == DropBooking(rest, bk.id);
    }
  }

  /** Conservation across release, for a booking that is in the ledger
      and whose train still exists. */
  lemma ReleaseConserves(s: Inventory, bk: Booking, t: string, k: ClassName)
    requires UniqueTrainIds(s.trains) && UniqueBookingIds(s.bookings)
    requires bk in s.bookings && FindTrain(s.trains, bk.trainId).Some?
    ensures Load(Release(s, bk), t, k) == Load(s, t, k)
  {
    SeatsOfAdjust(s.trains, bk.trainId, bk.fareClass, bk.passengers, t, k);
    BookedDrop(s.bookings, bk, t, k);
  }

  /** Reserve followed by release of the booking it made restores both
      lists exactly, provided the new booking id was fresh. */
  lemma ReserveReleaseRoundTrip(s: Inventory, req: BookRequest, userId: string, bookingId: string)
    requires FreshBookingId(s.bookings, bookingId)
    requires Reserve(s, req, userId, bookingId).outcome.Booked?
    ensures Release(Reserve(s, req, userId, bookingId).after,
                    Reserve(s, req, userId, bookingId).outcome.booking) == s
  {
    var r := Reserve(s, req, userId, bookingId);
    var b := r.outcome.booking;
    var trains := Release(r.after, b).trains;
    assert |trains| == |s.trains|;
    forall i | 0 <= i < |s.trains| ensures trains[i] == s.trains[i] {
      if s.trains[i].id == req.trainId {
        ShiftSeatsInverse(s.trains[i], req.fareClass, req.passengers);
      }
    }
    FilterAppendDropped(s.bookings, b, (x: Booking) => x.id != b.id);
    DropAbsent(s.bookings, b.id);
  }

  // ---------------------------------------------------------------------
  // Administrator edits
  // ---------------------------------------------------------------------

  /** trains.map(t => t.id === u.id ? u : t): the whole record is replaced,
      with no merge; length and order are kept. */
  function ReplaceTrain(trains: seq<Train>, u: Train): (r: seq<Train>)
    ensures |r| == |trains|
    ensures forall i :: 0 <= i < |trains| && trains[i].id == u.id ==> r[i] == u
    ensures forall i :: 0 <= i < |trains| && trains[i].id != u.id ==> r[i] == trains[i]
  {
    if trains == [] then []
    else [if trains[0].id == u.id then u else trains[0]] + ReplaceTrain(trains[1..], u)
  }

  /** trains.filter(t => t.id !== id) */
  function RemoveTrain(trains: seq<Train>, id: string): (r: seq<Train>)
    ensures forall t :: t in r <==> t in trains && t.id != id
    ensures FindTrain(r, id).None?
    ensures Embeds(r, trains)
  {
    FilterEmbeds(trains, (t: Train) => t.id != id);
    Filter(trains, (t: Train) => t.id != id)
  }

  /** An edit can set availableSeats to anything the form allows, so it
      moves the conserved quantity by the difference: conservation holds
      for reserve and release only. */
  lemma ReplaceShiftsLoad(s: Inventory, u: Train, prior: Train, k: ClassName)
    requires UniqueTrainIds(s.trains) && prior in s.trains && prior.id == u.id
    ensures Load(Inventory(ReplaceTrain(s.trains, u), s.bookings), u.id, k)
         == Load(s, u.id, k) - prior.classes.Get(k).availableSeats + u.classes.Get(k).availableSeats
  {
    var r := ReplaceTrain(s.trains, u);
    assert UniqueTrainIds(r) by {
      forall i, j | 0 <= i < j < |r| ensures r[i].id != r[j].id {
        assert r[i].id == s.trains[i].id && r[j].id == s.trains[j].id;
      }
    }
    var j :| 0 <= j < |s.trains| && s.trains[j] == prior;
    assert r[j] == u;
    SeatsOfFound(r, u, k);
    SeatsOfFound(s.trains, prior, k);
  }

  /** Deleting a train does not touch the bookings: those that pointed at
      it are left dangling, and releasing one of them no longer restores
      any seats. */
  lemma DeleteLeavesDangling(s: Inventory, id: string, bk: Booking)
    requires bk in s.bookings && bk.trainId == id
    ensures var after := Inventory(RemoveTrain(s.trains, id), s.bookings);
      && bk in after.bookings
      && FindTrain(after.trains, id).None?
      && Release(after, bk).trains == after.trains
  {
    ReleaseOrphan(Inventory(RemoveTrain(s.trains, id), s.bookings), bk);
  }

  // ---------------------------------------------------------------------
  // Well-formedness is kept by every handler
  // ---------------------------------------------------------------------

  lemma AdjustKeepsIds(trains: seq<Train>, id: string, c: ClassName, delta: int)
    requires UniqueTrainIds(trains)
    ensures UniqueTrainIds(AdjustSeats(trains, id, c, delta))
  {
    var r := AdjustSeats(trains, id, c, delta);
    forall i, j | 0 <= i < j < |r| ensures r[i].id != r[j].id {
      assert r[i].id == trains[i].id && r[j].id == trains[j].id;
    }
  }

  lemma ReplaceKeepsIds(trains: seq<Train>, u: Train)
    requires UniqueTrainIds(trains)
    ensures UniqueTrainIds(ReplaceTrain(trains, u))
  {
    var r := ReplaceTrain(trains, u);
    forall i, j | 0 <= i < j < |r| ensures r[i].id != r[j].id {
      assert r[i].id == trains[i].id && r[j].id == trains[j].id;
    }
  }

  lemma {:induction false} FilterKeepsUniqueTrains(trains: seq<Train>, keep: Train -> bool)
    requires UniqueTrainIds(trains)
    ensures UniqueTrainIds(Filter(trains, keep))
  {
    if trains != [] {
      var rest := trains[1..];
      assert UniqueTrainIds(rest) by {
        forall i, j | 0 <= i < j < |rest| ensures rest[i].id != rest[j].id {
          assert rest[i] == trains[i + 1] && rest[j] == trains[j + 1];
        }
      }
      FilterKeepsUniqueTrains(rest, keep);
      if keep(trains[0]) {
        var r := Filter(trains, keep);
        assert r == [trains[0]] + Filter(rest, keep);
        forall i, j | 0 <= i < j < |r| ensures r[i].id != r[j].id {
          if i == 0 {
            assert r[j] in Filter(rest, keep);
            var m :| 0 <= m < |rest| && rest[m] == r[j];
            assert trains[0].id != trains[m + 1].id;
          } else {
            assert r[i] == Filter(rest, keep)[i - 1] && r[j] == Filter(rest, keep)[j - 1];
          }
        }
      }
    }
  }

  lemma {:induction false} FilterKeepsUniqueBookings(bookings: seq<Booking>, keep: Booking -> bool)
    requires UniqueBookingIds(bookings)
    ensures UniqueBookingIds(Filter(bookings, keep))
  {
    if bookings != [] {
      var rest := bookings[1..];
      UniqueBookingsTail(bookings);
      FilterKeepsUniqueBookings(rest, keep);
      if keep(bookings[0]) {
        var r := Filter(bookings, keep);
        assert r == [bookings[0]] + Filter(rest, keep);
        forall i, j | 0 <= i < j < |r| ensures r[i].id != r[j].id {
          if i == 0 {
            assert r[j] in Filter(rest, keep);
          } else {
            assert r[i] == Filter(rest, keep)[i - 1] && r[j] == Filter(rest, keep)[j - 1];
          }
        }
      }
    }
  }

  lemma ReserveKeepsWellFormed(s: Inventory, req: BookRequest, userId: string, bookingId: string)
    requires WellFormed(s) && FreshBookingId(s.bookings, bookingId)
    ensures WellFormed(Reserve(s, req, userId, bookingId).after)
  {
    var r := Reserve(s, req, userId, bookingId);
    if r.outcome.Booked? {
      AdjustKeepsIds(s.trains, req.trainId, req.fareClass, -req.passengers);
      var bs := r.after.bookings;
      forall i, j | 0 <= i < j < |bs| ensures bs[i].id != bs[j].id {
        if j == |s.bookings| {
          assert s.bookings[i] in s.bookings;
        } else {
          assert bs[i] == s.bookings[i] && bs[j] == s.bookings[j];
        }
      }
    }
  }

  lemma ReleaseKeepsWellFormed(s: Inventory, bk: Booking)
    requires WellFormed(s)
    ensures WellFormed(Release(s, bk))
  {
    AdjustKeepsIds(s.trains, bk.trainId, bk.fareClass, bk.passengers);
    FilterKeepsUniqueBookings(s.bookings, (b: Booking) => b.id != bk.id);
  }

  // ---------------------------------------------------------------------
  // Sequences of reserve and release
  // ---------------------------------------------------------------------

  /** One user action that reaches the ledger from the booking screen. */
  datatype Action =
    | Book(req: BookRequest, userId: string, bookingId: string)
    | Cancel(booking: Booking)

  function Step(s: Inventory, a: Action): Inventory
  {
    match a
    case Book(req, userId, bookingId) => Reserve(s, req, userId, bookingId).after
    case Cancel(bk) => Release(s, bk)
  }

  function Run(s: Inventory, actions: seq<Action>): Inventory
    decreases |actions|
  {
    if actions == [] then s else Run(Step(s, actions[0]), actions[1..])
  }

  /** Every reserve uses a fresh booking id, and every release is of a
      booking that is in the ledger and whose train exists. */
  predicate Admissible(s: Inventory, actions: seq<Action>)
    decreases |actions|
  {
    actions != [] ==> Allowed(s, actions[0]) && Admissible(Step(s, actions[0]), actions[1..])
  }

  predicate Allowed(s: Inventory, a: Action)
  {
    match a
    case Book(_, _, bookingId) => FreshBookingId(s.bookings, bookingId)
    case Cancel(bk) => bk in s.bookings && FindTrain(s.trains, bk.trainId).Some?
  }

  lemma RunThree(s: Inventory, a1: Action, a2: Action, a3: Action)
    ensures Run(s, [a1, a2, a3]) == Step(Step(Step(s, a1), a2), a3)
    ensures Admissible(s, [a1, a2, a3])
            <==> Allowed(s, a1) && Allowed(Step(s, a1), a2) && Allowed(Step(Step(s, a1), a2), a3)
  {
    var s1, s2 := Step(s, a1), Step(Step(s, a1), a2);
    assert [a1, a2, a3][1..] == [a2, a3];
    assert [a2, a3][1..] == [a3];
    assert [a3][1..] == [];
    assert Run(s2, [a3]) == Step(s2, a3) && (Admissible(s2, [a3]) <==> Allowed(s2, a3));
    assert Run(s1, [a2, a3]) == Run(s2, [a3]) && (Admissible(s1, [a2, a3]) <==> Allowed(s1, a2) && Admissible(s2, [a3]));
  }

  /** Seat conservation over any admissible sequence of reserves and
      releases, successful or not. */
  lemma {:induction false} RunConserves(s: Inventory, actions: seq<Action>, t: string, k: ClassName)
    requires WellFormed(s) && Admissible(s, actions)
    ensures WellFormed(Run(s, actions))
    ensures Load(Run(s, actions), t, k) == Load(s, t, k)
    decreases |actions|
  {
    if actions != [] {
      match actions[0] {
        case Book(req, userId, bookingId) =>
          ReserveKeepsWellFormed(s, req, userId, bookingId);
          ReserveConserves(s, req, userId, bookingId, t, k);
        case Cancel(bk) =>
          ReleaseKeepsWellFormed(s, bk);
          ReleaseConserves(s, bk, t, k);
      }
      RunConserves(Step(s, actions[0]), actions[1..], t, k);
    }
  }

  // ---------------------------------------------------------------------
  // Every booking names a listed train
  // ---------------------------------------------------------------------

  /** Reserve books only a train it found, and release removes no train,
      so under these two every booking in the ledger names a listed train.
      (Only a delete by the administrator breaks this.) */
  predicate BookingsListed(s: Inventory)
  {
    forall b :: b in s.bookings ==> FindTrain(s.trains, b.trainId).Some?
  }

  /** The map over trains keeps every id, so it finds the same ids. */
  lemma AdjustKeepsListed(trains: seq<Train>, id: string, c: ClassName, delta: int, x: string)
    ensures FindTrain(AdjustSeats(trains, id, c, delta), x).Some? <==> FindTrain(trains, x).Some?
  {
    var r := AdjustSeats(trains, id, c, delta);
    if FindTrain(trains, x).Some? {
      var j :| 0 <= j < |trains| && trains[j] == FindTrain(trains, x).value;
      assert r[j].id == x && r[j] in r;
    }
    if FindTrain(r, x).Some? {
      var j :| 0 <= j < |r| && r[j] == FindTrain(r, x).value;
      assert trains[j].id == x && trains[j] in trains;
    }
  }

  lemma ReserveKeepsListed(s: Inventory, req: BookRequest, userId: string, bookingId: string)
    requires BookingsListed(s)
    ensures BookingsListed(Reserve(s, req, userId, bookingId).after)
  {
    var r := Reserve(s, req, userId, bookingId);
    if r.outcome.Booked? {
      forall b | b in r.after.bookings
        ensures FindTrain(r.after.trains, b.trainId).Some?
      {
        AdjustKeepsListed(s.trains, req.trainId, req.fareClass, -req.passengers, b.trainId);
      }
    }
  }

  lemma ReleaseKeepsListed(s: Inventory, bk: Booking)
    requires BookingsListed(s)
    ensures BookingsListed(Release(s, bk))
  {
    forall b | b in Release(s, bk).bookings
      ensures FindTrain(Release(s, bk).trains, b.trainId).Some?
    {
      AdjustKeepsListed(s.trains, bk.trainId, bk.fareClass, bk.passengers, b.trainId);
    }
  }

  /** What the booking screen can issue: a reserve with a fresh booking id,
      or the release of a booking the ledger holds. */
  predicate Offered(s: Inventory, a: Action)
  {
    match a
    case Book(_, _, bookingId) => FreshBookingId(s.bookings, bookingId)
    case Cancel(bk) => bk in s.bookings
  }

  predicate OfferedRun(s: Inventory, actions: seq<Action>)
    decreases |actions|
  {
    actions != [] ==> Offered(s, actions[0]) && OfferedRun(Step(s, actions[0]), actions[1..])
  }

  /** When every booking names a listed train, a sequence the booking
      screen can issue is admissible: the train of every released booking
      still exists, so RunConserves and RunKeepsCapacity apply to it. */
  lemma {:induction false} OfferedRunAdmissible(s: Inventory, actions: seq<Action>)
    requires BookingsListed(s) && OfferedRun(s, actions)
    ensures Admissible(s, actions) && BookingsListed(Run(s, actions))
    decreases |actions|
  {
    if actions != [] {
      match actions[0] {
        case Book(req, userId, bookingId) =>
          ReserveKeepsListed(s, req, userId, bookingId);
        case Cancel(bk) =>
          ReleaseKeepsListed(s, bk);
      }
      OfferedRunAdmissible(Step(s, actions[0]), actions[1..]);
    }
  }

  // ---------------------------------------------------------------------
  // Seat bounds over sequences of reserve and release
  // ---------------------------------------------------------------------

  predicate NonNegativeBookings(bookings: seq<Booking>)
  {
    forall b :: b in bookings ==> b.passengers >= 0
  }

  /** Every reserve in the sequence asks for a non-negative number of seats. */
  predicate NonNegativeRequests(actions: seq<Action>)
  {
    forall i :: 0 <= i < |actions| && actions[i].Book? ==> actions[i].req.passengers >= 0
  }

  /** No class has a negative count, and no class has more seats free or
      booked than its total. */
  predicate WithinCapacity(s: Inventory)
  {
    forall i, k :: 0 <= i < |s.trains| ==>
      && 0 <= s.trains[i].classes.Get(k).availableSeats
      && Load(s, s.trains[i].id, k) <= s.trains[i].classes.Get(k).totalSeats
  }

  lemma {:induction false} BookedNonNegative(bookings: seq<Booking>, id: string, c: ClassName)
    requires NonNegativeBookings(bookings)
    ensures BookedSeats(bookings, id, c) >= 0
  {
    if bookings != [] {
      assert bookings[0] in bookings;
      assert NonNegativeBookings(bookings[1..]) by {
        forall b | b in bookings[1..] ensures b.passengers >= 0 {
          assert b in bookings;
        }
      }
      BookedNonNegative(bookings[1..], id, c);
    }
  }

  /** Within capacity, every class lies in [0, totalSeats]. */
  lemma CapacityBounds(s: Inventory)
    requires WellFormed(s) && NonNegativeBookings(s.bookings) && WithinCapacity(s)
    ensures forall i, k :: 0 <= i < |s.trains| ==>
              0 <= s.trains[i].classes.Get(k).availableSeats <= s.trains[i].classes.Get(k).totalSeats
  {
    forall i, k | 0 <= i < |s.trains|
      ensures s.trains[i].classes.Get(k).availableSeats <= s.trains[i].classes.Get(k).totalSeats
    {
      SeatsOfFound(s.trains, s.trains[i], k);
      BookedNonNegative(s.bookings, s.trains[i].id, k);
    }
  }

  /** With no bookings yet, capacity is just every class within its bounds. */
  lemma EmptyWithinCapacity(s: Inventory)
    requires UniqueTrainIds(s.trains) && s.bookings == []
    requires forall i, k :: 0 <= i < |s.trains| ==>
               0 <= s.trains[i].classes.Get(k).availableSeats <= s.trains[i].classes.Get(k).totalSeats
    ensures WithinCapacity(s)
  {
    forall i, k | 0 <= i < |s.trains|
      ensures Load(s, s.trains[i].id, k) == s.trains[i].classes.Get(k).availableSeats
    {
      SeatsOfFound(s.trains, s.trains[i], k);
    }
  }

  lemma ReserveKeepsCapacity(s: Inventory, req: BookRequest, userId: string, bookingId: string)
    requires WellFormed(s) && NonNegativeBookings(s.bookings) && WithinCapacity(s)
    requires req.passengers >= 0
    ensures var after := Reserve(s, req, userId, bookingId).after;
      NonNegativeBookings(after.bookings) && WithinCapacity(after)
  {
    var r := Reserve(s, req, userId, bookingId);
    if r.outcome.Booked? {
      var after := r.after;
      forall i, k | 0 <= i < |after.trains|
        ensures 0 <= after.trains[i].classes.Get(k).availableSeats
        ensures Load(after, after.trains[i].id, k) <= after.trains[i].classes.Get(k).totalSeats
      {
        var t := s.trains[i];
        assert after.trains[i].id == t.id;
        ReserveConserves(s, req, userId, bookingId, t.id, k);
        if t.id == req.trainId {
          FindUnique(s.trains, t);
        }
      }
    }
  }

  lemma ReleaseKeepsCapacity(s: Inventory, bk: Booking)
    requires WellFormed(s) && NonNegativeBookings(s.bookings) && WithinCapacity(s)
    requires bk in s.bookings && FindTrain(s.trains, bk.trainId).Some?
    ensures NonNegativeBookings(Release(s, bk).bookings) && WithinCapacity(Release(s, bk))
  {
    var after := Release(s, bk);
    forall i, k | 0 <= i < |after.trains|
      ensures 0 <= after.trains[i].classes.Get(k).availableSeats
      ensures Load(after, after.trains[i].id, k) <= after.trains[i].classes.Get(k).totalSeats
    {
      var t := s.trains[i];
      assert after.trains[i].id == t.id;
      ReleaseConserves(s, bk, t.id, k);
    }
  }

  /** No overbooking over any admissible sequence of reserves and releases:
      as long as no reserve asks for a negative number of seats, every
      class stays within [0, totalSeats]. */
  lemma {:induction false} RunKeepsCapacity(s: Inventory, actions: seq<Action>)
    requires WellFormed(s) && NonNegativeBookings(s.bookings) && WithinCapacity(s)
    requires Admissible(s, actions) && NonNegativeRequests(actions)
    ensures var e := Run(s, actions);
      && WellFormed(e) && NonNegativeBookings(e.bookings) && WithinCapacity(e)
      && forall i, k :: 0 <= i < |e.trains| ==>
           0 <= e.trains[i].classes.Get(k).availableSeats <= e.trains[i].classes.Get(k).totalSeats
    decreases |actions|
  {
    if actions == [] {
      CapacityBounds(s);
    } else {
      match actions[0] {
        case Book(req, userId, bookingId) =>
          assert req.passengers >= 0;
          ReserveKeepsWellFormed(s, req, userId, bookingId);
          ReserveKeepsCapacity(s, req, userId, bookingId);
        case Cancel(bk) =>
          ReleaseKeepsWellFormed(s, bk);
          ReleaseKeepsCapacity(s, bk);
      }
      assert NonNegativeRequests(actions[1..]) by {
        forall i | 0 <= i < |actions[1..]| && actions[1..][i].Book?
          ensures actions[1..][i].req.passengers >= 0
        {
          assert actions[1..][i] == actions[i + 1];
        }
      }
      RunKeepsCapacity(Step(s, actions[0]), actions[1..]);
    }
  }

  /** The first two steps of the sequence below: reserving -n seats books,
      and reserving the a + n seats then left books too and empties the
      class. */
  lemma OverbookPrefix(s: Inventory, i: nat, k: ClassName, n: int, date: string,
                       userId: string, b1: string, b2: string)
    requires WellFormed(s) && i < |s.trains| && n > 0
    requires 0 <= s.trains[i].classes.Get(k).availableSeats
    requires FreshBookingId(s.bookings, b1) && FreshBookingId(s.bookings, b2) && b1 != b2
    ensures var t := s.trains[i];
      var req1 := BookRequest(t.id, date, -n, k);
      var req2 := BookRequest(t.id, date, t.classes.Get(k).availableSeats + n, k);
      var s1 := Reserve(s, req1, userId, b1).after;
      var s2 := Reserve(s1, req2, userId, b2).after;
      && Reserve(s, req1, userId, b1).outcome == Booked(NewBooking(t, req1, userId, b1))
      && FreshBookingId(s1.bookings, b2)
      && NewBooking(t, req1, userId, b1) in s2.bookings
      && UniqueTrainIds(s2.trains) && i < |s2.trains|
      && s2.trains[i].id == t.id && s2.trains[i].classes.Get(k).availableSeats == 0
  {
    var t := s.trains[i];
    var a := t.classes.Get(k).availableSeats;
    var req1 := BookRequest(t.id, date, -n, k);
    var req2 := BookRequest(t.id, date, a + n, k);
    ReserveAt(s, req1, userId, b1, i);
    var s1 := Reserve(s, req1, userId, b1).after;
    assert s1.trains[i].id == t.id && s1.trains[i].classes.Get(k).availableSeats == a + n;
    assert FreshBookingId(s1.bookings, b2);
    ReserveAt(s1, req2, userId, b2, i);
  }

  /** Releasing a booking of -n seats onto a class at 0 leaves it at -n. */
  lemma ReleaseNegative(s: Inventory, bk: Booking, i: nat, n: int)
    requires UniqueTrainIds(s.trains) && i < |s.trains| && s.trains[i].id == bk.trainId
    requires s.trains[i].classes.Get(bk.fareClass).availableSeats == 0 && bk.passengers == -n
    ensures FindTrain(s.trains, bk.trainId).Some?
    ensures SeatsOf(Release(s, bk).trains, bk.trainId, bk.fareClass) == -n
  {
    var r := Release(s, bk).trains;
    assert s.trains[i] in s.trains;
    AdjustKeepsIds(s.trains, bk.trainId, bk.fareClass, bk.passengers);
    assert r[i].id == bk.trainId && r[i] in r;
    SeatsOfFound(r, r[i], bk.fareClass);
  }

  /** Without the non-negative premise the bound fails on an admissible
      sequence: reserve -n seats (the class grows to a + n), reserve all
      a + n, then release the first booking; the class ends at -n. */
  lemma NegativeBookingOverbooks(s: Inventory, i: nat, k: ClassName, n: int, date: string,
                                 userId: string, b1: string, b2: string)
    requires WellFormed(s) && i < |s.trains| && n > 0
    requires 0 <= s.trains[i].classes.Get(k).availableSeats
    requires FreshBookingId(s.bookings, b1) && FreshBookingId(s.bookings, b2) && b1 != b2
    ensures var id := s.trains[i].id;
      var a := s.trains[i].classes.Get(k).availableSeats;
      var first := NewBooking(s.trains[i], BookRequest(id, date, -n, k), userId, b1);
      var actions := [Book(BookRequest(id, date, -n, k), userId, b1),
                      Book(BookRequest(id, date, a + n, k), userId, b2),
                      Cancel(first)];
      && Reserve(s, BookRequest(id, date, -n, k), userId, b1).outcome == Booked(first)
      && Admissible(s, actions)
      && SeatsOf(Run(s, actions).trains, id, k) == -n
  {
    var t := s.trains[i];
    var req1 := BookRequest(t.id, date, -n, k);
    var req2 := BookRequest(t.id, date, t.classes.Get(k).availableSeats + n, k);
    var first := NewBooking(t, req1, userId, b1);
    var a1, a2, a3 := Book(req1, userId, b1), Book(req2, userId, b2), Cancel(first);
    var actions := [Book(BookRequest(s.trains[i].id, date, -n, k), userId, b1),
                    Book(BookRequest(s.trains[i].id, date, s.trains[i].classes.Get(k).availableSeats + n, k), userId, b2),
                    Cancel(NewBooking(s.trains[i], BookRequest(s.trains[i].id, date, -n, k), userId, b1))];
    assert actions == [a1, a2, a3];
    OverbookPrefix(s, i, k, n, date, userId, b1, b2);
    var s1 := Step(s, a1);
    var s2 := Step(s1, a2);
    ReleaseNegative(s2, first, i, n);
    assert Allowed(s, a1) && Allowed(s1, a2) && Allowed(s2, a3);
    RunThree(s, a1, a2, a3);
  }

  // ---------------------------------------------------------------------
  // Derived views
  // ---------------------------------------------------------------------

  /** Source and destination of every train, in list order. */
  function Endpoints(trains: seq<Train>): (r: seq<string>)
    ensures forall x :: x in r <==> exists t :: t in trains && (x == t.source || x == t.destination)
  {
    if trains == [] then []
    else [trains[0].source, trains[0].destination] + Endpoints(trains[1..])
  }

  /** allStations: every source and destination, once each, sorted. */
  function AllStations(trains: seq<Train>): (r: seq<string>)
    ensures Ascending(r)
    ensures forall i, j :: 0 <= i < j < |r| ==> r[i] != r[j]
    ensures forall x :: x in r <==> exists t :: t in trains && (x == t.source || x == t.destination)
  {
    var r := SortDistinct(Endpoints(trains));
    forall i, j | 0 <= i < j < |r| ensures r[i] != r[j] {
      AscendingOrdered(r, i, j);
    }
    r
  }

  /** userBookings: nothing when nobody is logged in, otherwise that
      user's bookings in list order. */
  function UserBookings(bookings: seq<Booking>, user: Option<User>): (r: seq<Booking>)
    ensures user.None? ==> r == []
    ensures user.Some? ==> forall b :: b in r <==> b in bookings && b.userId == user.value.uid
    ensures Embeds(r, bookings)
  {
    match user
    case None => []
    case Some(u) =>
      FilterEmbeds(bookings, (b: Booking) => b.userId == u.uid);
      Filter(bookings, (b: Booking) => b.userId == u.uid)
  }

  // ---------------------------------------------------------------------
  // The ledger object
  // ---------------------------------------------------------------------

  /** The App component's trains and bookings state, updated in place by
      its handlers. */
  class Ledger {
    var trains: seq<Train>
    var bookings: seq<Booking>

    function State(): Inventory
      reads this
    {
      Inventory(trains, bookings)
    }

    ghost predicate Valid()
      reads this
    {
      WellFormed(State())
    }

    constructor (initial: seq<Train>)
      requires UniqueTrainIds(initial)
      ensures Valid() && trains == initial && bookings == []
    {
      trains := initial;
      bookings := [];
    }

    /** handleBook. The booking id and the user id come from outside. */
    method HandleBook(trainId: string, travelDate: string, passengers: int, selectedClass: ClassName,
                      userId: string, bookingId: string) returns (outcome: BookOutcome)
      requires Valid() && FreshBookingId(bookings, bookingId)
      modifies this
      ensures Valid()
      ensures Reserve(old(State()), BookRequest(trainId, travelDate, passengers, selectedClass), userId, bookingId)
              == Reservation(State(), outcome)
      ensures forall t, k :: Load(State(), t, k) == old(Load(State(), t, k))
    {
      ghost var before := State();
      var req := BookRequest(trainId, travelDate, passengers, selectedClass);
      var found := FindTrain(trains, trainId);
      if found.None? {
        outcome := TrainNotFound;
        assert Reserve(before, req, userId, bookingId) == Reservation(before, outcome);
      } else {
        var train := found.value;
        var classData := train.classes.Get(selectedClass);
        if classData.availableSeats < passengers {
          outcome := SeatsShort(classData.availableSeats);
          assert Reserve(before, req, userId, bookingId) == Reservation(before, outcome);
        } else {
          trains := AdjustSeats(trains, trainId, selectedClass, -passengers);
          var newBooking := NewBooking(train, req, userId, bookingId);
          bookings := bookings + [newBooking];
          outcome := Booked(newBooking);
          assert Reserve(before, req, userId, bookingId) == Reservation(State(), outcome);
        }
      }
      ReserveKeepsWellFormed(before, req, userId, bookingId);
      forall t, k ensures Load(State(), t, k) == Load(before, t, k) {
        ReserveConserves(before, req, userId, bookingId, t, k);
      }
    }

    /** handleCancel. */
    method HandleCancel(bookingToCancel: Booking)
      requires Valid()
      modifies this
      ensures Valid()
      ensures State() == Release(old(State()), bookingToCancel)
      ensures bookingToCancel in old(bookings) && FindTrain(old(trains), bookingToCancel.trainId).Some? ==>
                forall t, k :: Load(State(), t, k) == old(Load(State(), t, k))
    {
      ghost var before := State();
      trains := AdjustSeats(trains, bookingToCancel.trainId, bookingToCancel.fareClass, bookingToCancel.passengers);
      bookings := DropBooking(bookings, bookingToCancel.id);
      ReleaseKeepsWellFormed(before, bookingToCancel);
      if bookingToCancel in before.bookings && FindTrain(before.trains, bookingToCancel.trainId).Some? {
        forall t, k ensures Load(State(), t, k) == Load(before, t, k) {
          ReleaseConserves(before, bookingToCancel, t, k);
        }
      }
    }

    /** handleAddTrain: the new train, with a fresh id, goes at the end. */
    method HandleAddTrain(newTrainData: TrainDraft, trainId: string)
      requires Valid() && FindTrain(trains, trainId).None?
      modifies this
      ensures Valid()
      ensures trains == old(trains) + [newTrainData.WithId(trainId)]
      ensures bookings == old(bookings)
    {
      var newTrain := newTrainData.WithId(trainId);
      assert forall i :: 0 <= i < |trains| ==> trains[i] in trains;
      trains := trains + [newTrain];
    }

    /** handleUpdateTrain. */
    method HandleUpdateTrain(updatedTrain: Train)
      requires Valid()
      modifies this
      ensures Valid()
      ensures trains == ReplaceTrain(old(trains), updatedTrain)
      ensures bookings == old(bookings)
    {
      ReplaceKeepsIds(trains, updatedTrain);
      trains := ReplaceTrain(trains, updatedTrain);
    }

    /** handleDeleteTrain: bookings are not touched. */
    method HandleDeleteTrain(trainId: string)
      requires Valid()
      modifies this
      ensures Valid()
      ensures trains == RemoveTrain(old(trains), trainId)
      ensures bookings == old(bookings)
    {
      FilterKeepsUniqueTrains(trains, (t: Train) => t.id != trainId);
      trains := RemoveTrain(trains, trainId);
    }
  }
}
