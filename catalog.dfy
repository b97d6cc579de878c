/**
 * The sample train list the application starts from (initialTrains in
 * App.tsx), and the worked examples of the booking rules run against it.
 */
module Catalog {
  import opened Wrappers
  import opened Types
  import opened Ledger
  import Search
  import Text
  import Admin

  /** Sixteen trains; prices in rupees, seats as (price, total, available). */
  const InitialTrains: seq<Train> :=
    [
      Train("T001", "Capital Express", "12051", "DELHI", "MUMBAI", "08:00",
        Some("Journey from the heart of India to the financial capital in style. Our Capital Express offers unparalleled comfort and scenic views."),
        TrainClasses(FareClass(3500, 50, 45), FareClass(2000, 100, 90), FareClass(800, 200, 150))),
      Train("T002", "Metro Link", "22301", "MUMBAI", "KOLKATA", "14:30",
        Some("Connect between two major metro cities with speed and efficiency. Perfect for business travelers and tourists alike."),
        TrainClasses(FareClass(4000, 40, 40), FareClass(2500, 80, 75), FareClass(1000, 180, 180))),
      Train("T003", "Eastern Arrow", "15929", "KOLKATA", "DELHI", "21:00",
        None,
        TrainClasses(FareClass(3800, 40, 20), FareClass(2200, 90, 80), FareClass(950, 210, 150))),
      Train("T004", "South Connect", "11021", "BENGALURU", "CHENNAI", "06:15",
        Some("Experience the swift journey between two of South India's biggest hubs. Ideal for a quick weekend getaway or a business trip."),
        TrainClasses(FareClass(1800, 30, 25), FareClass(1200, 70, 60), FareClass(550, 150, 140))),
      Train("T005", "Deccan Queen", "12124", "PUNE", "MUMBAI", "17:10",
        Some("The legendary Deccan Queen, connecting Pune and Mumbai with impeccable service and a rich history."),
        TrainClasses(FareClass(1000, 20, 10), FareClass(700, 50, 45), FareClass(300, 120, 100))),
      Train("T006", "Tech Express", "20608", "HYDERABAD", "BENGALURU", "22:00",
        Some("Overnight service linking the tech capitals of Hyderabad and Bengaluru. Travel while you sleep and arrive fresh for your meetings."),
        TrainClasses(FareClass(2500, 40, 35), FareClass(1800, 80, 80), FareClass(750, 160, 120))),
      Train("T007", "Western Star", "12957", "AHMEDABAD", "DELHI", "19:30",
        Some("Travel from the vibrant city of Ahmedabad to the nation's capital with our premium overnight service."),
        TrainClasses(FareClass(3200, 35, 30), FareClass(2100, 90, 85), FareClass(900, 200, 190))),
      Train("T008", "Coastal Cruiser", "12842", "CHENNAI", "KOLKATA", "11:45",
        Some("Enjoy the scenic coastal route from Chennai to Kolkata. A journey as beautiful as the destination."),
        TrainClasses(FareClass(4200, 30, 15), FareClass(2800, 70, 50), FareClass(1100, 180, 175))),
      Train("T009", "Mumbai Duronto", "12262", "MUMBAI", "DELHI", "23:00",
        Some("The fastest connection back to the capital. Experience a non-stop, high-speed journey overnight."),
        TrainClasses(FareClass(3600, 50, 50), FareClass(2100, 100, 95), FareClass(850, 200, 180))),
      Train("T010", "Garden City Express", "11022", "CHENNAI", "BENGALURU", "16:00",
        Some("Return to the Garden City with our comfortable and convenient afternoon service."),
        TrainClasses(FareClass(1800, 30, 30), FareClass(1200, 70, 65), FareClass(550, 150, 125))),
      Train("T011", "Rajdhani Express", "12493", "PUNE", "DELHI", "11:00",
        Some("Connects the cultural capital of Maharashtra to the national capital with premium, high-speed service."),
        TrainClasses(FareClass(4500, 40, 38), FareClass(3200, 80, 70), FareClass(1500, 150, 120))),
      Train("T012", "Charminar Express", "12759", "HYDERABAD", "CHENNAI", "18:30",
        Some("A popular choice for comfortable overnight travel between Hyderabad and Chennai."),
        TrainClasses(FareClass(2200, 30, 25), FareClass(1600, 60, 55), FareClass(650, 180, 150))),
      Train("T013", "Shatabdi Express", "12009", "AHMEDABAD", "MUMBAI", "06:40",
        Some("High-speed, premium day service connecting the commercial hubs of Gujarat and Maharashtra."),
        TrainClasses(FareClass(1500, 25, 20), FareClass(900, 80, 78), FareClass(450, 140, 130))),
      Train("T014", "Udyan Express", "11302", "BENGALURU", "PUNE", "20:30",
        Some("Travel comfortably overnight from the Garden City to the Oxford of the East."),
        TrainClasses(FareClass(2800, 35, 30), FareClass(1900, 75, 65), FareClass(800, 160, 140))),
      Train("T015", "Falaknuma Express", "12703", "KOLKATA", "HYDERABAD", "07:25",
        Some("A superfast express connecting the City of Joy with the City of Pearls."),
        TrainClasses(FareClass(4300, 30, 22), FareClass(2900, 90, 80), FareClass(1200, 200, 195))),
      Train("T016", "Karnataka Express", "12628", "DELHI", "BENGALURU", "21:15",
        Some("A long-distance superfast train covering the length of the country, connecting the capital to the Silicon Valley of India."),
        TrainClasses(FareClass(5500, 50, 45), FareClass(3800, 120, 110), FareClass(1800, 250, 220)))
    ]

  const Start: Inventory := Inventory(InitialTrains, [])

  /** The ids of the sample trains, in list order. */
  const SampleIds: seq<string> :=
    ["T001", "T002", "T003", "T004", "T005", "T006", "T007", "T008",
     "T009", "T010", "T011", "T012", "T013", "T014", "T015", "T016"]

  lemma SampleIdsListed()
    ensures |SampleIds| == |InitialTrains|
    ensures forall i :: 0 <= i < |InitialTrains| ==> InitialTrains[i].id == SampleIds[i]
  {
  }

  lemma SampleIdsDistinct()
    ensures forall i, j :: 0 <= i < j < |SampleIds| ==> SampleIds[i] != SampleIds[j]
  {
  }

  /** The sample trains have distinct ids, so the ledger can start from them. */
  lemma InitialTrainsWellFormed()
    ensures WellFormed(Start)
  {
    SampleIdsListed();
    SampleIdsDistinct();
  }

  /** Every class of every sample train lies within [0, totalSeats]. */
  lemma SampleSeatsInBounds()
    ensures forall i, k :: 0 <= i < |InitialTrains| ==>
              0 <= InitialTrains[i].classes.Get(k).availableSeats <= InitialTrains[i].classes.Get(k).totalSeats
  {
  }

  /** The application starts within capacity, so no sequence of reserves
      with non-negative party sizes and releases can overbook it. */
  lemma StartWithinCapacity()
    ensures WithinCapacity(Start)
  {
    InitialTrainsWellFormed();
    SampleSeatsInBounds();
    EmptyWithinCapacity(Start);
  }

  /** Five Economy seats on the Capital Express cost 5 * 800 and leave 145. */
  lemma ExampleReserve()
    ensures var r := Reserve(Start, BookRequest("T001", "2025-01-01", 5, Economy), "user-1", "B1");
      && r.outcome.Booked?
      && r.outcome.booking.totalPrice == 4000
      && r.after.trains[0].id == "T001"
      && r.after.trains[0].classes.economy.availableSeats == 145
  {
    InitialTrainsWellFormed();
    ReserveAt(Start, BookRequest("T001", "2025-01-01", 5, Economy), "user-1", "B1", 0);
  }

  /** After that booking a request for 151 Economy seats is refused,
      reporting the 145 left, and changes nothing. */
  lemma ExampleRefuse()
    ensures var r1 := Reserve(Start, BookRequest("T001", "2025-01-01", 5, Economy), "user-1", "B1");
      var r2 := Reserve(r1.after, BookRequest("T001", "2025-01-01", 151, Economy), "user-1", "B2");
      r2.outcome == SeatsShort(145) && r2.after == r1.after
  {
    InitialTrainsWellFormed();
    ReserveAt(Start, BookRequest("T001", "2025-01-01", 5, Economy), "user-1", "B1", 0);
    var after := Reserve(Start, BookRequest("T001", "2025-01-01", 5, Economy), "user-1", "B1").after.trains;
    FindUnique(after, after[0]);
  }

  /** The search result stored before that booking still offers Economy
      to a party of 148 with 150 seats shown, yet the reserve is refused
      with 145. */
  lemma ExampleStaleOption()
    ensures var r1 := Reserve(Start, BookRequest("T001", "2025-01-01", 5, Economy), "user-1", "B1");
      var r2 := Reserve(r1.after, BookRequest("T001", "2025-01-01", 148, Economy), "user-1", "B2");
      var opt := Search.OptionFor(InitialTrains[0], Economy, 148);
      opt.available == 150 && !opt.disabled && r2.outcome == SeatsShort(145)
  {
    InitialTrainsWellFormed();
    assert InitialTrains[0] in Start.trains;
    Search.StaleOptionRefused(Start, InitialTrains[0], Economy, "2025-01-01", 5, 148, "user-1", "B1", "B2");
  }

  /** An Economy class with 120 available out of 100 is refused, naming
      Economy and both counts. */
  lemma ExampleAddRejected()
    ensures var form := Admin.InitialForm.(trainName := "Express", trainNumber := "1", source := "a", destination := "b",
                                           classes := Admin.InitialForm.classes.(economy := FareClass(800, 100, 120)));
      Admin.HandleSubmit(form).outcome == Failure(Admin.InvalidSeats(Admin.SeatError(Economy, 120, 100)))
  {
  }

  /** Searching DELHI to MUMBAI for one passenger in any class finds only
      the Capital Express. */
  lemma ExampleSearch()
    ensures Search.HandleSearch(InitialTrains, Search.SearchParams("DELHI", "MUMBAI", "2025-01-01", 1, Search.AllClasses), None)
            == Search.SearchView(None, Some([InitialTrains[0]]))
  {
    var p := Search.SearchParams("DELHI", "MUMBAI", "2025-01-01", 1, Search.AllClasses);
    assert Text.Upper("DELHI") == "DELHI";
    assert Text.Upper("MUMBAI") == "MUMBAI";
    forall i | 1 <= i < |InitialTrains| ensures !Search.Qualifies(InitialTrains[i], p) {
    }
    Search.MatchingOnlyFirst(InitialTrains, p);
  }

  /** Drives the ledger object through one reserve and its release: the
      booking is made at 4000, and cancelling it gives back the sample
      trains and an empty booking list. */
  method Demo() returns (booked: BookOutcome, trainsAfter: seq<Train>, bookingsAfter: seq<Booking>)
    ensures booked.Booked? && booked.booking.totalPrice == 4000
    ensures trainsAfter == InitialTrains && bookingsAfter == []
  {
    InitialTrainsWellFormed();
    var ledger := new Ledger(InitialTrains);
    ExampleReserve();
    booked := ledger.HandleBook("T001", "2025-01-01", 5, Economy, "user-1", "B1");
    ledger.HandleCancel(booked.booking);
    ReserveReleaseRoundTrip(Start, BookRequest("T001", "2025-01-01", 5, Economy), "user-1", "B1");
    trainsAfter := ledger.trains;
    bookingsAfter := ledger.bookings;
  }
}
