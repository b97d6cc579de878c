/**
 * The traveller's side of UserDashboard.tsx: the search form's filter over
 * the train list, the class options shown for each result, and the step
 * that turns a "Book Now" click into a call of the ledger's handleBook.
 */
module Search {
  import opened Wrappers
  import opened Types
  import opened Text
  import opened Seqs
  import opened Ledger

  /** The class select of the search form: 'all' or one class name. */
  datatype ClassFilter = AllClasses | OnlyClass(name: ClassName)

  /** searchParams; date is the raw date string, empty when not chosen. */
  datatype SearchParams = SearchParams(
    from: string, to: string, date: string, passengers: int, classFilter: ClassFilter)

  datatype SearchError = DateMissing | SameStations

  /** An empty station filter matches everything; otherwise the station
      must equal the upper-cased filter exactly. */
  predicate StationMatches(filter: string, station: string)
  {
    filter == [] || station == Upper(filter)
  }

  predicate HasSeats(fc: FareClass, passengers: int)
  {
    fc.availableSeats >= passengers
  }

  /** classAvailable: with 'all', some class (Object.values(...).some);
      otherwise the named class only. */
  predicate ClassAvailable(t: Train, f: ClassFilter, passengers: int)
  {
    match f
    case AllClasses =>
      HasSeats(t.classes.first, passengers) || HasSeats(t.classes.business, passengers)
        || HasSeats(t.classes.economy, passengers)
    case OnlyClass(c) => HasSeats(t.classes.Get(c), passengers)
  }

  /** The callback of the search filter: both stations match and the
      class filter finds enough seats; a qualifying train always has some
      class with room for the whole party. */
  predicate Qualifies(t: Train, p: SearchParams)
    ensures Qualifies(t, p) ==>
              && (p.from == [] || t.source == Upper(p.from))
              && (p.to == [] || t.destination == Upper(p.to))
              && exists c :: t.classes.Get(c).availableSeats >= p.passengers
  {
    AllClassesIff(t, p.passengers);
    && StationMatches(p.from, t.source)
    && StationMatches(p.to, t.destination)
    && ClassAvailable(t, p.classFilter, p.passengers)
  }

  /** trains.filter(...): the qualifying trains, in list order. */
  function MatchingTrains(trains: seq<Train>, p: SearchParams): (r: seq<Train>)
    ensures forall t :: t in r <==> t in trains && Qualifies(t, p)
    ensures Embeds(r, trains)
    ensures |r| <= |trains|
  {
    FilterEmbeds(trains, (t: Train) => Qualifies(t, p));
    Filter(trains, (t: Train) => Qualifies(t, p))
  }

  /** The filter keeps each qualifying train as often as it is listed. */
  lemma MatchingTrainsCounts(trains: seq<Train>, p: SearchParams)
    ensures forall t :: multiset(MatchingTrains(trains, p))[t] == if Qualifies(t, p) then multiset(trains)[t] else 0
  {
    FilterCounts(trains, (t: Train) => Qualifies(t, p));
  }

  /** When the first train is the only one that qualifies, it is the
      whole result. */
  lemma MatchingOnlyFirst(trains: seq<Train>, p: SearchParams)
    requires |trains| > 0 && Qualifies(trains[0], p)
    requires forall i :: 1 <= i < |trains| ==> !Qualifies(trains[i], p)
    ensures MatchingTrains(trains, p) == [trains[0]]
  {
    FilterNone(trains[1..], (t: Train) => Qualifies(t, p));
  }

  /** What the dashboard shows after submitting the search form: a message
      if the form is rejected, and the stored result list. */
  datatype SearchView = SearchView(message: Option<SearchError>, results: Option<seq<Train>>)

  /** handleSearch. A missing date, or the same non-empty station on both
      sides, is reported and leaves the shown results as they were. */
  function HandleSearch(trains: seq<Train>, p: SearchParams, shown: Option<seq<Train>>): (r: SearchView)
    ensures p.date == [] ==> r == SearchView(Some(DateMissing), shown)
    ensures p.date != [] && p.from != [] && p.from == p.to ==> r == SearchView(Some(SameStations), shown)
    ensures r.message.None? <==> p.date != [] && (p.from == [] || p.from != p.to)
    ensures r.message.None? ==> r.results.Some? && Embeds(r.results.value, trains)
    ensures r.message.None? ==> forall t :: t in r.results.value <==> t in trains && Qualifies(t, p)
    ensures r.message.None? ==> r.results == Some(MatchingTrains(trains, p))
  {
    if p.date == [] then SearchView(Some(DateMissing), shown)
    else if p.from != [] && p.from == p.to then SearchView(Some(SameStations), shown)
    else SearchView(None, Some(MatchingTrains(trains, p)))
  }

  /** With 'all' a train qualifies exactly when some class has enough seats. */
  lemma AllClassesIff(t: Train, passengers: int)
    ensures ClassAvailable(t, AllClasses, passengers) <==> exists c :: HasSeats(t.classes.Get(c), passengers)
  {
    if ClassAvailable(t, AllClasses, passengers) {
      if HasSeats(t.classes.first, passengers) {
        assert HasSeats(t.classes.Get(First), passengers);
      } else if HasSeats(t.classes.business, passengers) {
        assert HasSeats(t.classes.Get(Business), passengers);
      } else {
        assert HasSeats(t.classes.Get(Economy), passengers);
      }
    }
  }

  /** With no station filters, every train with a fitting class is found. */
  lemma EmptyFiltersKeepSeatedTrains(trains: seq<Train>, p: SearchParams, t: Train)
    requires p.from == [] && p.to == [] && t in trains
    ensures t in MatchingTrains(trains, p) <==> ClassAvailable(t, p.classFilter, p.passengers)
  {
  }

  /** The filter ignores everything but stations and seats: only the
      named class counts when one is named. */
  lemma NamedClassOnly(t: Train, c: ClassName, p: SearchParams)
    requires p.classFilter == OnlyClass(c)
    ensures Qualifies(t, p) <==>
      StationMatches(p.from, t.source) && StationMatches(p.to, t.destination)
      && t.classes.Get(c).availableSeats >= p.passengers
  {
  }

  // ---------------------------------------------------------------------
  // Class options of a search result
  // ---------------------------------------------------------------------

  /** One entry of a result's class select: disabled when the class has
      fewer seats than passengers, priced for the whole party. */
  datatype ClassOption = ClassOption(name: ClassName, available: int, disabled: bool, price: int)

  /** The option of class c: its seat count ("n left"), disabled exactly
      when that count is below the party size, priced for the party. */
  function OptionFor(t: Train, c: ClassName, passengers: int): (o: ClassOption)
    ensures o.name == c && o.available == t.classes.Get(c).availableSeats
    ensures o.disabled <==> t.classes.Get(c).availableSeats < passengers
    ensures o.price == t.classes.Get(c).price * passengers
  {
    var fc := t.classes.Get(c);
    ClassOption(c, fc.availableSeats, !HasSeats(fc, passengers), fc.price * passengers)
  }

  /** Object.entries(train.classes): one option per class, in key order. */
  function ClassOptions(t: Train, passengers: int): (r: seq<ClassOption>)
    ensures |r| == |ClassOrder|
    ensures forall i :: 0 <= i < |r| ==> r[i].name == ClassOrder[i]
    ensures forall i :: 0 <= i < |r| ==> r[i].available == t.classes.Get(r[i].name).availableSeats
    ensures forall i :: 0 <= i < |r| ==>
      (r[i].disabled <==> t.classes.Get(r[i].name).availableSeats < passengers)
    ensures forall i :: 0 <= i < |r| ==> r[i].price == t.classes.Get(r[i].name).price * passengers
  {
    [OptionFor(t, First, passengers), OptionFor(t, Business, passengers), OptionFor(t, Economy, passengers)]
  }

  /** Every search result offers at least one enabled option, and the
      searched class itself when one was named. */
  lemma ResultsOfferEnabledOption(trains: seq<Train>, p: SearchParams, t: Train)
    requires t in MatchingTrains(trains, p)
    ensures exists i :: 0 <= i < |ClassOptions(t, p.passengers)| && !ClassOptions(t, p.passengers)[i].disabled
    ensures p.classFilter.OnlyClass? ==> !ClassOptions(t, p.passengers)[Rank(p.classFilter.name)].disabled
  {
    var opts := ClassOptions(t, p.passengers);
    match p.classFilter
    case AllClasses =>
      if HasSeats(t.classes.first, p.passengers) {
        assert !opts[0].disabled;
      } else if HasSeats(t.classes.business, p.passengers) {
        assert !opts[1].disabled;
      } else {
        assert !opts[2].disabled;
      }
    case OnlyClass(c) =>
      assert !opts[Rank(c)].disabled;
  }

  /** The dashboard and the ledger agree: an enabled option books, at the
      price the option shows; a disabled one is refused with the count it
      showed. */
  lemma OptionMatchesReserve(s: Inventory, t: Train, c: ClassName, date: string, passengers: int,
                             userId: string, bookingId: string)
    requires UniqueTrainIds(s.trains) && t in s.trains
    ensures var r := Reserve(s, BookRequest(t.id, date, passengers, c), userId, bookingId);
      var opt := OptionFor(t, c, passengers);
      && (!opt.disabled <==> r.outcome.Booked?)
      && (r.outcome.Booked? ==> r.outcome.booking.totalPrice == opt.price)
      && (r.outcome.SeatsShort? ==> r.outcome.available == opt.available)
  {
    FindUnique(s.trains, t);
  }

  /** The results are stored when the search is submitted and are not
      refreshed by a booking. After k seats of class c are booked on t, the
      stored option for a party of m, with a - k < m <= a, still shows a
      seats and is enabled, yet reserve refuses it and reports a - k. */
  lemma StaleOptionRefused(s: Inventory, t: Train, c: ClassName, date: string, k: int, m: int,
                           userId: string, b1: string, b2: string)
    requires UniqueTrainIds(s.trains) && t in s.trains
    requires 0 < k <= t.classes.Get(c).availableSeats
    requires t.classes.Get(c).availableSeats - k < m <= t.classes.Get(c).availableSeats
    ensures var r1 := Reserve(s, BookRequest(t.id, date, k, c), userId, b1);
      var r2 := Reserve(r1.after, BookRequest(t.id, date, m, c), userId, b2);
      && r1.outcome.Booked?
      && OptionFor(t, c, m).available == t.classes.Get(c).availableSeats
      && !OptionFor(t, c, m).disabled
      && r2.outcome == SeatsShort(t.classes.Get(c).availableSeats - k)
  {
    var i :| 0 <= i < |s.trains| && s.trains[i] == t;
    var req := BookRequest(t.id, date, k, c);
    ReserveAt(s, req, userId, b1, i);
    var after := Reserve(s, req, userId, b1).after;
    FindUnique(after.trains, after.trains[i]);
  }

  // ---------------------------------------------------------------------
  // Book Now
  // ---------------------------------------------------------------------

  /** What the Book Now button does: warn that no class is selected, or
      call handleBook with the search's date and passenger count. */
  datatype BookingIntent = NoClassSelected | CallBook(req: BookRequest)

  function HandleBooking(trainId: string, date: string, passengers: int, selected: Option<ClassName>): (r: BookingIntent)
    ensures r.NoClassSelected? <==> selected.None?
    ensures r.CallBook? ==>
              && r.req.trainId == trainId && r.req.date == date
              && r.req.passengers == passengers && r.req.fareClass == selected.value
  {
    match selected
    case None => NoClassSelected
    case Some(c) => CallBook(BookRequest(trainId, date, passengers, c))
  }
}
