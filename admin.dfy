/**
 * The administrator's "Add New Train" form of AdminDashboard.tsx: the
 * per-class seat validation (shared with the edit dialog), the
 * required-field check, the upper-casing of the stations and the reset
 * of the form after a successful add.
 */
module Admin {
  import opened Wrappers
  import opened Types
  import opened Text

  /** The add and edit forms, with their numeric fields already parsed. */
  datatype TrainForm = TrainForm(
    trainName: string,
    trainNumber: string,
    source: string,
    destination: string,
    departure: string,
    description: string,
    classes: TrainClasses)

  /** initialFormState: empty text fields, default prices and seat counts. */
  const InitialForm: TrainForm :=
    TrainForm("", "", "", "", "", "",
      TrainClasses(FareClass(3500, 50, 50), FareClass(2000, 100, 100), FareClass(800, 200, 200)))

  /** "Error in <class> Class: Available seats (a) cannot be greater than
      total seats (t)." */
  datatype SeatError = SeatError(className: ClassName, available: int, total: int)

  predicate SeatsValid(fc: FareClass)
  {
    fc.availableSeats <= fc.totalSeats
  }

  /** The validation loop over the given class names: the first one whose
      available seats exceed its total, with both counts. */
  function FirstSeatError(classes: TrainClasses, names: seq<ClassName>): (r: Option<SeatError>)
    ensures r.None? <==> forall i :: 0 <= i < |names| ==> SeatsValid(classes.Get(names[i]))
    ensures r.Some? ==>
              && r.value.available == classes.Get(r.value.className).availableSeats
              && r.value.total == classes.Get(r.value.className).totalSeats
              && r.value.available > r.value.total
    ensures r.Some? ==>
              exists i :: 0 <= i < |names| && names[i] == r.value.className
                          && forall j :: 0 <= j < i ==> SeatsValid(classes.Get(names[j]))
  {
    if names == [] then None
    else
      var fc := classes.Get(names[0]);
      if fc.availableSeats > fc.totalSeats then Some(SeatError(names[0], fc.availableSeats, fc.totalSeats))
      else
        var rest := FirstSeatError(classes, names[1..]);
        if rest.Some? then
          var i :| 0 <= i < |names[1..]| && names[1..][i] == rest.value.className
                   && forall j :: 0 <= j < i ==> SeatsValid(classes.Get(names[1..][j]));
          assert names[i + 1] == rest.value.className;
          rest
        else rest
  }

  /** The check both forms run, over First, Business, Economy in order: it
      fails exactly when some class has more available than total seats
      (equality is allowed), and names the first such class. */
  function SeatCheck(classes: TrainClasses): (r: Option<SeatError>)
    ensures r.None? <==> forall c :: SeatsValid(classes.Get(c))
    ensures r.Some? ==>
              && !SeatsValid(classes.Get(r.value.className))
              && r.value.available == classes.Get(r.value.className).availableSeats
              && r.value.total == classes.Get(r.value.className).totalSeats
              && forall c :: Rank(c) < Rank(r.value.className) ==> SeatsValid(classes.Get(c))
  {
    ScanInOrder(classes);
    FirstSeatError(classes, ClassOrder)
  }

  /** The scan over ClassOrder read in terms of class names and Rank. */
  lemma ScanInOrder(classes: TrainClasses)
    ensures var r := FirstSeatError(classes, ClassOrder);
      && (r.None? <==> forall c :: SeatsValid(classes.Get(c)))
      && (r.Some? ==> forall c :: Rank(c) < Rank(r.value.className) ==> SeatsValid(classes.Get(c)))
  {
    var r := FirstSeatError(classes, ClassOrder);
    if r.None? {
      forall c ensures SeatsValid(classes.Get(c)) {
        assert ClassOrder[Rank(c)] == c;
      }
    } else {
      var i :| 0 <= i < |ClassOrder| && ClassOrder[i] == r.value.className
               && forall j :: 0 <= j < i ==> SeatsValid(classes.Get(ClassOrder[j]));
      assert Rank(r.value.className) == i;
      forall c | Rank(c) < Rank(r.value.className) ensures SeatsValid(classes.Get(c)) {
        assert ClassOrder[Rank(c)] == c;
      }
    }
  }

  /** Why an add is refused. */
  datatype AddError = InvalidSeats(error: SeatError) | MissingFields

  /** The outcome of submitting the form, and the form afterwards. */
  datatype AddStep = AddStep(outcome: Result<TrainDraft, AddError>, form: TrainForm)

  /** newTrain: stations upper-cased, the description always present. */
  function DraftOf(form: TrainForm): (d: TrainDraft)
    ensures d.source == Upper(form.source) && d.destination == Upper(form.destination)
    ensures d.trainName == form.trainName && d.trainNumber == form.trainNumber
    ensures d.departure == form.departure && d.description == Some(form.description)
    ensures d.classes == form.classes
  {
    TrainDraft(form.trainName, form.trainNumber, Upper(form.source), Upper(form.destination),
               form.departure, Some(form.description), form.classes)
  }

  /** handleSubmit. Seats are validated before the required fields; on
      either failure nothing is added and the form is kept; on success the
      draft goes to handleAddTrain and the form returns to its initial state. */
  function HandleSubmit(form: TrainForm): (r: AddStep)
    ensures SeatCheck(form.classes).Some? ==> r.outcome == Failure(InvalidSeats(SeatCheck(form.classes).value))
    ensures r.outcome.Success? <==>
              && SeatCheck(form.classes).None?
              && form.trainName != [] && form.trainNumber != []
              && form.source != [] && form.destination != []
    ensures SeatCheck(form.classes).None? && !r.outcome.Success? ==> r.outcome == Failure(MissingFields)
    ensures r.outcome.Success? ==> r.outcome.value == DraftOf(form) && r.form == InitialForm
    ensures r.outcome.Failure? ==> r.form == form
  {
    match SeatCheck(form.classes)
    case Some(e) => AddStep(Failure(InvalidSeats(e)), form)
    case None =>
      var newTrain := DraftOf(form);
      UpperEmpty(form.source);
      UpperEmpty(form.destination);
      if newTrain.trainName == [] || newTrain.trainNumber == [] || newTrain.source == [] || newTrain.destination == []
      then AddStep(Failure(MissingFields), form)
      else AddStep(Success(newTrain), InitialForm)
  }

  /** The initial form passes the seat check: its defaults are full classes. */
  lemma InitialFormSeatsValid()
    ensures SeatCheck(InitialForm.classes).None?
  {
  }

  /** A train added through the form has every class within its total. */
  lemma AddedTrainSeatsValid(form: TrainForm, c: ClassName)
    requires HandleSubmit(form).outcome.Success?
    ensures var d := HandleSubmit(form).outcome.value;
      d.classes.Get(c).availableSeats <= d.classes.Get(c).totalSeats
  {
  }
}
