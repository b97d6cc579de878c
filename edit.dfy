/**
 * The "Edit Train" dialog of EditTrainModal.tsx: the form is filled from
 * the train being edited, and saving validates the seats like the add
 * form, keeps the original id and hands a whole replacement record to
 * handleUpdateTrain.
 */
module Edit {
  import opened Wrappers
  import opened Types
  import opened Text
  import Admin

  /** The form's initial state: the train's own fields, with a missing
      description shown as the empty string. */
  function FormOf(t: Train): (f: Admin.TrainForm)
    ensures f.trainName == t.trainName && f.trainNumber == t.trainNumber
    ensures f.source == t.source && f.destination == t.destination && f.departure == t.departure
    ensures f.description == (match t.description case Some(d) => d case None => "")
    ensures f.classes == t.classes
  {
    Admin.TrainForm(t.trainName, t.trainNumber, t.source, t.destination, t.departure,
                    (match t.description case Some(d) => d case None => ""), t.classes)
  }

  /** handleSubmit: refused with the first offending class, or the full
      replacement record that goes to onSave. Unlike the add form, the
      edit form does not check for empty text fields. */
  function HandleSubmit(t: Train, form: Admin.TrainForm): (r: Result<Train, Admin.SeatError>)
    ensures r.Failure? <==> Admin.SeatCheck(form.classes).Some?
    ensures r.Failure? ==> r.error == Admin.SeatCheck(form.classes).value
    ensures r.Success? ==>
              && r.value.id == t.id
              && r.value.source == Upper(form.source) && r.value.destination == Upper(form.destination)
              && r.value.trainName == form.trainName && r.value.trainNumber == form.trainNumber
              && r.value.departure == form.departure && r.value.description == Some(form.description)
              && r.value.classes == form.classes
  {
    match Admin.SeatCheck(form.classes)
    case Some(e) => Failure(e)
    case None =>
      Success(Train(t.id, form.trainName, form.trainNumber, Upper(form.source), Upper(form.destination),
                    form.departure, Some(form.description), form.classes))
  }

  /** Saving an untouched form gives back the same train (its description
      made explicit), provided its seats are valid and its stations are
      already upper case. */
  lemma SaveUntouchedForm(t: Train)
    requires Admin.SeatCheck(t.classes).None?
    requires Upper(t.source) == t.source && Upper(t.destination) == t.destination
    ensures HandleSubmit(t, FormOf(t)) == Success(t.(description := Some(FormOf(t).description)))
  {
  }

  /** Saving twice in a row changes nothing more: the saved record is a
      fixed point of editing. */
  lemma SaveIsStable(t: Train, form: Admin.TrainForm)
    requires HandleSubmit(t, form).Success?
    ensures var u := HandleSubmit(t, form).value;
      HandleSubmit(u, FormOf(u)) == Success(u)
  {
    UpperIdempotent(form.source);
    UpperIdempotent(form.destination);
  }
}
