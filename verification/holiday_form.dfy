/** The admin's holiday list screen: the add-holiday form with its
    duplicate-date check and its guard against a second submit while one
    is in flight, and the built-in list of 2026 holidays. */
module HolidayForm {
  import opened Wrappers
  import opened CivilDate
  import opened LeaveSection

  /** The screen's state: the holidays last fetched, whether the dialog is
      open, the form (a date and a name) and whether a request is in
      flight. */
  datatype Screen = Screen(holidays: seq<Holiday>, open: bool, form: Holiday, submitting: bool)

  /** What pressing submit does: nothing while a request is in flight, a
      "date already exists" message, or a `POST /holidays` of the form. */
  datatype Outcome = Ignored | DuplicateDate | Posted(body: Holiday)

  const EmptyForm: Holiday := Holiday("", "")

  /** Whether some listed holiday has the form's date; names play no part. */
  predicate DateTaken(holidays: seq<Holiday>, date: string) {
    exists i :: 0 <= i < |holidays| && holidays[i].date == date
  }

  /** `handleSubmit` up to the request. */
  function Submit(s: Screen): (r: (Screen, Outcome))
    ensures s.submitting ==> r == (s, Ignored)
    ensures !s.submitting ==> (r.1 == DuplicateDate <==> DateTaken(s.holidays, s.form.date))
    ensures r.1 == DuplicateDate ==> r.0 == s
    ensures r.1.Posted? <==> !s.submitting && !DateTaken(s.holidays, s.form.date)
    ensures r.1.Posted? ==> r.1.body == s.form && r.0 == s.(submitting := true)
  {
    if s.submitting then (s, Ignored)
    else if DateTaken(s.holidays, s.form.date) then (s, DuplicateDate)
    else (s.(submitting := true), Posted(s.form))
  }

  /** The request's outcome: on success the form is emptied and the dialog
      closed; either way nothing is in flight any more. The list is fetched
      again afterwards, which is not modelled. */
  function Complete(s: Screen, succeeded: bool): (r: Screen)
    ensures !r.submitting && r.holidays == s.holidays
    ensures succeeded ==> r.form == EmptyForm && !r.open
    ensures !succeeded ==> r == s.(submitting := false)
  {
    if succeeded then s.(form := EmptyForm, open := false, submitting := false) else s.(submitting := false)
  }

  /** A second press while the first request is in flight sends nothing. */
  lemma NoDoubleSubmit(s: Screen)
    requires Submit(s).1.Posted?
    ensures Submit(Submit(s).0) == (Submit(s).0, Ignored)
  {
  }

  /** The duplicate check compares dates only: renaming the form does not
      change whether it is refused. */
  lemma DuplicateIgnoresName(s: Screen, name: string)
    requires !s.submitting
    ensures (Submit(s).1 == DuplicateDate) == (Submit(s.(form := s.form.(name := name))).1 == DuplicateDate)
  {
  }

  /** A posted holiday never repeats a listed date. */
  lemma PostedDateIsNew(s: Screen)
    requires Submit(s).1.Posted?
    ensures forall i :: 0 <= i < |s.holidays| ==> s.holidays[i].date != Submit(s).1.body.date
  {
  }

  /** A round from an idle screen: whatever the server answers, the screen
      is idle again and can submit once more. */
  lemma SubmitThenComplete(s: Screen, succeeded: bool)
    requires Submit(s).1.Posted?
    ensures !Complete(Submit(s).0, succeeded).submitting
    ensures !succeeded ==> Complete(Submit(s).0, succeeded) == s
  {
  }

  /** The 2026 holidays the bulk button posts, as days and names; each is
      posted with the day's `YYYY-MM-DD` text. */
  const Days2026: seq<(Date, string)> := [
    (Date(2026, 1, 1), "New Year"),
    (Date(2026, 1, 14), "Pongal/Makar Sankranthi"),
    (Date(2026, 1, 26), "Republic Day"),
    (Date(2026, 3, 4), "Holi"),
    (Date(2026, 3, 19), "Ugadi"),
    (Date(2026, 3, 20), "Ramzan(id-ul-Fitr)"),
    (Date(2026, 4, 3), "Good Friday"),
    (Date(2026, 5, 1), "May Day"),
    (Date(2026, 9, 14), "Ganesh Chaturthi"),
    (Date(2026, 10, 2), "Gandhi Jayanthi"),
    (Date(2026, 10, 20), "Dussehra"),
    (Date(2026, 11, 9), "Diwali"),
    (Date(2026, 12, 25), "Christmas") ]

  lemma Days2026Valid()
    ensures forall i :: 0 <= i < |Days2026| ==> Valid(Days2026[i].0) && Days2026[i].0.year == 2026
  {
  }

  function Holidays2026(): (r: seq<Holiday>)
    ensures |r| == |Days2026| == 13
    ensures forall i :: 0 <= i < 13 ==> Valid(Days2026[i].0) && r[i] == Holiday(Iso(Days2026[i].0), Days2026[i].1)
  {
    Days2026Valid();
    seq(|Days2026|, i requires 0 <= i < |Days2026| => Holiday(Iso(Days2026[i].0), Days2026[i].1))
  }

  /** The days are listed in calendar order. */
  lemma Days2026Ascending()
    ensures forall i :: 0 <= i < 12 ==> DayNumber(Days2026[i].0) < DayNumber(Days2026[i + 1].0)
  {
    Days2026Valid();
    forall i | 0 <= i < 12 ensures DayNumber(Days2026[i].0) < DayNumber(Days2026[i + 1].0) {
      DayNumberOrder(Days2026[i].0, Days2026[i + 1].0);
    }
  }

  lemma {:induction false} AscendingApart(i: nat, j: nat)
    requires i < j < 13
    ensures DayNumber(Days2026[i].0) < DayNumber(Days2026[j].0)
    decreases j - i
  {
    Days2026Ascending();
    if i + 1 < j {
      AscendingApart(i + 1, j);
    }
  }

  /** Thirteen holidays, each on a real day of 2026, no two on the same
      day. */
  lemma Holidays2026Distinct()
    ensures forall i :: 0 <= i < 13 ==> ParseIso(Holidays2026()[i].date) == Some(Days2026[i].0)
                                         && Days2026[i].0.year == 2026
    ensures forall i, j :: 0 <= i < j < 13 ==> Holidays2026()[i].date != Holidays2026()[j].date
  {
    var h := Holidays2026();
    Days2026Valid();
    forall i | 0 <= i < 13 ensures ParseIso(h[i].date) == Some(Days2026[i].0) {
      IsoRoundTrip(Days2026[i].0);
    }
    forall i, j | 0 <= i < j < 13 ensures h[i].date != h[j].date {
      AscendingApart(i, j);
    }
  }
}
