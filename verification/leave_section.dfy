/** The employee's leave application dialog (frontend/src/components/employee/LeaveSection.js):
    the weekend and holiday checks on single dates, the walk over a date range
    that lists every day a leave may not cover, and the gate that keeps such
    an application from being posted. */
module LeaveSection {
  import opened Wrappers
  import opened Text
  import opened Seqs
  import opened CivilDate

  /** A company holiday as the holidays endpoint returns it; `date` is the
      `YYYY-MM-DD` text it is compared by. */
  datatype Holiday = Holiday(date: string, name: string)

  /** One day the range check rejects, with the reason shown beside it. */
  datatype Flag = Flag(date: Date, reason: string)

  /** The form of the apply dialog. */
  datatype LeaveForm = LeaveForm(leaveType: string, startDate: string, endDate: string, reason: string)

  const EmptyForm := LeaveForm("", "", "", "")

  function DayName(d: Date): (r: Option<string>)
    requires WellFormed(d)
    ensures r.Some? <==> IsWeekend(d)
  {
    if Weekday(d) == 0 then Some("Sunday")
    else if Weekday(d) == 6 then Some("Saturday")
    else None
  }

  /** `getHolidayName`: the name of the first holiday on that exact date text. */
  function HolidayName(holidays: seq<Holiday>, dateText: string): (r: Option<string>)
    ensures dateText == "" ==> r.None?
    ensures r.None? <==> dateText == "" || forall i :: 0 <= i < |holidays| ==> holidays[i].date != dateText
    ensures r.Some? ==> exists i :: 0 <= i < |holidays| && holidays[i].date == dateText && holidays[i].name == r.value
                                    && forall j :: 0 <= j < i ==> holidays[j].date != dateText
  {
    if dateText == "" then None
    else
      match FindFirst(holidays, (h: Holiday) => h.date == dateText)
      case None => None
      case Some(h) => Some(h.name)
  }

  /** `isDateDisabled`: an empty value is never disabled; a weekend day is;
      otherwise the exact date text must belong to a holiday. A text that is
      not a date has no weekday, so only the holiday comparison applies. */
  function IsDateDisabled(holidays: seq<Holiday>, dateText: string): (r: bool)
    ensures dateText == "" ==> !r
    ensures dateText != "" && ParseIso(dateText).Some? && IsWeekend(ParseIso(dateText).value) ==> r
    ensures dateText != "" && !(ParseIso(dateText).Some? && IsWeekend(ParseIso(dateText).value)) ==>
              (r <==> exists i :: 0 <= i < |holidays| && holidays[i].date == dateText)
  {
    if dateText == "" then false
    else
      match ParseIso(dateText)
      case Some(d) =>
        IsWeekend(d) || exists i :: 0 <= i < |holidays| && holidays[i].date == dateText
      case None =>
        exists i :: 0 <= i < |holidays| && holidays[i].date == dateText
  }

  /** The reason one day of a range is rejected: the weekday name comes
      first, so a holiday that falls on a weekend is reported as the weekend. */
  function DayFlag(holidays: seq<Holiday>, d: Date): (r: Option<string>)
    requires Valid(d)
    ensures IsWeekend(d) ==> r == DayName(d)
    ensures !IsWeekend(d) ==> r == HolidayName(holidays, Iso(d))
  {
    match DayName(d)
    case Some(name) => Some(name)
    case None => HolidayName(holidays, Iso(d))
  }

  /** The days visited by the walk from `cur` to `last`, one step a day:
      the i-th visited day is `i` days after `cur`. */
  function Walk(cur: Date, last: Date): (r: seq<Date>)
    requires WellFormed(cur) && Valid(last)
    ensures |r| == if DayNumber(cur) <= DayNumber(last) then DayNumber(last) - DayNumber(cur) + 1 else 0
    ensures forall i :: 0 <= i < |r| ==> Valid(r[i]) && DayNumber(r[i]) == DayNumber(cur) + i
    decreases DayNumber(last) - DayNumber(cur) + 1
  {
    if DayNumber(cur) > DayNumber(last) then []
    else
      NotLaterIsValid(cur, last);
      NextDayNumber(cur);
      if DayNumber(cur) == DayNumber(last) then [cur]
      else
        NextDayValid(cur, last);
        [cur] + Walk(NextDay(cur), last)
  }

  /** Every day between `cur` and `last` is visited. */
  lemma WalkVisitsEveryDay(cur: Date, last: Date, d: Date)
    requires WellFormed(cur) && Valid(last) && Valid(d)
    requires DayNumber(cur) <= DayNumber(d) <= DayNumber(last)
    ensures var r := Walk(cur, last); 0 <= DayNumber(d) - DayNumber(cur) < |r| && r[DayNumber(d) - DayNumber(cur)] == d
  {
    var r := Walk(cur, last);
    DayNumberInjective(r[DayNumber(d) - DayNumber(cur)], d);
  }

  /** A visited day with its reason, when it is rejected. */
  function FlagOf(holidays: seq<Holiday>, d: Date): (r: Option<Flag>)
    ensures r.Some? <==> Valid(d) && DayFlag(holidays, d).Some?
    ensures r.Some? ==> r.value.date == d && DayFlag(holidays, d) == Some(r.value.reason)
  {
    if !Valid(d) then None
    else
      match DayFlag(holidays, d)
      case Some(reason) => Some(Flag(d, reason))
      case None => None
  }

  /** `FlagOf` for one holiday list, as a function value. */
  function Flagger(holidays: seq<Holiday>): Date -> Option<Flag> {
    d => FlagOf(holidays, d)
  }

  /** The rejected days of the walk from `cur` to `last`, in visiting order. */
  function FlagsFrom(holidays: seq<Holiday>, cur: Date, last: Date): (r: seq<Flag>)
    requires WellFormed(cur) && Valid(last)
    ensures forall i :: 0 <= i < |r| ==>
              && Valid(r[i].date) && DayNumber(cur) <= DayNumber(r[i].date) <= DayNumber(last)
              && DayFlag(holidays, r[i].date) == Some(r[i].reason)
  {
    var days := Walk(cur, last);
    assert days[0..] == days;
    var o := Origins(Flagger(holidays), days, 0);
    FilterMap(Flagger(holidays), days)
  }

  /** The walk reports the rejected days in ascending order. */
  lemma FlagsFromAscending(holidays: seq<Holiday>, cur: Date, last: Date)
    requires WellFormed(cur) && Valid(last)
    ensures var r := FlagsFrom(holidays, cur, last);
      forall i, j :: 0 <= i < j < |r| ==> DayNumber(r[i].date) < DayNumber(r[j].date)
  {
    var f := Flagger(holidays);
    var days := Walk(cur, last);
    var r := FilterMap(f, days);
    assert days[0..] == days;
    var o := Origins(f, days, 0);
    forall i | 0 <= i < |r|
      ensures DayNumber(r[i].date) == DayNumber(cur) + o[i]
    {
      assert r[i].date == days[o[i]];
    }
  }

  /** The walk reports every rejected day between `cur` and `last`. */
  lemma FlagsFromComplete(holidays: seq<Holiday>, cur: Date, last: Date, d: Date)
    requires WellFormed(cur) && Valid(last) && Valid(d)
    requires DayNumber(cur) <= DayNumber(d) <= DayNumber(last) && DayFlag(holidays, d).Some?
    ensures exists i :: 0 <= i < |FlagsFrom(holidays, cur, last)| && FlagsFrom(holidays, cur, last)[i].date == d
  {
    var days := Walk(cur, last);
    WalkVisitsEveryDay(cur, last, d);
    var k := DayNumber(d) - DayNumber(cur);
    FilterMapComplete(Flagger(holidays), days, k);
    assert FilterMap(Flagger(holidays), days) == FlagsFrom(holidays, cur, last);
  }

  /** `validateDateRange`: null when either date is missing or is not a date
      (an invalid `Date` never compares as `<=`), otherwise the flagged days
      of the walk from start to end, or null when there are none. */
  function ValidateDateRange(holidays: seq<Holiday>, startText: string, endText: string): (r: Option<seq<Flag>>)
    ensures startText == "" || endText == "" ==> r.None?
    ensures r.Some? ==> |r.value| > 0
  {
    if startText == "" || endText == "" then None
    else
      match (ParseIso(startText), ParseIso(endText))
      case (Some(s), Some(e)) =>
        var flags := FlagsFrom(holidays, s, e);
        if |flags| > 0 then Some(flags) else None
      case _ => None
  }

  /** The range is in the four-digit calendar and `d` lies within it. */
  predicate InRange(startText: string, endText: string, d: Date) {
    && ParseIso(startText).Some? && ParseIso(endText).Some?
    && Valid(d)
    && DayNumber(ParseIso(startText).value) <= DayNumber(d) <= DayNumber(ParseIso(endText).value)
  }

  /** The check passes (null) exactly when no day of the range is a
      Saturday, a Sunday or a holiday. */
  lemma ValidateDateRangeNullIff(holidays: seq<Holiday>, startText: string, endText: string)
    requires startText != "" && endText != ""
    ensures ValidateDateRange(holidays, startText, endText).None? <==>
              forall d :: InRange(startText, endText, d) ==> DayFlag(holidays, d).None?
  {
    if ParseIso(startText).Some? && ParseIso(endText).Some? {
      var s, e := ParseIso(startText).value, ParseIso(endText).value;
      var flags := FlagsFrom(holidays, s, e);
      assert ValidateDateRange(holidays, startText, endText).None? <==> |flags| == 0;
      if |flags| > 0 {
        assert InRange(startText, endText, flags[0].date);
      } else {
        forall d | InRange(startText, endText, d)
          ensures DayFlag(holidays, d).None?
        {
          if DayFlag(holidays, d).Some? {
            FlagsFromComplete(holidays, s, e, d);
          }
        }
      }
    }
  }

  /** A refusal lists every such day of the range, each once, in ascending
      order, with its reason. */
  lemma ValidateDateRangeReport(holidays: seq<Holiday>, startText: string, endText: string)
    requires ValidateDateRange(holidays, startText, endText).Some?
    ensures var flags := ValidateDateRange(holidays, startText, endText).value;
              && (forall i :: 0 <= i < |flags| ==> InRange(startText, endText, flags[i].date)
                                                   && DayFlag(holidays, flags[i].date) == Some(flags[i].reason))
              && (forall i, j :: 0 <= i < j < |flags| ==>
                    WellFormed(flags[i].date) && WellFormed(flags[j].date) && DayNumber(flags[i].date) < DayNumber(flags[j].date))
              && (forall d :: InRange(startText, endText, d) && DayFlag(holidays, d).Some? ==>
                               exists i :: 0 <= i < |flags| && flags[i].date == d)
  {
    var s, e := ParseIso(startText).value, ParseIso(endText).value;
    var flags := FlagsFrom(holidays, s, e);
    assert ValidateDateRange(holidays, startText, endText).value == flags;
    FlagsFromAscending(holidays, s, e);
    forall d | InRange(startText, endText, d) && DayFlag(holidays, d).Some?
      ensures exists i :: 0 <= i < |flags| && flags[i].date == d
    {
      FlagsFromComplete(holidays, s, e, d);
    }
  }

  /** An end date before the start date gives an empty walk: null. */
  lemma ReversedRangeIsNull(holidays: seq<Holiday>, startText: string, endText: string)
    requires ParseIso(startText).Some? && ParseIso(endText).Some?
    requires DayNumber(ParseIso(startText).value) > DayNumber(ParseIso(endText).value)
    ensures ValidateDateRange(holidays, startText, endText).None?
  {
  }

  /** A holiday on a Saturday or Sunday is reported by its weekday name. */
  lemma WeekendHolidayLabel(holidays: seq<Holiday>, d: Date, i: nat)
    requires Valid(d) && IsWeekend(d) && i < |holidays| && holidays[i].date == Iso(d)
    ensures DayFlag(holidays, d) == Some(if Weekday(d) == 0 then "Sunday" else "Saturday")
  {
  }

  /** The text of one rejected day: `YYYY-MM-DD (reason)`. */
  function FlagText(f: Flag): string
    requires Valid(f.date)
  {
    Iso(f.date) + " (" + f.reason + ")"
  }

  function JoinComma(items: seq<string>): string {
    if |items| == 0 then ""
    else if |items| == 1 then items[0]
    else items[0] + ", " + JoinComma(items[1..])
  }

  /** What submitting the dialog does: post the whole form, or refuse with the
      list of rejected days. */
  datatype Submission = Blocked(message: string) | Post(payload: LeaveForm)

  /** `handleApplyLeave`: any rejected day in the range stops the request
      before it is sent; otherwise the form is posted as it is. */
  function ApplyLeave(holidays: seq<Holiday>, form: LeaveForm): (r: Submission)
    ensures r.Post? <==> ValidateDateRange(holidays, form.startDate, form.endDate).None?
    ensures r.Post? ==> r.payload == form
  {
    match ValidateDateRange(holidays, form.startDate, form.endDate)
    case None => Post(form)
    case Some(flags) =>
      Blocked("Cannot apply for leave on holidays or weekends. Invalid dates: "
              + JoinComma(seq(|flags|, i requires 0 <= i < |flags| => FlagText(flags[i]))))
  }

  /** Submitting with a weekend or holiday anywhere in the range sends nothing. */
  lemma NoPostWithRejectedDay(holidays: seq<Holiday>, form: LeaveForm, d: Date)
    requires form.startDate != "" && form.endDate != ""
    requires InRange(form.startDate, form.endDate, d) && DayFlag(holidays, d).Some?
    ensures ApplyLeave(holidays, form).Blocked?
  {
    ValidateDateRangeNullIff(holidays, form.startDate, form.endDate);
  }

  /** After the post: success clears the form and closes the dialog; a
      failure leaves both as they were. */
  datatype Dialog = Dialog(form: LeaveForm, open: bool)

  function ApplySettled(dialog: Dialog, succeeded: bool): (r: Dialog)
    ensures succeeded ==> r == Dialog(EmptyForm, false)
    ensures !succeeded ==> r == dialog
  {
    if succeeded then Dialog(EmptyForm, false) else dialog
  }

  /** The start-date input: a disabled day is refused and the field is left empty. */
  function OnStartDateChange(holidays: seq<Holiday>, form: LeaveForm, value: string): (r: LeaveForm)
    ensures r == form.(startDate := r.startDate)
    ensures r.startDate == (if value != "" && IsDateDisabled(holidays, value) then "" else value)
  {
    if value != "" && IsDateDisabled(holidays, value) then form.(startDate := "")
    else form.(startDate := value)
  }

  /** The end-date input: a disabled day, or a day whose text sorts before a
      chosen start date, is refused and the field is left empty. */
  function OnEndDateChange(holidays: seq<Holiday>, form: LeaveForm, value: string): (r: LeaveForm)
    ensures r == form.(endDate := r.endDate)
    ensures r.endDate == value || r.endDate == ""
    ensures value != "" && IsDateDisabled(holidays, value) ==> r.endDate == ""
    ensures value != "" && form.startDate != "" && Less(value, form.startDate) ==> r.endDate == ""
    ensures (value != "" && !IsDateDisabled(holidays, value)
             && (form.startDate == "" || !Less(value, form.startDate))) ==> r.endDate == value
  {
    if value != "" && IsDateDisabled(holidays, value) then form.(endDate := "")
    else if value != "" && form.startDate != "" && Less(value, form.startDate) then form.(endDate := "")
    else form.(endDate := value)
  }

  /** On real dates the text comparison is the date comparison: an end day
      is refused for ordering exactly when it comes before the start day. */
  lemma EndBeforeStartRefused(holidays: seq<Holiday>, form: LeaveForm, value: string)
    requires ParseIso(value).Some? && ParseIso(form.startDate).Some?
    requires !IsDateDisabled(holidays, value)
    ensures OnEndDateChange(holidays, form, value).endDate == "" <==>
              DayNumber(ParseIso(value).value) < DayNumber(ParseIso(form.startDate).value)
  {
    var e, s := ParseIso(value).value, ParseIso(form.startDate).value;
    ParseIsoExact(value);
    ParseIsoExact(form.startDate);
    IsoOrder(e, s);
  }
}
