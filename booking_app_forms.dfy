/**
 * hospital_project/booking_app/forms.py: the booking form of the second
 * application. Its date check is the thirty-day window without the weekend
 * rule of core/forms.py, and the hospital is one of a fixed choice set.
 */
module BookingAppForms {
  import opened Wrappers
  import opened Domain
  import Validators
  import CoreForms

  /** The keys of `HOSPITAL_CHOICES`. */
  const HospitalChoices: seq<string> := ["Central", "Northwood"]

  datatype ChoiceError = InvalidChoice

  /** `clean_booking_date`: from today to today plus thirty days, any day of the week. */
  function CleanBookingDate(bookingDate: Day, today: Day): (r: Result<Day, Validators.DateError>)
    ensures r.Success? <==> today <= bookingDate <= today + Validators.BookingWindowDays
    ensures r.Success? ==> r.value == bookingDate
    ensures r == Failure(Validators.DateInPast) <==> bookingDate < today
    ensures r == Failure(Validators.DateTooFar) <==> today + Validators.BookingWindowDays < bookingDate
  {
    var maxDate := today + Validators.BookingWindowDays;
    if bookingDate < today then Failure(Validators.DateInPast)
    else if bookingDate > maxDate then Failure(Validators.DateTooFar)
    else Success(bookingDate)
  }

  /** This variant accepts exactly what the shared validator accepts. */
  lemma CleanBookingDateMatchesValidator(bookingDate: Day, today: Day)
    ensures CleanBookingDate(bookingDate, today).Success? <==>
      Validators.ValidateBookingDate(bookingDate, today) == Pass
    ensures CleanBookingDate(bookingDate, today).Failure? ==>
      Validators.ValidateBookingDate(bookingDate, today) == Fail(CleanBookingDate(bookingDate, today).error)
  {
  }

  /**
   * core/forms.py accepts a subset of the dates this variant accepts: the same
   * window, less Saturdays and Sundays, which only this variant lets through.
   */
  lemma CoreFormIsStricter(bookingDate: Day, today: Day, weekday: Weekday)
    ensures CoreForms.CleanBookingDate(bookingDate, today, weekday).Success? ==>
      CleanBookingDate(bookingDate, today).Success?
    ensures CleanBookingDate(bookingDate, today).Success? && weekday >= CoreForms.Saturday ==>
      CoreForms.CleanBookingDate(bookingDate, today, weekday) == Failure(CoreForms.WeekendDate)
  {
  }

  /** `forms.ChoiceField(choices=HOSPITAL_CHOICES)`: only 'Central' and 'Northwood' pass. */
  function CleanHospitalName(hospitalName: string): (r: Result<string, ChoiceError>)
    ensures r.Success? <==> hospitalName == "Central" || hospitalName == "Northwood"
    ensures r.Success? ==> r.value == hospitalName
  {
    if hospitalName in HospitalChoices then Success(hospitalName) else Failure(InvalidChoice)
  }
}
