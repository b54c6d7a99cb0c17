/**
 * core/validators.py: the contact-number shape `^07\d{8}$` and the booking
 * date window. Every other place in the application that checks a contact
 * number against the same pattern uses `ValidatePhoneNumber` here.
 */
module Validators {
  import opened Wrappers
  import opened Domain

  /** `timedelta(days=30)`: the last bookable day is today plus this. */
  const BookingWindowDays: nat := 30

  predicate IsDigit(c: char)
  {
    '0' <= c <= '9'
  }

  predicate AllDigits(s: string)
  {
    s == [] || (IsDigit(s[0]) && AllDigits(s[1..]))
  }

  /** `re.match(r'^07\d{8}$', value)` read as: "07" and then exactly eight ASCII digits. */
  predicate ValidatePhoneNumber(value: string)
  {
    |value| == 10 && value[..2] == "07" && AllDigits(value[2..])
  }

  lemma {:induction false} AllDigitsAt(s: string)
    ensures AllDigits(s) <==> forall i :: 0 <= i < |s| ==> IsDigit(s[i])
  {
    if s != [] {
      AllDigitsAt(s[1..]);
      assert forall i :: 1 <= i < |s| ==> s[i] == s[1..][i - 1];
    }
  }

  /** The accepted values are exactly the ten-character strings "07" followed by digits. */
  lemma PhoneNumberShape(value: string)
    ensures ValidatePhoneNumber(value) <==>
      && |value| == 10
      && value[0] == '0' && value[1] == '7'
      && forall i :: 2 <= i < 10 ==> IsDigit(value[i])
  {
    if |value| == 10 {
      AllDigitsAt(value[2..]);
      assert forall i :: 2 <= i < 10 ==> value[i] == value[2..][i - 2];
      assert value[..2] == "07" <==> value[0] == '0' && value[1] == '7';
    }
  }

  /** Every eight digits after "07" form an accepted number, and only those. */
  lemma PhoneNumberFromDigits(digits: string)
    ensures ValidatePhoneNumber("07" + digits) <==> |digits| == 8 && AllDigits(digits)
  {
    var v := "07" + digits;
    assert v[..2] == "07";
    assert v[2..] == digits;
  }

  datatype DateError = DateInPast | DateTooFar

  /** `validate_booking_date`: today, and every day up to thirty days ahead, are accepted. */
  function ValidateBookingDate(value: Day, today: Day): (r: Outcome<DateError>)
    ensures r == Fail(DateInPast) <==> value < today
    ensures r == Fail(DateTooFar) <==> today + BookingWindowDays < value
    ensures r == Pass <==> today <= value <= today + BookingWindowDays
  {
    var maxDate := today + BookingWindowDays;
    if value < today then Fail(DateInPast)
    else if value > maxDate then Fail(DateTooFar)
    else Pass
  }
}
