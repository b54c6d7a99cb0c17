/**
 * core/services/booking_service.py: `check_duplicate_booking`, a read-only
 * existence query over the bookings of core/models.py. Its key is the
 * `unique_together` key of that schema, so it predicts exactly when inserting
 * a booking would be refused as a duplicate.
 */
module BookingService {
  import opened Wrappers
  import opened Queries
  import opened Domain
  import CoreModels

  /** Some stored booking, of any hospital, has this patient, test, date and time. */
  function CheckDuplicateBooking(bookings: seq<CoreModels.Booking>, patient: Id, test: Id, date: Day, time: TimeOfDay): (found: bool)
    ensures found <==> exists b :: b in bookings && b.patient == patient && b.test == test && b.date == date && b.time == time
  {
    Exists(bookings, (b: CoreModels.Booking) => b.patient == patient && b.test == test && b.date == date && b.time == time)
  }

  /**
   * The hospital takes no part in the key: once a booking is stored, a second
   * booking with its patient, test, date and time is reported as a duplicate
   * and refused by the unique key, whatever its hospital.
   */
  lemma DuplicateIgnoresHospital(st: CoreModels.Store, b: CoreModels.Booking, otherId: Id, hospital: string)
    requires CoreModels.Valid(st)
    requires forall x :: x in st.bookings ==> x.id != b.id && x.id != otherId
    requires b.id != otherId
    requires CoreModels.AddBooking(st, b).Success?
    ensures var stored := CoreModels.AddBooking(st, b).value;
      var second := b.(id := otherId, hospital := hospital);
      && CheckDuplicateBooking(stored.bookings, second.patient, second.test, second.date, second.time)
      && CoreModels.AddBooking(stored, second) == Failure(CoreModels.DuplicateBookingKey)
  {
    var stored := CoreModels.AddBooking(st, b).value;
    assert b in stored.bookings;
    assert CoreModels.HasPatient(stored, b.patient) && CoreModels.HasTest(stored, b.test) by {
      var p :| p in st.patients && p.id == b.patient;
      var t :| t in st.tests && t.id == b.test;
      assert p in stored.patients && t in stored.tests;
    }
  }

  /**
   * Every stored row counts: adding a booking can only turn the answer from
   * false to true, and only for its own key.
   */
  lemma DuplicateCheckMonotone(bookings: seq<CoreModels.Booking>, extra: CoreModels.Booking,
                                 patient: Id, test: Id, date: Day, time: TimeOfDay)
    ensures CheckDuplicateBooking(bookings + [extra], patient, test, date, time) <==>
      CheckDuplicateBooking(bookings, patient, test, date, time)
      || (extra.patient == patient && extra.test == test && extra.date == date && extra.time == time)
  {
    var more := bookings + [extra];
    assert extra in more;
    assert forall b :: b in more <==> b in bookings || b == extra;
  }

  /**
   * On a valid store, for a booking whose patient and test exist, the check is
   * true exactly when the database would refuse the insert as a duplicate.
   */
  lemma DuplicateCheckPredictsUniqueKey(st: CoreModels.Store, b: CoreModels.Booking)
    requires CoreModels.Valid(st)
    requires forall x :: x in st.bookings ==> x.id != b.id
    requires CoreModels.HasPatient(st, b.patient) && CoreModels.HasTest(st, b.test)
    ensures CheckDuplicateBooking(st.bookings, b.patient, b.test, b.date, b.time) <==>
      CoreModels.AddBooking(st, b) == Failure(CoreModels.DuplicateBookingKey)
    ensures !CheckDuplicateBooking(st.bookings, b.patient, b.test, b.date, b.time) <==>
      CoreModels.AddBooking(st, b).Success?
  {
    assert forall x :: CoreModels.BookingKey(x) == CoreModels.BookingKey(b) <==>
      x.patient == b.patient && x.test == b.test && x.date == b.date && x.time == b.time;
  }
}
