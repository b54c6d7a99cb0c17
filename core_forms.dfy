/**
 * core/forms.py: the booking acceptance check of `BookingForm`, the time-slot
 * bookkeeping done when a booking is saved, and the contact, password and
 * time-slot checks of `PatientForm`, `RegisterForm` and `TimeSlotForm`.
 *
 * Records have the shape these forms use (`booking_date`, `booking_time`,
 * `hospital_name`, `is_active`, `status`, `Test.duration`). The database is read
 * as a snapshot (`bookings`, `patients`, `slots`) by the checks and changed in
 * place by `Database`.
 */
module CoreForms {
  import opened Wrappers
  import opened Queries
  import opened Domain
  import Validators

  const OpeningTime: TimeOfDay := 8 * 60
  const ClosingTime: TimeOfDay := 17 * 60
  const Saturday: Weekday := 5

  /** `Test.duration` in minutes, looked up by the test's key. */
  type Durations = Id -> nat

  datatype Status = Pending | Completed | Cancelled

  datatype Booking = Booking(
    id: Id,
    patient: Id,
    test: Id,
    bookingDate: Day,
    bookingTime: TimeOfDay,
    hospitalName: string,
    status: Status,
    isActive: bool)

  /** The fields a `BookingForm` submits. */
  datatype BookingRequest = BookingRequest(
    patient: Id,
    test: Id,
    bookingDate: Day,
    bookingTime: TimeOfDay,
    hospitalName: string,
    status: Status)

  datatype BookingError =
    | DateInPast
    | DateTooFar
    | WeekendDate
    | OutsideHours
    | DuplicateBooking
    | SlotUnavailable

  // ---------------------------------------------------------------------------
  // Field checks

  /** `clean_booking_date`: within the thirty-day window and on a weekday. */
  function CleanBookingDate(bookingDate: Day, today: Day, weekday: Weekday): (r: Result<Day, BookingError>)
    ensures r.Success? <==>
      today <= bookingDate <= today + Validators.BookingWindowDays && weekday < Saturday
    ensures r.Success? ==> r.value == bookingDate
    ensures r == Failure(DateInPast) <==> bookingDate < today
    ensures r == Failure(DateTooFar) <==> today + Validators.BookingWindowDays < bookingDate
  {
    if bookingDate < today then Failure(DateInPast)
    else if bookingDate > today + Validators.BookingWindowDays then Failure(DateTooFar)
    else if weekday >= Saturday then Failure(WeekendDate)
    else Success(bookingDate)
  }

  /** The form's date check is the shared validator plus the weekend rule. */
  lemma CleanBookingDateRefinesValidator(bookingDate: Day, today: Day, weekday: Weekday)
    ensures CleanBookingDate(bookingDate, today, weekday).Success? <==>
      Validators.ValidateBookingDate(bookingDate, today) == Pass && weekday < Saturday
    ensures CleanBookingDate(bookingDate, today, weekday) == Failure(WeekendDate) <==>
      Validators.ValidateBookingDate(bookingDate, today) == Pass && Saturday <= weekday
  {
  }

  /** `clean_booking_time`: from 08:00 to 17:00, both included. */
  function CleanBookingTime(bookingTime: TimeOfDay): (r: Result<TimeOfDay, BookingError>)
    ensures r.Success? <==> OpeningTime <= bookingTime <= ClosingTime
    ensures r.Success? ==> r.value == bookingTime
    ensures r.Failure? ==> r.error == OutsideHours
  {
    if !(OpeningTime <= bookingTime <= ClosingTime) then Failure(OutsideHours)
    else Success(bookingTime)
  }

  // ---------------------------------------------------------------------------
  // The duplicate check of `clean`

  /** A row of `Booking.objects.filter(patient, test, booking_date, booking_time, is_active=True)`, once the booking being edited is excluded. */
  predicate SameActiveKey(b: Booking, patient: Id, test: Id, date: Day, time: TimeOfDay, editing: Option<Id>)
  {
    && b.isActive
    && b.patient == patient && b.test == test
    && b.bookingDate == date && b.bookingTime == time
    && editing != Some(b.id)
  }

  function HasActiveDuplicate(bookings: seq<Booking>, patient: Id, test: Id, date: Day, time: TimeOfDay, editing: Option<Id>): (found: bool)
    ensures found <==> exists b :: b in bookings && SameActiveKey(b, patient, test, date, time, editing)
  {
    Exists(bookings, b => SameActiveKey(b, patient, test, date, time, editing))
  }

  // ---------------------------------------------------------------------------
  // The overlap check: `is_time_slot_available`

  /** `datetime.combine(date, time) + timedelta(minutes=duration)`, as minutes after the day's midnight. */
  function EndTime(start: TimeOfDay, duration: nat): int
  {
    start + duration
  }

  /** The half-open intervals `[s1, e1)` and `[s2, e2)` intersect. */
  predicate IntervalsOverlap(s1: int, e1: int, s2: int, e2: int)
  {
    s1 < e2 && e1 > s2
  }

  /** A row of the overlap query: active, at the hospital, on the date, not the booking being edited. */
  predicate SameDayActive(b: Booking, hospitalName: string, date: Day, editing: Option<Id>)
  {
    b.hospitalName == hospitalName && b.bookingDate == date && b.isActive && editing != Some(b.id)
  }

  /** The interval `[start, end)` of a candidate meets the interval that `b` occupies. */
  predicate Collides(b: Booking, start: int, end: int, durations: Durations)
  {
    IntervalsOverlap(start, end, b.bookingTime, EndTime(b.bookingTime, durations(b.test)))
  }

  /** No booking of the overlap query collides with a `test` starting at `time`. */
  predicate SlotAvailable(bookings: seq<Booking>, hospitalName: string, date: Day, time: TimeOfDay, test: Id,
                          editing: Option<Id>, durations: Durations)
  {
    forall b :: b in bookings && SameDayActive(b, hospitalName, date, editing) ==>
      !Collides(b, time, EndTime(time, durations(test)), durations)
  }

  /** The scan of `is_time_slot_available`, returning at the first overlapping booking. */
  method IsTimeSlotAvailable(bookings: seq<Booking>, hospitalName: string, date: Day, time: TimeOfDay, test: Id,
                             editing: Option<Id>, durations: Durations) returns (available: bool)
    ensures available <==> SlotAvailable(bookings, hospitalName, date, time, test, editing, durations)
  {
    var startTime := time;
    var endTime := EndTime(time, durations(test));
    var overlapping := Filter(bookings, b => SameDayActive(b, hospitalName, date, editing));
    var i := 0;
    while i < |overlapping|
      invariant 0 <= i <= |overlapping|
      invariant forall j :: 0 <= j < i ==> !Collides(overlapping[j], startTime, endTime, durations)
    {
      var booking := overlapping[i];
      var bookingStart := booking.bookingTime;
      var bookingEnd := EndTime(bookingStart, durations(booking.test));
      if startTime < bookingEnd && endTime > bookingStart {
        assert booking in overlapping;
        assert booking in bookings && SameDayActive(booking, hospitalName, date, editing);
        return false;
      }
      i := i + 1;
    }
    return true;
  }

  /** A booking that starts exactly when another ends does not collide with it. */
  lemma AdjacentBookingsDoNotCollide(b: Booking, time: TimeOfDay, test: Id, durations: Durations)
    requires time == EndTime(b.bookingTime, durations(b.test)) || EndTime(time, durations(test)) == b.bookingTime
    ensures !Collides(b, time, EndTime(time, durations(test)), durations)
  {
  }

  // ---------------------------------------------------------------------------
  // The whole form: field checks, then `clean`

  function FieldErrors<R>(r: Result<R, BookingError>): seq<BookingError>
  {
    if r.Failure? then [r.error] else []
  }

  /**
   * `clean` sees only the fields whose own check passed (`date`, `time`), and
   * raises at most one error: the duplicate first, then the overlap.
   */
  function CleanErrors(bookings: seq<Booking>, req: BookingRequest, date: Option<Day>, time: Option<TimeOfDay>,
                       editing: Option<Id>, durations: Durations): seq<BookingError>
  {
    if date.Some? && time.Some?
       && HasActiveDuplicate(bookings, req.patient, req.test, date.value, time.value, editing)
    then [DuplicateBooking]
    else if req.hospitalName != "" && date.Some? && time.Some?
       && !SlotAvailable(bookings, req.hospitalName, date.value, time.value, req.test, editing, durations)
    then [SlotUnavailable]
    else []
  }

  /**
   * Every error `BookingForm.is_valid()` collects. `editing` is the key of the
   * booking being edited (`self.instance.id`), `today` and `weekday` describe
   * the current date and the requested date.
   */
  function FullClean(bookings: seq<Booking>, req: BookingRequest, editing: Option<Id>,
                     today: Day, weekday: Weekday, durations: Durations): (errors: seq<BookingError>)
    ensures errors == [] <==>
      && today <= req.bookingDate <= today + Validators.BookingWindowDays
      && weekday < Saturday
      && OpeningTime <= req.bookingTime <= ClosingTime
      && !(exists b :: b in bookings &&
             SameActiveKey(b, req.patient, req.test, req.bookingDate, req.bookingTime, editing))
      && (req.hospitalName != "" ==>
            SlotAvailable(bookings, req.hospitalName, req.bookingDate, req.bookingTime, req.test, editing, durations))
    ensures DuplicateBooking in errors <==>
      && CleanBookingDate(req.bookingDate, today, weekday).Success?
      && CleanBookingTime(req.bookingTime).Success?
      && exists b :: b in bookings &&
           SameActiveKey(b, req.patient, req.test, req.bookingDate, req.bookingTime, editing)
  {
    var date := CleanBookingDate(req.bookingDate, today, weekday);
    var time := CleanBookingTime(req.bookingTime);
    FieldErrors(date) + FieldErrors(time)
      + CleanErrors(bookings, req, date.ToOption(), time.ToOption(), editing, durations)
  }

  /** Rows the checks filter out (inactive ones, the booking being edited) never cause a rejection. */
  lemma FilteredRowsNeverBlock(bookings: seq<Booking>, x: Booking, req: BookingRequest,
                                 editing: Option<Id>, today: Day, weekday: Weekday, durations: Durations)
    requires !x.isActive || editing == Some(x.id)
    ensures FullClean(bookings + [x], req, editing, today, weekday, durations)
         == FullClean(bookings, req, editing, today, weekday, durations)
  {
    var date := CleanBookingDate(req.bookingDate, today, weekday);
    var time := CleanBookingTime(req.bookingTime);
    if date.Success? && time.Success? {
      var more := bookings + [x];
      assert HasActiveDuplicate(more, req.patient, req.test, req.bookingDate, req.bookingTime, editing)
          == HasActiveDuplicate(bookings, req.patient, req.test, req.bookingDate, req.bookingTime, editing);
      assert SlotAvailable(more, req.hospitalName, req.bookingDate, req.bookingTime, req.test, editing, durations)
          == SlotAvailable(bookings, req.hospitalName, req.bookingDate, req.bookingTime, req.test, editing, durations);
    }
  }

  // ---------------------------------------------------------------------------
  // What an accepted booking does to the store of bookings

  /** The booking `save()` writes: the edited instance with the submitted fields, or a new active one. */
  function BuildBooking(req: BookingRequest, instance: Option<Booking>, freshId: Id): (b: Booking)
    ensures b.patient == req.patient && b.test == req.test && b.hospitalName == req.hospitalName
    ensures b.bookingDate == req.bookingDate && b.bookingTime == req.bookingTime && b.status == req.status
    ensures instance.Some? ==> b.id == instance.value.id && b.isActive == instance.value.isActive
    ensures instance.None? ==> b.id == freshId && b.isActive
  {
    match instance
    case Some(inst) =>
      inst.(patient := req.patient, test := req.test, bookingDate := req.bookingDate,
            bookingTime := req.bookingTime, hospitalName := req.hospitalName, status := req.status)
    case None =>
      Booking(freshId, req.patient, req.test, req.bookingDate, req.bookingTime, req.hospitalName, req.status, true)
  }

  function EditingId(instance: Option<Booking>): Option<Id>
  {
    if instance.Some? then Some(instance.value.id) else None
  }

  /** `booking.save()`: overwrite the row with the same key, or insert. */
  function StoreBooking(bookings: seq<Booking>, b: Booking): seq<Booking>
  {
    SaveRow(bookings, b, (x: Booking) => x.id == b.id)
  }

  /** No two stored bookings share a primary key. */
  predicate BookingIdsUnique(bookings: seq<Booking>)
  {
    forall i, j :: 0 <= i < j < |bookings| ==> bookings[i].id != bookings[j].id
  }

  /** Saving by primary key never puts two rows under one key. */
  lemma StoreBookingKeepsIdsUnique(bookings: seq<Booking>, b: Booking)
    requires BookingIdsUnique(bookings)
    ensures BookingIdsUnique(StoreBooking(bookings, b))
  {
    var r := StoreBooking(bookings, b);
    assert forall i :: 0 <= i < |bookings| ==> r[i].id == bookings[i].id;
    if |r| == |bookings| + 1 {
      assert !Exists(bookings, (x: Booking) => x.id == b.id);
      assert r[|bookings|] == b;
    }
  }

  /** Distinct active bookings never share (patient, test, date, time). */
  predicate ActiveKeysUnique(bookings: seq<Booking>)
  {
    forall a, b :: a in bookings && b in bookings && a.id != b.id && a.isActive && b.isActive ==>
      (a.patient, a.test, a.bookingDate, a.bookingTime) != (b.patient, b.test, b.bookingDate, b.bookingTime)
  }

  /** Distinct active bookings at the same named hospital on the same date occupy disjoint intervals. */
  predicate NoOverlaps(bookings: seq<Booking>, durations: Durations)
  {
    forall a, b :: a in bookings && b in bookings && a.id != b.id && a.isActive && b.isActive
                   && a.hospitalName == b.hospitalName && a.hospitalName != "" && a.bookingDate == b.bookingDate ==>
      !Collides(b, a.bookingTime, EndTime(a.bookingTime, durations(a.test)), durations)
  }

  /**
   * Saving a booking that passed `FullClean` keeps both store invariants: the
   * duplicate check guards the unique key, the overlap check the intervals.
   * A new booking gets a key no stored booking has.
   */
  lemma AcceptedBookingKeepsInvariants(bookings: seq<Booking>, req: BookingRequest, instance: Option<Booking>,
                                       freshId: Id, today: Day, weekday: Weekday, durations: Durations)
    requires BookingIdsUnique(bookings) && ActiveKeysUnique(bookings) && NoOverlaps(bookings, durations)
    requires instance.None? ==> forall x :: x in bookings ==> x.id != freshId
    requires FullClean(bookings, req, EditingId(instance), today, weekday, durations) == []
    ensures BookingIdsUnique(StoreBooking(bookings, BuildBooking(req, instance, freshId)))
    ensures ActiveKeysUnique(StoreBooking(bookings, BuildBooking(req, instance, freshId)))
    ensures NoOverlaps(StoreBooking(bookings, BuildBooking(req, instance, freshId)), durations)
  {
    var nb := BuildBooking(req, instance, freshId);
    StoreBookingKeepsIdsUnique(bookings, nb);
    var editing := EditingId(instance);
    var r := StoreBooking(bookings, nb);
    assert editing == Some(nb.id) || forall x :: x in bookings ==> x.id != nb.id;
    forall a, b | a in r && b in r && a.id != b.id && a.isActive && b.isActive
      ensures (a.patient, a.test, a.bookingDate, a.bookingTime) != (b.patient, b.test, b.bookingDate, b.bookingTime)
    {
      if a == nb {
        assert !SameActiveKey(b, nb.patient, nb.test, nb.bookingDate, nb.bookingTime, editing);
      } else if b == nb {
        assert !SameActiveKey(a, nb.patient, nb.test, nb.bookingDate, nb.bookingTime, editing);
      }
    }
    forall a, b | a in r && b in r && a.id != b.id && a.isActive && b.isActive
                  && a.hospitalName == b.hospitalName && a.hospitalName != "" && a.bookingDate == b.bookingDate
      ensures !Collides(b, a.bookingTime, EndTime(a.bookingTime, durations(a.test)), durations)
    {
      if a == nb {
        assert SameDayActive(b, nb.hospitalName, nb.bookingDate, editing);
      } else if b == nb {
        assert SameDayActive(a, nb.hospitalName, nb.bookingDate, editing);
        assert !Collides(a, nb.bookingTime, EndTime(nb.bookingTime, durations(nb.test)), durations);
      }
    }
  }

  // ---------------------------------------------------------------------------
  // Time-slot bookkeeping: `update_time_slot`

  datatype TimeSlot = TimeSlot(
    id: Id,
    hospitalName: string,
    slotDate: Day,
    slotTime: TimeOfDay,
    duration: nat,
    isAvailable: bool,
    booking: Option<Id>)

  /** The lookup key of `get_or_create` and of `TimeSlotForm.clean`. */
  datatype SlotKey = SlotKey(hospitalName: string, date: Day, time: TimeOfDay)

  function KeyOf(s: TimeSlot): SlotKey
  {
    SlotKey(s.hospitalName, s.slotDate, s.slotTime)
  }

  function BookingKey(b: Booking): SlotKey
  {
    SlotKey(b.hospitalName, b.bookingDate, b.bookingTime)
  }

  /** At most one slot per (hospital, date, time), which `get_or_create` relies on. */
  predicate SlotKeysUnique(slots: seq<TimeSlot>)
  {
    forall i, j :: 0 <= i < j < |slots| ==> KeyOf(slots[i]) != KeyOf(slots[j])
  }

  predicate SlotIdsUnique(slots: seq<TimeSlot>)
  {
    forall i, j :: 0 <= i < j < |slots| ==> slots[i].id != slots[j].id
  }

  /**
   * The slot table after `update_time_slot` on an active booking: the slot for
   * the booking's (hospital, date, time) is taken by the booking, whether it
   * existed or is created with key `freshId`.
   */
  function ClaimSlot(slots: seq<TimeSlot>, b: Booking, duration: nat, freshId: Id): seq<TimeSlot>
  {
    match FirstIndex(slots, (s: TimeSlot) => KeyOf(s) == BookingKey(b))
    case Some(i) => slots[i := slots[i].(booking := Some(b.id), isAvailable := false, duration := duration)]
    case None =>
      slots + [TimeSlot(freshId, b.hospitalName, b.bookingDate, b.bookingTime, duration, false, Some(b.id))]
  }

  /** The slot table after `update_time_slot` on an inactive booking: every slot it held is freed. */
  function ReleaseSlots(slots: seq<TimeSlot>, bookingId: Id): (r: seq<TimeSlot>)
    ensures |r| == |slots|
    ensures forall i :: 0 <= i < |r| ==> r[i].booking != Some(bookingId)
    ensures forall i :: 0 <= i < |r| ==> KeyOf(r[i]) == KeyOf(slots[i]) && r[i].id == slots[i].id
    ensures forall i :: 0 <= i < |r| && slots[i].booking == Some(bookingId) ==>
      r[i] == slots[i].(isAvailable := true, booking := None)
    ensures forall i :: 0 <= i < |r| && slots[i].booking != Some(bookingId) ==> r[i] == slots[i]
  {
    seq(|slots|, i requires 0 <= i < |slots| =>
      if slots[i].booking == Some(bookingId) then slots[i].(isAvailable := true, booking := None) else slots[i])
  }

  /**
   * After claiming, exactly one slot has the booking's key, and it is the
   * booking's, unavailable, with the test's duration; an existing slot is
   * overwritten rather than duplicated, and every other slot is unchanged.
   */
  lemma ClaimSlotTakesExactlyOneSlot(slots: seq<TimeSlot>, b: Booking, duration: nat, freshId: Id)
    requires SlotKeysUnique(slots) && SlotIdsUnique(slots)
    requires forall s :: s in slots ==> s.id != freshId
    ensures var r := ClaimSlot(slots, b, duration, freshId);
      && SlotKeysUnique(r) && SlotIdsUnique(r)
      && (exists i :: 0 <= i < |r| && KeyOf(r[i]) == BookingKey(b)
            && r[i].booking == Some(b.id) && !r[i].isAvailable && r[i].duration == duration)
      && (forall s :: s in slots && KeyOf(s) != BookingKey(b) ==> s in r)
      && (forall s :: s in r && KeyOf(s) != BookingKey(b) ==> s in slots)
    ensures (exists s :: s in slots && KeyOf(s) == BookingKey(b)) ==>
      |ClaimSlot(slots, b, duration, freshId)| == |slots|
  {
    var r := ClaimSlot(slots, b, duration, freshId);
    var found := FirstIndex(slots, (s: TimeSlot) => KeyOf(s) == BookingKey(b));
    if found.Some? {
      var i := found.value;
      assert r == slots[i := slots[i].(booking := Some(b.id), isAvailable := false, duration := duration)];
      assert KeyOf(r[i]) == BookingKey(b);
      forall s | s in slots && KeyOf(s) != BookingKey(b) ensures s in r {
        var j :| 0 <= j < |slots| && slots[j] == s;
        assert r[j] == s;
      }
    } else {
      var n := |slots|;
      assert r == slots + [TimeSlot(freshId, b.hospitalName, b.bookingDate, b.bookingTime, duration, false, Some(b.id))];
      assert KeyOf(r[n]) == BookingKey(b);
      forall i, j | 0 <= i < j < |r| ensures r[i].id != r[j].id {
        if j == n { assert r[i] in slots; }
      }
    }
  }

  /** Releasing keeps the slot keys, so their uniqueness, and touches no slot held by another booking. */
  lemma ReleaseSlotsKeepsTable(slots: seq<TimeSlot>, bookingId: Id)
    requires SlotKeysUnique(slots) && SlotIdsUnique(slots)
    ensures SlotKeysUnique(ReleaseSlots(slots, bookingId)) && SlotIdsUnique(ReleaseSlots(slots, bookingId))
    ensures forall s :: s in ReleaseSlots(slots, bookingId) ==> s.booking != Some(bookingId)
  {
  }

  /**
   * Moving an active booking to another (hospital, date, time) claims the new
   * slot and leaves the old one unchanged and still linked to it: only an
   * inactive booking releases slots.
   */
  lemma MovedBookingKeepsOldSlot(slots: seq<TimeSlot>, b: Booking, duration: nat, freshId: Id, k: nat)
    requires k < |slots| && slots[k].booking == Some(b.id) && KeyOf(slots[k]) != BookingKey(b)
    ensures slots[k] in ClaimSlot(slots, b, duration, freshId)
  {
    var found := FirstIndex(slots, (s: TimeSlot) => KeyOf(s) == BookingKey(b));
    if found.Some? {
      assert ClaimSlot(slots, b, duration, freshId)[k] == slots[k];
    } else {
      assert ClaimSlot(slots, b, duration, freshId)[k] == slots[k];
    }
  }

  /**
   * The booking and time-slot tables, changed in place by `BookingForm.save`.
   * New rows get the next unused key; `durations` is the test catalogue's
   * `duration_minutes`.
   */
  class Database {
    var bookings: seq<Booking>
    var slots: seq<TimeSlot>
    var nextBookingId: Id
    var nextSlotId: Id
    const durations: Durations

    /**
     * Keys are unique and below the next key, active bookings have distinct
     * (patient, test, date, time), active bookings at a named hospital never
     * overlap, and there is one slot per (hospital, date, time).
     */
    ghost predicate Valid()
      reads this
    {
      && (forall b :: b in bookings ==> b.id < nextBookingId)
      && (forall s :: s in slots ==> s.id < nextSlotId)
      && BookingIdsUnique(bookings)
      && ActiveKeysUnique(bookings) && NoOverlaps(bookings, durations)
      && SlotKeysUnique(slots) && SlotIdsUnique(slots)
    }

    constructor (durations: Durations)
      ensures Valid()
      ensures bookings == [] && slots == [] && this.durations == durations
    {
      bookings, slots := [], [];
      nextBookingId, nextSlotId := 1, 1;
      this.durations := durations;
    }

    /** `update_time_slot`: claim the booking's slot, or free the slots of an inactive booking. */
    method UpdateTimeSlot(b: Booking, testDuration: nat)
      requires Valid()
      modifies this`slots, this`nextSlotId
      ensures Valid()
      ensures b.isActive ==> slots == ClaimSlot(old(slots), b, testDuration, old(nextSlotId))
      ensures !b.isActive ==> slots == ReleaseSlots(old(slots), b.id) && nextSlotId == old(nextSlotId)
    {
      if b.isActive {
        ClaimSlotTakesExactlyOneSlot(slots, b, testDuration, nextSlotId);
        var existing := FirstIndex(slots, (s: TimeSlot) => KeyOf(s) == BookingKey(b));
        if existing.None? {
          slots := slots + [TimeSlot(nextSlotId, b.hospitalName, b.bookingDate, b.bookingTime, testDuration, false, Some(b.id))];
          nextSlotId := nextSlotId + 1;
        } else {
          var i := existing.value;
          slots := slots[i := slots[i].(booking := Some(b.id), isAvailable := false, duration := testDuration)];
        }
      } else {
        ReleaseSlotsKeepsTable(slots, b.id);
        slots := ReleaseSlots(slots, b.id);
      }
    }

    /**
     * `BookingForm.save(commit)` on a form that `is_valid()` accepted (on a form
     * with errors the framework raises and writes nothing): with `commit` the
     * booking is written and its slot updated; without, nothing is written.
     * `instance` is the booking being edited, loaded from this database.
     */
    method Save(req: BookingRequest, instance: Option<Booking>, commit: bool, today: Day, weekday: Weekday)
      returns (b: Booking)
      requires Valid()
      requires instance.Some? ==> instance.value in bookings
      requires FullClean(bookings, req, EditingId(instance), today, weekday, durations) == []
      modifies this
      ensures Valid()
      ensures b == BuildBooking(req, instance, old(nextBookingId))
      ensures !commit ==> bookings == old(bookings) && slots == old(slots)
      ensures commit ==> bookings == StoreBooking(old(bookings), b)
      ensures commit && b.isActive ==> slots == ClaimSlot(old(slots), b, durations(b.test), old(nextSlotId))
      ensures commit && !b.isActive ==> slots == ReleaseSlots(old(slots), b.id)
    {
      b := BuildBooking(req, instance, nextBookingId);
      if commit {
        AcceptedBookingKeepsInvariants(bookings, req, instance, nextBookingId, today, weekday, durations);
        bookings := StoreBooking(bookings, b);
        if instance.None? {
          nextBookingId := nextBookingId + 1;
        }
        UpdateTimeSlot(b, durations(b.test));
      }
    }
  }

  // ---------------------------------------------------------------------------
  // `PatientForm.clean_contact_number`

  datatype Patient = Patient(id: Id, name: string, age: int, contactNumber: string, email: string, isActive: bool)

  datatype ContactError = InvalidContact | ContactTaken

  /** An active patient other than the one being edited already has this contact number. */
  predicate HoldsContact(p: Patient, contactNumber: string, editing: Option<Id>)
  {
    p.contactNumber == contactNumber && p.isActive && editing != Some(p.id)
  }

  /**
   * A non-empty contact number must have the `07` shape and belong to no other
   * active patient. An empty one is passed on unchecked.
   */
  function CleanContactNumber(contactNumber: string, patients: seq<Patient>, editing: Option<Id>): (r: Result<string, ContactError>)
    ensures r.Success? ==> r.value == contactNumber
    ensures r == Failure(InvalidContact) <==> contactNumber != "" && !Validators.ValidatePhoneNumber(contactNumber)
    ensures r == Failure(ContactTaken) <==>
      && contactNumber != "" && Validators.ValidatePhoneNumber(contactNumber)
      && exists p :: p in patients && HoldsContact(p, contactNumber, editing)
  {
    if contactNumber != "" && !Validators.ValidatePhoneNumber(contactNumber) then Failure(InvalidContact)
    else if contactNumber != "" && Exists(patients, p => HoldsContact(p, contactNumber, editing)) then Failure(ContactTaken)
    else Success(contactNumber)
  }

  /** Distinct active patients never share a non-empty contact number. */
  predicate ActiveContactsUnique(patients: seq<Patient>)
  {
    forall p, q :: p in patients && q in patients && p.id != q.id && p.isActive && q.isActive && p.contactNumber != "" ==>
      p.contactNumber != q.contactNumber
  }

  /**
   * Saving a patient whose contact number passed `clean_contact_number` keeps
   * at most one active patient per contact number.
   */
  lemma CleanContactKeepsContactsUnique(patients: seq<Patient>, p: Patient, editing: Option<Id>)
    requires ActiveContactsUnique(patients)
    requires editing == Some(p.id) || (editing == None && forall q :: q in patients ==> q.id != p.id)
    requires CleanContactNumber(p.contactNumber, patients, editing).Success?
    ensures ActiveContactsUnique(SaveRow(patients, p, (q: Patient) => q.id == p.id))
  {
    var r := SaveRow(patients, p, (q: Patient) => q.id == p.id);
    forall a, b | a in r && b in r && a.id != b.id && a.isActive && b.isActive && a.contactNumber != ""
      ensures a.contactNumber != b.contactNumber
    {
      if a == p {
        assert b in patients && editing != Some(b.id);
        assert !HoldsContact(b, p.contactNumber, editing);
      } else if b == p {
        assert a in patients && editing != Some(a.id);
        assert !HoldsContact(a, p.contactNumber, editing);
      }
    }
  }

  // ---------------------------------------------------------------------------
  // `RegisterForm.clean` and `RegisterForm.clean_password2`

  const MinPasswordLength: nat := 8
  const PatientRole := "PATIENT"

  datatype RegisterError =
    | PasswordTooShort
    | NameRequired
    | AgeRequired
    | ContactRequired
    | InvalidPatientContact
    | PatientExists
    | PasswordMismatch

  /**
   * `RegisterForm.clean`. An empty string stands for a field missing from
   * `cleaned_data`; an age of 0 counts as missing, as `not patient_age` does.
   */
  function CleanRegistration(password: string, role: string, patientName: string, patientAge: Option<int>,
                             patientContact: string, patients: seq<Patient>): (r: Outcome<RegisterError>)
    ensures r == Pass <==>
      && (password == "" || MinPasswordLength <= |password|)
      && (role == PatientRole ==>
            && patientName != ""
            && patientAge.Some? && patientAge.value != 0
            && Validators.ValidatePhoneNumber(patientContact)
            && !exists p :: p in patients && HoldsContact(p, patientContact, None))
    ensures r == Fail(PasswordTooShort) <==> password != "" && |password| < MinPasswordLength
  {
    if password != "" && |password| < MinPasswordLength then Fail(PasswordTooShort)
    else if role == PatientRole then
      if patientName == "" then Fail(NameRequired)
      else if patientAge.None? || patientAge.value == 0 then Fail(AgeRequired)
      else if patientContact == "" then Fail(ContactRequired)
      else if !Validators.ValidatePhoneNumber(patientContact) then Fail(InvalidPatientContact)
      else if Exists(patients, (p: Patient) => HoldsContact(p, patientContact, None)) then Fail(PatientExists)
      else Pass
    else Pass
  }

  /** A patient registration that passes also passes `PatientForm`'s contact check for a new patient. */
  lemma RegistrationAgreesWithPatientForm(password: string, patientName: string, patientAge: Option<int>,
                                          patientContact: string, patients: seq<Patient>)
    requires CleanRegistration(password, PatientRole, patientName, patientAge, patientContact, patients) == Pass
    ensures CleanContactNumber(patientContact, patients, None) == Success(patientContact)
  {
  }

  /** `clean_password2`: the confirmation must equal the password. */
  function CleanPassword2(password: string, password2: string): (r: Result<string, RegisterError>)
    ensures r.Success? <==> password == password2
    ensures r.Success? ==> r.value == password2
    ensures r.Failure? ==> r.error == PasswordMismatch
  {
    if password != password2 then Failure(PasswordMismatch) else Success(password2)
  }

  // ---------------------------------------------------------------------------
  // `TimeSlotForm.clean`

  datatype SlotError = SlotExists

  /** Another slot (not the one being edited) already has this (hospital, date, time). */
  function CleanTimeSlot(slots: seq<TimeSlot>, key: SlotKey, editing: Option<Id>): (r: Outcome<SlotError>)
    ensures r == Fail(SlotExists) <==>
      key.hospitalName != "" && exists s :: s in slots && KeyOf(s) == key && editing != Some(s.id)
  {
    if key.hospitalName != "" && Exists(slots, (s: TimeSlot) => KeyOf(s) == key && editing != Some(s.id))
    then Fail(SlotExists)
    else Pass
  }

  /** Saving a slot that passed `TimeSlotForm.clean` keeps one slot per key. */
  lemma CleanTimeSlotKeepsKeysUnique(slots: seq<TimeSlot>, s: TimeSlot, editing: Option<Id>)
    requires SlotKeysUnique(slots) && SlotIdsUnique(slots)
    requires editing == Some(s.id) || (editing == None && forall t :: t in slots ==> t.id != s.id)
    requires s.hospitalName != ""
    requires CleanTimeSlot(slots, KeyOf(s), editing) == Pass
    ensures SlotKeysUnique(SaveRow(slots, s, (t: TimeSlot) => t.id == s.id))
  {
    var r := SaveRow(slots, s, (t: TimeSlot) => t.id == s.id);
    var found := FirstIndex(slots, (t: TimeSlot) => t.id == s.id);
    // A stored slot other than `s` itself never has the key of `s`.
    forall t | t in slots && t.id != s.id ensures KeyOf(t) != KeyOf(s) {
      assert editing != Some(t.id);
    }
    forall i, j | 0 <= i < j < |r| ensures KeyOf(r[i]) != KeyOf(r[j]) {
      if found.Some? {
        var k := found.value;
        if i == k {
          assert r[j] == slots[j] && slots[j].id != slots[k].id;
        } else if j == k {
          assert r[i] == slots[i] && slots[i].id != slots[k].id;
        } else {
          assert r[i] == slots[i] && r[j] == slots[j];
        }
      } else if j == |slots| {
        assert r[i] == slots[i] && r[j] == s;
      } else {
        assert r[i] == slots[i] && r[j] == slots[j];
      }
    }
  }
}
