/**
 * hospital_project/booking_app/views.py, `book_test_view` on a POST: when
 * both forms are valid, the patient with the submitted contact number has its
 * name and age overwritten, or a new patient is created; then the booking is
 * inserted for that patient. The view itself looks for no duplicate booking:
 * only the unique key of the booking table can refuse the insert, and by then
 * the patient has already been written. That refusal needs a returning
 * patient, which the patient form as written turns away
 * (`IntegrityErrorUnreachableAsWritten`).
 */
module BookingAppViews {
  import opened Wrappers
  import opened Queries
  import opened Domain
  import Validators
  import BookingAppForms
  import M = BookingAppModels

  datatype PatientFields = PatientFields(name: string, age: int, contactNumber: string)

  datatype BookingFields = BookingFields(test: Id, bookingDate: Day, bookingTime: TimeOfDay, hospitalName: string)

  /** The response: the form page again, the redirect to the success page, or the database's refusal. */
  datatype ViewOutcome = Rendered | Redirected | IntegrityError

  /**
   * `patient_form.is_valid()`: the contact validator of the model, plus the
   * checks the framework makes on the other fields (`fieldsValid`).
   */
  predicate PatientFormValid(pf: PatientFields, fieldsValid: bool)
  {
    fieldsValid && Validators.ValidatePhoneNumber(pf.contactNumber)
  }

  /**
   * `booking_form.is_valid()`: the date window, the hospital choice, a test of
   * the catalogue, plus the framework's field checks (`fieldsValid`).
   */
  predicate BookingFormValid(bf: BookingFields, fieldsValid: bool, today: Day, tests: seq<M.TestCatalogue>)
  {
    && fieldsValid
    && BookingAppForms.CleanBookingDate(bf.bookingDate, today).Success?
    && BookingAppForms.CleanHospitalName(bf.hospitalName).Success?
    && exists t :: t in tests && t.id == bf.test
  }

  /** `patient.save()` on a stored patient: an UPDATE of every row with its primary key. */
  function UpdateById(patients: seq<M.Patient>, row: M.Patient): (r: seq<M.Patient>)
    ensures |r| == |patients|
    ensures forall j :: 0 <= j < |r| ==> r[j] == if patients[j].id == row.id then row else patients[j]
  {
    seq(|patients|, j requires 0 <= j < |patients| => if patients[j].id == row.id then row else patients[j])
  }

  /**
   * The patient step: `Patient.objects.get(contact_number=...)` and an update of
   * name and age, or `patient_form.save()` with the key `freshId`. Returns the
   * new patient table and the patient the booking will refer to.
   */
  function RegisterPatient(patients: seq<M.Patient>, pf: PatientFields, freshId: Id): (seq<M.Patient>, M.Patient)
  {
    match FirstIndex(patients, (p: M.Patient) => p.contactNumber == pf.contactNumber)
    case Some(i) =>
      var updated := patients[i].(name := pf.name, age := pf.age);
      (UpdateById(patients, updated), updated)
    case None =>
      var created := M.Patient(freshId, pf.name, pf.age, pf.contactNumber);
      (patients + [created], created)
  }

  /**
   * A patient with the submitted contact number keeps its key and contact
   * number and gets the submitted name and age; no patient is created and no
   * other patient changes.
   */
  lemma RegisterPatientUpdatesExisting(patients: seq<M.Patient>, pf: PatientFields, freshId: Id, existing: M.Patient)
    requires existing in patients && existing.contactNumber == pf.contactNumber
    requires M.ContactNumbersUnique(patients)
    ensures var (r, p) := RegisterPatient(patients, pf, freshId);
      && |r| == |patients|
      && p == existing.(name := pf.name, age := pf.age)
      && p in r
      && (forall q :: q in patients && q.id != existing.id ==> q in r)
      && (forall q :: q in r ==> q == p || (q in patients && q.id != existing.id))
  {
    var found := FirstIndex(patients, (p: M.Patient) => p.contactNumber == pf.contactNumber);
    assert found.Some?;
    var i := found.value;
    assert patients[i] in patients;
    assert patients[i].id == existing.id;
    var p := patients[i].(name := pf.name, age := pf.age);
    var r := RegisterPatient(patients, pf, freshId).0;
    assert r == UpdateById(patients, p);
    assert r[i] == p;
    forall q | q in patients && q.id != existing.id ensures q in r {
      var j :| 0 <= j < |patients| && patients[j] == q;
      assert r[j] == q;
    }
    forall q | q in r ensures q == p || (q in patients && q.id != existing.id) {
      var j :| 0 <= j < |r| && r[j] == q;
      assert patients[j] in patients;
    }
  }

  /** With no patient holding the contact number, exactly one patient is added, under `freshId`. */
  lemma RegisterPatientCreatesNew(patients: seq<M.Patient>, pf: PatientFields, freshId: Id)
    requires forall q :: q in patients ==> q.contactNumber != pf.contactNumber
    ensures RegisterPatient(patients, pf, freshId) ==
      (patients + [M.Patient(freshId, pf.name, pf.age, pf.contactNumber)], M.Patient(freshId, pf.name, pf.age, pf.contactNumber))
  {
  }

  /**
   * `patient_form.is_valid()` as the framework runs it: a `ModelForm` also
   * checks the `unique=True` contact number against the stored patients.
   */
  predicate PatientFormValidAsWritten(pf: PatientFields, fieldsValid: bool, patients: seq<M.Patient>)
  {
    PatientFormValid(pf, fieldsValid) && forall q :: q in patients ==> q.contactNumber != pf.contactNumber
  }

  /**
   * As written, the find-existing-patient branch is unreachable: a patient form
   * that passes always leads to a new patient, never to an update.
   */
  lemma UpdateBranchUnreachableAsWritten(patients: seq<M.Patient>, pf: PatientFields, fieldsValid: bool, freshId: Id)
    requires PatientFormValidAsWritten(pf, fieldsValid, patients)
    ensures RegisterPatient(patients, pf, freshId).0 == patients + [M.Patient(freshId, pf.name, pf.age, pf.contactNumber)]
  {
    RegisterPatientCreatesNew(patients, pf, freshId);
  }

  /**
   * As written, the booking insert is never refused: the patient form only
   * passes for a new contact number, so the booking refers to a patient created
   * under a fresh key, and no stored booking refers to that key.
   */
  lemma IntegrityErrorUnreachableAsWritten(st: M.Store, nextPatientId: Id, nextBookingId: Id,
                                           pf: PatientFields, patientFieldsValid: bool,
                                           bf: BookingFields, bookingFieldsValid: bool, today: Day)
    requires M.Valid(st)
    requires forall p :: p in st.patients ==> p.id < nextPatientId
    requires PatientFormValidAsWritten(pf, patientFieldsValid, st.patients)
    ensures BookTestSpec(st, nextPatientId, nextBookingId, pf, patientFieldsValid, bf, bookingFieldsValid, today).1 != IntegrityError
  {
    RegisterPatientCreatesNew(st.patients, pf, nextPatientId);
    var booking := NewBooking(RegisterPatient(st.patients, pf, nextPatientId).1, bf, nextBookingId);
    forall x | x in st.bookings ensures M.BookingKey(x) != M.BookingKey(booking) {
      var p :| p in st.patients && p.id == x.patient;
    }
  }

  /**
   * A returning patient (a stored contact number, say with a new age) is turned
   * away by the form as written, where the intended patient step updates the
   * stored row in place.
   */
  lemma ReturningPatientRejectedAsWritten(patients: seq<M.Patient>, pf: PatientFields, freshId: Id, existing: M.Patient)
    requires existing in patients && existing.contactNumber == pf.contactNumber
    requires M.ContactNumbersUnique(patients)
    ensures !PatientFormValidAsWritten(pf, true, patients)
    ensures var (r, p) := RegisterPatient(patients, pf, freshId);
      p == existing.(name := pf.name, age := pf.age) && p in r && |r| == |patients|
  {
    RegisterPatientUpdatesExisting(patients, pf, freshId, existing);
  }

  /**
   * The patient step keeps a valid store valid and returns a patient of the new
   * table; every stored key survives, and the only key it can add is `freshId`.
   */
  lemma RegisterPatientKeepsValid(st: M.Store, pf: PatientFields, freshId: Id)
    requires M.Valid(st)
    requires Validators.ValidatePhoneNumber(pf.contactNumber)
    requires forall q :: q in st.patients ==> q.id != freshId
    ensures var (r, p) := RegisterPatient(st.patients, pf, freshId);
      && M.Valid(st.(patients := r))
      && p in r && p.contactNumber == pf.contactNumber
      && (forall q :: q in st.patients ==> exists q' :: q' in r && q'.id == q.id)
      && (forall q :: q in r ==> q.id == freshId || exists q' :: q' in st.patients && q'.id == q.id)
  {
    var patients := st.patients;
    var (r, p) := RegisterPatient(patients, pf, freshId);
    var found := FirstIndex(patients, (p: M.Patient) => p.contactNumber == pf.contactNumber);
    if found.Some? {
      var existing := patients[found.value];
      RegisterPatientUpdatesExisting(patients, pf, freshId, existing);
      forall q | q in patients ensures exists q' :: q' in r && q'.id == q.id {
        if q.id == existing.id {
          assert p in r;
        } else {
          assert q in r;
        }
      }
      forall q | q in r ensures q.id == freshId || exists q' :: q' in patients && q'.id == q.id {
        if q == p {
          assert existing in patients;
        }
      }
    } else {
      assert r == patients + [p];
    }
    KeptPatientKeysKeepForeignKeys(st, st.(patients := r));
  }

  /** The booking the view inserts: the submitted fields, for the registered patient, under `freshId`. */
  function NewBooking(patient: M.Patient, bf: BookingFields, freshId: Id): M.Booking
  {
    M.Booking(freshId, patient.id, bf.test, bf.bookingDate, bf.bookingTime, bf.hospitalName)
  }

  predicate FormsValid(pf: PatientFields, patientFieldsValid: bool, bf: BookingFields, bookingFieldsValid: bool,
                       today: Day, tests: seq<M.TestCatalogue>)
  {
    PatientFormValid(pf, patientFieldsValid) && BookingFormValid(bf, bookingFieldsValid, today, tests)
  }

  /**
   * What `book_test_view` does to the tables on a POST, with the keys the
   * database would assign next: the new store and the response.
   */
  function BookTestSpec(st: M.Store, nextPatientId: Id, nextBookingId: Id,
                        pf: PatientFields, patientFieldsValid: bool,
                        bf: BookingFields, bookingFieldsValid: bool, today: Day): (M.Store, ViewOutcome)
  {
    if !FormsValid(pf, patientFieldsValid, bf, bookingFieldsValid, today, st.tests) then (st, Rendered)
    else
      var (registered, patient) := RegisterPatient(st.patients, pf, nextPatientId);
      var booking := NewBooking(patient, bf, nextBookingId);
      if Exists(st.bookings, (x: M.Booking) => M.BookingKey(x) == M.BookingKey(booking))
      then (st.(patients := registered), IntegrityError)
      else (st.(patients := registered, bookings := st.bookings + [booking]), Redirected)
  }

  /** An invalid form writes nothing and renders the page again. */
  lemma InvalidFormWritesNothing(st: M.Store, nextPatientId: Id, nextBookingId: Id,
                                 pf: PatientFields, patientFieldsValid: bool,
                                 bf: BookingFields, bookingFieldsValid: bool, today: Day)
    requires !FormsValid(pf, patientFieldsValid, bf, bookingFieldsValid, today, st.tests)
    ensures BookTestSpec(st, nextPatientId, nextBookingId, pf, patientFieldsValid, bf, bookingFieldsValid, today) == (st, Rendered)
  {
  }

  /**
   * With valid forms the view redirects exactly when no stored booking has the
   * new booking's (patient, test, date, time), and then the booking is stored.
   */
  lemma ValidFormBooksUnlessKeyTaken(st: M.Store, nextPatientId: Id, nextBookingId: Id,
                                     pf: PatientFields, patientFieldsValid: bool,
                                     bf: BookingFields, bookingFieldsValid: bool, today: Day)
    requires FormsValid(pf, patientFieldsValid, bf, bookingFieldsValid, today, st.tests)
    ensures var (r, outcome) := BookTestSpec(st, nextPatientId, nextBookingId, pf, patientFieldsValid, bf, bookingFieldsValid, today);
      var patient := RegisterPatient(st.patients, pf, nextPatientId).1;
      var booking := NewBooking(patient, bf, nextBookingId);
      && outcome != Rendered
      && (outcome == Redirected <==> forall x :: x in st.bookings ==> M.BookingKey(x) != M.BookingKey(booking))
      && (outcome == Redirected ==> r.bookings == st.bookings + [booking])
      && (outcome == Redirected ==> r.patients == RegisterPatient(st.patients, pf, nextPatientId).0)
  {
  }

  /**
   * The view is not atomic: when the insert of the booking is refused, the
   * patient step has already been written and stays.
   */
  lemma IntegrityErrorKeepsPatientWrite(st: M.Store, nextPatientId: Id, nextBookingId: Id,
                                        pf: PatientFields, patientFieldsValid: bool,
                                        bf: BookingFields, bookingFieldsValid: bool, today: Day)
    requires BookTestSpec(st, nextPatientId, nextBookingId, pf, patientFieldsValid, bf, bookingFieldsValid, today).1 == IntegrityError
    ensures var r := BookTestSpec(st, nextPatientId, nextBookingId, pf, patientFieldsValid, bf, bookingFieldsValid, today).0;
      && r.bookings == st.bookings && r.tests == st.tests
      && r.patients == RegisterPatient(st.patients, pf, nextPatientId).0
      && RegisterPatient(st.patients, pf, nextPatientId).1 in r.patients
  {
  }

  /**
   * Two submissions that differ only in the hospital collide: the hospital is
   * not part of the unique key, so the second is refused whatever its hospital.
   */
  lemma SecondHospitalIsRefused(st: M.Store, nextPatientId: Id, nextBookingId: Id,
                                pf: PatientFields, bf: BookingFields, today: Day, stored: M.Booking)
    requires FormsValid(pf, true, bf, true, today, st.tests)
    requires stored in st.bookings
    requires stored == NewBooking(RegisterPatient(st.patients, pf, nextPatientId).1, bf, stored.id).(hospitalName := stored.hospitalName)
    ensures BookTestSpec(st, nextPatientId, nextBookingId, pf, true, bf, true, today).1 == IntegrityError
  {
    var booking := NewBooking(RegisterPatient(st.patients, pf, nextPatientId).1, bf, nextBookingId);
    assert M.BookingKey(stored) == M.BookingKey(booking);
  }

  /** A valid store stays valid, and every key of the new store is a stored key or one of the two fresh ones. */
  lemma BookTestKeepsValid(st: M.Store, nextPatientId: Id, nextBookingId: Id,
                           pf: PatientFields, patientFieldsValid: bool,
                           bf: BookingFields, bookingFieldsValid: bool, today: Day)
    requires M.Valid(st)
    requires forall p :: p in st.patients ==> p.id < nextPatientId
    requires forall b :: b in st.bookings ==> b.id < nextBookingId
    ensures var r := BookTestSpec(st, nextPatientId, nextBookingId, pf, patientFieldsValid, bf, bookingFieldsValid, today).0;
      && M.Valid(r)
      && r.tests == st.tests
      && (forall p :: p in r.patients ==> p.id <= nextPatientId)
      && (forall b :: b in r.bookings ==> b.id <= nextBookingId)
  {
    if FormsValid(pf, patientFieldsValid, bf, bookingFieldsValid, today, st.tests) {
      RegisterPatientKeepsValid(st, pf, nextPatientId);
      var (registered, patient) := RegisterPatient(st.patients, pf, nextPatientId);
      var booking := NewBooking(patient, bf, nextBookingId);
      var mid := st.(patients := registered);
      forall p | p in registered ensures p.id <= nextPatientId {
        if p.id != nextPatientId {
          var q :| q in st.patients && q.id == p.id;
        }
      }
      if !Exists(st.bookings, (x: M.Booking) => M.BookingKey(x) == M.BookingKey(booking)) {
        InsertBookingKeepsValid(mid, booking);
        assert forall x :: x in mid.bookings + [booking] <==> x in st.bookings || x == booking;
      }
    }
  }

  /** The patient, test and booking tables of the application, with the next keys the database assigns. */
  class BookingApp {
    var patients: seq<M.Patient>
    var tests: seq<M.TestCatalogue>
    var bookings: seq<M.Booking>
    var nextPatientId: Id
    var nextBookingId: Id

    function Store(): M.Store
      reads this
    {
      M.Store(patients, tests, bookings)
    }

    ghost predicate Valid()
      reads this
    {
      && M.Valid(Store())
      && (forall p :: p in patients ==> p.id < nextPatientId)
      && (forall b :: b in bookings ==> b.id < nextBookingId)
    }

    constructor (catalogue: seq<M.TestCatalogue>)
      requires M.TestNamesUnique(catalogue)
      ensures Valid()
      ensures patients == [] && bookings == [] && tests == catalogue
    {
      patients, tests, bookings := [], catalogue, [];
      nextPatientId, nextBookingId := 1, 1;
    }

    /**
     * `book_test_view` on a POST: check both forms, then find-or-update-or-create
     * the patient, then insert the booking, which only the table's unique key
     * can refuse.
     */
    method BookTest(pf: PatientFields, patientFieldsValid: bool, bf: BookingFields, bookingFieldsValid: bool, today: Day)
      returns (outcome: ViewOutcome)
      requires Valid()
      modifies this
      ensures Valid()
      ensures (Store(), outcome) ==
        BookTestSpec(old(Store()), old(nextPatientId), old(nextBookingId), pf, patientFieldsValid, bf, bookingFieldsValid, today)
    {
      BookTestKeepsValid(Store(), nextPatientId, nextBookingId, pf, patientFieldsValid, bf, bookingFieldsValid, today);
      if !FormsValid(pf, patientFieldsValid, bf, bookingFieldsValid, today, tests) {
        return Rendered;
      }

      // 1. The patient: find by contact number and update, or create.
      var found := FirstIndex(patients, (p: M.Patient) => p.contactNumber == pf.contactNumber);
      var patient: M.Patient;
      if found.Some? {
        patient := patients[found.value].(name := pf.name, age := pf.age);
        patients := UpdateById(patients, patient);
      } else {
        patient := M.Patient(nextPatientId, pf.name, pf.age, pf.contactNumber);
        patients := patients + [patient];
      }
      nextPatientId := nextPatientId + 1;

      // 2. The booking: the unique key of the table is the only check.
      var booking := NewBooking(patient, bf, nextBookingId);
      if Exists(bookings, (x: M.Booking) => M.BookingKey(x) == M.BookingKey(booking)) {
        return IntegrityError;
      }
      bookings := bookings + [booking];
      nextBookingId := nextBookingId + 1;
      return Redirected;
    }
  }

  /** Foreign keys survive a patient step that keeps every patient key. */
  lemma KeptPatientKeysKeepForeignKeys(before: M.Store, after: M.Store)
    requires M.ForeignKeysHold(before)
    requires after.tests == before.tests && after.bookings == before.bookings
    requires forall q :: q in before.patients ==> exists q' :: q' in after.patients && q'.id == q.id
    ensures M.ForeignKeysHold(after)
  {
    forall b | b in after.bookings ensures M.HasPatient(after, b.patient) && M.HasTest(after, b.test) {
      var q :| q in before.patients && q.id == b.patient;
      var q' :| q' in after.patients && q'.id == q.id;
    }
  }

  /** Inserting a booking with a new key, a new id and stored foreign keys keeps the store valid. */
  lemma InsertBookingKeepsValid(st: M.Store, b: M.Booking)
    requires M.Valid(st)
    requires forall x :: x in st.bookings ==> x.id != b.id && M.BookingKey(x) != M.BookingKey(b)
    requires M.HasPatient(st, b.patient) && M.HasTest(st, b.test)
    ensures M.Valid(st.(bookings := st.bookings + [b]))
  {
    var r := st.(bookings := st.bookings + [b]);
    assert forall x :: x in r.bookings <==> x in st.bookings || x == b;
  }
}
