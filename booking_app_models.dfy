/**
 * hospital_project/booking_app/models.py: contact numbers of the `07` shape
 * and unique across patients, unique test names, one booking per (patient,
 * test, date, time) with the hospital outside the key, bookings deleted with
 * their patient (`CASCADE`) and tests that still have bookings kept
 * (`PROTECT`).
 */
module BookingAppModels {
  import opened Wrappers
  import opened Queries
  import opened Domain
  import Validators

  datatype Patient = Patient(id: Id, name: string, age: int, contactNumber: string)

  datatype TestCatalogue = TestCatalogue(id: Id, testName: string, description: string)

  datatype Booking = Booking(
    id: Id,
    patient: Id,
    test: Id,
    bookingDate: Day,
    bookingTime: TimeOfDay,
    hospitalName: string)

  datatype Store = Store(patients: seq<Patient>, tests: seq<TestCatalogue>, bookings: seq<Booking>)

  datatype DeleteError = ProtectedError

  /** `unique_together = ('patient', 'test', 'booking_date', 'booking_time')`. */
  function BookingKey(b: Booking): (Id, Id, Day, TimeOfDay)
  {
    (b.patient, b.test, b.bookingDate, b.bookingTime)
  }

  /** `contact_validator` on every stored contact number. */
  predicate ContactsValid(patients: seq<Patient>)
  {
    forall p :: p in patients ==> Validators.ValidatePhoneNumber(p.contactNumber)
  }

  /** `contact_number` is `unique=True`. */
  predicate ContactNumbersUnique(patients: seq<Patient>)
  {
    forall p, q :: p in patients && q in patients && p.id != q.id ==> p.contactNumber != q.contactNumber
  }

  /** `test_name` is `unique=True`. */
  predicate TestNamesUnique(tests: seq<TestCatalogue>)
  {
    forall s, t :: s in tests && t in tests && s.id != t.id ==> s.testName != t.testName
  }

  predicate BookingKeysUnique(bookings: seq<Booking>)
  {
    forall a, b :: a in bookings && b in bookings && a.id != b.id ==> BookingKey(a) != BookingKey(b)
  }

  predicate PatientIdsUnique(patients: seq<Patient>)
  {
    forall p, q :: p in patients && q in patients && p.id == q.id ==> p == q
  }

  predicate BookingIdsUnique(bookings: seq<Booking>)
  {
    forall a, b :: a in bookings && b in bookings && a.id == b.id ==> a == b
  }

  predicate HasPatient(st: Store, id: Id)
  {
    exists p :: p in st.patients && p.id == id
  }

  predicate HasTest(st: Store, id: Id)
  {
    exists t :: t in st.tests && t.id == id
  }

  predicate ForeignKeysHold(st: Store)
  {
    forall b :: b in st.bookings ==> HasPatient(st, b.patient) && HasTest(st, b.test)
  }

  predicate Valid(st: Store)
  {
    && PatientIdsUnique(st.patients) && BookingIdsUnique(st.bookings)
    && ContactsValid(st.patients) && ContactNumbersUnique(st.patients)
    && TestNamesUnique(st.tests)
    && BookingKeysUnique(st.bookings)
    && ForeignKeysHold(st)
  }

  datatype AddError = DuplicateTestName

  /** The unique index on `test_name` refuses a second test of the same name. */
  function AddTest(st: Store, t: TestCatalogue): (r: Result<Store, AddError>)
    requires forall s :: s in st.tests ==> s.id != t.id
    requires Valid(st)
    ensures r.Success? <==> !exists s :: s in st.tests && s.testName == t.testName
    ensures r.Success? ==> Valid(r.value) && r.value == st.(tests := st.tests + [t])
  {
    if Exists(st.tests, (s: TestCatalogue) => s.testName == t.testName) then Failure(DuplicateTestName)
    else
      var r := st.(tests := st.tests + [t]);
      assert forall b :: b in r.bookings ==> HasTest(r, b.test) by {
        forall b | b in r.bookings ensures HasTest(r, b.test) {
          var s :| s in st.tests && s.id == b.test;
          assert s in r.tests;
        }
      }
      Success(r)
  }

  /** `on_delete=CASCADE` on `Booking.patient`. */
  function DeletePatient(st: Store, patientId: Id): Store
  {
    Store(Filter(st.patients, (p: Patient) => p.id != patientId),
          st.tests,
          Filter(st.bookings, (b: Booking) => b.patient != patientId))
  }

  /** `on_delete=PROTECT` on `Booking.test`: a test with bookings cannot be deleted. */
  function DeleteTest(st: Store, testId: Id): (r: Result<Store, DeleteError>)
    ensures r.Failure? <==> exists b :: b in st.bookings && b.test == testId
    ensures r.Success? ==> r.value == st.(tests := Filter(st.tests, (t: TestCatalogue) => t.id != testId))
  {
    if Exists(st.bookings, (b: Booking) => b.test == testId) then Failure(ProtectedError)
    else Success(st.(tests := Filter(st.tests, (t: TestCatalogue) => t.id != testId)))
  }

  /** Deleting a patient takes exactly its bookings with it and keeps the store valid. */
  lemma DeletePatientCascades(st: Store, patientId: Id)
    requires Valid(st)
    ensures var r := DeletePatient(st, patientId);
      && Valid(r)
      && (forall p :: p in r.patients <==> p in st.patients && p.id != patientId)
      && (forall b :: b in r.bookings <==> b in st.bookings && b.patient != patientId)
      && r.tests == st.tests
  {
    var r := DeletePatient(st, patientId);
    forall b | b in r.bookings ensures HasPatient(r, b.patient) {
      var p :| p in st.patients && p.id == b.patient;
      assert p in r.patients;
    }
  }

  /** A permitted test deletion leaves no booking without its test and changes nothing else. */
  lemma DeleteTestKeepsValid(st: Store, testId: Id)
    requires Valid(st)
    requires DeleteTest(st, testId).Success?
    ensures var r := DeleteTest(st, testId).value;
      && Valid(r)
      && r.bookings == st.bookings && r.patients == st.patients
      && (forall t :: t in r.tests <==> t in st.tests && t.id != testId)
  {
    var r := DeleteTest(st, testId).value;
    forall b | b in r.bookings ensures HasTest(r, b.test) {
      var t :| t in st.tests && t.id == b.test;
      assert t in r.tests;
    }
  }
}
