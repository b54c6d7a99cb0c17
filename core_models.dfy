/**
 * core/models.py: the schema with fields `contact`, `date`, `time` and
 * `hospital`. Its constraints are stated as a store invariant: contact numbers
 * of the `07` shape, unique test names, one booking per (patient, test, date,
 * time), and bookings that refer to a stored patient and test. Rows are added
 * through model validation (`full_clean`) and the database's own checks, and
 * deleting a patient or a test deletes its bookings (`on_delete=CASCADE`).
 */
module CoreModels {
  import opened Wrappers
  import opened Queries
  import opened Domain
  import Validators
  import Ordering

  datatype Patient = Patient(id: Id, name: string, age: int, contact: string, createdAt: int)

  datatype Test = Test(id: Id, name: string)

  datatype Booking = Booking(
    id: Id,
    user: Option<Id>,
    patient: Id,
    test: Id,
    date: Day,
    time: TimeOfDay,
    hospital: string,
    createdAt: int)

  datatype Store = Store(patients: seq<Patient>, tests: seq<Test>, bookings: seq<Booking>)

  datatype ModelError = InvalidContact | DuplicateTestName | DuplicateBookingKey | MissingPatient | MissingTest

  /** `unique_together = [('patient', 'test', 'date', 'time')]`: the key of a booking. */
  function BookingKey(b: Booking): (Id, Id, Day, TimeOfDay)
  {
    (b.patient, b.test, b.date, b.time)
  }

  predicate PatientIdsUnique(patients: seq<Patient>)
  {
    forall p, q :: p in patients && q in patients && p.id == q.id ==> p == q
  }

  predicate TestIdsUnique(tests: seq<Test>)
  {
    forall s, t :: s in tests && t in tests && s.id == t.id ==> s == t
  }

  predicate BookingIdsUnique(bookings: seq<Booking>)
  {
    forall a, b :: a in bookings && b in bookings && a.id == b.id ==> a == b
  }

  /** `RegexValidator(r'^07\d{8}$')` on `Patient.contact`. */
  predicate ContactsValid(patients: seq<Patient>)
  {
    forall p :: p in patients ==> Validators.ValidatePhoneNumber(p.contact)
  }

  /** `Test.name` is `unique=True`. */
  predicate TestNamesUnique(tests: seq<Test>)
  {
    forall s, t :: s in tests && t in tests && s.id != t.id ==> s.name != t.name
  }

  predicate BookingKeysUnique(bookings: seq<Booking>)
  {
    forall a, b :: a in bookings && b in bookings && a.id != b.id ==> BookingKey(a) != BookingKey(b)
  }

  predicate HasPatient(st: Store, id: Id)
  {
    exists p :: p in st.patients && p.id == id
  }

  predicate HasTest(st: Store, id: Id)
  {
    exists t :: t in st.tests && t.id == id
  }

  /** Every booking's `patient` and `test` refer to stored rows. */
  predicate ForeignKeysHold(st: Store)
  {
    forall b :: b in st.bookings ==> HasPatient(st, b.patient) && HasTest(st, b.test)
  }

  predicate Valid(st: Store)
  {
    && PatientIdsUnique(st.patients) && TestIdsUnique(st.tests) && BookingIdsUnique(st.bookings)
    && ContactsValid(st.patients)
    && TestNamesUnique(st.tests)
    && BookingKeysUnique(st.bookings)
    && ForeignKeysHold(st)
  }

  // ---------------------------------------------------------------------------
  // Adding rows

  /** A patient passes model validation only with a contact number of the `07` shape. */
  function AddPatient(st: Store, p: Patient): (r: Result<Store, ModelError>)
    requires forall q :: q in st.patients ==> q.id != p.id
    requires Valid(st)
    ensures r.Success? <==> Validators.ValidatePhoneNumber(p.contact)
    ensures r.Success? ==> Valid(r.value) && r.value == st.(patients := st.patients + [p])
  {
    if !Validators.ValidatePhoneNumber(p.contact) then Failure(InvalidContact)
    else Success(st.(patients := st.patients + [p]))
  }

  /** The unique index on `Test.name` refuses a second test of the same name. */
  function AddTest(st: Store, t: Test): (r: Result<Store, ModelError>)
    requires forall s :: s in st.tests ==> s.id != t.id
    requires Valid(st)
    ensures r.Success? <==> !exists s :: s in st.tests && s.name == t.name
    ensures r.Success? ==> Valid(r.value) && r.value == st.(tests := st.tests + [t])
  {
    if Exists(st.tests, (s: Test) => s.name == t.name) then Failure(DuplicateTestName)
    else
      var r := st.(tests := st.tests + [t]);
      assert forall b :: b in r.bookings ==> HasPatient(r, b.patient) && HasTest(r, b.test) by {
        forall b | b in r.bookings ensures HasPatient(r, b.patient) && HasTest(r, b.test) {
          var s :| s in st.tests && s.id == b.test;
          assert s in r.tests;
        }
      }
      Success(r)
  }

  /**
   * Inserting a booking: the foreign keys must refer to stored rows and the
   * unique key must be new, otherwise the database raises an integrity error.
   */
  function AddBooking(st: Store, b: Booking): (r: Result<Store, ModelError>)
    requires forall x :: x in st.bookings ==> x.id != b.id
    requires Valid(st)
    ensures r.Success? <==>
      && HasPatient(st, b.patient) && HasTest(st, b.test)
      && !exists x :: x in st.bookings && BookingKey(x) == BookingKey(b)
    ensures r == Failure(DuplicateBookingKey) <==>
      && HasPatient(st, b.patient) && HasTest(st, b.test)
      && exists x :: x in st.bookings && BookingKey(x) == BookingKey(b)
    ensures r.Success? ==> Valid(r.value) && r.value == st.(bookings := st.bookings + [b])
  {
    if !Exists(st.patients, (p: Patient) => p.id == b.patient) then Failure(MissingPatient)
    else if !Exists(st.tests, (t: Test) => t.id == b.test) then Failure(MissingTest)
    else if Exists(st.bookings, (x: Booking) => BookingKey(x) == BookingKey(b)) then Failure(DuplicateBookingKey)
    else Success(st.(bookings := st.bookings + [b]))
  }

  // ---------------------------------------------------------------------------
  // Deleting rows: `on_delete=CASCADE` on both foreign keys of a booking

  function DeletePatient(st: Store, patientId: Id): (r: Store)
  {
    Store(Filter(st.patients, (p: Patient) => p.id != patientId),
          st.tests,
          Filter(st.bookings, (b: Booking) => b.patient != patientId))
  }

  function DeleteTest(st: Store, testId: Id): (r: Store)
  {
    Store(st.patients,
          Filter(st.tests, (t: Test) => t.id != testId),
          Filter(st.bookings, (b: Booking) => b.test != testId))
  }

  /**
   * Deleting a patient removes it and exactly the bookings that refer to it,
   * and the store stays valid (no booking is left without its patient).
   */
  lemma DeletePatientCascades(st: Store, patientId: Id)
    requires Valid(st)
    ensures var r := DeletePatient(st, patientId);
      && Valid(r)
      && (forall p :: p in r.patients <==> p in st.patients && p.id != patientId)
      && (forall b :: b in r.bookings <==> b in st.bookings && b.patient != patientId)
      && r.tests == st.tests
  {
    var r := DeletePatient(st, patientId);
    forall b | b in r.bookings ensures HasPatient(r, b.patient) {
      var p :| p in st.patients && p.id == b.patient;
      assert p in r.patients;
    }
  }

  /** Deleting a test removes it and exactly the bookings that refer to it. */
  lemma DeleteTestCascades(st: Store, testId: Id)
    requires Valid(st)
    ensures var r := DeleteTest(st, testId);
      && Valid(r)
      && (forall t :: t in r.tests <==> t in st.tests && t.id != testId)
      && (forall b :: b in r.bookings <==> b in st.bookings && b.test != testId)
      && r.patients == st.patients
  {
    var r := DeleteTest(st, testId);
    forall b | b in r.bookings ensures HasTest(r, b.test) {
      var t :| t in st.tests && t.id == b.test;
      assert t in r.tests;
    }
  }

  // ---------------------------------------------------------------------------
  // Default orderings (`Meta.ordering`)

  /** `ordering = ['-date', '-time']`. */
  predicate NewestBookingFirst(a: Booking, b: Booking)
  {
    a.date > b.date || (a.date == b.date && a.time >= b.time)
  }

  /** `ordering = ['name']`. */
  predicate TestNameOrder(a: Test, b: Test)
  {
    Ordering.StrLe(a.name, b.name)
  }

  /** `ordering = ['-created_at']`. */
  predicate NewestPatientFirst(a: Patient, b: Patient)
  {
    a.createdAt >= b.createdAt
  }

  lemma NewestBookingFirstIsTotalPreorder()
    ensures Ordering.TotalPreorder(NewestBookingFirst)
  {
  }

  lemma TestNameOrderIsTotalPreorder()
    ensures Ordering.TotalPreorder(TestNameOrder)
  {
    forall a, b ensures TestNameOrder(a, b) || TestNameOrder(b, a) {
      Ordering.StrLeTotal(a.name, b.name);
    }
    forall a, b, c | TestNameOrder(a, b) && TestNameOrder(b, c) ensures TestNameOrder(a, c) {
      Ordering.StrLeTransitive(a.name, b.name, c.name);
    }
  }

  /** `Booking.objects.all()`: every booking once, latest date first and, within a date, latest time first. */
  function ListBookings(bookings: seq<Booking>): (r: seq<Booking>)
    ensures multiset(r) == multiset(bookings)
    ensures forall i, j :: 0 <= i < j < |r| ==>
      r[i].date > r[j].date || (r[i].date == r[j].date && r[i].time >= r[j].time)
  {
    NewestBookingFirstIsTotalPreorder();
    var r := Ordering.SortBy(bookings, NewestBookingFirst);
    assert forall i, j :: 0 <= i < j < |r| ==> NewestBookingFirst(r[i], r[j]);
    r
  }

  /** `Test.objects.all()`: every test once, in ascending name order. */
  function ListTests(tests: seq<Test>): (r: seq<Test>)
    ensures multiset(r) == multiset(tests)
    ensures forall i, j :: 0 <= i < j < |r| ==> Ordering.StrLe(r[i].name, r[j].name)
  {
    TestNameOrderIsTotalPreorder();
    var r := Ordering.SortBy(tests, TestNameOrder);
    assert forall i, j :: 0 <= i < j < |r| ==> TestNameOrder(r[i], r[j]);
    r
  }

  /** `Patient.objects.all()`: every patient once, most recently created first. */
  function ListPatients(patients: seq<Patient>): (r: seq<Patient>)
    ensures multiset(r) == multiset(patients)
    ensures forall i, j :: 0 <= i < j < |r| ==> r[i].createdAt >= r[j].createdAt
  {
    assert Ordering.TotalPreorder(NewestPatientFirst);
    var r := Ordering.SortBy(patients, NewestPatientFirst);
    assert forall i, j :: 0 <= i < j < |r| ==> NewestPatientFirst(r[i], r[j]);
    r
  }
}
