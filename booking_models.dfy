/**
 * booking/models.py: the third schema. A test is one of three named kinds, a
 * patient's age is a `PositiveIntegerField` (zero or more), a booking is unique
 * per (patient, test, date, time), and deleting a patient or a test deletes its
 * bookings (`on_delete=CASCADE`). Contact numbers are free text here.
 */
module BookingModels {
  import opened Wrappers
  import opened Queries
  import opened Domain

  /** The values of `Test.TEST_CHOICES`. */
  const TestChoices: seq<string> := ["X-Ray", "Ultrasound", "Blood Test"]

  datatype Patient = Patient(id: Id, name: string, age: int, contactNumber: string)

  datatype Test = Test(id: Id, name: string)

  datatype Booking = Booking(id: Id, patient: Id, test: Id, date: Day, time: TimeOfDay, hospitalName: string)

  datatype Store = Store(patients: seq<Patient>, tests: seq<Test>, bookings: seq<Booking>)

  datatype ModelError = NegativeAge | InvalidChoice | DuplicateBookingKey | MissingPatient | MissingTest

  /** `unique_together = ('patient', 'test', 'date', 'time')`. */
  function BookingKey(b: Booking): (Id, Id, Day, TimeOfDay)
  {
    (b.patient, b.test, b.date, b.time)
  }

  predicate AgesNonNegative(patients: seq<Patient>)
  {
    forall p :: p in patients ==> p.age >= 0
  }

  predicate TestNamesChosen(tests: seq<Test>)
  {
    forall t :: t in tests ==> t.name in TestChoices
  }

  predicate BookingKeysUnique(bookings: seq<Booking>)
  {
    forall a, b :: a in bookings && b in bookings && a.id != b.id ==> BookingKey(a) != BookingKey(b)
  }

  predicate PatientIdsUnique(patients: seq<Patient>)
  {
    forall p, q :: p in patients && q in patients && p.id == q.id ==> p == q
  }

  predicate TestIdsUnique(tests: seq<Test>)
  {
    forall s, t :: s in tests && t in tests && s.id == t.id ==> s == t
  }

  predicate BookingIdsUnique(bookings: seq<Booking>)
  {
    forall a, b :: a in bookings && b in bookings && a.id == b.id ==> a == b
  }

  predicate HasPatient(st: Store, id: Id)
  {
    exists p :: p in st.patients && p.id == id
  }

  predicate HasTest(st: Store, id: Id)
  {
    exists t :: t in st.tests && t.id == id
  }

  predicate ForeignKeysHold(st: Store)
  {
    forall b :: b in st.bookings ==> HasPatient(st, b.patient) && HasTest(st, b.test)
  }

  predicate Valid(st: Store)
  {
    && PatientIdsUnique(st.patients) && TestIdsUnique(st.tests) && BookingIdsUnique(st.bookings)
    && AgesNonNegative(st.patients)
    && TestNamesChosen(st.tests)
    && BookingKeysUnique(st.bookings)
    && ForeignKeysHold(st)
  }

  /** `PositiveIntegerField`: a negative age is refused, zero is accepted. */
  function AddPatient(st: Store, p: Patient): (r: Result<Store, ModelError>)
    requires forall q :: q in st.patients ==> q.id != p.id
    requires Valid(st)
    ensures r.Success? <==> p.age >= 0
    ensures r.Success? ==> Valid(r.value) && r.value == st.(patients := st.patients + [p])
  {
    if p.age < 0 then Failure(NegativeAge)
    else
      var r := st.(patients := st.patients + [p]);
      assert forall b :: b in r.bookings ==> HasPatient(r, b.patient) by {
        forall b | b in r.bookings ensures HasPatient(r, b.patient) {
          var q :| q in st.patients && q.id == b.patient;
          assert q in r.patients;
        }
      }
      Success(r)
  }

  /** `choices=TEST_CHOICES`: only 'X-Ray', 'Ultrasound' and 'Blood Test' are accepted as test names. */
  function AddTest(st: Store, t: Test): (r: Result<Store, ModelError>)
    requires forall s :: s in st.tests ==> s.id != t.id
    requires Valid(st)
    ensures r.Success? <==> t.name == "X-Ray" || t.name == "Ultrasound" || t.name == "Blood Test"
    ensures r.Success? ==> Valid(r.value) && r.value == st.(tests := st.tests + [t])
  {
    if t.name !in TestChoices then Failure(InvalidChoice)
    else
      var r := st.(tests := st.tests + [t]);
      assert forall b :: b in r.bookings ==> HasTest(r, b.test) by {
        forall b | b in r.bookings ensures HasTest(r, b.test) {
          var s :| s in st.tests && s.id == b.test;
          assert s in r.tests;
        }
      }
      Success(r)
  }

  /**
   * Inserting a booking: both foreign keys must refer to stored rows and the
   * (patient, test, date, time) must be new; the hospital is not in the key.
   */
  function AddBooking(st: Store, b: Booking): (r: Result<Store, ModelError>)
    requires forall x :: x in st.bookings ==> x.id != b.id
    requires Valid(st)
    ensures r.Success? <==>
      && HasPatient(st, b.patient) && HasTest(st, b.test)
      && !exists x :: x in st.bookings && BookingKey(x) == BookingKey(b)
    ensures r == Failure(DuplicateBookingKey) <==>
      && HasPatient(st, b.patient) && HasTest(st, b.test)
      && exists x :: x in st.bookings && BookingKey(x) == BookingKey(b)
    ensures r.Success? ==> Valid(r.value) && r.value == st.(bookings := st.bookings + [b])
  {
    if !Exists(st.patients, (p: Patient) => p.id == b.patient) then Failure(MissingPatient)
    else if !Exists(st.tests, (t: Test) => t.id == b.test) then Failure(MissingTest)
    else if Exists(st.bookings, (x: Booking) => BookingKey(x) == BookingKey(b)) then Failure(DuplicateBookingKey)
    else Success(st.(bookings := st.bookings + [b]))
  }

  /** `on_delete=CASCADE` on `Booking.patient`. */
  function DeletePatient(st: Store, patientId: Id): Store
  {
    Store(Filter(st.patients, (p: Patient) => p.id != patientId),
          st.tests,
          Filter(st.bookings, (b: Booking) => b.patient != patientId))
  }

  /** `on_delete=CASCADE` on `Booking.test`. */
  function DeleteTest(st: Store, testId: Id): Store
  {
    Store(st.patients,
          Filter(st.tests, (t: Test) => t.id != testId),
          Filter(st.bookings, (b: Booking) => b.test != testId))
  }

  /** Deleting a patient removes it and exactly its bookings; the store stays valid. */
  lemma DeletePatientCascades(st: Store, patientId: Id)
    requires Valid(st)
    ensures var r := DeletePatient(st, patientId);
      && Valid(r)
      && (forall p :: p in r.patients <==> p in st.patients && p.id != patientId)
      && (forall b :: b in r.bookings <==> b in st.bookings && b.patient != patientId)
      && r.tests == st.tests
  {
    var r := DeletePatient(st, patientId);
    forall b | b in r.bookings ensures HasPatient(r, b.patient) {
      var p :| p in st.patients && p.id == b.patient;
      assert p in r.patients;
    }
  }

  /** Deleting a test removes it and exactly its bookings; the store stays valid. */
  lemma DeleteTestCascades(st: Store, testId: Id)
    requires Valid(st)
    ensures var r := DeleteTest(st, testId);
      && Valid(r)
      && (forall t :: t in r.tests <==> t in st.tests && t.id != testId)
      && (forall b :: b in r.bookings <==> b in st.bookings && b.test != testId)
      && r.patients == st.patients
  {
    var r := DeleteTest(st, testId);
    forall b | b in r.bookings ensures HasTest(r, b.test) {
      var t :| t in st.tests && t.id == b.test;
      assert t in r.tests;
    }
  }

  /**
   * The same (patient, test, date, time) cannot be booked twice, even at a
   * different hospital: after a booking is stored, a second one differing only
   * in id and hospital is refused.
   */
  lemma SecondHospitalIsRefused(st: Store, b: Booking, otherId: Id, hospital: string)
    requires forall x :: x in st.bookings ==> x.id != b.id && x.id != otherId
    requires b.id != otherId
    requires Valid(st) && AddBooking(st, b).Success?
    ensures var second := b.(id := otherId, hospitalName := hospital);
      AddBooking(AddBooking(st, b).value, second) == Failure(DuplicateBookingKey)
  {
    var st2 := AddBooking(st, b).value;
    assert b in st2.bookings;
    assert HasPatient(st2, b.patient) && HasTest(st2, b.test) by {
      var p :| p in st.patients && p.id == b.patient;
      var t :| t in st.tests && t.id == b.test;
      assert p in st2.patients && t in st2.tests;
    }
  }
}
