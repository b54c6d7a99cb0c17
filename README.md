# Hospital test booking: the acceptance rules, modelled in Dafny

This project models the decision logic of a Django hospital test-booking
system. Patients reserve a diagnostic test (X-Ray, Blood Test, ...) at a
hospital on a date and at a time. A booking is accepted only if it:

- falls in a thirty-day window and within opening hours;
- does not duplicate an active booking of the same patient and test;
- does not overlap another active booking at the same hospital.

An accepted booking takes a time slot in a slot table.

The repository holds several variants of the same domain, and each is modelled
in its own module:

| module | file | models |
|---|---|---|
| `Validators` | validators.dfy | core/validators.py: the `07` phone-number shape and the thirty-day date window |
| `CoreForms` | core_forms.dfy | core/forms.py. Booking form: date, time, duplicate and overlap checks, `save`, `update_time_slot`. Also the patient contact check, the registration checks and the time-slot form. |
| `CoreModels` | core_models.dfy | core/models.py: the store invariant of that schema, validated inserts, cascading deletes, `Meta.ordering` |
| `BookingService` | booking_service.dfy | core/services/booking_service.py: the duplicate-existence query |
| `BookingAppForms` | booking_app_forms.dfy | hospital_project/booking_app/forms.py: the date window without a weekend rule, the hospital choices |
| `BookingAppModels` | booking_app_models.dfy | hospital_project/booking_app/models.py: unique contact numbers and test names, the unique key, `CASCADE` and `PROTECT` |
| `BookingAppViews` | booking_app_views.dfy | hospital_project/booking_app/views.py: `book_test_view`, the find-or-update-or-create patient step and the booking insert. The patient is saved before the booking insert, with no transaction around the two writes. With the intended patient step (a returning patient found by contact number), the insert can fail on the unique key and the patient write stays (`IntegrityErrorKeepsPatientWrite`). As written, the patient form only passes for a new contact, so the insert is never refused (`IntegrityErrorUnreachableAsWritten`). |
| `BookingModels` | booking_models.dfy | booking/models.py: test choices, non-negative age, the unique key, cascading deletes |

Shared modules:

- `Domain` holds the value types:
  - dates are day numbers;
  - times are minutes after midnight (0 to 1439);
  - keys are positive integers.
- `Wrappers` holds `Option`, `Result` and `Outcome`.
- `Queries` holds the ORM query shapes used throughout: `filter`, `.exists()`, `.get()` and `save()` by primary key.
- `Ordering` holds an insertion sort by a total preorder and binary (code-point) string order, for `Meta.ordering`.

Clock and calendar values are parameters: today's day number, and the weekday
of the requested date (0 is Monday). A test's duration is a function from the
test's key to minutes.

How each kind of code is modelled:

- **Pure checks** are functions whose contracts state exactly when they pass and which error they raise.
- **`is_time_slot_available`** is a method with the source's loop and early return, proved equal to the predicate `SlotAvailable`.
- **Code that changes tables in place** is written as classes:
  - `BookingForm.save` and `update_time_slot` are methods of `CoreForms.Database`;
  - `book_test_view` is a method of `BookingAppViews.BookingApp`.
- **Each method's new state** is tied to a specification function, such as `ClaimSlot`, `ReleaseSlots`, `StoreBooking` or `BookTestSpec`. The store invariants are proved about those functions.

## Model

| member | source | states |
|---|---|---|
| Validators.PhoneNumberShape | core/validators.py:6-15 | a value is accepted iff it has ten characters, "07" first and a digit at every later position |
| Validators.PhoneNumberFromDigits | core/validators.py:11-12 | "07" followed by `d` is accepted iff `d` is exactly eight digits |
| Validators.ValidateBookingDate | core/validators.py:18-35 | passes iff today <= date <= today+30, so both ends pass; "in the past" iff date < today; "too far" iff date > today+30 |
| CoreForms.CleanBookingDate | core/forms.py:159-172 | accepts iff the date is in [today, today+30] and the weekday is before Saturday; an accepted date is returned unchanged; which error is raised for a past and for a too-late date |
| CoreForms.CleanBookingDateRefinesValidator | core/forms.py:159-172 | the form accepts exactly the dates the shared validator accepts, less weekends; the weekend error is raised exactly for a weekend date inside the window |
| CoreForms.CleanBookingTime | core/forms.py:174-184 | accepts iff 08:00 <= time <= 17:00, both ends included, and returns the time unchanged |
| CoreForms.HasActiveDuplicate | core/forms.py:195-207 | true iff some active booking, other than the one being edited, has the same patient, test, date and time |
| CoreForms.IsTimeSlotAvailable | core/forms.py:221-244 | the loop returns true iff no active booking at the hospital on the date, other than the one being edited, has an interval meeting [time, time+duration) |
| CoreForms.AdjacentBookingsDoNotCollide | core/forms.py:236-242 | a booking starting exactly when another ends, or ending exactly when it starts, does not collide |
| CoreForms.FullClean | core/forms.py:159-219 | the form has no error iff every check passes: date window, weekday, hours, no active duplicate, and a free slot whenever a hospital is named; the duplicate error is raised iff date and time passed and an active duplicate exists |
| CoreForms.FilteredRowsNeverBlock | core/forms.py:195-217 | adding an inactive booking, or the booking being edited, to the store never changes the form's errors |
| CoreForms.BuildBooking | core/forms.py:246-258 | the saved booking carries every submitted field; an edit keeps the instance's key and active flag; a new booking gets a fresh key and is active |
| CoreForms.StoreBookingKeepsIdsUnique | core/forms.py:257-258 | saving a booking by primary key never puts two rows under one key |
| CoreForms.AcceptedBookingKeepsInvariants | core/forms.py:186-258 | saving a booking the form accepted keeps three invariants: unique keys, active (patient, test, date, time) unique, and no two active bookings at the same named hospital and date overlapping |
| CoreForms.ClaimSlotTakesExactlyOneSlot | core/forms.py:269-285 | after claiming, exactly one slot has the booking's (hospital, date, time), linked to the booking, unavailable, with the test's duration; an existing slot is overwritten, not duplicated; every other slot is kept |
| CoreForms.ReleaseSlots | core/forms.py:286-291 | every slot linked to the booking becomes available and unlinked; every other slot is unchanged; keys and ids are kept |
| CoreForms.ReleaseSlotsKeepsTable | core/forms.py:286-291 | releasing keeps the slot keys and ids unique and leaves no slot linked to the booking |
| CoreForms.MovedBookingKeepsOldSlot | core/forms.py:265-285 | moving an active booking to another (hospital, date, time) leaves its old slot unchanged and still linked to it |
| CoreForms.Database.UpdateTimeSlot | core/forms.py:265-291 | the slot table becomes the claimed table for an active booking and the released table for an inactive one, and the slot keys stay unique |
| CoreForms.Database.Save | core/forms.py:246-263 | on a form `is_valid()` accepted: with `commit` the booking is stored by key and its slot updated, keeping unique keys, unique active (patient, test, date, time) and no overlap at a named hospital; without `commit` nothing is written; the returned booking is the built one |
| CoreForms.CleanContactNumber | core/forms.py:123-136 | a non-empty contact is refused iff it is not of the `07` shape, or another active patient (not the one being edited) holds it; an empty one passes |
| CoreForms.CleanContactKeepsContactsUnique | core/forms.py:128-134 | saving a patient whose contact passed the check keeps at most one active patient per non-empty contact number |
| CoreForms.CleanRegistration | core/forms.py:51-81 | passes iff the password is absent or at least 8 long and, for the PATIENT role: name given, age given and non-zero, contact of the `07` shape, and not held by an active patient; the short-password error exactly when a given password is too short |
| CoreForms.RegistrationAgreesWithPatientForm | core/forms.py:73-79 | a patient registration that passes also passes the patient form's contact check for a new patient |
| CoreForms.CleanPassword2 | core/forms.py:83-87 | passes iff the two passwords are equal, returning the confirmation; otherwise the mismatch error |
| CoreForms.CleanTimeSlot | core/forms.py:318-340 | refused iff a hospital is named and another slot (not the one being edited) has the same (hospital, date, time) |
| CoreForms.CleanTimeSlotKeepsKeysUnique | core/forms.py:325-338 | saving a slot that passed the check keeps one slot per (hospital, date, time) |
| CoreModels.AddPatient | core/models.py:10-18 | a patient is stored iff its contact has the `07` shape, and the store stays valid |
| CoreModels.AddTest | core/models.py:30 | a test is stored iff no stored test has its name, and the store stays valid |
| CoreModels.AddBooking | core/models.py:39-51 | a booking is stored iff its patient and test exist and its (patient, test, date, time) is new; the duplicate error exactly when only the key clashes; the store stays valid |
| CoreModels.DeletePatientCascades | core/models.py:42 | deleting a patient removes it and exactly its bookings, and the store stays valid |
| CoreModels.DeleteTestCascades | core/models.py:43 | deleting a test removes it and exactly its bookings, and the store stays valid |
| CoreModels.NewestBookingFirstIsTotalPreorder | core/models.py:50 | ordering by descending date, then descending time, is total and transitive |
| CoreModels.TestNameOrderIsTotalPreorder | core/models.py:33 | ordering by name (binary, code-point collation) is total and transitive |
| CoreModels.ListBookings | core/models.py:50 | the listing is a permutation of the bookings, in descending date, then descending time |
| CoreModels.ListTests | core/models.py:33 | the listing is a permutation of the tests, in ascending name order under a binary (code-point) collation |
| CoreModels.ListPatients | core/models.py:22 | the listing is a permutation of the patients, newest `created_at` first |
| Ordering.StrLeIsTotalPreorder | core/models.py:33 | binary (code-point) string order `<=`, a prefix first, is total and transitive |
| BookingService.CheckDuplicateBooking | core/services/booking_service.py:4-22 | true iff some stored booking, of any hospital and with no active filter, has the same patient, test, date and time |
| BookingService.DuplicateIgnoresHospital | core/services/booking_service.py:17-22 | after a booking is stored, a second booking with its patient, test, date and time at any hospital is reported as a duplicate and refused by the unique key |
| BookingService.DuplicateCheckMonotone | core/services/booking_service.py:17-22 | adding a booking turns the answer true exactly for its own key and changes no other answer |
| BookingService.DuplicateCheckPredictsUniqueKey | core/services/booking_service.py:4-22 | on a valid store, the check is true iff inserting the booking fails on the unique key, and false iff the insert succeeds |
| BookingAppForms.CleanBookingDate | hospital_project/booking_app/forms.py:52-65 | accepts iff today <= date <= today+30, returning the date unchanged; which error for a past and for a too-late date; no weekend rule |
| BookingAppForms.CleanBookingDateMatchesValidator | hospital_project/booking_app/forms.py:52-65 | this form accepts exactly what the shared validator accepts, with the same errors |
| BookingAppForms.CoreFormIsStricter | hospital_project/booking_app/forms.py:52-65 | every date the core form accepts is accepted here; a weekend date this form accepts is refused by the core form |
| BookingAppForms.CleanHospitalName | hospital_project/booking_app/forms.py:32-40 | accepts iff the hospital is 'Central' or 'Northwood' |
| BookingAppModels.AddTest | hospital_project/booking_app/models.py:27 | a test is stored iff no stored test has its name, and the store stays valid |
| BookingAppModels.DeleteTest | hospital_project/booking_app/models.py:37 | deletion is refused iff some booking refers to the test; otherwise only the test is removed |
| BookingAppModels.DeletePatientCascades | hospital_project/booking_app/models.py:36 | deleting a patient removes it and exactly its bookings, and the store stays valid |
| BookingAppModels.DeleteTestKeepsValid | hospital_project/booking_app/models.py:37 | a permitted test deletion leaves no booking without its test and changes no patient or booking |
| BookingAppViews.RegisterPatientUpdatesExisting | hospital_project/booking_app/views.py:20-28 | for a patient with the submitted contact, only name and age change, no patient is created, and no other patient changes |
| BookingAppViews.RegisterPatientCreatesNew | hospital_project/booking_app/views.py:29-31 | with no patient holding the contact, exactly one patient is appended, with the fresh key |
| BookingAppViews.RegisterPatientKeepsValid | hospital_project/booking_app/views.py:19-31 | the patient step keeps the store valid (unique, well-formed contacts; unique keys; foreign keys), keeps every stored key, and returns a stored patient |
| BookingAppViews.InsertBookingKeepsValid | hospital_project/booking_app/models.py:36-46 | inserting a booking with a new key, stored patient and stored test keeps the store valid |
| BookingAppViews.InvalidFormWritesNothing | hospital_project/booking_app/views.py:12-14 | if either form is invalid, nothing is written and the page is rendered again |
| BookingAppViews.ValidFormBooksUnlessKeyTaken | hospital_project/booking_app/views.py:33-39 | with valid forms, the view redirects iff no stored booking has the new booking's (patient, test, date, time), and then exactly that booking, for the found or created patient, is appended and the patient table is the one the patient step wrote |
| BookingAppViews.IntegrityErrorKeepsPatientWrite | hospital_project/booking_app/views.py:19-36 | with the intended patient step, when the insert is refused, bookings are unchanged but the patient step has been written |
| BookingAppViews.SecondHospitalIsRefused | hospital_project/booking_app/views.py:33-36 | with the intended patient step, a submission whose key matches a stored booking at another hospital is refused by the database |
| BookingAppViews.BookTestKeepsValid | hospital_project/booking_app/views.py:12-39 | every outcome of the view leaves a valid store valid, with the catalogue unchanged |
| BookingAppViews.BookingApp.BookTest | hospital_project/booking_app/views.py:7-45 | the new tables and the response are those of `BookTestSpec`, and the store stays valid |
| BookingAppViews.UpdateBranchUnreachableAsWritten | hospital_project/booking_app/views.py:20-31 | as the framework validates the patient form, a form that passes always creates a new patient |
| BookingAppViews.IntegrityErrorUnreachableAsWritten | hospital_project/booking_app/views.py:20-36 | as the framework validates the patient form, the booking insert is never refused: the booking refers to a freshly created patient that no stored booking refers to |
| BookingAppViews.ReturningPatientRejectedAsWritten | hospital_project/booking_app/views.py:20-28 | a returning patient's form is refused as written, while the intended step updates the stored row |
| BookingModels.AddPatient | booking/models.py:8 | a patient is stored iff its age is zero or more, and the store stays valid |
| BookingModels.AddTest | booking/models.py:16-22 | a test is stored iff its name is 'X-Ray', 'Ultrasound' or 'Blood Test', and the store stays valid |
| BookingModels.AddBooking | booking/models.py:28-36 | a booking is stored iff its patient and test exist and its (patient, test, date, time) is new; the store stays valid |
| BookingModels.DeletePatientCascades | booking/models.py:29 | deleting a patient removes it and exactly its bookings, and the store stays valid |
| BookingModels.DeleteTestCascades | booking/models.py:30 | deleting a test removes it and exactly its bookings, and the store stays valid |
| BookingModels.SecondHospitalIsRefused | booking/models.py:36 | after a booking is stored, the same (patient, test, date, time) at another hospital is refused |

## Findings

| source | as written | input that shows it | evidently intended | confidence | as-written member | corrected member |
|---|---|---|---|---|---|---|
| hospital_project/booking_app/views.py:20-28 | `PatientForm` is a `ModelForm` on a `unique=True` contact number, so `is_valid()` already refuses a stored contact and the find-existing-patient branch is never reached | a second booking by a stored patient, for example a stored contact 0712345678 submitted again with a new age | a returning patient is found by contact number and has name and age updated | medium, not executed | BookingAppViews.ReturningPatientRejectedAsWritten | BookingAppViews.RegisterPatientUpdatesExisting |

`BookingAppViews.UpdateBranchUnreachableAsWritten` states the as-written
consequence for every input, and `BookingAppViews.IntegrityErrorUnreachableAsWritten`
its effect on the view: the booking insert then never fails on the unique key,
so the refused insert that leaves the patient write behind
(`IntegrityErrorKeepsPatientWrite`, `SecondHospitalIsRefused`) happens only
with the intended patient step. The rest of the model (`BookTestSpec`,
`BookingApp.BookTest`) uses the intended step. There, the framework's own field
checks are the boolean parameter of `PatientFormValid` and do not include the
uniqueness test.

## Left out

- Clock and calendar: `timezone.now()` and `date.today()` become a `today` day number, and `weekday()` a parameter, because they are I/O.
- Seconds and microseconds of times are not modelled, because times are whole minutes. A time such as 17:00:30, which the source refuses, cannot be written.
- Regular-expression corner cases are not modelled. Python's `$` also matches before a trailing newline, and `\d` matches non-ASCII digits. The model accepts exactly ten ASCII characters, "07" followed by eight `0`-`9`.
- `max_length` limits, `required` checks, widget attributes, and the framework's type conversion of form fields are not modelled, because they belong to the framework. Where a view needs them, they enter as a boolean (`patientFieldsValid`, `bookingFieldsValid`).
- HTTP handling is not modelled: GET requests, rendering, redirect targets and `booking_success_view`. The view is modelled on a POST, and its response is one of `Rendered`, `Redirected`, `IntegrityError`.
- Concurrency is not modelled: the race between a check and the commit.
- Django's `validate_unique` on `ModelForm`s is not part of `PatientFormValid`; see Findings.
- `RegisterForm.save` is not modelled: user creation, `set_password` hashing and `UserProfile` creation, core/forms.py:89-110. These are calls into the authentication framework. Only its checks, `clean` and `clean_password2`, are modelled.
- The `user` foreign key of core/models.py:41 and its cascade are not modelled, because accounts are outside this model.
- Keys are a counter supplied by the database. In `BookingApp.BookTest` the patient counter advances on every accepted form, not only on an insert, so new keys stay fresh but are not consecutive.
- The record shapes differ between files. The booking engine of core/forms.py uses fields (`booking_date`, `is_active`, `status`, `Test.duration`) that the shown core/models.py does not declare. `CoreForms` uses the form's shape. A new booking is assumed active, as the form excludes the field.
- The slot-update path through core/views.py, which saves with `commit=False` and so skips `update_time_slot`, is not modelled, because those views are request plumbing.
- Cancel and restore views are not modelled: they are named in routes but absent from the views. Soft delete appears only as the `is_active` flag on stored bookings and patients.
- Model-field choices (`TEST_CHOICES`) and model validators (`RegexValidator`) only run in `full_clean`, not on a raw `save()`. The `Add*` functions model the validated path, and the store invariants assume it. `HOSPITAL_CHOICES` is a form `ChoiceField`, checked by `is_valid()`, and `BookingFormValid` checks it there.
- CoreModels.ListTests: assumes the database sorts names under a binary (code-point) collation, as SQLite's default BINARY collation does; the source sets no collation, and a locale collation (for example PostgreSQL with en_US) would put "a" before "B".
- CoreForms.FullClean: assumes the Booking model that core/forms.py edits has no `unique_together` checked by `validate_unique`. That model is not part of this model. If it carried the four-field key of core/models.py:51, `is_valid()` would also refuse a duplicate of an inactive booking, and `FilteredRowsNeverBlock` would not hold for the duplicate check.
