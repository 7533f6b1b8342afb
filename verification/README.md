# MediCare scheduling assistant — verified model of the scheduling core

This project models, in Dafny, the decision logic of the MediCare Allergy &
Wellness Center scheduling page (`streamlit_app.py`). It covers:

- the patient lookup `AISchedulingAgent.search_patient`. It matches first and
  last name ignoring case, then breaks ties between namesakes by date of birth
  and then by phone. It returns the record and a "found" flag;
- the intake choice of the current patient: the search result, or a freshly
  built new-patient record;
- the duration rule. New patients, and patients with no type, get 60 minutes;
  everyone else gets 30;
- `AISchedulingAgent.book_appointment`, which builds the confirmation record:
  appointment id `APT` + five digits, location per doctor, patient-type label,
  status `Confirmed`, and defaults for missing fields;
- the candidate booking dates: the next seven days, Monday to Friday only;
- the three reminder instants.

Modules: `Wrappers` (Option), `Ascii` (case folding), `Decimal` (rendering and
parsing numbers), `Patients` (records and row filters), `Lookup` (the search),
`Booking` (duration rule and booking record), `Workflow` (intake, insurance
merge, confirm), `Calendar` (dates, time slots, reminders).

Modelling choices:

- Python's `str.lower()` is modelled as ASCII-only lowercasing (`Ascii.ToLower`).
  Non-ASCII letters are compared as they are.
- The patient table is a `seq<PatientRecord>` in table order, with every column
  present as a string. pandas boolean indexing is `Patients.Select`.
- The `dob`/`phone` arguments are `Option<string>`. Python truthiness (`if dob:`)
  is `Lookup.Given`: the value is present and non-empty.
- A patient dict whose keys may be missing is `PatientData` with `Option` fields.
  `dict.get(key, default)` is `GetOr(default)`.
- `random.randint(10000, 99999)` becomes a parameter `n` restricted to that range.
  `datetime.now()` becomes parameters: the booking timestamp string `now`, and
  "today" as a day number plus its weekday (Monday = 0, as `date.weekday()`).
- Dates are day numbers. Instants are minutes since midnight of day 0.

## Model

| member | source | states |
|---|---|---|
| Ascii.ToLower | streamlit_app.py:329-330 | An ASCII capital becomes its small letter (code + 32); every other character is unchanged; the result is never a capital |
| Ascii.LowerString | streamlit_app.py:329-330 | `str.lower()`: same length, and each character lowered at its own position |
| Ascii.LowerStringIdempotent | streamlit_app.py:329-330 | Lowering is idempotent, so a lowered string matches itself ignoring case |
| Ascii.EqualsIgnoringCasePointwise | streamlit_app.py:329-330 | Two strings are equal ignoring case exactly when they have the same length and agree character by character after lowering |
| Patients.FromRecord | streamlit_app.py:334 | `.iloc[0].to_dict()`: every column of the row becomes a present key holding that column's value |
| Patients.Select | streamlit_app.py:328-331 | Boolean indexing keeps exactly the rows that meet every condition: every kept row is in the table and meets them, every table row meeting them is kept, and there are at most as many as table rows |
| Patients.SelectEquivalent | streamlit_app.py:328-331 | Equivalent conditions select the same rows |
| Patients.SelectCount | streamlit_app.py:328-335 | The number of rows kept by a filter is 0, 1 or at least 2 exactly when no row, exactly one row, or two different rows meet the conditions |
| Patients.SelectUnique | streamlit_app.py:333-334 | When exactly one row meets the conditions, the filter yields exactly that row |
| Patients.SelectHead | streamlit_app.py:344 | The filter's first row is the earliest matching row in table order |
| Patients.SelectTwice | streamlit_app.py:337 | Filtering the name matches by a further condition equals filtering the table by both conditions |
| Patients.FirstHitExists | streamlit_app.py:344 | If some row matches, there is an earliest matching row |
| Lookup.NameCriteria | streamlit_app.py:328-331 | A row meets the name mask exactly when its first and last names both equal the query ignoring case |
| Lookup.Decide | streamlit_app.py:333-346 | Found implies a record; any record returned is one of the namesakes; nothing is returned exactly when there is no namesake |
| Lookup.SearchPatient | streamlit_app.py:323-346 | An empty table gives (None, False); found implies a record; any returned record is in the table and matches both names ignoring case |
| Lookup.SearchUniqueName | streamlit_app.py:333-334 | Exactly one namesake: it is returned as found, whatever the dob and phone are |
| Lookup.SearchDobTieBreak | streamlit_app.py:335-339 | Several namesakes, and a dob given that exactly one of them has: that record is returned as found, before the phone is considered |
| Lookup.SearchPhoneTieBreak | streamlit_app.py:340-343 | Several namesakes, no unique dob match, and a phone given that exactly one of them has: that record is returned as found |
| Lookup.SearchAmbiguous | streamlit_app.py:344 | Several namesakes and neither tie-break unique: the first namesake in table order is returned, flagged not found |
| Lookup.SearchAmbiguousEarliest | streamlit_app.py:344 | Several namesakes and neither tie-break unique: the earliest namesake in table order is returned, flagged not found |
| Lookup.SearchIgnoresQueryCase | streamlit_app.py:329-330 | Typing the query names in any ASCII case gives the same search result as their lowered form |
| Lookup.SearchNoName | streamlit_app.py:345-346 | No namesake: (None, False) |
| Lookup.SearchOutcome | streamlit_app.py:323-346 | A record is returned exactly when some row matches the names. It is flagged found exactly when the name alone, or (with several namesakes) the dob or the phone, singles out one row |
| Booking.LocationFor | streamlit_app.py:352-367 | A doctor in the map gets the map's clinic, any other doctor gets 'Main Clinic - Downtown'. The location is always one of the four clinics, and it is the default clinic exactly for an unknown doctor or Dr. Sarah Chen |
| Booking.OfferedDoctorsHaveOwnClinics | streamlit_app.py:629 | Every doctor in the picker is in the location map, and no two of them share a clinic |
| Booking.DurationFor | streamlit_app.py:615-616 | The duration is 60 or 30. It is 60 exactly when the patient type is 'New' or missing |
| Booking.TypeLabel | streamlit_app.py:368 | The label is 'New Patient' or 'Follow-up'. It is 'New Patient' exactly when the duration is 60 |
| Booking.LabelMatchesPatientType | streamlit_app.py:368 | The booking label, read back from the chosen duration, is 'New Patient' exactly for a new or untyped patient, and 'Follow-up' otherwise |
| Booking.AppointmentId | streamlit_app.py:350 | The id is 8 characters: 'APT' followed by five digits |
| Booking.AppointmentIdRoundTrip | streamlit_app.py:350 | Parsing the id gives back the random number it was made from |
| Booking.AppointmentIdInjective | streamlit_app.py:350 | Two ids are equal exactly when their random numbers are |
| Booking.BookAppointment | streamlit_app.py:348-376 | Status is 'Confirmed'. The id encodes n. Doctor, date, time and duration are copied. Location comes from the map, else the default clinic. The label is 'New Patient' when the duration is 60 and 'Follow-up' otherwise. patient_id, insurance, name, phone and email are the patient's values when present, and otherwise 'NEW', 'Not provided', first + ' ' + last, '' and '' |
| Workflow.NewPatientData | streamlit_app.py:578-588 | The new-patient dict has id 'NEW', type 'New', the typed first and last names, full name first + ' ' + last, the typed dob, phone and email, and no insurance, member id or group number |
| Workflow.IntakePatient | streamlit_app.py:554-589 | A patient is taken in exactly when first name, last name, phone and email are non-empty. The current patient is the searched record when the search returns one (whatever its flag), otherwise the new-patient dict |
| Workflow.IntakeWithNamesake | streamlit_app.py:556-559 | With a namesake in the table, the current patient is one of the namesakes' records |
| Workflow.IntakeNewExactlyWithoutNamesake | streamlit_app.py:556-589 | The current patient is the new-patient dict exactly when nobody in the table bears the name |
| Workflow.IntakeWithoutNamesake | streamlit_app.py:576-589 | With no namesake, the current patient is the new-patient dict (id 'NEW', type 'New') |
| Workflow.IntakeAmbiguousTakesFirstNamesake | streamlit_app.py:556-559 | The found flag is ignored: with an ambiguous match the first namesake becomes the current patient, although the search says not found |
| Workflow.WithInsurance | streamlit_app.py:674-678 | The three insurance fields take the form values and every other field is unchanged |
| Workflow.ConfirmAppointment | streamlit_app.py:615-687 | The booking lasts 60 minutes and is labelled 'New Patient' exactly for a new or untyped patient, and lasts 30 minutes labelled 'Follow-up' otherwise. Insurance is the form value |
| Workflow.NewPatientBookedForAnHour | streamlit_app.py:554-616 | Someone with no namesake is booked for 60 minutes as 'New Patient' with id 'NEW', under the name typed in |
| Calendar.WeekdayAfter | streamlit_app.py:636-637 | `weekday()` of today + offset lies in 0..6, a multiple of seven days gives back today's weekday, and seven more days give the same weekday |
| Calendar.WeekdayAfterNextDay | streamlit_app.py:636-637 | Each following day the weekday advances by one, Sunday wrapping to Monday |
| Calendar.WeekHoldsFiveWorkdays | streamlit_app.py:635-637 | Any seven consecutive days hold exactly five Monday-to-Friday days |
| Calendar.CandidateDates | streamlit_app.py:634-638 | The offered dates are strictly increasing. They contain exactly the days today+1..today+7 that fall Monday to Friday, and there are exactly 5 of them |
| Calendar.TimeSlotsAreMorningOrLater | streamlit_app.py:643 | Every offered time slot is a valid HH:MM clock time at 09:00 or later |
| Calendar.DateOf | streamlit_app.py:817 | The date shown for an instant is the day whose midnight-to-midnight span contains it |
| Calendar.RemindersAsWritten | streamlit_app.py:806-808 | The reminders as computed fall in order before midnight of the appointment date: on day−3, day−1, and at 20:00 of day−1 |
| Calendar.FinalReminderAsWrittenIsEarly | streamlit_app.py:808 | For an appointment after midnight, the final reminder as computed comes 4 hours plus the start time early, never exactly 4 hours |
| Calendar.FinalReminderAsWrittenNineOClock | streamlit_app.py:808 | For the 09:00 slot, the "4 hours before" reminder fires 13 hours before the start |
| Calendar.Reminders | streamlit_app.py:806-808 | The intended reminders come in order before the start, on the same dates as the page shows for the first two. The final one is on the appointment day when the start is 04:00 or later |
| Calendar.ReminderScheduleForSlots | streamlit_app.py:806-808 | For every offered slot, the reminders are exactly 72, 24 and 4 hours before the start, and the first two share the page's dates. The final one falls on the appointment day, where the page puts it on the day before |

## Findings

| source | as written | input that shows it | evidently intended | confidence | as-written member | corrected member |
|---|---|---|---|---|---|---|
| streamlit_app.py:791-808 | The final reminder is `appointment_date - 4h`, where `appointment_date` is midnight of the booked date (the booked time is not used when the reminder instants are computed; it appears only in the message text) | An appointment on any date at 09:00: the "4 hours before" reminder is scheduled for 20:00 the previous evening, 13 hours before | 4 hours before the appointment's start time, as the card's "4 hours before" text and the message "is in 4 hours" say | high (not executed) | Calendar.FinalReminderAsWrittenNineOClock | Calendar.ReminderScheduleForSlots |

The two day-granular reminders (−3 days, −1 day) are shown only as dates. So
the corrected schedule in `Calendar.Reminders` agrees with the page on them.

## Left out

- Rendering, CSS and HTML, forms, buttons, reruns, balloons and downloads: all presentation.
- The greeting → scheduling → confirmation → reminders step sequence: it is
  session-state wiring. Only the pure decisions inside the steps are modelled.
- Loading the patient CSV and the schedule spreadsheet: file I/O. The table is
  an input sequence. The schedule is loaded but never used.
- Missing cells (pandas NaN) in the patient table: every column is taken to hold a string.
- The clock is read once: the date loop calls `datetime.now()` on each of its seven passes (streamlit_app.py:636). A run that crosses midnight mid-loop is not modelled; one `today` is used for every pass.
- Unicode case folding: `str.lower()` is modelled on ASCII letters only.
- Date and timestamp formatting (`strftime`), and parsing the booked date
  string: dates are day numbers. The booking timestamp is an opaque string parameter.
- The reminder records' fixed ids and labels, and their message strings formatted from the appointment's name, doctor, date and time (streamlit_app.py:871-904): text formatting.
- The time-slot picker has no availability computation, booking ledger,
  overlap check or cancellation in this source. None is modelled.
- pages/home.py (a network fetch plus static text), pages/doctors.py (a static
  card list) and pages/booking.py (a dict build and a random doctor pick).
