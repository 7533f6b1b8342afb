/** The pure part of the page's intake and scheduling steps: choosing the
    current patient from the search result, deriving the appointment length,
    merging the insurance form and building the booking. */
module Workflow {
  import opened Wrappers
  import opened Patients
  import opened Lookup
  import opened Booking

  /** The dict built for a patient the search did not return. */
  function NewPatientData(first: string, last: string, dobText: string, phone: string, email: string): (p: PatientData)
    ensures p.patientId == Some("NEW") && p.patientType == Some("New")
    ensures p.firstName == Some(first) && p.lastName == Some(last)
    ensures p.fullName == Some(first + " " + last)
    ensures p.dateOfBirth == Some(dobText)
    ensures p.phone == Some(phone) && p.email == Some(email)
    ensures p.insuranceCompany.None? && p.memberId.None? && p.groupNumber.None?
  {
    PatientData(
      patientId := Some("NEW"),
      firstName := Some(first),
      lastName := Some(last),
      fullName := Some(first + " " + last),
      dateOfBirth := Some(dobText),
      phone := Some(phone),
      email := Some(email),
      patientType := Some("New"),
      insuranceCompany := None,
      memberId := None,
      groupNumber := None)
  }

  /** The intake form: it is accepted only when first name, last name, phone
      and email are non-empty; then the search result becomes the current
      patient if there is one (whatever its found flag), otherwise a new
      patient is made from the form. */
  function IntakePatient(table: seq<PatientRecord>, first: string, last: string,
                         dobText: string, phone: string, email: string): (p: Option<PatientData>)
    ensures p.Some? <==> first != "" && last != "" && phone != "" && email != ""
    ensures p.Some? ==> p.value.patientType.Some? && p.value.patientId.Some?
    ensures p.Some? ==>
              var found := SearchPatient(table, first, last, Some(dobText), Some(phone)).0;
              && (found.Some? ==> p.value == FromRecord(found.value))
              && (found.None? ==> p.value == NewPatientData(first, last, dobText, phone, email))
  {
    if first == "" || last == "" || phone == "" || email == "" then None
    else
      var (record, _) := SearchPatient(table, first, last, Some(dobText), Some(phone));
      if record.Some? then Some(FromRecord(record.value))
      else Some(NewPatientData(first, last, dobText, phone, email))
  }

  /** A patient with no namesake in the table is taken in as a new patient. */
  lemma IntakeWithoutNamesake(table: seq<PatientRecord>, first: string, last: string,
                              dobText: string, phone: string, email: string)
    requires first != "" && last != "" && phone != "" && email != ""
    requires NoHit(table, NameCriteria(first, last))
    ensures IntakePatient(table, first, last, dobText, phone, email)
            == Some(NewPatientData(first, last, dobText, phone, email))
  {
    SearchNoName(table, first, last, Some(dobText), Some(phone));
  }

  /** A patient with a namesake in the table is taken in as one of the
      namesakes' records, whichever branch of the search picked it. */
  lemma IntakeWithNamesake(table: seq<PatientRecord>, first: string, last: string,
                           dobText: string, phone: string, email: string)
    requires first != "" && last != "" && phone != "" && email != ""
    requires !NoHit(table, NameCriteria(first, last))
    ensures exists i :: && 0 <= i < |table| && NameMatches(table[i], first, last)
                        && IntakePatient(table, first, last, dobText, phone, email) == Some(FromRecord(table[i]))
  {
    SearchOutcome(table, first, last, Some(dobText), Some(phone));
    var r := SearchPatient(table, first, last, Some(dobText), Some(phone)).0.value;
    var i :| 0 <= i < |table| && table[i] == r;
  }

  /** The form becomes the new-patient record exactly when nobody in the
      table bears the name (a table record always carries member id and
      group number, which the new-patient record lacks). */
  lemma IntakeNewExactlyWithoutNamesake(table: seq<PatientRecord>, first: string, last: string,
                                        dobText: string, phone: string, email: string)
    requires first != "" && last != "" && phone != "" && email != ""
    ensures IntakePatient(table, first, last, dobText, phone, email)
              == Some(NewPatientData(first, last, dobText, phone, email))
            <==> NoHit(table, NameCriteria(first, last))
  {
    if NoHit(table, NameCriteria(first, last)) {
      IntakeWithoutNamesake(table, first, last, dobText, phone, email);
    } else {
      IntakeWithNamesake(table, first, last, dobText, phone, email);
    }
  }

  /** The found flag is not consulted: when several namesakes exist and
      neither the date of birth nor the phone singles one out, the first
      namesake still becomes the current patient. */
  lemma IntakeAmbiguousTakesFirstNamesake(table: seq<PatientRecord>, first: string, last: string,
                                          dobText: string, phone: string, email: string, i: int)
    requires first != "" && last != "" && phone != "" && email != ""
    requires SeveralHits(table, NameCriteria(first, last))
    requires !DobDecides(table, first, last, Some(dobText))
    requires !PhoneDecides(table, first, last, Some(phone))
    requires FirstHit(table, NameCriteria(first, last), i)
    ensures SearchPatient(table, first, last, Some(dobText), Some(phone)).1 == false
    ensures IntakePatient(table, first, last, dobText, phone, email) == Some(FromRecord(table[i]))
  {
    SearchAmbiguous(table, first, last, Some(dobText), Some(phone), i);
  }

  /** `current_patient.update(...)` with the three insurance form fields. */
  function WithInsurance(p: PatientData, company: string, memberId: string, group: string): (q: PatientData)
    ensures q.insuranceCompany == Some(company) && q.memberId == Some(memberId) && q.groupNumber == Some(group)
    ensures q.patientId == p.patientId && q.patientType == p.patientType && q.fullName == p.fullName
    ensures q.firstName == p.firstName && q.lastName == p.lastName
    ensures q.phone == p.phone && q.email == p.email && q.dateOfBirth == p.dateOfBirth
  {
    p.(insuranceCompany := Some(company), memberId := Some(memberId), groupNumber := Some(group))
  }

  /** The "Confirm Appointment" action: merge the insurance fields, take the
      duration from the patient type and book. */
  function ConfirmAppointment(current: PatientData, doctor: string, date: string, time: string,
                              company: string, memberId: string, group: string,
                              n: int, now: string): (a: Appointment)
    requires IdNumber(n)
    ensures a.status == "Confirmed" && ParseAppointmentId(a.appointmentId) == Some(n)
    ensures a.duration == 60 <==> current.patientType.GetOr("New") == "New"
    ensures a.duration == 30 <==> current.patientType.GetOr("New") != "New"
    ensures a.patientType == "New Patient" <==> current.patientType.GetOr("New") == "New"
    ensures a.patientType == "Follow-up" <==> current.patientType.GetOr("New") != "New"
    ensures a.insurance == company
    ensures a.doctor == doctor && a.date == date && a.time == time
  {
    BookAppointment(WithInsurance(current, company, memberId, group), doctor, date, time,
                    DurationFor(current.patientType), n, now)
  }

  /** End to end: someone with no namesake in the table is booked for a
      60-minute new-patient visit under id `NEW` and the name typed in. */
  lemma NewPatientBookedForAnHour(table: seq<PatientRecord>, first: string, last: string,
                                  dobText: string, phone: string, email: string,
                                  doctor: string, date: string, time: string,
                                  company: string, memberId: string, group: string,
                                  n: int, now: string)
    requires first != "" && last != "" && phone != "" && email != ""
    requires NoHit(table, NameCriteria(first, last))
    requires IdNumber(n)
    ensures var p := IntakePatient(table, first, last, dobText, phone, email);
            && p.Some?
            && var a := ConfirmAppointment(p.value, doctor, date, time, company, memberId, group, n, now);
            && a.duration == 60 && a.patientType == "New Patient"
            && a.patientId == "NEW" && a.patientName == first + " " + last
            && a.phone == phone && a.email == email
  {
    IntakeWithoutNamesake(table, first, last, dobText, phone, email);
  }
}
