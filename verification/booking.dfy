/** `AISchedulingAgent.book_appointment` and the duration rule of the
    scheduling step: how an appointment confirmation record is derived from
    the current patient and the chosen doctor, date, time and duration. */
module Booking {
  import opened Wrappers
  import opened Decimal
  import opened Patients

  /** The confirmation record handed back to the page (a dict in the source). */
  datatype Appointment = Appointment(
    appointmentId: string,
    patientName: string,
    patientId: string,
    doctor: string,
    date: string,
    time: string,
    duration: int,
    location: string,
    patientType: string,
    status: string,
    bookingTime: string,
    phone: string,
    email: string,
    insurance: string)

  const DefaultLocation := "Main Clinic - Downtown"

  /** The clinic of each of the four doctors. */
  const Locations: map<string, string> := map[
    "Dr. Sarah Chen" := "Main Clinic - Downtown",
    "Dr. Michael Rodriguez" := "North Branch",
    "Dr. Emily Johnson" := "South Branch",
    "Dr. Robert Kim" := "West Side Clinic"]

  const Clinics: set<string> := {"Main Clinic - Downtown", "North Branch", "South Branch", "West Side Clinic"}

  /** `location_map.get(doctor, 'Main Clinic - Downtown')` */
  function LocationFor(doctor: string): (loc: string)
    ensures doctor in Locations ==> loc == Locations[doctor]
    ensures doctor !in Locations ==> loc == DefaultLocation
    ensures loc in Clinics
    ensures loc == DefaultLocation <==> doctor !in Locations || doctor == "Dr. Sarah Chen"
  {
    if doctor in Locations then Locations[doctor] else DefaultLocation
  }

  /** The doctors offered in the doctor picker. */
  const Doctors: seq<string> := ["Dr. Sarah Chen", "Dr. Michael Rodriguez", "Dr. Emily Johnson", "Dr. Robert Kim"]

  /** Every offered doctor has an entry in the location map, and no two of
      them share a clinic, so the booking's location tells the doctor apart. */
  lemma OfferedDoctorsHaveOwnClinics()
    ensures forall d :: d in Doctors ==> d in Locations
    ensures forall i, j :: 0 <= i < j < |Doctors| ==> LocationFor(Doctors[i]) != LocationFor(Doctors[j])
  {
  }

  /** Minutes booked for a patient type: `60 if patient_type == 'New' else 30`,
      where a missing type counts as `'New'`. */
  function DurationFor(patientType: Option<string>): (minutes: int)
    ensures minutes == 60 || minutes == 30
    ensures minutes == 60 <==> patientType.GetOr("New") == "New"
  {
    if patientType.GetOr("New") == "New" then 60 else 30
  }

  /** The patient-type label written into the booking, read back from the duration. */
  function TypeLabel(duration: int): (tag: string)
    ensures tag == "New Patient" || tag == "Follow-up"
    ensures tag == "New Patient" <==> duration == 60
  {
    if duration == 60 then "New Patient" else "Follow-up"
  }

  /** The label recovers the patient type that chose the duration. */
  lemma LabelMatchesPatientType(patientType: Option<string>)
    ensures TypeLabel(DurationFor(patientType)) == "New Patient" <==> patientType.GetOr("New") == "New"
    ensures TypeLabel(DurationFor(patientType)) == "Follow-up" <==> patientType.GetOr("New") != "New"
  {
  }

  /** Bounds of `random.randint(10000, 99999)`, both inclusive. */
  predicate IdNumber(n: int) {
    10000 <= n <= 99999
  }

  /** `f"APT{n}"` */
  function AppointmentId(n: int): (id: string)
    requires IdNumber(n)
    ensures |id| == 8 && id[..3] == "APT" && AllDigits(id[3..])
  {
    assert Pow10(4) == 10000 && Pow10(5) == 100000;
    FromNatLength(n, 5);
    "APT" + FromNat(n)
  }

  /** Reads the number back out of an appointment id. */
  function ParseAppointmentId(id: string): Option<int> {
    if |id| == 8 && id[..3] == "APT" && AllDigits(id[3..]) then Some(ToNat(id[3..])) else None
  }

  /** The id carries its number: parsing it gives back the random draw. */
  lemma AppointmentIdRoundTrip(n: int)
    requires IdNumber(n)
    ensures ParseAppointmentId(AppointmentId(n)) == Some(n)
  {
    var id := AppointmentId(n);
    assert id[3..] == FromNat(n);
    ToNatFromNat(n);
  }

  /** Different draws give different ids. */
  lemma AppointmentIdInjective(n: int, m: int)
    requires IdNumber(n) && IdNumber(m)
    ensures AppointmentId(n) == AppointmentId(m) <==> n == m
  {
    AppointmentIdRoundTrip(n);
    AppointmentIdRoundTrip(m);
  }

  /** The name on the booking: `full_name`, else `first_name + ' ' + last_name`
      with `''` for a missing part. */
  function PatientName(p: PatientData): string {
    p.fullName.GetOr(p.firstName.GetOr("") + " " + p.lastName.GetOr(""))
  }

  /** Builds the confirmation record; `n` is the random draw for the id and
      `now` the formatted booking timestamp. */
  function BookAppointment(p: PatientData, doctor: string, date: string, time: string,
                           duration: int, n: int, now: string): (a: Appointment)
    requires IdNumber(n)
    ensures a.status == "Confirmed"
    ensures ParseAppointmentId(a.appointmentId) == Some(n)
    ensures a.doctor == doctor && a.date == date && a.time == time && a.duration == duration
    ensures a.location in Clinics
    ensures doctor in Locations ==> a.location == Locations[doctor]
    ensures doctor !in Locations ==> a.location == DefaultLocation
    ensures a.patientType == "New Patient" <==> duration == 60
    ensures duration != 60 ==> a.patientType == "Follow-up"
    ensures p.patientId.Some? ==> a.patientId == p.patientId.value
    ensures p.patientId.None? ==> a.patientId == "NEW"
    ensures p.insuranceCompany.Some? ==> a.insurance == p.insuranceCompany.value
    ensures p.insuranceCompany.None? ==> a.insurance == "Not provided"
    ensures p.fullName.Some? ==> a.patientName == p.fullName.value
    ensures p.fullName.None? ==> a.patientName == p.firstName.GetOr("") + " " + p.lastName.GetOr("")
    ensures p.phone.Some? ==> a.phone == p.phone.value
    ensures p.phone.None? ==> a.phone == ""
    ensures p.email.Some? ==> a.email == p.email.value
    ensures p.email.None? ==> a.email == ""
    ensures a.bookingTime == now
  {
    AppointmentIdRoundTrip(n);
    Appointment(
      appointmentId := AppointmentId(n),
      patientName := PatientName(p),
      patientId := p.patientId.GetOr("NEW"),
      doctor := doctor,
      date := date,
      time := time,
      duration := duration,
      location := LocationFor(doctor),
      patientType := TypeLabel(duration),
      status := "Confirmed",
      bookingTime := now,
      phone := p.phone.GetOr(""),
      email := p.email.GetOr(""),
      insurance := p.insuranceCompany.GetOr("Not provided"))
  }
}
