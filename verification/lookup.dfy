/** `AISchedulingAgent.search_patient`: find a patient by name in the patient
    table, breaking ties between namesakes by date of birth, then by phone. */
module Lookup {
  import opened Wrappers
  import opened Ascii
  import opened Patients

  /** Python truthiness of an optional string argument: neither `None` nor `""`. */
  predicate Given(o: Option<string>) {
    o.Some? && o.value != ""
  }

  predicate NameMatches(r: PatientRecord, first: string, last: string) {
    EqualsIgnoringCase(r.firstName, first) && EqualsIgnoringCase(r.lastName, last)
  }

  /** The name mask: a row meets it exactly when both its first and last
      names equal the query's, ignoring case. */
  function NameCriteria(first: string, last: string): (cs: seq<Criterion>)
    ensures forall r :: MeetsAll(cs, r) <==> NameMatches(r, first, last)
  {
    var cs := [FirstNameIs(first), LastNameIs(last)];
    assert FirstNameIs(first) in cs && LastNameIs(last) in cs;
    cs
  }

  /** The date-of-birth tie-break, present only when a date of birth is given. */
  function DobTieBreak(dob: Option<string>): Option<Criterion> {
    if Given(dob) then Some(BornOn(dob.value)) else None
  }

  /** The phone tie-break, present only when a phone is given. */
  function PhoneTieBreak(phone: Option<string>): Option<Criterion> {
    if Given(phone) then Some(PhoneIs(phone.value)) else None
  }

  /** The namesakes meeting a tie-break condition (none when it is absent). */
  function Narrow(nameMatches: seq<PatientRecord>, extra: Option<Criterion>): seq<PatientRecord> {
    if extra.Some? then Select(nameMatches, [extra.value]) else []
  }

  /** Pick from the namesakes (in table order): a lone namesake is found;
      among several, a unique date-of-birth match, else a unique phone match,
      is found; otherwise the first namesake is returned as not found. */
  function Decide(nameMatches: seq<PatientRecord>, dob: Option<string>, phone: Option<string>)
    : (r: (Option<PatientRecord>, bool))
    ensures r.1 ==> r.0.Some?
    ensures r.0.Some? ==> r.0.value in nameMatches
    ensures r.0.None? <==> |nameMatches| == 0
  {
    var byDob := Narrow(nameMatches, DobTieBreak(dob));
    var byPhone := Narrow(nameMatches, PhoneTieBreak(phone));
    if |nameMatches| == 1 then (Some(nameMatches[0]), true)
    else if |nameMatches| > 1 then
      if |byDob| == 1 then (Some(byDob[0]), true)
      else if |byPhone| == 1 then (Some(byPhone[0]), true)
      else (Some(nameMatches[0]), false)
    else (None, false)
  }

  /** The search: the record found (if any) and whether it was identified
      unambiguously. */
  function SearchPatient(table: seq<PatientRecord>, first: string, last: string,
                         dob: Option<string>, phone: Option<string>): (r: (Option<PatientRecord>, bool))
    ensures |table| == 0 ==> r == (None, false)
    ensures r.1 ==> r.0.Some?
    ensures r.0.Some? ==> r.0.value in table && NameMatches(r.0.value, first, last)
  {
    if |table| == 0 then (None, false)
    else Decide(Select(table, NameCriteria(first, last)), dob, phone)
  }

  // The conditions that make a namesake the unique date-of-birth or phone match.

  function DobCriteria(first: string, last: string, dob: Option<string>): seq<Criterion>
    requires dob.Some?
  {
    NameCriteria(first, last) + [BornOn(dob.value)]
  }

  function PhoneCriteria(first: string, last: string, phone: Option<string>): seq<Criterion>
    requires phone.Some?
  {
    NameCriteria(first, last) + [PhoneIs(phone.value)]
  }

  /** Some single row meets all of `cs`. */
  ghost predicate Decisive(table: seq<PatientRecord>, cs: seq<Criterion>) {
    exists k :: UniqueHit(table, cs, k)
  }

  ghost predicate DobDecides(table: seq<PatientRecord>, first: string, last: string, dob: Option<string>) {
    Given(dob) && Decisive(table, DobCriteria(first, last, dob))
  }

  ghost predicate PhoneDecides(table: seq<PatientRecord>, first: string, last: string, phone: Option<string>) {
    Given(phone) && Decisive(table, PhoneCriteria(first, last, phone))
  }

  /** A tie-break on the namesakes is unique exactly when one table row meets
      the names and the tie-break condition, and then it is that row. */
  lemma NarrowCount(table: seq<PatientRecord>, first: string, last: string, extra: Option<Criterion>)
    ensures |Narrow(Select(table, NameCriteria(first, last)), extra)| == 1
            <==> extra.Some? && Decisive(table, NameCriteria(first, last) + [extra.value])
  {
    if extra.Some? {
      SelectTwice(table, NameCriteria(first, last), [extra.value]);
      SelectCount(table, NameCriteria(first, last) + [extra.value]);
    }
  }

  lemma NarrowValue(table: seq<PatientRecord>, first: string, last: string, extra: Option<Criterion>, i: int)
    requires extra.Some? && UniqueHit(table, NameCriteria(first, last) + [extra.value], i)
    ensures Narrow(Select(table, NameCriteria(first, last)), extra) == [table[i]]
  {
    SelectTwice(table, NameCriteria(first, last), [extra.value]);
    SelectUnique(table, NameCriteria(first, last) + [extra.value], i);
  }

  /** One namesake in the table: it is returned as found, whatever the date
      of birth and phone say. */
  lemma SearchUniqueName(table: seq<PatientRecord>, first: string, last: string,
                         dob: Option<string>, phone: Option<string>, i: int)
    requires UniqueHit(table, NameCriteria(first, last), i)
    ensures SearchPatient(table, first, last, dob, phone) == (Some(table[i]), true)
  {
    SelectUnique(table, NameCriteria(first, last), i);
  }

  /** Several namesakes, one of them with the given date of birth: that one
      is returned as found (the phone is not consulted). */
  lemma SearchDobTieBreak(table: seq<PatientRecord>, first: string, last: string,
                          dob: Option<string>, phone: Option<string>, i: int)
    requires SeveralHits(table, NameCriteria(first, last))
    requires Given(dob) && UniqueHit(table, DobCriteria(first, last, dob), i)
    ensures SearchPatient(table, first, last, dob, phone) == (Some(table[i]), true)
  {
    var names := Select(table, NameCriteria(first, last));
    SelectCount(table, NameCriteria(first, last));
    NarrowValue(table, first, last, DobTieBreak(dob), i);
    assert |names| >= 2 && Narrow(names, DobTieBreak(dob)) == [table[i]];
  }

  /** Several namesakes, the date of birth does not single one out, and one of
      them has the given phone: that one is returned as found. */
  lemma SearchPhoneTieBreak(table: seq<PatientRecord>, first: string, last: string,
                            dob: Option<string>, phone: Option<string>, i: int)
    requires SeveralHits(table, NameCriteria(first, last))
    requires !DobDecides(table, first, last, dob)
    requires Given(phone) && UniqueHit(table, PhoneCriteria(first, last, phone), i)
    ensures SearchPatient(table, first, last, dob, phone) == (Some(table[i]), true)
  {
    var names := Select(table, NameCriteria(first, last));
    SelectCount(table, NameCriteria(first, last));
    NarrowCount(table, first, last, DobTieBreak(dob));
    if Given(dob) {
      assert DobCriteria(first, last, dob) == NameCriteria(first, last) + [DobTieBreak(dob).value];
    }
    NarrowValue(table, first, last, PhoneTieBreak(phone), i);
    assert |names| >= 2 && |Narrow(names, DobTieBreak(dob))| != 1;
    assert Narrow(names, PhoneTieBreak(phone)) == [table[i]];
  }

  /** Several namesakes and neither tie-break is unique: the first namesake in
      table order is returned, flagged as not found. */
  lemma SearchAmbiguous(table: seq<PatientRecord>, first: string, last: string,
                        dob: Option<string>, phone: Option<string>, i: int)
    requires SeveralHits(table, NameCriteria(first, last))
    requires !DobDecides(table, first, last, dob) && !PhoneDecides(table, first, last, phone)
    requires FirstHit(table, NameCriteria(first, last), i)
    ensures SearchPatient(table, first, last, dob, phone) == (Some(table[i]), false)
  {
    var names := Select(table, NameCriteria(first, last));
    SelectCount(table, NameCriteria(first, last));
    SelectHead(table, NameCriteria(first, last), i);
    NarrowCount(table, first, last, DobTieBreak(dob));
    NarrowCount(table, first, last, PhoneTieBreak(phone));
    if Given(dob) {
      assert DobCriteria(first, last, dob) == NameCriteria(first, last) + [DobTieBreak(dob).value];
    }
    if Given(phone) {
      assert PhoneCriteria(first, last, phone) == NameCriteria(first, last) + [PhoneTieBreak(phone).value];
    }
    assert |names| >= 2 && names[0] == table[i];
    assert |Narrow(names, DobTieBreak(dob))| != 1 && |Narrow(names, PhoneTieBreak(phone))| != 1;
  }

  /** No namesake (including an empty table): nothing is returned. */
  lemma SearchNoName(table: seq<PatientRecord>, first: string, last: string,
                     dob: Option<string>, phone: Option<string>)
    requires NoHit(table, NameCriteria(first, last))
    ensures SearchPatient(table, first, last, dob, phone) == (None, false)
  {
    SelectCount(table, NameCriteria(first, last));
  }

  /** A record comes back exactly when some row matches the names, and it is
      flagged as found exactly when the name, the date of birth or the phone
      singles out one row. */
  lemma SearchOutcome(table: seq<PatientRecord>, first: string, last: string,
                      dob: Option<string>, phone: Option<string>)
    ensures SearchPatient(table, first, last, dob, phone).0.Some?
            <==> !NoHit(table, NameCriteria(first, last))
    ensures SearchPatient(table, first, last, dob, phone).1
            <==> || Decisive(table, NameCriteria(first, last))
                 || (SeveralHits(table, NameCriteria(first, last)) && DobDecides(table, first, last, dob))
                 || (SeveralHits(table, NameCriteria(first, last)) && PhoneDecides(table, first, last, phone))
  {
    var names := Select(table, NameCriteria(first, last));
    SelectCount(table, NameCriteria(first, last));
    NarrowCount(table, first, last, DobTieBreak(dob));
    NarrowCount(table, first, last, PhoneTieBreak(phone));
    if Given(dob) {
      assert DobCriteria(first, last, dob) == NameCriteria(first, last) + [DobTieBreak(dob).value];
    }
    if Given(phone) {
      assert PhoneCriteria(first, last, phone) == NameCriteria(first, last) + [PhoneTieBreak(phone).value];
    }
    assert DobDecides(table, first, last, dob) <==> |Narrow(names, DobTieBreak(dob))| == 1;
    assert PhoneDecides(table, first, last, phone) <==> |Narrow(names, PhoneTieBreak(phone))| == 1;
  }

  /** Several namesakes and neither tie-break unique: the earliest namesake in
      table order comes back, flagged as not found. */
  lemma SearchAmbiguousEarliest(table: seq<PatientRecord>, first: string, last: string,
                                dob: Option<string>, phone: Option<string>)
    requires SeveralHits(table, NameCriteria(first, last))
    requires !DobDecides(table, first, last, dob) && !PhoneDecides(table, first, last, phone)
    ensures exists i :: FirstHit(table, NameCriteria(first, last), i)
                        && SearchPatient(table, first, last, dob, phone) == (Some(table[i]), false)
  {
    SelectCount(table, NameCriteria(first, last));
    FirstHitExists(table, NameCriteria(first, last));
    var i :| FirstHit(table, NameCriteria(first, last), i);
    SearchAmbiguous(table, first, last, dob, phone, i);
  }

  /** Only the lowered query names matter: typing them in any ASCII case
      gives the same search result. */
  lemma SearchIgnoresQueryCase(table: seq<PatientRecord>, first: string, last: string,
                               dob: Option<string>, phone: Option<string>)
    ensures SearchPatient(table, LowerString(first), LowerString(last), dob, phone)
            == SearchPatient(table, first, last, dob, phone)
  {
    var lowered := NameCriteria(LowerString(first), LowerString(last));
    var typed := NameCriteria(first, last);
    LowerStringIdempotent(first);
    LowerStringIdempotent(last);
    forall r ensures MeetsAll(lowered, r) <==> MeetsAll(typed, r) {
      assert NameMatches(r, LowerString(first), LowerString(last)) <==> NameMatches(r, first, last);
    }
    SelectEquivalent(table, lowered, typed);
  }
}
