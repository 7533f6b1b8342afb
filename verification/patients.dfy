/** Patient records and the row filters that the lookup applies to the
    patient table (pandas boolean indexing, which keeps table order). */
module Patients {
  import opened Wrappers
  import opened Ascii

  /** One row of the patient table, every column present. */
  datatype PatientRecord = PatientRecord(
    patientId: string,
    firstName: string,
    lastName: string,
    fullName: string,
    dateOfBirth: string,
    phone: string,
    email: string,
    patientType: string,
    insuranceCompany: string,
    memberId: string,
    groupNumber: string)

  /** The dictionary describing the current patient: a table row turned into
      a dict, or the dict built for a new patient. A key may be absent. */
  datatype PatientData = PatientData(
    patientId: Option<string>,
    firstName: Option<string>,
    lastName: Option<string>,
    fullName: Option<string>,
    dateOfBirth: Option<string>,
    phone: Option<string>,
    email: Option<string>,
    patientType: Option<string>,
    insuranceCompany: Option<string>,
    memberId: Option<string>,
    groupNumber: Option<string>)

  /** `row.to_dict()`: every column becomes a key. */
  function FromRecord(r: PatientRecord): (p: PatientData)
    ensures p.patientId == Some(r.patientId) && p.patientType == Some(r.patientType)
    ensures p.firstName == Some(r.firstName) && p.lastName == Some(r.lastName)
    ensures p.fullName == Some(r.fullName) && p.dateOfBirth == Some(r.dateOfBirth)
    ensures p.phone == Some(r.phone) && p.email == Some(r.email)
    ensures p.insuranceCompany == Some(r.insuranceCompany)
    ensures p.memberId == Some(r.memberId) && p.groupNumber == Some(r.groupNumber)
  {
    PatientData(Some(r.patientId), Some(r.firstName), Some(r.lastName), Some(r.fullName),
                Some(r.dateOfBirth), Some(r.phone), Some(r.email), Some(r.patientType),
                Some(r.insuranceCompany), Some(r.memberId), Some(r.groupNumber))
  }

  /** One column condition of the lookup. */
  datatype Criterion =
    | FirstNameIs(first: string)   // first_name.str.lower() == first.lower()
    | LastNameIs(last: string)     // last_name.str.lower() == last.lower()
    | BornOn(dob: string)          // date_of_birth == dob
    | PhoneIs(phone: string)       // phone column == the phone argument

  predicate Holds(c: Criterion, r: PatientRecord) {
    match c
    case FirstNameIs(f) => EqualsIgnoringCase(r.firstName, f)
    case LastNameIs(l) => EqualsIgnoringCase(r.lastName, l)
    case BornOn(d) => r.dateOfBirth == d
    case PhoneIs(p) => r.phone == p
  }

  /** The conjunction of the conditions `cs` (the `&` of boolean masks). */
  predicate MeetsAll(cs: seq<Criterion>, r: PatientRecord) {
    forall c :: c in cs ==> Holds(c, r)
  }

  /** `rows[mask]`: the rows meeting every condition, in their table order. */
  function Select(rows: seq<PatientRecord>, cs: seq<Criterion>): (sel: seq<PatientRecord>)
    ensures |sel| <= |rows|
    ensures forall r :: r in sel ==> r in rows && MeetsAll(cs, r)
    ensures forall i :: 0 <= i < |rows| && MeetsAll(cs, rows[i]) ==> rows[i] in sel
  {
    if |rows| == 0 then []
    else if MeetsAll(cs, rows[0]) then [rows[0]] + Select(rows[1..], cs)
    else Select(rows[1..], cs)
  }

  // Index-level descriptions of which rows meet a set of conditions.

  predicate NoHit(rows: seq<PatientRecord>, cs: seq<Criterion>) {
    forall i :: 0 <= i < |rows| ==> !MeetsAll(cs, rows[i])
  }

  /** Row `i` is the only row meeting `cs`. */
  predicate UniqueHit(rows: seq<PatientRecord>, cs: seq<Criterion>, i: int) {
    && 0 <= i < |rows|
    && MeetsAll(cs, rows[i])
    && forall j :: 0 <= j < |rows| && j != i ==> !MeetsAll(cs, rows[j])
  }

  /** At least two different rows meet `cs`. */
  predicate SeveralHits(rows: seq<PatientRecord>, cs: seq<Criterion>) {
    exists i, j :: 0 <= i < j < |rows| && MeetsAll(cs, rows[i]) && MeetsAll(cs, rows[j])
  }

  /** Row `i` is the earliest row meeting `cs`. */
  predicate FirstHit(rows: seq<PatientRecord>, cs: seq<Criterion>, i: int) {
    && 0 <= i < |rows|
    && MeetsAll(cs, rows[i])
    && forall j :: 0 <= j < i ==> !MeetsAll(cs, rows[j])
  }

  /** The size of a selection tells how many rows met the conditions:
      none, exactly one, or at least two. */
  lemma {:induction false} SelectCount(rows: seq<PatientRecord>, cs: seq<Criterion>)
    ensures |Select(rows, cs)| == 0 <==> NoHit(rows, cs)
    ensures |Select(rows, cs)| == 1 <==> exists i :: UniqueHit(rows, cs, i)
    ensures |Select(rows, cs)| >= 2 <==> SeveralHits(rows, cs)
  {
    if |rows| > 0 {
      var t := rows[1..];
      SelectCount(t, cs);
      var n := |Select(rows, cs)|;
      if MeetsAll(cs, rows[0]) {
        assert !NoHit(rows, cs);
        if NoHit(t, cs) {
          assert n == 1;
          assert UniqueHit(rows, cs, 0) by {
            forall j | 0 < j < |rows| ensures !MeetsAll(cs, rows[j]) {
              assert rows[j] == t[j - 1];
            }
          }
          assert !SeveralHits(rows, cs) by {
            forall i, j | 0 <= i < j < |rows| ensures !(MeetsAll(cs, rows[i]) && MeetsAll(cs, rows[j])) {
              assert t[j - 1] == rows[j];
            }
          }
        } else {
          var k :| 0 <= k < |t| && MeetsAll(cs, t[k]);
          assert rows[k + 1] == t[k];
          assert n >= 2;
          assert SeveralHits(rows, cs);
          assert forall i :: !UniqueHit(rows, cs, i) by {
            forall i | 0 <= i < |rows| ensures !UniqueHit(rows, cs, i) {
              if i == 0 { assert MeetsAll(cs, rows[k + 1]); } else { assert MeetsAll(cs, rows[0]); }
            }
          }
        }
      } else {
        assert n == |Select(t, cs)|;
        assert NoHit(rows, cs) <==> NoHit(t, cs) by {
          if NoHit(t, cs) {
            forall i | 0 < i < |rows| ensures !MeetsAll(cs, rows[i]) { assert rows[i] == t[i - 1]; }
          }
          if NoHit(rows, cs) {
            forall i | 0 <= i < |t| ensures !MeetsAll(cs, t[i]) { assert rows[i + 1] == t[i]; }
          }
        }
        assert (exists i :: UniqueHit(rows, cs, i)) <==> (exists i :: UniqueHit(t, cs, i)) by {
          if i :| UniqueHit(t, cs, i) {
            assert UniqueHit(rows, cs, i + 1) by {
              forall j | 0 <= j < |rows| && j != i + 1 ensures !MeetsAll(cs, rows[j]) {
                if j > 0 { assert rows[j] == t[j - 1]; }
              }
            }
          }
          if i :| UniqueHit(rows, cs, i) {
            assert i > 0;
            assert UniqueHit(t, cs, i - 1) by {
              forall j | 0 <= j < |t| && j != i - 1 ensures !MeetsAll(cs, t[j]) { assert t[j] == rows[j + 1]; }
            }
          }
        }
        assert SeveralHits(rows, cs) <==> SeveralHits(t, cs) by {
          if SeveralHits(t, cs) {
            var i, j :| 0 <= i < j < |t| && MeetsAll(cs, t[i]) && MeetsAll(cs, t[j]);
            assert rows[i + 1] == t[i] && rows[j + 1] == t[j];
          }
          if SeveralHits(rows, cs) {
            var i, j :| 0 <= i < j < |rows| && MeetsAll(cs, rows[i]) && MeetsAll(cs, rows[j]);
            assert i > 0;
            assert t[i - 1] == rows[i] && t[j - 1] == rows[j];
          }
        }
      }
    }
  }

  /** When exactly one row meets the conditions, the selection is that row. */
  lemma {:induction false} SelectUnique(rows: seq<PatientRecord>, cs: seq<Criterion>, i: int)
    requires UniqueHit(rows, cs, i)
    ensures Select(rows, cs) == [rows[i]]
  {
    var t := rows[1..];
    if i == 0 {
      assert NoHit(t, cs) by {
        forall k | 0 <= k < |t| ensures !MeetsAll(cs, t[k]) { assert t[k] == rows[k + 1]; }
      }
      SelectCount(t, cs);
    } else {
      assert UniqueHit(t, cs, i - 1) by {
        forall j | 0 <= j < |t| && j != i - 1 ensures !MeetsAll(cs, t[j]) { assert t[j] == rows[j + 1]; }
      }
      SelectUnique(t, cs, i - 1);
    }
  }

  /** The selection starts with the earliest row meeting the conditions. */
  lemma {:induction false} SelectHead(rows: seq<PatientRecord>, cs: seq<Criterion>, i: int)
    requires FirstHit(rows, cs, i)
    ensures |Select(rows, cs)| >= 1 && Select(rows, cs)[0] == rows[i]
  {
    if i > 0 {
      var t := rows[1..];
      assert FirstHit(t, cs, i - 1) by {
        forall j | 0 <= j < i - 1 ensures !MeetsAll(cs, t[j]) { assert t[j] == rows[j + 1]; }
      }
      SelectHead(t, cs, i - 1);
    }
  }

  /** Filtering a selection again selects on both sets of conditions. */
  lemma {:induction false} SelectTwice(rows: seq<PatientRecord>, cs: seq<Criterion>, ds: seq<Criterion>)
    ensures Select(Select(rows, cs), ds) == Select(rows, cs + ds)
  {
    if |rows| > 0 {
      SelectTwice(rows[1..], cs, ds);
      assert MeetsAll(cs + ds, rows[0]) <==> MeetsAll(cs, rows[0]) && MeetsAll(ds, rows[0]);
      if MeetsAll(cs, rows[0]) {
        var s := Select(rows, cs);
        assert s[0] == rows[0] && s[1..] == Select(rows[1..], cs);
      }
    }
  }

  /** Rows meeting equivalent conditions give the same selection. */
  lemma {:induction false} SelectEquivalent(rows: seq<PatientRecord>, cs: seq<Criterion>, ds: seq<Criterion>)
    requires forall r :: MeetsAll(cs, r) <==> MeetsAll(ds, r)
    ensures Select(rows, cs) == Select(rows, ds)
  {
    if |rows| > 0 {
      SelectEquivalent(rows[1..], cs, ds);
    }
  }

  /** Some row meets the conditions exactly when there is an earliest one. */
  lemma {:induction false} FirstHitExists(rows: seq<PatientRecord>, cs: seq<Criterion>)
    requires !NoHit(rows, cs)
    ensures exists i :: FirstHit(rows, cs, i)
  {
    if MeetsAll(cs, rows[0]) {
      assert FirstHit(rows, cs, 0);
    } else {
      var t := rows[1..];
      assert !NoHit(t, cs) by {
        var k :| 0 <= k < |rows| && MeetsAll(cs, rows[k]);
        assert t[k - 1] == rows[k];
      }
      FirstHitExists(t, cs);
      var i :| FirstHit(t, cs, i);
      assert FirstHit(rows, cs, i + 1) by {
        forall j | 0 < j < i + 1 ensures !MeetsAll(cs, rows[j]) { assert rows[j] == t[j - 1]; }
      }
    }
  }
}
