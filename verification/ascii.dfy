/** Case folding used by the patient lookup. Python's `str.lower()` is
    modelled on the ASCII range only: `A`..`Z` become `a`..`z` and every
    other character is left as it is. */
module Ascii {

  predicate IsUpper(c: char) {
    'A' <= c <= 'Z'
  }

  function ToLower(c: char): (l: char)
    ensures !IsUpper(l)
    ensures IsUpper(c) ==> l as int == c as int + 32
    ensures !IsUpper(c) ==> l == c
  {
    if IsUpper(c) then (c as int + 32) as char else c
  }

  function LowerString(s: string): (t: string)
    ensures |t| == |s|
    ensures forall i :: 0 <= i < |s| ==> t[i] == ToLower(s[i])
  {
    if |s| == 0 then [] else [ToLower(s[0])] + LowerString(s[1..])
  }

  /** `a.lower() == b.lower()` */
  predicate EqualsIgnoringCase(a: string, b: string) {
    LowerString(a) == LowerString(b)
  }

  /** Lowering twice is lowering once, so a lowered string matches itself. */
  lemma LowerStringIdempotent(s: string)
    ensures LowerString(LowerString(s)) == LowerString(s)
    ensures EqualsIgnoringCase(s, LowerString(s))
  {
    assert forall i :: 0 <= i < |s| ==> LowerString(LowerString(s))[i] == LowerString(s)[i];
  }

  /** Ignoring case, two strings are equal exactly when they have the same
      length and agree position by position after lowering. */
  lemma EqualsIgnoringCasePointwise(a: string, b: string)
    ensures EqualsIgnoringCase(a, b) <==>
              |a| == |b| && forall i :: 0 <= i < |a| ==> ToLower(a[i]) == ToLower(b[i])
  {
    if |a| == |b| && forall i :: 0 <= i < |a| ==> ToLower(a[i]) == ToLower(b[i]) {
      assert forall i :: 0 <= i < |a| ==> LowerString(a)[i] == LowerString(b)[i];
    }
  }
}
