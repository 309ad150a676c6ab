/**
 * The answer normalisation of the game: Python's `str.capitalize()`, which
 * upper-cases the first character and lower-cases all the others.  Only the
 * ASCII letters change case in this model.
 */
module Text {

  predicate IsLowerLetter(c: char) { 'a' <= c <= 'z' }

  predicate IsUpperLetter(c: char) { 'A' <= c <= 'Z' }

  function Upper(c: char): (u: char)
    ensures IsLowerLetter(c) ==> IsUpperLetter(u) && u as int == c as int - 32
    ensures !IsLowerLetter(c) ==> u == c
  {
    if IsLowerLetter(c) then (c as int - 32) as char else c
  }

  function Lower(c: char): (l: char)
    ensures IsUpperLetter(c) ==> IsLowerLetter(l) && l as int == c as int + 32
    ensures !IsUpperLetter(c) ==> l == c
  {
    if IsUpperLetter(c) then (c as int + 32) as char else c
  }

  /** `s.capitalize()`: the first character upper-cased, the rest lower-cased. */
  function Capitalize(s: string): (r: string)
    ensures |r| == |s|
    ensures |s| > 0 ==> r[0] == Upper(s[0])
    ensures forall i {:trigger r[i]} :: 1 <= i < |s| ==> r[i] == Lower(s[i])
  {
    if s == [] then [] else [Upper(s[0])] + seq(|s| - 1, i requires 0 <= i < |s| - 1 => Lower(s[i + 1]))
  }

  /** Upper-casing and lower-casing identify exactly the same pairs of characters. */
  lemma SameCaseFold(x: char, y: char)
    ensures Upper(x) == Upper(y) <==> Lower(x) == Lower(y)
  {
  }

  /** Normalising twice is normalising once. */
  lemma CapitalizeIdempotent(s: string)
    ensures Capitalize(Capitalize(s)) == Capitalize(s)
  {
  }

  /**
   * Two texts normalise to the same answer exactly when they have the same
   * length and agree character by character up to ASCII case: a mixed-case
   * tail ("CAT", "cAt") does not make an answer distinct.
   */
  lemma SameNormalForm(a: string, b: string)
    ensures Capitalize(a) == Capitalize(b) <==>
            |a| == |b| && forall i :: 0 <= i < |a| ==> Lower(a[i]) == Lower(b[i])
  {
    if Capitalize(a) == Capitalize(b) {
      forall i | 0 <= i < |a| ensures Lower(a[i]) == Lower(b[i]) {
        if i == 0 {
          SameCaseFold(a[0], b[0]);
        } else {
          assert Capitalize(a)[i] == Capitalize(b)[i];
        }
      }
    }
    if |a| == |b| && forall i :: 0 <= i < |a| ==> Lower(a[i]) == Lower(b[i]) {
      if |a| > 0 {
        SameCaseFold(a[0], b[0]);
      }
      assert forall i :: 0 <= i < |a| ==> Capitalize(a)[i] == Capitalize(b)[i];
    }
  }
}
