/**
 * A player's answer slot and the tests the game applies to a round's
 * answers.  In the source the slot holds `None` (nothing submitted this
 * round), `False` (set when a game ends) or the submitted text.
 */
module Answers {
  import opened Text

  datatype Answer = Pending | Cleared | Given(text: string)

  /** Python truthiness of the slot: only a non-empty text is true. */
  function Truthy(a: Answer): (t: bool)
    ensures a == Pending || a == Cleared || a == Given("") ==> !t
    ensures a.Given? && |a.text| > 0 ==> t
  {
    a.Given? && a.text != []
  }

  /** Every slot holds a text, so `.capitalize()` can be applied to every one. */
  predicate AllGiven(answers: seq<Answer>) {
    forall i :: 0 <= i < |answers| ==> answers[i].Given?
  }

  /** `[i.answer.capitalize() for i in self.players]`. */
  function Normalized(answers: seq<Answer>): (rs: seq<string>)
    requires AllGiven(answers)
    ensures |rs| == |answers|
    ensures forall i {:trigger rs[i]} :: 0 <= i < |answers| ==> rs[i] == Capitalize(answers[i].text)
  {
    seq(|answers|, i requires 0 <= i < |answers| => Capitalize(answers[i].text))
  }

  /** `s.count(x)`: the number of elements equal to `x`. */
  function Count<T(==)>(s: seq<T>, x: T): (n: nat)
    ensures n <= |s|
  {
    if s == [] then 0
    else (if s[0] == x then 1 else 0) + Count(s[1..], x)
  }

  /** The count reaches `len(s)` exactly when every element is `x`. */
  lemma {:induction false} CountAll<T>(s: seq<T>, x: T)
    ensures Count(s, x) == |s| <==> forall i :: 0 <= i < |s| ==> s[i] == x
  {
    if s != [] {
      CountAll(s[1..], x);
      assert forall i :: 1 <= i < |s| ==> s[i] == s[1..][i - 1];
    }
  }

  /**
   * The end-of-game test `results.count(results[0]) == len(results)`: it
   * holds exactly when all answers are pairwise equal.
   */
  function Unanimous(rs: seq<string>): (u: bool)
    requires |rs| > 0
    ensures u <==> forall i, j :: 0 <= i < |rs| && 0 <= j < |rs| ==> rs[i] == rs[j]
  {
    CountAll(rs, rs[0]);
    Count(rs, rs[0]) == |rs|
  }
}
