/**
 * Game codes: four upper-case ASCII letters, drawn at random until one is
 * not the code of a registered game (`Game.code_generator`).  The random
 * source is a supplied sequence of draws; each draw is the four indices that
 * `random.choice(string.ascii_uppercase)` picked.
 */
module Codes {
  import opened Wrappers

  const CodeLength: nat := 4
  const AlphabetSize: nat := 26

  predicate IsCode(s: string) {
    |s| == CodeLength && forall i :: 0 <= i < |s| ==> 'A' <= s[i] <= 'Z'
  }

  /** One draw: four picks from `string.ascii_uppercase`, as indices. */
  predicate IsDraw(picks: seq<nat>) {
    |picks| == CodeLength && forall i :: 0 <= i < |picks| ==> picks[i] < AlphabetSize
  }

  /** The letter at index `k` of `string.ascii_uppercase`. */
  function Letter(k: nat): (c: char)
    requires k < AlphabetSize
    ensures 'A' <= c <= 'Z' && c as int - 'A' as int == k
  {
    ('A' as int + k) as char
  }

  /** `''.join(random.choice(string.ascii_uppercase) for i in range(4))` for one draw. */
  function Sample(picks: seq<nat>): (code: string)
    requires IsDraw(picks)
    ensures IsCode(code)
    ensures forall i :: 0 <= i < CodeLength ==> code[i] as int - 'A' as int == picks[i]
  {
    seq(CodeLength, i requires 0 <= i < CodeLength => Letter(picks[i]))
  }

  /**
   * The intended contract of `code_generator`: keep drawing until a code is
   * not among the `active` ones and return that code.  The draws must hold a
   * fresh code somewhere (the random source eventually produces one); the
   * result is the first fresh one, every earlier draw having collided.
   */
  method GenerateCode(draws: seq<seq<nat>>, active: set<string>) returns (code: string)
    requires forall i :: 0 <= i < |draws| ==> IsDraw(draws[i])
    requires exists i :: 0 <= i < |draws| && Sample(draws[i]) !in active
    ensures IsCode(code) && code !in active
    ensures exists k :: 0 <= k < |draws| && code == Sample(draws[k]) &&
                        forall j :: 0 <= j < k ==> Sample(draws[j]) in active
  {
    var n := 0;
    while true
      invariant 0 <= n < |draws|
      invariant forall j :: 0 <= j < n ==> Sample(draws[j]) in active
      invariant exists i :: n <= i < |draws| && Sample(draws[i]) !in active
      decreases |draws| - n
    {
      code := Sample(draws[n]);
      if code !in active {
        return;
      }
      n := n + 1;
    }
  }

  /**
   * `code_generator` as written: its `return` sits inside the loop body after
   * the `if`, so the body runs once.  A fresh sample takes the `break` and the
   * function ends without a return value (`None`); a colliding sample is
   * returned, although it is the code of a registered game.
   */
  function GenerateCodeAsWritten(picks: seq<nat>, active: set<string>): (r: Option<string>)
    requires IsDraw(picks)
    ensures r.Some? ==> r.value in active
    ensures r == None <==> Sample(picks) !in active
  {
    var code := Sample(picks);
    if code !in active then None else Some(code)
  }

  /** As written, the first game of an empty registry gets no code at all (draw "WXYZ"). */
  lemma AsWrittenFirstGameHasNoCode()
    ensures GenerateCodeAsWritten([22, 23, 24, 25], {}) == None
  {
  }
}
