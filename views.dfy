/**
 * What the bot renders, structurally: the three message bodies built by
 * `waiting_for_players_text`, `waiting_for_answers_text` and `end_game`, the
 * list built by `answers_text`, and the callback tokens of `keyboard`.
 * Emoji and the Ukrainian wording are not modelled; order and content are.
 */
module Views {
  import opened Answers

  /** The callback data of an inline button: `'start'` or `'leave'`. */
  datatype Token = StartToken | LeaveToken

  /** One member line of the answers view: the name and ✅ (true) or ✖ (false). */
  datatype Mark = Mark(name: string, answered: bool)

  datatype View =
    /** "Game <code> / waiting for players" and one line per member. */
    | Lobby(code: string, names: seq<string>)
    /** "Game <code>, round <n>", the previous answers (with their header when
        there are any) and one marked line per member. */
    | Round(code: string, round: int, hints: seq<(string, Answer)>, marks: seq<Mark>)
    /** "Game finished in <n> rounds", the previous answers and the code. */
    | Summary(rounds: int, hints: seq<(string, Answer)>, code: string)

  /**
   * `keyboard(player)`: the start button only for the owner of a game that
   * has not started, and the leave button always, last.
   */
  function Keyboard(started: bool, isOwner: bool): (kb: seq<Token>)
    ensures |kb| > 0 && kb[|kb| - 1] == LeaveToken
    ensures StartToken in kb <==> !started && isOwner
    ensures StartToken in kb ==> kb == [StartToken, LeaveToken]
    ensures StartToken !in kb ==> kb == [LeaveToken]
  {
    if !started && isOwner then [StartToken, LeaveToken] else [LeaveToken]
  }

  /** The member lines of `waiting_for_answers_text`, in member order. */
  function Marks(names: seq<string>, answers: seq<Answer>): (ms: seq<Mark>)
    requires |names| == |answers|
    ensures |ms| == |names|
    ensures forall i {:trigger ms[i]} :: 0 <= i < |ms| ==> ms[i].name == names[i] && (ms[i].answered <==> Truthy(answers[i]))
  {
    seq(|names|, i requires 0 <= i < |names| => Mark(names[i], Truthy(answers[i])))
  }
}
