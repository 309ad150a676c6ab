# saythesame: a verified model of the word-matching game engine

The bot in `run.py` runs "say the same word" games over Telegram. A game has an
owner, a four-letter code and an ordered list of members. Every round, each
member sends one word. A word whose capitalised form has already been played in
this game is refused. Once every member has answered, the round resolves:

- if all capitalised answers are equal, the game ends, reports how many rounds
  it took, and shows each member's last answer;
- otherwise the answers go into the history, the round number goes up and
  everyone answers again.

Players and games live in two process-wide dictionaries. Players are found by
user id. Games are found by code, and a game is removed when its last member
leaves.

The model is a Dafny project of nine modules:

- `Wrappers` (`wrappers.dfy`): `Option`.
- `Text` (`text.dfy`): `str.capitalize()` on ASCII, and when two words are the same word.
- `Codes` (`codes.dfy`): game codes, the retry loop of the code generator, and the generator as written.
- `Dict` (`dict.dfy`): an insertion-ordered dictionary (Python `dict`) as a list of pairs.
- `Answers` (`answers.dfy`): the answer slot (`None`, `False` or a text), normalisation, `list.count` and the end-of-game test.
- `Views` (`views.dfy`): the lobby, round and summary views as values, and the keyboard as callback tokens.
- `Engine` (`engine.dfy`): the classes `Player`, `Game` and `Registry` and their operations.
- `Handlers` (`handlers.dfy`): the guard logic of the callback and message handlers, and message routing.
- `Scenario` (`scenario.dfy`): two scenarios, stated as methods whose contracts give every outcome. A creates the game with `Registry.NewGame`; joining, starting, answering and leaving then go through the handlers. In the first scenario, a two-player game is played until the answers match. In the second, a sole member leaves.

How the source's state maps onto the model:

- `Player`, `Game` and the two registries are classes whose fields the methods
  update in place.
- `Game.players` is a sequence of references. The same player may appear in it
  twice, and may also be listed in several games.
- A player's `answer` is one shared field. It is `Pending` for `None`,
  `Cleared` for `False` and `Given(text)` for a string.

Each method of `Game` has a frame that names the fields it changes and no more.
For example, `new_round` is declared to change only `round` and the members'
`answer`. The handlers find their game through the player's code, so their
frames cover those fields of every registered game. Their postconditions then
state which games and which slots stay unchanged.

How the Python behaviour is modelled:

- **Errors.** A Python exception (`KeyError`, `ValueError`, `AttributeError`)
  becomes the `Fault` outcome. A notice sent to one player becomes
  `Rejected(...)` or `Duplicate`. Re-rendering every member's message becomes
  `Broadcast(view)`.
- **Resolving a round.** `Engine.Resolve` is the reference definition of what
  resolving a round does. `Game.Result` and `Game.AnswerInit` are proved to
  leave exactly the state it describes.
- **The recording loop.** `result` writes `previos_answers[name] = answer` and
  then resets the slot. This loop is modelled with aliasing: a member listed
  twice is recorded the second time with the slot the first visit already
  reset (`RecordedValues`).
- **Code generation.** `random.choice` is replaced by a supplied sequence of
  draws. Each draw is four indices into `string.ascii_uppercase`.

## Model

| member | source | states |
|---|---|---|
| `Text.Upper` | run.py:151 | a lower-case ASCII letter becomes its upper-case letter; every other character is unchanged |
| `Text.Lower` | run.py:151 | an upper-case ASCII letter becomes its lower-case letter; every other character is unchanged |
| `Text.Capitalize` | run.py:182 | `capitalize()` keeps the length, upper-cases the first character and lower-cases every later one |
| `Text.SameCaseFold` | run.py:182 | two characters agree after upper-casing exactly when they agree after lower-casing |
| `Text.CapitalizeIdempotent` | run.py:151-152 | capitalising an entry of the history again leaves it unchanged |
| `Text.SameNormalForm` | run.py:182 | two words count as the same answer exactly when they have the same length and agree letter by letter ignoring case, so "cAT" repeats "Cat" |
| `Codes.Letter` | run.py:79 | index k of `ascii_uppercase` is the letter k places after 'A' |
| `Codes.Sample` | run.py:79 | a draw always makes a code of four letters A–Z, letter i being the i-th pick |
| `Codes.GenerateCode` | run.py:78-81 | the intended generator returns a valid code that is not registered, namely the first such draw, every earlier draw having collided |
| `Codes.GenerateCodeAsWritten` | run.py:77-84 | as written, the generator yields nothing exactly when the sample is free, and otherwise yields a code that is already registered |
| `Codes.AsWrittenFirstGameHasNoCode` | run.py:80-84 | as written, the first game of an empty registry gets no code |
| `Dict.Keys` | run.py:128 | the keys of the dictionary, in insertion order |
| `Dict.Get` | run.py:154 | a lookup finds a value exactly when the key is present |
| `Dict.Put` | run.py:154 | a store keeps the key order and appends a new key at the end |
| `Dict.GetPut` | run.py:154 | after a store, the stored key maps to the new value and every other key keeps its value |
| `Dict.PutUnique` | run.py:154 | a store never creates a second entry for a key |
| `Dict.PutAll` | run.py:153-155 | a sequence of stores never shrinks the dictionary and adds at most one entry per store (which old keys stay, in which position, is `Dict.PutAllKeys`) |
| `Dict.PutAllStep` | run.py:153-154 | storing one more pair extends a sequence of stores by one step |
| `Dict.GetPutAll` | run.py:153-155 | after a sequence of stores, the last store to a key wins and keys never stored keep their values |
| `Dict.PutAllKeys` | run.py:153-155 | a sequence of stores keeps the old keys first and in order, adds only stored keys, and keeps keys unique |
| `Answers.Truthy` | run.py:282 | `None`, `False` and the empty string are falsy; any non-empty text is truthy |
| `Answers.Normalized` | run.py:151 | the normalised answers are the members' answers capitalised, in member order |
| `Answers.Count` | run.py:156 | `list.count` is at most the list's length |
| `Answers.CountAll` | run.py:156 | the count of x equals the length exactly when every element is x |
| `Answers.Unanimous` | run.py:156 | comparing every answer's count with the list's length, using the first answer, holds exactly when all answers are pairwise equal |
| `Views.Keyboard` | run.py:117-124 | the leave button is always present and comes last; the start button is present exactly for the owner of a game that has not started |
| `Views.Marks` | run.py:103-104 | one line per member in member order, marked answered exactly when the slot is truthy |
| `Engine.Player.constructor` | run.py:32-39 | a new player is not waiting for a code, is in no game and has an empty slot |
| `Engine.Names` | run.py:89-90 | the members' display names in member order |
| `Engine.AnswersOf` | run.py:151 | the members' slots in member order |
| `Engine.IndexOf` | run.py:165 | `list.index`: the position of the first occurrence |
| `Engine.RemoveFirst` | run.py:165 | `list.remove` drops exactly the first occurrence (one fewer, same multiset minus it) and keeps everything else in order |
| `Engine.RecordedValues` | run.py:153-155 | a member's first appearance records their submitted slot; a later appearance records the slot already reset |
| `Engine.SlotsAfter` | run.py:153-155 | after the first i visits, the slots of the visited members are reset and the others are as submitted |
| `Engine.Reset` | run.py:155 | resetting one player's slot changes every list position that refers to that player, and nothing else |
| `Engine.SlotsAfterStep` | run.py:153-155 | each visit reads the recorded value, one visit moves the reset frontier by one member, and after the last visit every slot is reset |
| `Engine.Submitted` | run.py:185 | storing a player's text changes every list position that refers to that player, and nothing else |
| `Engine.Resolve` | run.py:149-159 | the game ends exactly when all normalised answers are pairwise equal (history cleared, round back to 1, slots `False`); otherwise the history grows by the normalised answers, in member order and by exactly one per member, the round goes up by one and the slots become `None`; the previous answers are the recorded values stored under the names |
| `Engine.ResolveRecordsAnswers` | run.py:153-155 | after resolving, a member listed once whose name no later member shares is shown with their own raw answer; other names keep their entries; old names keep their positions and names stay unique |
| `Engine.SameNameCollides` | run.py:154 | two different members with one display name share a single entry, which holds the later answer, whatever the two answers are |
| `Engine.Game.constructor` | run.py:63-71 | a new game has the given owner and code, no members yet, is not started, and starts with count 0, round 1 and empty history and previous answers |
| `Engine.Game.PlayersView` | run.py:86-91 | the lobby view shows the code and the members' names in member order |
| `Engine.Game.AnswersView` | run.py:98-105 | the round view shows the code, the round, the previous answers and one mark per member, answered exactly when the slot is truthy |
| `Engine.Game.StatusView` | run.py:192-196 | the single-player status shows the round view once started and otherwise the lobby with the members' names |
| `Engine.Game.AddPlayer` | run.py:112-115 | the player is appended at the end with no duplicate check, and their game becomes this code |
| `Engine.Game.Start` | run.py:161-162 | starting only renders the round view; nothing changes, and `started` in particular is not set |
| `Engine.Game.NewRound` | run.py:143-147 | the round goes up by exactly one and every member's slot becomes `None` |
| `Engine.Game.EndGame` | run.py:132-141 | the history is cleared, the round goes back to 1, every slot becomes `False`, and the summary reports the round number from before the reset together with the kept previous answers |
| `Engine.Game.RecordRound` | run.py:153-155 | the loop stores every member's recorded value under their name, in member order, and leaves every member's slot `None` |
| `Engine.Game.Tally` | run.py:150-155 | the count is reset to 0, the history is extended by the normalised answers, and the previous answers are recorded |
| `Engine.Game.Result` | run.py:149-159 | the state afterwards is exactly the one `Resolve` describes for the submitted slots, and the view is the summary or the next round's view |
| `Engine.Game.AnswerInit` | run.py:181-190 | the effect `Game.Answered` describes: a repeated answer changes nothing; otherwise the raw text is stored and the count goes up by exactly one; the round resolves, as `Resolve` describes, exactly when the count reaches the number of members; a slot left empty by a departure ends in `Fault` with the count reset; the members list is untouched and the previous answers keep each name once |
| `Engine.Game.Close` | run.py:174-179 | every member loses their game and slot, and the code leaves the registry |
| `Engine.Game.Leave` | run.py:164-172 | a non-member makes `remove` raise and nothing changes; otherwise the first occurrence is removed and the player's game and slot are cleared; the game closes exactly when nobody is left; the count, round and history are not touched |
| `Engine.Registry.constructor` | run.py:30 | both registries start empty |
| `Engine.Registry.PlayerCheck` | run.py:48-57 | a known id gives back the same player and nothing changes; an unknown id creates a fresh player, filed under that id |
| `Engine.Registry.NewGame` | run.py:63-74 | a new game gets the code of the first draw that is not yet registered, has the owner as its only member and is filed under its code, and the registry stays valid |
| `Handlers.RouteMessage` | run.py:199-286 | a text message goes to `/status` for admins, then `/start`, then to joining while a code is awaited, then to answering while in a game with a falsy slot |
| `Handlers.JoinInit` | run.py:226-231 | the player's next message is taken as a code |
| `Handlers.StartGame` | run.py:241-253 | a missing game, a started game or a game of exactly one member is refused; otherwise the round view is broadcast; nothing changes in any case; in a valid registry the "already started" refusal cannot occur |
| `Handlers.LeaveGame` | run.py:256-266 | a missing game is refused and neither the registry's games nor the player change; a player not listed in their game makes `remove` raise and nothing changes; otherwise the first occurrence is removed, the player's game and slot are cleared, and the game is closed and unregistered exactly when nobody is left; no other game's members change and the registry stays valid |
| `Handlers.JoinGame` | run.py:269-279 | an unknown code is refused and the player keeps waiting; otherwise the player is appended and stops waiting; no other game changes and the registry stays valid |
| `Handlers.SetAnswer` | run.py:282-286 | a player not in a game, or with a truthy slot, is ignored, and a dangling code raises, with nothing changed in either case; otherwise the answer is refused, with nothing changed, exactly when its capitalised form is in the history; an accepted one is stored and counted, and when the count reaches the number of members the game's state is the one `Resolve` describes (or the count is reset with `Fault` if a slot is empty); no other game's count, round, history or previous answers change, no slot changes but the player's and those of the player's game's members, and the registry stays valid |
| `Handlers.AnswerInGame` | run.py:285-286 | the game filed under the player's code changes as `Game.Answered` describes, no other game's count, round, history or previous answers change, and the registry stays valid |
| `Scenario.Words` | run.py:182 | "Cat", "Dog" and "Fish" are their own capitalised forms; "fish" capitalises to "Fish" and "cAT" to "Cat" |
| `Scenario.FirstRoundResolves` | run.py:149-159 | a round of "Cat" and "Dog" from A and B does not finish; it leaves the history `Cat, Dog`, round 2 and the previous answers A – Cat, B – Dog |
| `Scenario.SecondRoundFinishes` | run.py:149-159 | a following round of "Fish" and "fish" finishes; it clears the history, resets the round to 1, leaves every slot `False`, and overwrites both previous answers in place |
| `Scenario.CreateGame` | run.py:63-74 | a game created from the draw "WXYZ" in an empty registry is filed under "WXYZ", with its owner as the only member |
| `Scenario.Setup` | run.py:269-279 | a second player who types "WXYZ" joins the game after the owner, and the lobby shows both names in that order |
| `Scenario.AnswerFirst` | run.py:282-286 | through `set_answer`, the first answer of a two-member round is stored and counted, and the round view is re-rendered |
| `Scenario.AnswerSecond` | run.py:282-286 | through `set_answer`, the second answer of a two-member round resolves it as `Resolve` describes |
| `Scenario.RoundTwoView` | run.py:98-105 | the view at the start of round 2 shows A – Cat and B – Dog and nobody marked as answered |
| `Scenario.RoundOne` | run.py:282-286 | the first answer is only counted; the second starts round 2, whose view shows both previous answers and nobody marked as answered |
| `Scenario.RoundTwo` | run.py:282-286 | "cAT" is refused as a repeat of "Cat"; "Fish" and "fish" match, and the summary reports 2 rounds with the last answers by name |
| `Scenario.TwoPlayerGame` | run.py:241-253 | the whole game, with joining, starting and every answer going through the handlers: the lobby, the start in round 1 with no previous answers, round 2, the refusal and the summary |
| `Scenario.SoleMemberLeaves` | run.py:256-279 | when the only member leaves, the game closes, and typing its code afterwards is refused as an unknown game |

## Behaviour kept as written

These are visible in the source and are modelled as the source behaves. Some code suggests a different intent, and in each case the model follows what the code does:

- the start button is offered only to the owner of a game that has not started (run.py:119); the `start` callback checks `started` (run.py:247) but not the owner;
- `start_game`, `leave` and `join_game` each refuse a started game (run.py:247, 262, 275), but nothing ever sets `started`.

The points:

- **`start` never sets `started`** (run.py:161-162).
  - `Registry.Valid` therefore records that no registered game has started.
  - So the "already started" refusals in `start_game`, `leave` and `join_game` can never happen, and players may join or leave a game in the middle of a round.
- **No owner check on starting** (run.py:241-253). Any member may start the game.
- **Starting with fewer than two members.** Starting is refused only when the game has exactly one member.
- **No duplicate check on joining** (run.py:112-115). A player may be in the members list twice.
  - `RecordedValues` and `Game.RecordRound` then model how the aliased slot is read twice.
- **Leaving does not adjust `answers_count`** (run.py:164-172). After a departure in mid-round, two things can go wrong:
  - The count reaches the number of members while some member has no answer. Then `result` raises on `.capitalize()`; see the `Fault` case of `Game.AnswerInit`.
  - The count already exceeds the number of members. Then the round cannot resolve until enough new members join for the count to meet the number of members again, since joining does not touch the count.
- **Previous answers are keyed by display name** (run.py:154). Two members with the same name share one entry (`Engine.SameNameCollides`).
- **Case of the tail.** `capitalize()` lower-cases everything after the first letter. So "cAT" counts as a repeat of "Cat" (`Text.SameNormalForm`), and trailing case does not tell words apart.
- **A refused join keeps the player waiting.** After an unknown code, the next message is again read as a code (run.py:273-276).
- **The end-of-game view shows each member's last raw answer.** It does not show the history, which `end_game` clears (run.py:132-141).
- **A second answer in the same round is ignored** (run.py:282). The answer handler only takes messages from a player whose slot is falsy, so it never overwrites an answer already given.
- **The slot is read as Python truthiness** (run.py:282). An empty-string answer therefore still counts as "not answered", and the player may answer again.

## Left out

- The aiogram transport is left out because it is network I/O through a library: the bot, the dispatcher, polling, sending, editing and deleting messages, and answering callbacks. Each survives only as the handler's `Outcome`.
- `Player.message` and `playercheck`'s storing of the callback message are left out, because they only choose where views are rendered. So are `edit_to_menu`, the `/start` menu, the `new_menu` re-attach flow and `delete_message`.
- Keyboard objects and menu constants are left out, because they are rendering. A keyboard is its list of callback tokens.
- The exact text, emoji and Ukrainian wording of the views are left out, because they are rendering; views are structured values.
- Environment variables, the admin id list and the `/status` dump are left out, because they are configuration and diagnostics. Routing keeps `/status` only as a target.
- `asyncio` scheduling and interleaving are left out, because the model is sequential. `Game.__init__` schedules the owner's `add_player` with `create_task`, and the model performs it at once in `Registry.NewGame`.
- The `random` module is left out, because it is nondeterministic. The draws are a parameter.
- `Codes.GenerateCode` assumes that the supplied draws contain a fresh code. The intended retry loop it models would retry forever if none exists; the loop as written (`Codes.GenerateCodeAsWritten`) always stops after its first draw because of the `return` at run.py:84.
- `Text.Capitalize` changes the case of ASCII letters only. Python's `str.capitalize` applies full Unicode case mapping, and the game's players typically write Ukrainian, which the model leaves unchanged.
- `Engine.Player.constructor` uses one absent value for `in_game`, while the source uses both `False` (new player) and `None` (after leaving). They behave the same in every test the code applies.
- `Registry.Valid` does not relate a player's `in_game` to the registered codes. So the `KeyError` branch of `set_answer` is modelled but not shown to be unreachable.
- The handlers take the player that `playercheck` resolved for the update. `Registry.PlayerCheck` models that lookup, and its side effect inside aiogram's filter lambdas is not modelled separately.

## Findings

| source | as written | input that shows it | evidently intended | confidence | as-written member | corrected member |
|---|---|---|---|---|---|---|
| run.py:77-84 | `return code` is indented inside the `while` loop. A fresh sample takes `break` and the function returns `None`. A colliding sample is returned even though that code is already registered. | An empty registry and the draw "WXYZ": the first game gets the code `None` and is filed under `None`, so nobody can join it by typing a code. | Draw until the code is not registered, then return that code (`return` after the loop). | high; found by reading and stated in Dafny, not executed | `Codes.GenerateCodeAsWritten`, `Codes.AsWrittenFirstGameHasNoCode` | `Codes.GenerateCode` |
