/**
 * The game engine: players, games and the two process-wide registries
 * (`Player.dct`, `Game.dct`).  Games and players are objects whose fields
 * the operations update in place; a game holds references to its members,
 * and a member may appear in its list more than once (joining does not
 * check for duplicates).
 */
module Engine {
  import opened Wrappers
  import opened Text
  import opened Codes
  import opened Dict
  import opened Answers
  import opened Views

  /** Why a handler refused an action; the notice goes to the acting player only. */
  datatype Rejection = NoSuchGame | AlreadyStarted | TooFewPlayers

  /** How an operation or a handler ends, as the players see it. */
  datatype Outcome =
    /** a notice to the acting player; nothing changed */
    | Rejected(reason: Rejection)
    /** the view re-rendered in every member's message */
    | Broadcast(view: View)
    /** the last member left; every member is back at the menu and the code is free */
    | Closed
    /** "this word was already used", to the acting player; nothing changed */
    | Duplicate
    /** the handler raised an exception (KeyError, ValueError, AttributeError) */
    | Fault
    /** the message is not one this handler takes */
    | Ignored

  class Player {
    const id: int
    const name: string
    var codeWaiting: bool
    /** the code of the game joined last; `False`/`None` in the source are both `None` here */
    var inGame: Option<string>
    var answer: Answer

    constructor (uid: int, name: string)
      ensures id == uid && this.name == name
      ensures !codeWaiting && inGame == None && answer == Pending
    {
      id := uid;
      this.name := name;
      codeWaiting := false;
      inGame := None;
      answer := Pending;
    }
  }

  function Names(ps: seq<Player>): (ns: seq<string>)
    ensures |ns| == |ps| && forall i {:trigger ns[i]} :: 0 <= i < |ps| ==> ns[i] == ps[i].name
  {
    seq(|ps|, i requires 0 <= i < |ps| => ps[i].name)
  }

  function AnswersOf(ps: seq<Player>): (r: seq<Answer>)
    reads ps
    ensures |r| == |ps| && forall i {:trigger r[i]} :: 0 <= i < |ps| ==> r[i] == ps[i].answer
  {
    seq(|ps|, i requires 0 <= i < |ps| reads ps => ps[i].answer)
  }

  /** `s.index(x)`: the position of the first occurrence. */
  function IndexOf<T(==)>(s: seq<T>, x: T): (k: nat)
    requires x in s
    ensures k < |s| && s[k] == x && x !in s[..k]
  {
    if s[0] == x then 0
    else
      var k := 1 + IndexOf(s[1..], x);
      assert s[..k] == [s[0]] + s[1..][..k - 1];
      k
  }

  /**
   * `s.remove(x)`: the first occurrence of `x` is dropped, everything else
   * stays in its order.
   */
  function RemoveFirst<T(==)>(s: seq<T>, x: T): (r: seq<T>)
    requires x in s
    ensures |r| == |s| - 1
    ensures multiset(r) == multiset(s) - multiset{x}
    ensures forall i {:trigger r[i]} :: 0 <= i < IndexOf(s, x) ==> r[i] == s[i]
    ensures forall i {:trigger r[i]} :: IndexOf(s, x) <= i < |r| ==> r[i] == s[i + 1]
  {
    var k := IndexOf(s, x);
    assert s == s[..k] + [x] + s[k + 1..];
    assert multiset(s) == multiset(s[..k]) + multiset{x} + multiset(s[k + 1..]);
    s[..k] + s[k + 1..]
  }

  /**
   * The value each iteration of the recording loop in `result` reads from a
   * member's slot: the earlier iterations have already reset the slot of a
   * member that appears earlier in the list.
   */
  function RecordedValues(ps: seq<Player>, answers: seq<Answer>): (r: seq<Answer>)
    requires |ps| == |answers|
    ensures |r| == |ps|
    ensures forall i {:trigger r[i]} :: 0 <= i < |ps| && ps[i] !in ps[..i] ==> r[i] == answers[i]
    ensures forall i {:trigger r[i]} :: 0 <= i < |ps| && ps[i] in ps[..i] ==> r[i] == Pending
  {
    seq(|ps|, i requires 0 <= i < |ps| => if ps[i] in ps[..i] then Pending else answers[i])
  }

  /** The members' slots after the recording loop of `result` has visited the first `i` members. */
  function SlotsAfter(ps: seq<Player>, answers: seq<Answer>, i: nat): (r: seq<Answer>)
    requires |ps| == |answers| && i <= |ps|
    ensures |r| == |ps|
    ensures forall j {:trigger r[j]} :: 0 <= j < |ps| ==> r[j] == if ps[j] in ps[..i] then Pending else answers[j]
  {
    seq(|ps|, j requires 0 <= j < |ps| => if ps[j] in ps[..i] then Pending else answers[j])
  }

  /** The members' slots after `p.answer = None`. */
  function Reset(answers: seq<Answer>, ps: seq<Player>, p: Player): (r: seq<Answer>)
    requires |answers| == |ps|
    ensures |r| == |ps|
    ensures forall j {:trigger r[j]} :: 0 <= j < |ps| ==> r[j] == if ps[j] == p then Pending else answers[j]
  {
    seq(|ps|, j requires 0 <= j < |ps| => if ps[j] == p then Pending else answers[j])
  }

  /**
   * One step of the recording loop: the slot it reads is the recorded value,
   * and resetting it gives the slots after one more member; after the last
   * member every slot is reset.
   */
  lemma SlotsAfterStep(ps: seq<Player>, answers: seq<Answer>, i: nat)
    requires |ps| == |answers| && i <= |ps|
    ensures i < |ps| ==> SlotsAfter(ps, answers, i)[i] == RecordedValues(ps, answers)[i]
    ensures i < |ps| ==> SlotsAfter(ps, answers, i + 1) == Reset(SlotsAfter(ps, answers, i), ps, ps[i])
    ensures i == |ps| ==> forall j :: 0 <= j < |ps| ==> SlotsAfter(ps, answers, i)[j] == Pending
  {
  }

  /** The members' slots after `player.answer = text`. */
  function Submitted(answers: seq<Answer>, ps: seq<Player>, player: Player, text: string): (r: seq<Answer>)
    requires |answers| == |ps|
    ensures |r| == |ps|
    ensures forall i {:trigger r[i]} :: 0 <= i < |ps| ==> r[i] == if ps[i] == player then Given(text) else answers[i]
  {
    seq(|ps|, i requires 0 <= i < |ps| => if ps[i] == player then Given(text) else answers[i])
  }

  /** The state a round leaves behind: `result` followed by `new_round` or `end_game`. */
  datatype Resolution = Resolution(
    finished: bool,
    history: seq<string>,
    round: int,
    hints: seq<(string, Answer)>,
    reset: Answer)

  /**
   * Resolving a round whose members submitted `submitted`.  The game ends
   * exactly when all normalised answers are equal; then the history is
   * cleared, the round goes back to 1 and every slot becomes `False`.
   * Otherwise the history grows by the normalised answers in member order,
   * the round goes up by one and every slot becomes `None`.  In both cases
   * every member's raw answer is recorded under their name.
   */
  function Resolve(history: seq<string>, round: int, hints: seq<(string, Answer)>,
                   members: seq<Player>, submitted: seq<Answer>): (r: Resolution)
    requires |members| == |submitted| > 0 && AllGiven(submitted)
    ensures var rs := Normalized(submitted);
            r.finished <==> forall i, j :: 0 <= i < |rs| && 0 <= j < |rs| ==> rs[i] == rs[j]
    ensures r.finished ==> r.history == [] && r.round == 1 && r.reset == Cleared
    ensures !r.finished ==> r.history == history + Normalized(submitted) && |r.history| == |history| + |members|
    ensures !r.finished ==> r.round == round + 1 && r.reset == Pending
    ensures r.hints == PutAll(hints, Names(members), RecordedValues(members, submitted))
  {
    var rs := Normalized(submitted);
    var finished := Unanimous(rs);
    Resolution(
      finished,
      if finished then [] else history + rs,
      if finished then 1 else round + 1,
      PutAll(hints, Names(members), RecordedValues(members, submitted)),
      if finished then Cleared else Pending)
  }

  /**
   * What a resolved round records in the previous-answers dict: a member
   * listed once, whose name no later member shares, is shown with their own
   * raw answer; names of non-members keep their entries; the names already
   * there keep their positions and the names stay unique.
   */
  lemma ResolveRecordsAnswers(history: seq<string>, round: int, hints: seq<(string, Answer)>,
                              members: seq<Player>, submitted: seq<Answer>)
    requires |members| == |submitted| > 0 && AllGiven(submitted)
    ensures var h := Resolve(history, round, hints, members, submitted).hints;
            forall i :: 0 <= i < |members| && members[i] !in members[..i] &&
                        (forall j :: i < j < |members| ==> members[j].name != members[i].name) ==>
                          Get(h, members[i].name) == Some(submitted[i])
    ensures var h := Resolve(history, round, hints, members, submitted).hints;
            forall k :: k !in Names(members) ==> Get(h, k) == Get(hints, k)
    ensures var h := Resolve(history, round, hints, members, submitted).hints;
            |Keys(h)| >= |hints| && Keys(h)[..|hints|] == Keys(hints) &&
            (UniqueKeys(hints) ==> UniqueKeys(h))
  {
    var ks, vs := Names(members), RecordedValues(members, submitted);
    PutAllKeys(hints, ks, vs);
    forall k | k !in ks
      ensures Get(PutAll(hints, ks, vs), k) == Get(hints, k)
    {
      GetPutAll(hints, ks, vs, k);
    }
    forall i | 0 <= i < |members| && members[i] !in members[..i] &&
               (forall j :: i < j < |members| ==> members[j].name != members[i].name)
      ensures Get(PutAll(hints, ks, vs), members[i].name) == Some(submitted[i])
    {
      assert ks[i] == members[i].name && vs[i] == submitted[i];
      assert forall j :: i < j < |ks| ==> ks[j] == members[j].name;
      GetPutAll(hints, ks, vs, members[i].name);
    }
  }

  /**
   * Two members with the same display name share one entry, whatever they
   * answer: the later answer wins.
   */
  lemma SameNameCollides(a: Player, b: Player, x: string, y: string)
    requires a != b && a.name == b.name
    ensures Resolve([], 1, [], [a, b], [Given(x), Given(y)]).hints == [(a.name, Given(y))]
  {
    var n := a.name;
    assert [a, b][..1] == [a];
    assert RecordedValues([a, b], [Given(x), Given(y)]) == [Given(x), Given(y)];
    assert Names([a, b]) == [n, n];
    assert [n, n][..1] == [n] && [n][..0] == [];
    assert [Given(x), Given(y)][..1] == [Given(x)] && [Given(x)][..0] == [];
    assert PutAll([], [n], [Given(x)]) == [(n, Given(x))];
  }

  class Game {
    const owner: Player
    const code: string
    var players: seq<Player>
    var started: bool
    var answersCount: nat
    var round: int
    var allAnswers: seq<string>
    var previousAnswers: seq<(string, Answer)>

    /**
     * `Game.__init__` without the code generation and the owner's join, which
     * `Registry.NewGame` performs around it.
     */
    constructor (owner: Player, code: string)
      ensures this.owner == owner && this.code == code
      ensures players == [] && !started && answersCount == 0 && round == 1
      ensures allAnswers == [] && previousAnswers == []
    {
      this.owner := owner;
      this.code := code;
      players := [];
      started := false;
      answersCount := 0;
      round := 1;
      allAnswers := [];
      previousAnswers := [];
    }

    /** `waiting_for_players_text`: the code and the members' names in member order. */
    function PlayersView(): (v: View)
      reads this
      ensures v.Lobby? && v.code == code
      ensures |v.names| == |players| && forall i {:trigger v.names[i]} :: 0 <= i < |players| ==> v.names[i] == players[i].name
    {
      Lobby(code, Names(players))
    }

    /**
     * `waiting_for_answers_text`: the code, the round, the previous answers
     * in dict order, and one line per member, in member order, marked
     * answered exactly when the member's slot is truthy.
     */
    function AnswersView(): (v: View)
      reads this, players
      ensures v.Round? && v.code == code && v.round == round && v.hints == previousAnswers
      ensures |v.marks| == |players|
      ensures forall i {:trigger v.marks[i]} :: 0 <= i < |players| ==>
                v.marks[i].name == players[i].name && (v.marks[i].answered <==> Truthy(players[i].answer))
    {
      Round(code, round, previousAnswers, Marks(Names(players), AnswersOf(players)))
    }

    /** The choice in `status_init_single`: the answers view once started, else the lobby. */
    function StatusView(): (v: View)
      reads this, players
      ensures v.Lobby? <==> !started
      ensures v.Lobby? ==> v.names == Names(players)
    {
      if started then AnswersView() else PlayersView()
    }

    /** `add_player`: append at the end, whether or not `p` is a member already. */
    method AddPlayer(p: Player) returns (o: Outcome)
      modifies this`players, p`inGame
      ensures players == old(players) + [p]
      ensures p.inGame == Some(code)
      ensures o == Broadcast(PlayersView())
    {
      players := players + [p];
      p.inGame := Some(code);
      o := Broadcast(PlayersView());
    }

    /** `start`: renders the answers view; it does not set `started`. */
    method Start() returns (o: Outcome)
      ensures o == Broadcast(AnswersView())
    {
      o := Broadcast(AnswersView());
    }

    /** `new_round`. */
    method NewRound() returns (o: Outcome)
      modifies this`round, players`answer
      ensures round == old(round) + 1
      ensures forall p :: p in players ==> p.answer == Pending
      ensures o == Broadcast(AnswersView())
    {
      round := round + 1;
      for i := 0 to |players|
        modifies players`answer
        invariant forall j :: 0 <= j < i ==> players[j].answer == Pending
      {
        players[i].answer := Pending;
      }
      o := Broadcast(AnswersView());
    }

    /** `end_game`: the summary reports the round number from before the reset. */
    method EndGame() returns (o: Outcome)
      modifies this`allAnswers, this`round, players`answer
      ensures allAnswers == [] && round == 1
      ensures forall p :: p in players ==> p.answer == Cleared
      ensures o == Broadcast(Summary(old(round), previousAnswers, code))
    {
      allAnswers := [];
      var rounds := round;
      round := 1;
      for i := 0 to |players|
        modifies players`answer
        invariant forall j :: 0 <= j < i ==> players[j].answer == Cleared
      {
        players[i].answer := Cleared;
      }
      o := Broadcast(Summary(rounds, previousAnswers, code));
    }

    /**
     * The state after a round resolved from the given history, round number,
     * previous answers and submitted slots, together with the view it shows.
     */
    ghost predicate ResolvedFrom(history: seq<string>, rd: int, hints: seq<(string, Answer)>,
                                 submitted: seq<Answer>, o: Outcome)
      reads this, players
      requires |players| == |submitted| > 0 && AllGiven(submitted)
    {
      var r := Resolve(history, rd, hints, players, submitted);
      && answersCount == 0
      && allAnswers == r.history
      && round == r.round
      && previousAnswers == r.hints
      && (forall p :: p in players ==> p.answer == r.reset)
      && o == Broadcast(if r.finished then Summary(rd, r.hints, code) else AnswersView())
    }

    /**
     * The loop of `result` that records each member's slot under their name
     * and resets it: `previos_answers[i.name] = i.answer; i.answer = None`.
     * A member listed twice is recorded twice, the second time with the slot
     * the first iteration has already reset.
     */
    method RecordRound()
      modifies this`previousAnswers, players`answer
      ensures previousAnswers ==
              PutAll(old(previousAnswers), Names(players), RecordedValues(players, old(AnswersOf(players))))
      ensures forall p :: p in players ==> p.answer == Pending
    {
      ghost var ps := players;
      ghost var names := Names(ps);
      ghost var submitted := AnswersOf(ps);
      ghost var recorded := RecordedValues(ps, submitted);
      var i := 0;
      while i < |players|
        modifies this`previousAnswers, players`answer
        invariant 0 <= i <= |ps| && players == ps
        invariant previousAnswers == PutAll(old(previousAnswers), names[..i], recorded[..i])
        invariant AnswersOf(ps) == SlotsAfter(ps, submitted, i)
      {
        var p := players[i];
        ghost var before := AnswersOf(ps);
        SlotsAfterStep(ps, submitted, i);
        PutAllStep(old(previousAnswers), names, recorded, i);
        previousAnswers := Put(previousAnswers, p.name, p.answer);
        p.answer := Pending;
        assert AnswersOf(ps) == Reset(before, ps, p);
        i := i + 1;
      }
      SlotsAfterStep(ps, submitted, i);
      forall p | p in players
        ensures p.answer == Pending
      {
        var j :| 0 <= j < |ps| && ps[j] == p;
        assert AnswersOf(ps)[j] == Pending;
      }
      assert names[..i] == names;
      assert recorded[..i] == recorded;
    }

    /**
     * The first half of `result`: reset the count, extend the history by the
     * normalised answers and record the slots.  `submitted` names the slots
     * on entry.
     */
    method Tally(ghost submitted: seq<Answer>) returns (results: seq<string>)
      requires submitted == AnswersOf(players) && AllGiven(submitted)
      modifies this`answersCount, this`allAnswers, this`previousAnswers, players`answer
      ensures results == Normalized(submitted)
      ensures answersCount == 0 && allAnswers == old(allAnswers) + results
      ensures previousAnswers == PutAll(old(previousAnswers), Names(players), RecordedValues(players, submitted))
      ensures forall p :: p in players ==> p.answer == Pending
    {
      answersCount := 0;
      assert AnswersOf(players) == submitted;
      results := Normalized(AnswersOf(players));
      allAnswers := allAnswers + results;
      assert AnswersOf(players) == submitted;
      RecordRound();
    }

    /**
     * `result`: requires every member's slot to hold a text, or `.capitalize()`
     * raises.  `submitted` names the slots on entry.
     */
    method Result(ghost submitted: seq<Answer>) returns (o: Outcome)
      requires |players| > 0 && submitted == AnswersOf(players) && AllGiven(submitted)
      modifies this`answersCount, this`allAnswers, this`previousAnswers, this`round, players`answer
      ensures ResolvedFrom(old(allAnswers), old(round), old(previousAnswers), submitted, o)
    {
      var results := Tally(submitted);
      if Count(results, results[0]) != |results| {
        o := NewRound();
      } else {
        o := EndGame();
      }
    }

    /**
     * The effect of `answer_init(player, text)`, from the state before the
     * call.  An answer whose normalised form is in the history is refused and
     * nothing changes.  Otherwise the raw text is stored and the count goes up
     * by one; when the count reaches the number of members the round resolves
     * as `Resolve` describes.  If some member's slot then holds no text (a
     * member left mid-round), the source raises after resetting the count.
     * The members list itself is not touched, and the previous answers keep
     * each name once.
     */
    twostate predicate Answered(player: Player, text: string, o: Outcome)
      reads this, players, player
    {
      && players == old(players)
      && (UniqueKeys(old(previousAnswers)) ==> UniqueKeys(previousAnswers))
      && (Capitalize(text) in old(allAnswers) ==>
            && o == Duplicate && answersCount == old(answersCount)
            && allAnswers == old(allAnswers) && previousAnswers == old(previousAnswers) && round == old(round)
            && player.answer == old(player.answer)
            && forall p :: p in players ==> p.answer == old(p.answer))
      && (Capitalize(text) !in old(allAnswers) && old(answersCount) + 1 != |players| ==>
            && o == Broadcast(AnswersView()) && answersCount == old(answersCount) + 1
            && allAnswers == old(allAnswers) && previousAnswers == old(previousAnswers) && round == old(round)
            && player.answer == Given(text)
            && forall p :: p in players && p != player ==> p.answer == old(p.answer))
      && (Capitalize(text) !in old(allAnswers) && old(answersCount) + 1 == |players| ==>
            var submitted := Submitted(old(AnswersOf(players)), players, player, text);
            && (AllGiven(submitted) ==>
                  && ResolvedFrom(old(allAnswers), old(round), old(previousAnswers), submitted, o)
                  && (player !in players ==> player.answer == Given(text)))
            && (!AllGiven(submitted) ==>
                  && o == Fault && answersCount == 0
                  && allAnswers == old(allAnswers) && previousAnswers == old(previousAnswers) && round == old(round)
                  && player.answer == Given(text)
                  && forall p :: p in players && p != player ==> p.answer == old(p.answer)))
    }

    /** `answer_init`, proved to have the effect `Answered` describes. */
    method AnswerInit(player: Player, text: string) returns (o: Outcome)
      modifies this`answersCount, this`allAnswers, this`previousAnswers, this`round, players`answer, player`answer
      ensures Answered(player, text, o)
    {
      if Capitalize(text) in allAnswers {
        return Duplicate;
      }
      ghost var submitted := Submitted(AnswersOf(players), players, player, text);
      player.answer := Given(text);
      answersCount := answersCount + 1;
      assert AnswersOf(players) == submitted;
      if answersCount == |players| {
        if AllGiven(AnswersOf(players)) {
          ghost var hints := previousAnswers;
          o := Result(submitted);
          ResolveRecordsAnswers(old(allAnswers), old(round), hints, players, submitted);
        } else {
          answersCount := 0;
          o := Fault;
        }
      } else {
        o := Broadcast(AnswersView());
      }
    }

    /**
     * `close`: every member goes back to the menu with no game and no answer,
     * and the code is removed from the registry.
     */
    method Close(reg: Registry)
      requires code in reg.games
      modifies players`inGame, players`answer, reg`games
      ensures reg.games == old(reg.games) - {code}
      ensures forall p :: p in players ==> p.inGame == None && p.answer == Pending
    {
      for i := 0 to |players|
        modifies players`inGame, players`answer
        invariant forall j :: 0 <= j < i ==> players[j].inGame == None && players[j].answer == Pending
      {
        players[i].inGame := None;
        players[i].answer := Pending;
      }
      reg.games := reg.games - {code};
    }

    /**
     * `leave`: the first occurrence of the player is removed (a player who is
     * not a member makes `list.remove` raise), their game and answer are
     * cleared, and the game is closed when nobody is left.  The answer count
     * is not touched.
     */
    method Leave(player: Player, reg: Registry) returns (o: Outcome)
      requires code in reg.games
      modifies this`players, player`inGame, player`answer, reg`games
      ensures answersCount == old(answersCount) && round == old(round) && allAnswers == old(allAnswers)
      ensures player !in old(players) ==>
                && o == Fault && players == old(players) && reg.games == old(reg.games)
                && player.inGame == old(player.inGame) && player.answer == old(player.answer)
      ensures player in old(players) ==>
                players == RemoveFirst(old(players), player) && player.inGame == None && player.answer == Pending
      ensures player in old(players) && players == [] ==> o == Closed && reg.games == old(reg.games) - {code}
      ensures player in old(players) && players != [] ==> o == Broadcast(PlayersView()) && reg.games == old(reg.games)
    {
      if player !in players {
        return Fault;
      }
      players := RemoveFirst(players, player);
      player.inGame := None;
      player.answer := Pending;
      if players == [] {
        Close(reg);
        o := Closed;
      } else {
        o := Broadcast(PlayersView());
      }
    }
  }

  /** The two class-level dicts: `Game.dct` (code to game) and `Player.dct` (user id to player). */
  class Registry {
    var games: map<string, Game>
    var players: map<int, Player>

    constructor ()
      ensures games == map[] && players == map[]
    {
      games := map[];
      players := map[];
    }

    /**
     * Every registered game is filed under its own code, which is a valid
     * code; it has at least one member; it has never started (nothing sets
     * `started`); its round number is at least 1.  Every player is filed
     * under their own id.
     */
    ghost predicate Valid()
      reads this, games.Values
    {
      && (forall c :: c in games ==>
            && games[c].code == c && IsCode(c) && games[c].players != []
            && !games[c].started && games[c].round >= 1)
      && (forall uid :: uid in players ==> players[uid].id == uid)
    }

    /** Every player listed in some registered game. */
    ghost function Members(): (ms: set<Player>)
      reads this, games.Values
      ensures forall c, q :: c in games && q in games[c].players ==> q in ms
    {
      set g, q | g in games.Values && q in g.players :: q
    }

    /** `Player.playercheck`: the known player, or a fresh one filed under `uid`. */
    method PlayerCheck(uid: int, name: string) returns (p: Player)
      requires Valid()
      modifies this`players
      ensures Valid()
      ensures uid in old(players) ==> p == old(players)[uid] && players == old(players)
      ensures uid !in old(players) ==>
                && fresh(p) && players == old(players)[uid := p]
                && p.id == uid && p.name == name
                && !p.codeWaiting && p.inGame == None && p.answer == Pending
    {
      if uid in players {
        p := players[uid];
      } else {
        p := new Player(uid, name);
        players := players[uid := p];
      }
    }

    /**
     * The `new_game` handler with `Game.__init__`: draw a fresh code, build
     * the game, add the owner as its first member and register it.
     */
    method NewGame(owner: Player, draws: seq<seq<nat>>) returns (g: Game)
      requires Valid()
      requires forall i :: 0 <= i < |draws| ==> IsDraw(draws[i])
      requires exists i :: 0 <= i < |draws| && Sample(draws[i]) !in games
      modifies this`games, owner`inGame
      ensures Valid()
      ensures fresh(g) && g.code !in old(games) && games == old(games)[g.code := g]
      ensures exists k :: 0 <= k < |draws| && g.code == Sample(draws[k]) &&
                          forall j :: 0 <= j < k ==> Sample(draws[j]) in old(games)
      ensures g.owner == owner && g.players == [owner] && owner.inGame == Some(g.code)
      ensures !g.started && g.answersCount == 0 && g.round == 1 && g.allAnswers == [] && g.previousAnswers == []
    {
      var code := GenerateCode(draws, games.Keys);
      g := new Game(owner, code);
      var _ := g.AddPlayer(owner);
      games := games[code := g];
    }
  }
}
