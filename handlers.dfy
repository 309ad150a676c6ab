/**
 * The bot's update handlers, each taking the player `Player.playercheck`
 * resolved for the update.  Every notice the source sends back (a message
 * edit, a callback answer) is the handler's `Outcome`.
 */
module Handlers {
  import opened Wrappers
  import opened Text
  import opened Answers
  import opened Views
  import opened Engine

  /** The message handler a text message reaches, in the order they are registered. */
  datatype Route =
    /** the admin-only `/status` dump */
    | StatusCommand
    /** the `/start` menu */
    | StartCommand
    /** `join_game`: the text is taken as a game code */
    | JoinRoute
    /** `set_answer`: the text is taken as the player's answer */
    | AnswerRoute
    /** no handler matches */
    | Unhandled

  /**
   * aiogram tries the message handlers in registration order and runs the
   * first whose filter matches.  `join_game` matches while the player is
   * waiting for a code; `set_answer` matches when the player is in a game
   * and their slot is falsy (`None`, `False` or the empty string).
   */
  function RouteMessage(isAdminStatus: bool, isStartCommand: bool,
                        codeWaiting: bool, inGame: Option<string>, answer: Answer): (r: Route)
    ensures r == StatusCommand <==> isAdminStatus
    ensures r == StartCommand <==> !isAdminStatus && isStartCommand
    ensures r == JoinRoute <==> !isAdminStatus && !isStartCommand && codeWaiting
    ensures r == AnswerRoute <==>
              !isAdminStatus && !isStartCommand && !codeWaiting && inGame.Some? && !Truthy(answer)
  {
    if isAdminStatus then StatusCommand
    else if isStartCommand then StartCommand
    else if codeWaiting then JoinRoute
    else if inGame.Some? && !Truthy(answer) then AnswerRoute
    else Unhandled
  }

  /** `join_init`: the next text message is read as a game code. */
  method JoinInit(player: Player)
    modifies player`codeWaiting
    ensures player.codeWaiting
  {
    player.codeWaiting := true;
  }

  /**
   * The `start` callback.  Any member may press it (there is no owner
   * check), and only a game of exactly one member is refused as too small.
   */
  method StartGame(reg: Registry, player: Player) returns (o: Outcome)
    ensures player.inGame.None? || player.inGame.value !in reg.games ==> o == Rejected(NoSuchGame)
    ensures player.inGame.Some? && player.inGame.value in reg.games ==>
              var g := reg.games[player.inGame.value];
              o == if g.started then Rejected(AlreadyStarted)
                   else if |g.players| == 1 then Rejected(TooFewPlayers)
                   else Broadcast(g.AnswersView())
    ensures reg.Valid() ==> o != Rejected(AlreadyStarted)
  {
    if player.inGame.None? || player.inGame.value !in reg.games {
      return Rejected(NoSuchGame);
    }
    var g := reg.games[player.inGame.value];
    if g.started {
      o := Rejected(AlreadyStarted);
    } else if |g.players| == 1 {
      o := Rejected(TooFewPlayers);
    } else {
      o := g.Start();
    }
  }

  /**
   * The `leave` callback: refused when the player's game is gone or has
   * started; otherwise `Game.leave`.
   */
  method LeaveGame(reg: Registry, player: Player) returns (o: Outcome)
    requires reg.Valid()
    modifies reg`games, reg.games.Values`players, player`inGame, player`answer
    ensures reg.Valid()
    ensures old(player.inGame).None? || old(player.inGame).value !in old(reg.games) ==>
              o == Rejected(NoSuchGame) && reg.games == old(reg.games) &&
              player.inGame == old(player.inGame) && player.answer == old(player.answer)
    ensures old(player.inGame).Some? && old(player.inGame).value in old(reg.games) ==>
              var code := old(player.inGame).value;
              var g := old(reg.games)[code];
              && (player !in old(g.players) ==>
                    && o == Fault && reg.games == old(reg.games) && g.players == old(g.players)
                    && player.inGame == old(player.inGame) && player.answer == old(player.answer))
              && (player in old(g.players) ==>
                    && g.players == RemoveFirst(old(g.players), player)
                    && player.inGame == None && player.answer == Pending
                    && (g.players == [] ==> o == Closed && reg.games == old(reg.games) - {code})
                    && (g.players != [] ==> o == Broadcast(g.PlayersView()) && reg.games == old(reg.games)))
    ensures forall c :: c in reg.games && old(player.inGame) != Some(c) ==> reg.games[c].players == old(reg.games[c].players)
  {
    if player.inGame.None? || player.inGame.value !in reg.games {
      return Rejected(NoSuchGame);
    }
    var g := reg.games[player.inGame.value];
    if g.started {
      o := Rejected(AlreadyStarted);
    } else {
      o := g.Leave(player, reg);
    }
  }

  /**
   * `join_game`: the text is looked up as a code.  An unknown code or a
   * started game is refused and the player keeps waiting for a code;
   * otherwise the player is appended to the game and stops waiting.
   */
  method JoinGame(reg: Registry, player: Player, text: string) returns (o: Outcome)
    requires reg.Valid()
    modifies reg.games.Values`players, player`inGame, player`codeWaiting
    ensures reg.Valid() && reg.games == old(reg.games)
    ensures forall c :: c in reg.games && c != text ==> reg.games[c].players == old(reg.games[c].players)
    ensures text !in reg.games ==>
              o == Rejected(NoSuchGame) && player.codeWaiting == old(player.codeWaiting) &&
              player.inGame == old(player.inGame)
    ensures text in reg.games ==>
              var g := reg.games[text];
              && g.players == old(g.players) + [player]
              && player.inGame == Some(text) && !player.codeWaiting
              && o == Broadcast(g.PlayersView())
  {
    if text !in reg.games {
      return Rejected(NoSuchGame);
    }
    var g := reg.games[text];
    if g.started {
      o := Rejected(AlreadyStarted);
    } else {
      o := g.AddPlayer(player);
      player.codeWaiting := false;
    }
  }

  /**
   * `set_answer`: taken only from a player in a game whose slot is falsy.
   * The game is looked up by the player's code (a missing one raises
   * `KeyError`), and the text goes to `Game.answer_init`, with the effect
   * `Game.Answered` states.  No other game changes, and no slot changes but
   * the player's and those of that game's members.
   */
  method SetAnswer(reg: Registry, player: Player, text: string) returns (o: Outcome)
    requires reg.Valid()
    modifies reg.games.Values`answersCount, reg.games.Values`allAnswers,
             reg.games.Values`previousAnswers, reg.games.Values`round,
             reg.Members()`answer, player`answer
    ensures reg.Valid() && reg.games == old(reg.games)
    ensures forall c :: c in reg.games && old(player.inGame) != Some(c) ==>
              && reg.games[c].answersCount == old(reg.games[c].answersCount)
              && reg.games[c].allAnswers == old(reg.games[c].allAnswers)
              && reg.games[c].previousAnswers == old(reg.games[c].previousAnswers)
              && reg.games[c].round == old(reg.games[c].round)
    ensures old(player.inGame).None? || Truthy(old(player.answer)) || old(player.inGame).value !in reg.games ==>
              && o == (if old(player.inGame).Some? && !Truthy(old(player.answer)) then Fault else Ignored)
              && player.answer == old(player.answer)
              && (forall c, q :: c in reg.games && q in reg.games[c].players ==> q.answer == old(q.answer))
              && (forall c :: c in reg.games ==>
                    && reg.games[c].answersCount == old(reg.games[c].answersCount)
                    && reg.games[c].allAnswers == old(reg.games[c].allAnswers)
                    && reg.games[c].previousAnswers == old(reg.games[c].previousAnswers)
                    && reg.games[c].round == old(reg.games[c].round))
    ensures old(player.inGame).Some? && !Truthy(old(player.answer)) && old(player.inGame).value in reg.games ==>
              var g := reg.games[old(player.inGame).value];
              && g.Answered(player, text, o)
              && (forall c, q :: c in reg.games && q in reg.games[c].players && q != player && q !in g.players ==>
                    q.answer == old(q.answer))
  {
    if player.inGame.None? || Truthy(player.answer) {
      return Ignored;
    }
    var code := player.inGame.value;
    if code !in reg.games {
      return Fault;
    }
    o := AnswerInGame(reg, code, reg.games[code], player, text);
  }

  /**
   * The branch of `set_answer` that reaches `Game.answer_init`: the game
   * `g` filed under `code` changes as `Game.Answered` states, and no other
   * game changes.
   */
  method AnswerInGame(reg: Registry, code: string, g: Game, player: Player, text: string) returns (o: Outcome)
    requires reg.Valid() && code in reg.games && reg.games[code] == g
    modifies g`answersCount, g`allAnswers, g`previousAnswers, g`round, g.players`answer, player`answer
    ensures reg.Valid()
    ensures g.Answered(player, text, o)
    ensures forall c :: c in reg.games && c != code ==>
              && reg.games[c].answersCount == old(reg.games[c].answersCount)
              && reg.games[c].allAnswers == old(reg.games[c].allAnswers)
              && reg.games[c].previousAnswers == old(reg.games[c].previousAnswers)
              && reg.games[c].round == old(reg.games[c].round)
  {
    assert forall c :: c in reg.games && c != code ==> reg.games[c] != g;
    o := g.AnswerInit(player, text);
    assert g.round >= 1;
  }
}
