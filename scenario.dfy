/**
 * A complete game between two players, driven through the operations of
 * the engine and the handlers: A creates a game (the draw gives "WXYZ"),
 * B types the code, A starts, and the players answer until they match.
 */
module Scenario {
  import opened Wrappers
  import opened Text
  import opened Codes
  import opened Dict
  import opened Answers
  import opened Views
  import opened Engine
  import opened Handlers

  /** The capitalised forms of the words played in the game. */
  lemma Words()
    ensures Capitalize("Cat") == "Cat" && Capitalize("Dog") == "Dog"
    ensures Capitalize("Fish") == "Fish" && Capitalize("fish") == "Fish" && Capitalize("cAT") == "Cat"
  {
  }

  /** Two different members, listed once each, have their own answers recorded under their names. */
  lemma PairRecorded(a: Player, b: Player, x: Answer, y: Answer)
    requires a != b
    ensures RecordedValues([a, b], [x, y]) == [x, y]
    ensures Names([a, b]) == [a.name, b.name]
  {
  }

  /** Two assignments to an empty dict, under different keys, in order. */
  lemma PutPairEmpty<K, V>(k1: K, k2: K, v1: V, v2: V)
    requires k1 != k2
    ensures PutAll([], [k1, k2], [v1, v2]) == [(k1, v1), (k2, v2)]
  {
    assert [k1, k2][..1] == [k1] && [k1][..0] == [];
    assert [v1, v2][..1] == [v1] && [v1][..0] == [];
    assert PutAll([], [k1], [v1]) == [(k1, v1)];
    assert [(k1, v1)][1..] == [];
    assert Put([(k1, v1)], k2, v2) == [(k1, v1)] + Put([], k2, v2);
  }

  /** Two assignments to a dict holding exactly those keys overwrite both entries in place. */
  lemma PutPairOver<K, V>(k1: K, k2: K, u1: V, u2: V, v1: V, v2: V)
    requires k1 != k2
    ensures PutAll([(k1, u1), (k2, u2)], [k1, k2], [v1, v2]) == [(k1, v1), (k2, v2)]
  {
    assert [k1, k2][..1] == [k1] && [k1][..0] == [];
    assert [v1, v2][..1] == [v1] && [v1][..0] == [];
    assert PutAll([(k1, u1), (k2, u2)], [k1], [v1]) == Put([(k1, u1), (k2, u2)], k1, v1);
    assert [(k1, u1), (k2, u2)][1..] == [(k2, u2)];
    assert Put([(k1, u1), (k2, u2)], k1, v1) == [(k1, v1), (k2, u2)];
    assert [(k1, v1), (k2, u2)][1..] == [(k2, u2)] && [(k2, u2)][1..] == [];
    assert Put([(k1, v1), (k2, u2)], k2, v2) == [(k1, v1)] + Put([(k2, u2)], k2, v2);
  }

  /** The first round: "Cat" and "Dog" differ, so a second round begins with both shown. */
  lemma FirstRoundResolves(a: Player, b: Player)
    requires a != b && a.name == "A" && b.name == "B"
    ensures Resolve([], 1, [], [a, b], [Given("Cat"), Given("Dog")]) ==
            Resolution(false, ["Cat", "Dog"], 2, [("A", Given("Cat")), ("B", Given("Dog"))], Pending)
  {
    Words();
    PairRecorded(a, b, Given("Cat"), Given("Dog"));
    var rs := Normalized([Given("Cat"), Given("Dog")]);
    assert rs[0] == "Cat" && rs[1] == "Dog";
    assert rs == ["Cat", "Dog"];
    assert "A"[0] != "B"[0];
    PutPairEmpty("A", "B", Given("Cat"), Given("Dog"));
    var r := Resolve([], 1, [], [a, b], [Given("Cat"), Given("Dog")]);
    assert !r.finished;
    assert r.history == ["Cat", "Dog"] && r.round == 2 && r.reset == Pending;
    assert r.hints == [("A", Given("Cat")), ("B", Given("Dog"))];
  }

  /**
   * The second round: "Fish" and "fish" capitalise alike, so the game ends;
   * the entries of the previous answers are overwritten in place.
   */
  lemma SecondRoundFinishes(a: Player, b: Player)
    requires a != b && a.name == "A" && b.name == "B"
    ensures Resolve(["Cat", "Dog"], 2, [("A", Given("Cat")), ("B", Given("Dog"))], [a, b], [Given("Fish"), Given("fish")]) ==
            Resolution(true, [], 1, [("A", Given("Fish")), ("B", Given("fish"))], Cleared)
  {
    Words();
    PairRecorded(a, b, Given("Fish"), Given("fish"));
    var rs := Normalized([Given("Fish"), Given("fish")]);
    assert rs[0] == "Fish" && rs[1] == "Fish";
    assert "A"[0] != "B"[0];
    PutPairOver("A", "B", Given("Cat"), Given("Dog"), Given("Fish"), Given("fish"));
    var h := [("A", Given("Cat")), ("B", Given("Dog"))];
    var r := Resolve(["Cat", "Dog"], 2, h, [a, b], [Given("Fish"), Given("fish")]);
    assert r.finished;
    assert r.history == [] && r.round == 1 && r.reset == Cleared;
    assert r.hints == [("A", Given("Fish")), ("B", Given("fish"))];
  }

  /** A creates a game, and the draw "WXYZ" gives its code. */
  method CreateGame() returns (reg: Registry, g: Game, a: Player)
    ensures fresh(reg) && fresh(g) && fresh(a)
    ensures reg.Valid() && reg.games == map["WXYZ" := g]
    ensures g.code == "WXYZ" && g.owner == a && g.players == [a]
    ensures a.name == "A" && a.inGame == Some("WXYZ") && a.answer == Pending
    ensures g.answersCount == 0 && g.round == 1 && g.allAnswers == [] && g.previousAnswers == []
  {
    reg := new Registry();
    a := new Player(1, "A");
    var draws: seq<seq<nat>> := [[22, 23, 24, 25]];
    assert IsDraw(draws[0]) && Sample(draws[0]) !in reg.games;
    g := reg.NewGame(a, draws);
    assert Sample([22, 23, 24, 25]) == "WXYZ";
  }

  /** B joins the game A created, by typing its code. */
  method Setup() returns (reg: Registry, g: Game, a: Player, b: Player, lobby: Outcome)
    ensures fresh(g) && fresh(a) && fresh(b) && a != b
    ensures reg.Valid() && reg.games == map["WXYZ" := g]
    ensures g.code == "WXYZ" && g.players == [a, b] && a.name == "A" && b.name == "B"
    ensures a.inGame == Some("WXYZ") && b.inGame == Some("WXYZ")
    ensures a.answer == Pending && b.answer == Pending
    ensures g.answersCount == 0 && g.round == 1 && g.allAnswers == [] && g.previousAnswers == []
    ensures lobby == Broadcast(Lobby("WXYZ", ["A", "B"]))
  {
    reg, g, a := CreateGame();
    b := new Player(2, "B");
    JoinInit(b);
    lobby := JoinGame(reg, b, "WXYZ");
    assert Names([a, b]) == ["A", "B"];
  }

  /** The registry holds the one game "WXYZ", whose members are A and B. */
  lemma OneGame(reg: Registry, g: Game, a: Player, b: Player)
    requires reg.games == map["WXYZ" := g] && g.players == [a, b]
    ensures reg.games.Values == {g} && reg.Members() == {a, b}
  {
    assert reg.games["WXYZ"] == g;
    assert a in reg.Members() && b in reg.Members();
  }

  /** An accepted answer from the first member of a two-member round is only counted. */
  method AnswerFirst(reg: Registry, g: Game, a: Player, b: Player, text: string) returns (o: Outcome)
    requires reg.Valid() && reg.games == map["WXYZ" := g]
    requires a != b && g.players == [a, b] && a.inGame == Some("WXYZ")
    requires a.answer == Pending && b.answer == Pending
    requires g.answersCount == 0 && Capitalize(text) !in g.allAnswers
    modifies g`answersCount, g`allAnswers, g`previousAnswers, g`round, a`answer, b`answer
    ensures reg.Valid() && a.answer == Given(text) && b.answer == Pending
    ensures g.answersCount == 1 && g.round == old(g.round)
    ensures g.allAnswers == old(g.allAnswers) && g.previousAnswers == old(g.previousAnswers)
    ensures o.Broadcast? && o.view.Round? && o.view.round == g.round
  {
    OneGame(reg, g, a, b);
    o := SetAnswer(reg, a, text);
  }

  /** The second member's accepted answer resolves a two-member round. */
  method AnswerSecond(reg: Registry, g: Game, a: Player, b: Player, x: string, text: string) returns (o: Outcome)
    requires reg.Valid() && reg.games == map["WXYZ" := g]
    requires a != b && g.players == [a, b] && b.inGame == Some("WXYZ")
    requires a.answer == Given(x) && b.answer == Pending
    requires g.answersCount == 1 && Capitalize(text) !in g.allAnswers
    modifies g`answersCount, g`allAnswers, g`previousAnswers, g`round, a`answer, b`answer
    ensures reg.Valid()
    ensures g.ResolvedFrom(old(g.allAnswers), old(g.round), old(g.previousAnswers), [Given(x), Given(text)], o)
  {
    OneGame(reg, g, a, b);
    assert AnswersOf([a, b]) == [Given(x), Pending];
    ghost var submitted := Submitted([Given(x), Pending], [a, b], b, text);
    assert submitted == [Given(x), Given(text)];
    o := SetAnswer(reg, b, text);
  }

  /** The answers view at the start of round 2: both round-1 answers shown, nobody marked. */
  lemma RoundTwoView(g: Game, a: Player, b: Player)
    requires g.players == [a, b] && a.name == "A" && b.name == "B"
    requires a.answer == Pending && b.answer == Pending
    requires g.round == 2 && g.previousAnswers == [("A", Given("Cat")), ("B", Given("Dog"))]
    ensures g.AnswersView() == Round(g.code, 2, [("A", Given("Cat")), ("B", Given("Dog"))],
                                     [Mark("A", false), Mark("B", false)])
  {
    var v := g.AnswersView();
    assert |v.marks| == 2 && v.marks[0] == Mark("A", false) && v.marks[1] == Mark("B", false);
    assert v.marks == [Mark("A", false), Mark("B", false)];
    assert v == Round(v.code, v.round, v.hints, v.marks);
  }

  /** Round 1 of the game built by `Setup`: A says "Cat", B says "Dog", and round 2 begins. */
  method RoundOne(reg: Registry, g: Game, a: Player, b: Player) returns (first: Outcome, second: Outcome)
    requires reg.Valid() && reg.games == map["WXYZ" := g]
    requires a != b && g.players == [a, b] && a.name == "A" && b.name == "B"
    requires a.inGame == Some("WXYZ") && b.inGame == Some("WXYZ")
    requires a.answer == Pending && b.answer == Pending
    requires g.answersCount == 0 && g.round == 1 && g.allAnswers == [] && g.previousAnswers == []
    modifies g`answersCount, g`allAnswers, g`previousAnswers, g`round, a`answer, b`answer
    ensures reg.Valid() && a.answer == Pending && b.answer == Pending
    ensures g.answersCount == 0 && g.round == 2 && g.allAnswers == ["Cat", "Dog"]
    ensures g.previousAnswers == [("A", Given("Cat")), ("B", Given("Dog"))]
    ensures first.Broadcast? && first.view.Round? && first.view.round == 1
    ensures second == Broadcast(Round(g.code, 2, [("A", Given("Cat")), ("B", Given("Dog"))],
                                      [Mark("A", false), Mark("B", false)]))
  {
    Words();
    first := AnswerFirst(reg, g, a, b, "Cat");
    second := AnswerSecond(reg, g, a, b, "Cat", "Dog");
    FirstRoundResolves(a, b);
    assert a.answer == Pending && b.answer == Pending && g.round == 2;
    assert second == Broadcast(g.AnswersView());
    RoundTwoView(g, a, b);
  }

  /**
   * Round 2: "cAT" is refused as a repeat of "Cat"; then A says "Fish" and
   * B says "fish", which match, and the game ends after 2 rounds.
   */
  method RoundTwo(reg: Registry, g: Game, a: Player, b: Player) returns (refused: Outcome, first: Outcome, summary: Outcome)
    requires reg.Valid() && reg.games == map["WXYZ" := g]
    requires a != b && g.players == [a, b] && a.name == "A" && b.name == "B"
    requires a.inGame == Some("WXYZ") && b.inGame == Some("WXYZ")
    requires a.answer == Pending && b.answer == Pending
    requires g.answersCount == 0 && g.round == 2 && g.allAnswers == ["Cat", "Dog"]
    requires g.previousAnswers == [("A", Given("Cat")), ("B", Given("Dog"))]
    modifies g`answersCount, g`allAnswers, g`previousAnswers, g`round, a`answer, b`answer
    ensures reg.Valid() && a.answer == Cleared && b.answer == Cleared
    ensures g.answersCount == 0 && g.round == 1 && g.allAnswers == []
    ensures g.previousAnswers == [("A", Given("Fish")), ("B", Given("fish"))]
    ensures refused == Duplicate
    ensures first.Broadcast? && first.view.Round? && first.view.round == 2
    ensures summary == Broadcast(Summary(2, [("A", Given("Fish")), ("B", Given("fish"))], g.code))
  {
    Words();
    OneGame(reg, g, a, b);
    refused := SetAnswer(reg, a, "cAT");
    assert g.answersCount == 0 && g.allAnswers == ["Cat", "Dog"] && g.round == 2;
    assert a.answer == Pending && b.answer == Pending;
    first := AnswerFirst(reg, g, a, b, "Fish");
    summary := AnswerSecond(reg, g, a, b, "Fish", "fish");
    SecondRoundFinishes(a, b);
  }

  /**
   * Round 1: A says "Cat", B says "Dog" and the game moves to round 2 with
   * both answers shown.  Round 2: "cAT" is refused, because it capitalises to
   * the "Cat" of round 1; then A says "Fish" and B says "fish", which match.
   * The summary reports 2 rounds and the last answers by name, and the
   * history is cleared.
   */
  method TwoPlayerGame() returns (lobby: Outcome, started: Outcome, second: Outcome, refused: Outcome, summary: Outcome)
    ensures lobby == Broadcast(Lobby("WXYZ", ["A", "B"]))
    ensures started.Broadcast? && started.view.Round? && started.view.round == 1 && started.view.hints == []
    ensures second == Broadcast(Round("WXYZ", 2, [("A", Given("Cat")), ("B", Given("Dog"))],
                                      [Mark("A", false), Mark("B", false)]))
    ensures refused == Duplicate
    ensures summary == Broadcast(Summary(2, [("A", Given("Fish")), ("B", Given("fish"))], "WXYZ"))
  {
    var reg, g, a, b;
    reg, g, a, b, lobby := Setup();
    started := StartGame(reg, a);
    var first;
    first, second := RoundOne(reg, g, a, b);
    refused, first, summary := RoundTwo(reg, g, a, b);
  }

  /**
   * The owner of a game nobody else joined leaves it: the game is closed,
   * its code leaves the registry, and typing that code afterwards is refused.
   */
  method SoleMemberLeaves() returns (left: Outcome, joined: Outcome)
    ensures left == Closed
    ensures joined == Rejected(NoSuchGame)
  {
    var reg, g, a := CreateGame();
    left := LeaveGame(reg, a);
    assert "WXYZ" !in reg.games;
    var b := new Player(2, "B");
    JoinInit(b);
    joined := JoinGame(reg, b, "WXYZ");
  }
}
