/** The game engine (shared/logic/gameEngine.ts) is not part of this model: its functions are
    supplied as values, and what its test suite asserts about them is stated as contracts.
    A random choice inside the engine is folded into the function value supplied. */
module GameEngine {

  import opened Wrappers
  import opened Strings
  import opened Types

  /** A player action: `type` is `drink`, `use_item` or `steal`. */
  datatype PlayerAction = PlayerAction(kind: string, targetPlayerId: Option<string>, itemType: Option<ItemType>)

  datatype TurnOutcome = TurnOutcome(updatedGame: GameState, actionMessage: ActionMessage)

  /** The engine's entry points, uninterpreted. */
  datatype Engine = Engine(
    initializeGame: seq<Contestant> -> GameState,
    startRound: (GameState, int) -> GameState,
    playTurn: (GameState, PlayerAction) -> TurnOutcome,
    nextRound: (GameState, int) -> GameState,
    skipIfChained: (GameState, Contestant) -> Option<TurnOutcome>,
    refillChambers: GameState -> GameState)

  /** What the tests assert of `initializeGame(players)`. */
  ghost predicate InitializeGameContract(ps: seq<Contestant>, g: GameState) {
    && |g.players| == |ps|
    && (forall i :: 0 <= i < |ps| ==> g.players[i].id == ps[i].id)
    && g.gameState == Loading
    && g.goblets == []
    && |g.scoreChart| == |ps|
    && (forall i :: 0 <= i < |ps| ==> g.scoreChart[i] == Score(ps[i].id, ps[i].name, 0))
    && (|ps| > 0 ==> 0 <= g.activePlayerIndex < |ps|)
  }

  /** What the tests assert of `startRound(g, round)`. */
  ghost predicate StartRoundContract(g: GameState, round: int, r: GameState) {
    && r.gameState == Playing
    && |r.goblets| > 0
    && r.gobletsRemaining == |r.goblets|
    && r.currentGobletIndex == 0
    && r.currentRound.round == round
    && multiset(r.goblets)[true] == r.currentRound.poisnousGoblets
    && multiset(r.goblets)[false] == r.currentRound.holyGoblets
    && |r.players| == |g.players|
    && (forall i :: 0 <= i < |g.players| ==> r.players[i].id == g.players[i].id)
    && (round == 1 ==> forall i :: 0 <= i < |r.players| ==> r.players[i].lives == 3 && |r.players[i].items| > 0)
  }

  /** The result message of `m` contains "not found". */
  ghost predicate ReportsNotFound(m: ActionMessage) {
    m.result.Some? && Contains(m.result.value, "not found")
  }

  /** What the tests assert of `playTurn(g, drink at targetId)` when the target exists. */
  ghost predicate DrinkContract(g: GameState, targetId: string, out: TurnOutcome)
    requires HasActive(g) && 0 <= g.currentGobletIndex < |g.goblets|
  {
    var a, u := g.activePlayerIndex, out.updatedGame;
    var actor := g.players[a];
    var poisonous := g.goblets[g.currentGobletIndex];
    var amplified := AMPLIFIED in actor.statusEffects;
    && |u.players| == |g.players|
    && |u.scoreChart| == |g.scoreChart|
    && u.currentGobletIndex == g.currentGobletIndex + 1
    && u.gobletsRemaining == g.gobletsRemaining - 1
    && out.actionMessage.result == Some(if poisonous then "POISON" else "HOLY")
    && (forall t :: 0 <= t < |g.players| && g.players[t].id == targetId && poisonous ==>
          u.players[t].lives == g.players[t].lives - (if amplified then 2 else 1))
    && (poisonous && amplified ==> AMPLIFIED !in u.players[a].statusEffects)
    && (forall i :: 0 <= i < |g.scoreChart| && g.scoreChart[i].playerId == actor.id ==>
          (targetId == actor.id ==> u.scoreChart[i].score == g.scoreChart[i].score + 5)
          && (targetId != actor.id && poisonous ==> u.scoreChart[i].score == g.scoreChart[i].score + 4))
    && (|g.players| == 2 && a == 0 && poisonous && targetId != actor.id ==> u.activePlayerIndex == 1)
  }

  /** What the tests assert of `playTurn(g, action)`. */
  ghost predicate PlayTurnContract(g: GameState, action: PlayerAction, out: TurnOutcome) {
    && (action.kind == "drink" && action.targetPlayerId.Some? ==>
          var target := action.targetPlayerId.value;
          && (!HasContestant(g.players, target) ==> ReportsNotFound(out.actionMessage) && out.updatedGame == g)
          && (HasContestant(g.players, target) && HasActive(g) && 0 <= g.currentGobletIndex < |g.goblets| ==>
                DrinkContract(g, target, out)))
    && (action.kind == "use_item" && action.itemType.Some? && HasActive(g) ==>
          var item, a, u := action.itemType.value, g.activePlayerIndex, out.updatedGame;
          && (item !in g.players[a].items ==> ReportsNotFound(out.actionMessage))
          && (item == SOVEREIGN_POTION && item in g.players[a].items ==>
                && |u.players| == |g.players|
                && u.players[a].lives == g.players[a].lives + 1
                && out.actionMessage.result == Some("HEALED")
                && (multiset(g.players[a].items)[item] == 1 ==> item !in u.players[a].items)))
  }

  /** The engine behaves as its tests assert. */
  ghost predicate Tested(e: Engine) {
    && (forall ps :: InitializeGameContract(ps, e.initializeGame(ps)))
    && (forall g, n :: StartRoundContract(g, n, e.startRound(g, n)))
    && (forall g, action :: PlayTurnContract(g, action, e.playTurn(g, action)))
  }

  /** A chamber has as many goblets as poisonous and holy ones together. */
  lemma {:induction false} GobletCounts(s: seq<bool>)
    ensures |s| == multiset(s)[true] + multiset(s)[false]
  {
    if |s| > 0 {
      assert s == [s[0]] + s[1..];
      var m, rest := multiset(s), multiset(s[1..]);
      assert m == multiset{s[0]} + rest;
      GobletCounts(s[1..]);
      if s[0] {
        assert m[true] == rest[true] + 1 && m[false] == rest[false];
      } else {
        assert m[false] == rest[false] + 1 && m[true] == rest[true];
      }
    }
  }

  /** A started round is a consistent, full chamber of exactly the configured composition. */
  lemma StartedRoundChamber(g: GameState, round: int, r: GameState)
    requires StartRoundContract(g, round, r)
    ensures GobletsConsistent(r)
    ensures |r.goblets| == r.currentRound.poisnousGoblets + r.currentRound.holyGoblets > 0
  {
    GobletCounts(r.goblets);
  }

  /** A drink consumes exactly one goblet: the index and the remaining count move in lock-step. */
  lemma DrinkConsumesOneGoblet(g: GameState, target: string, out: TurnOutcome)
    requires HasActive(g) && 0 <= g.currentGobletIndex < |g.goblets|
    requires DrinkContract(g, target, out)
    ensures out.updatedGame.currentGobletIndex + out.updatedGame.gobletsRemaining
         == g.currentGobletIndex + g.gobletsRemaining
  {
  }
}
