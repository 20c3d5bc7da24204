/** Turn orchestration (backend/src/rooms/turnManager.ts): before each turn, a fixed-priority
    chain decides whether to wait, end the round, skip, offer a steal, refill or let the player
    drink. The decision is the function `PlanTurn`, which also names the game to persist;
    `HandlePlayerTurn` carries it out against the room store. */
module Turns {

  import opened Wrappers
  import opened Strings
  import opened Types
  import opened Seqs
  import opened GameEngine
  import opened Repository
  import opened Rooms
  import opened Connections

  /** What `handlePlayerTurn` returns. */
  datatype TurnResult = TurnResult(game: GameState, actionMessage: ActionMessage, delay: int)

  /** What `checkDeathsAndAdvance` returns. */
  datatype DeathCheck = DeathCheck(actionMessage: ActionMessage, updatedGame: Option<GameState>)

  /** A step: the game it writes to the room (at most once), and what it returns or throws.
      A write happens before a throw that follows it. */
  datatype Step<T> = Step(persist: Option<GameState>, outcome: Result<T>)

  const NO_ROOM: ActionMessage := Note("error", Some("No room found."))

  /** The message a JavaScript read of a field of `undefined` throws. */
  const READ_OF_UNDEFINED: string := "Cannot read properties of undefined (reading 'id')"

  function IsDead(): Contestant -> bool {
    (c: Contestant) => c.lives <= 0
  }

  function Names(cs: seq<Contestant>): (r: seq<string>)
    ensures |r| == |cs| && forall i :: 0 <= i < |cs| ==> r[i] == cs[i].name
  {
    seq(|cs|, i requires 0 <= i < |cs| => cs[i].name)
  }

  /** `checkDeathsAndAdvance(roomId, game)` given the stored room: with a dead contestant the
      next round is written and announced (or "Game Over!"); otherwise nothing is written. */
  function CheckDeathsAndAdvance(room: Option<RoomData>, game: GameState, e: Engine): (r: Step<DeathCheck>)
    ensures room.None? ==> r == Step(None, Success(DeathCheck(NO_ROOM, None)))
    ensures room.Some? && (exists i :: 0 <= i < |game.players| && game.players[i].lives <= 0) ==>
      && r.persist == Some(e.nextRound(game, game.currentRound.round + 1))
      && (r.outcome.Success? ==>
            && r.outcome.value.updatedGame == r.persist
            && r.outcome.value.actionMessage.kind == (if r.persist.value.gameState == GameOver then "message" else "announce"))
      && (r.outcome.Failure? <==> r.persist.value.gameState != GameOver && !HasActive(r.persist.value))
    ensures room.Some? && (forall i :: 0 <= i < |game.players| ==> game.players[i].lives > 0) ==>
      r == Step(None, Success(DeathCheck(Note("continue", Some("No deaths yet.")),
        Some(if room.value.gameState.Some? then room.value.gameState.value else game))))
  {
    var dead := Filter(game.players, IsDead());
    assert |dead| > 0 <==> exists i :: 0 <= i < |game.players| && game.players[i].lives <= 0 by {
      assert forall i :: 0 <= i < |game.players| ==> (IsDead()(game.players[i]) <==> game.players[i].lives <= 0);
      if |dead| > 0 {
        assert IsDead()(dead[0]) && dead[0] in game.players;
        var i :| 0 <= i < |game.players| && game.players[i] == dead[0];
        assert game.players[i].lives <= 0;
      }
    }
    if room.None? then Step(None, Success(DeathCheck(NO_ROOM, None)))
    else if |dead| > 0 then
      var nextround := game.currentRound.round + 1;
      var next := e.nextRound(game, nextround);
      if next.gameState != GameOver then
        if !HasActive(next) then Step(Some(next), Failure(READ_OF_UNDEFINED))
        else
          var text := Strings.Join(Names(dead), ", ") + " lost the round. Round " + IntToString(nextround) + " has "
            + IntToString(next.currentRound.poisnousGoblets) + " poisnous and "
            + IntToString(next.currentRound.holyGoblets) + " holy goblets.";
          Step(Some(next), Success(DeathCheck(
            ActionMessage("announce", None, Some(next.players[next.activePlayerIndex].id), None, Some(text)), Some(next))))
      else Step(Some(next), Success(DeathCheck(Note("message", Some("Game Over!")), Some(next))))
    else
      Step(None, Success(DeathCheck(Note("continue", Some("No deaths yet.")),
        Some(if room.value.gameState.Some? then room.value.gameState.value else game))))
  }

  /** The active contestant's stored connection state exists and is not `connected`; a
      missing state counts as connected. */
  predicate AwaitingReconnect(room: RoomData, game: GameState)
    requires HasActive(game)
  {
    var s := StateOf(room.connectionStates, game.players[game.activePlayerIndex].id);
    s.Some? && s.value.status != Connected
  }

  /** `handlePlayerTurn(roomId, game)` given the stored room. With no active contestant the
      code reads `active.id` only inside the search of the connection states, so it throws
      only when the room has at least one state; the model fails in either case, which
      differs only for a room with no connection states, and a room that keeps the room
      invariant has a state for each of its members. */
  function PlanTurn(room: Option<RoomData>, game: GameState, e: Engine): (r: Step<TurnResult>)
    ensures (room.None? || room.value.gameState.None?) ==> r == Step(None, Success(TurnResult(game, NO_ROOM, 0)))
    ensures r.outcome.Success? && r.persist.Some? ==> r.outcome.value.game == r.persist.value
    ensures r.outcome.Success? ==> (r.persist.Some? ==> r.outcome.value.delay == 5000)
    ensures r.outcome.Success? ==> r.outcome.value.delay in {0, 3000, 5000}
  {
    if room.None? || room.value.gameState.None? then Step(None, Success(TurnResult(game, NO_ROOM, 0)))
    else if !HasActive(game) then Step(None, Failure(READ_OF_UNDEFINED))
    else
      var stored := room.value.gameState.value;
      var active := game.players[game.activePlayerIndex];
      if AwaitingReconnect(room.value, game) then
        Step(None, Success(TurnResult(stored,
          ActionMessage("announce", None, Some(active.id), None, Some(active.name + " disconnected. Waiting to reconnect...")), 3000)))
      else
        var deaths := CheckDeathsAndAdvance(room, game, e);
        if deaths.outcome.Failure? then Step(deaths.persist, Failure(deaths.outcome.error))
        else if deaths.outcome.value.actionMessage.kind in {"announce", "message"} then
          var g := if deaths.outcome.value.updatedGame.Some? then deaths.outcome.value.updatedGame.value else stored;
          Step(deaths.persist, Success(TurnResult(g, deaths.outcome.value.actionMessage, 5000)))
        else
          match e.skipIfChained(game, active)
          case Some(skip) => Step(Some(skip.updatedGame), Success(TurnResult(skip.updatedGame, skip.actionMessage, 5000)))
          case None =>
            if THIEF in active.statusEffects then Step(None, Success(TurnResult(stored, Note("canSteal", None), 0)))
            else if game.gobletsRemaining == 0 && game.gameState == Playing then
              var refilled := e.refillChambers(game);
              var text := "Guard refills the goblets. It has " + IntToString(refilled.currentRound.holyGoblets) + " holy and "
                + IntToString(refilled.currentRound.poisnousGoblets) + " poisoned goblets.";
              Step(Some(refilled), Success(TurnResult(refilled, ActionMessage("refill", None, Some(active.id), None, Some(text)), 5000)))
            else Step(None, Success(TurnResult(stored, Note("canDrink", None), 0)))
  }

  /** The chain's priorities. With a room and an active contestant: a disconnected active
      contestant waits and nothing is written; otherwise a death writes the next round; otherwise a
      chained contestant's skip is written; otherwise a thief may steal, a spent chamber under
      play is refilled and written, and anyone else may drink, the last three in that order. */
  lemma TurnPriorities(room: RoomData, game: GameState, e: Engine)
    requires room.gameState.Some? && HasActive(game)
    ensures var r := PlanTurn(Some(room), game, e);
      var active := game.players[game.activePlayerIndex];
      var dead := exists i :: 0 <= i < |game.players| && game.players[i].lives <= 0;
      var next := e.nextRound(game, game.currentRound.round + 1);
      var skip := e.skipIfChained(game, active);
      && (AwaitingReconnect(room, game) ==>
            r.persist.None? && r.outcome.Success? && r.outcome.value.delay == 3000
            && r.outcome.value.game == room.gameState.value && r.outcome.value.actionMessage.kind == "announce")
      && (!AwaitingReconnect(room, game) && dead ==>
            r.persist == Some(next)
            && (r.outcome.Success? ==> r.outcome.value.game == next && r.outcome.value.delay == 5000))
      && (!AwaitingReconnect(room, game) && !dead && skip.Some? ==>
            r == Step(Some(skip.value.updatedGame), Success(TurnResult(skip.value.updatedGame, skip.value.actionMessage, 5000))))
      && (!AwaitingReconnect(room, game) && !dead && skip.None? ==> r.persist.None? || r.persist == Some(e.refillChambers(game)))
      && (!AwaitingReconnect(room, game) && !dead && skip.None? && THIEF in active.statusEffects ==>
            r == Step(None, Success(TurnResult(room.gameState.value, Note("canSteal", None), 0))))
      && (!AwaitingReconnect(room, game) && !dead && skip.None? && THIEF !in active.statusEffects ==>
            (game.gobletsRemaining == 0 && game.gameState == Playing <==> r.persist.Some?)
            && (r.persist.None? ==> r == Step(None, Success(TurnResult(room.gameState.value, Note("canDrink", None), 0)))))
  {
  }

  /** `handlePlayerTurn` against the store: the write `PlanTurn` names is made with
      `updateGameState`, and nothing else changes. */
  method HandlePlayerTurn(rooms: RoomManager, roomId: string, game: GameState, e: Engine) returns (r: Result<TurnResult>)
    modifies rooms.repo
    ensures var step := PlanTurn(old(rooms.repo.Lookup(roomId)), game, e);
      && r == step.outcome
      && (step.persist.None? ==> unchanged(rooms.repo))
      && (step.persist.Some? ==>
            var room := old(rooms.repo.store)[RoomKey(roomId)].(gameState := step.persist);
            rooms.repo.store == old(rooms.repo.store)[RoomKey(roomId) := room]
            && rooms.repo.publicRoomIds == ListedAfterSave(old(rooms.repo.publicRoomIds), roomId, room))
  {
    var room := rooms.GetRoom(roomId);
    var step := PlanTurn(room, game, e);
    if step.persist.Some? {
      var _ := rooms.UpdateGameState(roomId, step.persist.value);
    }
    r := step.outcome;
  }
}
