/** The rule fragments of the socket event handlers (backend/src/socketHandlers.ts): the steal
    transfer, host-only kicking, the one-contestant-left game over, and the contestants a new
    game starts with. Each handler is one atomic step against the room store; what it
    broadcasts is returned as a `GameUpdate`. */
module SocketHandlers {

  import opened Wrappers
  import opened Types
  import opened Seqs
  import opened GameEngine
  import opened Repository
  import opened Rooms
  import opened Connections
  import opened Validation
  import opened Turns

  /** A `game_update` broadcast: game, message and display delay. */
  datatype GameUpdate = GameUpdate(game: GameState, message: ActionMessage, delay: int)

  /** `PlayerActionSchema`: a room id, a valid action and an integer delay of 0 to 30000 ms. */
  predicate ValidPlayerActionPayload(roomId: string, action: PlayerAction, delay: real) {
    ValidRoomId(roomId) && ValidAction(action) && IsInteger(delay) && 0.0 <= delay <= 30000.0
  }

  // ----- Steal ---------------------------------------------------------------------------

  /** Every item held by the contestants, counted with multiplicity. */
  function AllItems(ps: seq<Contestant>): multiset<ItemType> {
    if |ps| == 0 then multiset{} else multiset(ps[0].items) + AllItems(ps[1..])
  }

  /** Replacing one contestant changes the item pool by exactly the two inventories. */
  lemma {:induction false} AllItemsUpdate(ps: seq<Contestant>, i: int, c: Contestant)
    requires 0 <= i < |ps|
    ensures AllItems(ps[i := c]) + multiset(ps[i].items) == AllItems(ps) + multiset(c.items)
  {
    var qs := ps[i := c];
    if i == 0 {
      assert qs[1..] == ps[1..];
    } else {
      var head, rest, rest' := multiset(ps[0].items), AllItems(ps[1..]), AllItems(qs[1..]);
      assert qs[1..] == ps[1..][i - 1 := c];
      assert ps[1..][i - 1] == ps[i] && qs[0] == ps[0];
      AllItemsUpdate(ps[1..], i - 1, c);
      assert rest' + multiset(ps[i].items) == rest + multiset(c.items);
      calc {
        AllItems(qs) + multiset(ps[i].items);
        (head + rest') + multiset(ps[i].items);
        head + (rest' + multiset(ps[i].items));
        head + (rest + multiset(c.items));
        AllItems(ps) + multiset(c.items);
      }
    }
  }

  /** A string the source tests for truthiness: absent or empty is falsy. */
  predicate Truthy(s: Option<string>) {
    s.Some? && s.value != ""
  }

  /** The target contestant after the item is taken: its first copy is removed. */
  function Robbed(c: Contestant, item: ItemType): Contestant {
    c.(items := RemoveFirst(c.items, item))
  }

  /** The thief after the steal: the item is appended and every `thief` status is gone. */
  function Enriched(c: Contestant, item: ItemType): Contestant {
    c.(items := c.items + [item], statusEffects := RemoveAll(c.statusEffects, THIEF))
  }

  /** The index of the steal's target, or -1. */
  function StealTarget(g: GameState, targetId: string): (t: int)
    ensures t == -1 <==> !HasContestant(g.players, targetId)
    ensures t != -1 ==> 0 <= t < |g.players| && g.players[t].id == targetId
  {
    var t := FindIndex(g.players, IsContestant(targetId));
    assert forall j :: 0 <= j < |g.players| ==> (IsContestant(targetId)(g.players[j]) <==> g.players[j].id == targetId);
    t
  }

  /** The steal transfer, with the handler's in-place updates applied in order: the item
      leaves the target (first copy), then joins the active contestant, who loses every
      `thief` status. `Success(None)` is an early return (no turn is played); `Failure` is
      the error a missing active contestant throws. */
  function Steal(g: GameState, action: PlayerAction): (r: Result<Option<GameState>>)
    ensures r == Success(None) <==>
      || !Truthy(action.itemType) || !Truthy(action.targetPlayerId)
      || StealTarget(g, action.targetPlayerId.value) == -1
      || action.itemType.value !in g.players[StealTarget(g, action.targetPlayerId.value)].items
    ensures r.Failure? ==> !HasActive(g)
    ensures r.Success? && r.value.Some? ==>
      && |r.value.value.players| == |g.players|
      && r.value.value.(players := g.players) == g
  {
    if !Truthy(action.itemType) || !Truthy(action.targetPlayerId) then Success(None)
    else
      var item := action.itemType.value;
      var t := StealTarget(g, action.targetPlayerId.value);
      if t == -1 then Success(None)
      else if item !in g.players[t].items then Success(None)
      else if !HasActive(g) then Failure("Cannot read properties of undefined (reading 'items')")
      else
        var a := g.activePlayerIndex;
        var ps1 := g.players[t := Robbed(g.players[t], item)];
        Success(Some(g.(players := ps1[a := Enriched(ps1[a], item)])))
  }

  /** Multiset union cancels. */
  lemma MultisetCancel<T>(x: multiset<T>, y: multiset<T>, m: multiset<T>)
    requires x + m == y + m
    ensures x == y
  {
    forall e ensures x[e] == y[e] {
      assert (x + m)[e] == (y + m)[e];
    }
  }

  /** Taking an item from one contestant and giving it to another keeps the item pool. */
  lemma TransferConserves(ps: seq<Contestant>, t: int, a: int, item: ItemType)
    requires 0 <= t < |ps| && 0 <= a < |ps| && item in ps[t].items
    ensures var ps1 := ps[t := Robbed(ps[t], item)];
      AllItems(ps1[a := Enriched(ps1[a], item)]) == AllItems(ps)
  {
    var c1 := Robbed(ps[t], item);
    var ps1 := ps[t := c1];
    var c2 := Enriched(ps1[a], item);
    AllItemsUpdate(ps, t, c1);
    AllItemsUpdate(ps1, a, c2);
    var x, y := AllItems(ps1), AllItems(ps1[a := c2]);
    assert multiset(c2.items) == multiset(ps1[a].items) + multiset{item};
    assert y + multiset(ps1[a].items) == x + multiset(ps1[a].items) + multiset{item};
    MultisetCancel(y, x + multiset{item}, multiset(ps1[a].items));
    assert multiset(c1.items) + multiset{item} == multiset(ps[t].items);
    assert (x + multiset{item}) + multiset(c1.items) == AllItems(ps) + multiset(c1.items);
    MultisetCancel(x + multiset{item}, AllItems(ps), multiset(c1.items));
  }

  /** A steal moves one copy of the item from the target to the active contestant: nothing is
      created or lost, the active contestant ends with the item and without `thief`, and
      nobody else's inventory changes. */
  lemma StealMovesOneItem(g: GameState, action: PlayerAction)
    requires Steal(g, action).Success? && Steal(g, action).value.Some?
    ensures var h := Steal(g, action).value.value;
      var item, a := action.itemType.value, g.activePlayerIndex;
      var t := StealTarget(g, action.targetPlayerId.value);
      && HasActive(g) && 0 <= t < |g.players|
      && AllItems(h.players) == AllItems(g.players)
      && item in h.players[a].items
      && THIEF !in h.players[a].statusEffects
      && (t != a ==> (h.players[a].items == g.players[a].items + [item]
                      && multiset(h.players[t].items) + multiset{item} == multiset(g.players[t].items)))
      && (forall j :: 0 <= j < |g.players| && j != a && j != t ==> h.players[j] == g.players[j])
  {
    var item := action.itemType.value;
    var t := StealTarget(g, action.targetPlayerId.value);
    var a := g.activePlayerIndex;
    var ps1 := g.players[t := Robbed(g.players[t], item)];
    var hs := ps1[a := Enriched(ps1[a], item)];
    assert Steal(g, action).value.value.players == hs;
    TransferConserves(g.players, t, a, item);
    assert hs[a].items[|ps1[a].items|] == item;
  }

  // ----- Kicking -------------------------------------------------------------------------

  datatype KickDecision = NotHost | NoTarget | KickOut(target: Player)

  const NOT_HOST: string := "Only the host can kick players."

  /** The kick checks: the member using the socket (the first one) must be the host, and the
      target must be a member. */
  function DecideKick(room: RoomData, socketId: string, targetPlayerId: string): (r: KickDecision)
    ensures r.KickOut? ==> r.target in room.players && r.target.id == targetPlayerId
    ensures r.NoTarget? ==> !HasPlayer(room.players, targetPlayerId)
    ensures r.NotHost? <==>
      || (forall i :: 0 <= i < |room.players| ==> room.players[i].socketId != socketId)
      || room.players[FindIndex(room.players, HasSocket(socketId))].id != room.host.id
  {
    var k := FindIndex(room.players, HasSocket(socketId));
    assert k == -1 <==> forall i :: 0 <= i < |room.players| ==> room.players[i].socketId != socketId by {
      assert forall i :: 0 <= i < |room.players| ==> (HasSocket(socketId)(room.players[i]) <==> room.players[i].socketId == socketId);
    }
    if k == -1 || room.players[k].id != room.host.id then NotHost
    else
      var t := FindIndex(room.players, HasId(targetPlayerId));
      assert t == -1 <==> !HasPlayer(room.players, targetPlayerId) by {
        assert forall i :: 0 <= i < |room.players| ==> (HasId(targetPlayerId)(room.players[i]) <==> room.players[i].id == targetPlayerId);
      }
      if t == -1 then NoTarget else KickOut(room.players[t])
  }

  /** Only the host kicks: a kick goes ahead only when some member using the socket has the
      host's id. */
  lemma OnlyHostKicks(room: RoomData, socketId: string, targetPlayerId: string)
    requires !DecideKick(room, socketId, targetPlayerId).NotHost?
    ensures exists i :: 0 <= i < |room.players| && room.players[i].socketId == socketId && room.players[i].id == room.host.id
  {
    var k := FindIndex(room.players, HasSocket(socketId));
    assert HasSocket(socketId)(room.players[k]);
  }

  // ----- Game over when one contestant is left -------------------------------------------

  /** The rule applied after a removal: a game down to one contestant is over. */
  function GameOverIfLastContestant(g: GameState): (r: GameState)
    ensures r.(gameState := g.gameState) == g
    ensures |g.players| == 1 ==> r.gameState == GameOver
    ensures |g.players| != 1 ==> r == g
  {
    if |g.players| == 1 then g.(gameState := GameOver) else g
  }

  const GAME_OVER_MESSAGE: ActionMessage := Note("message", Some("GAME OVER!"))

  /** The broadcast after a member left a room that has a game: game over when one contestant
      is left, otherwise `announce` from `userId`. */
  function AfterRemovalUpdate(g: GameState, userId: string, text: string): (u: GameUpdate)
    ensures u.delay == 5000
    ensures u.game == GameOverIfLastContestant(g)
    ensures |g.players| == 1 ==> u.message == GAME_OVER_MESSAGE
    ensures |g.players| != 1 ==> u.message == ActionMessage("announce", None, Some(userId), None, Some(text))
  {
    if |g.players| == 1 then GameUpdate(GameOverIfLastContestant(g), GAME_OVER_MESSAGE, 5000)
    else GameUpdate(g, ActionMessage("announce", None, Some(userId), None, Some(text)), 5000)
  }

  // ----- Contestants of a new game -------------------------------------------------------

  /** The contestant `start_game` makes of a room member. */
  function NewContestant(p: Player): Contestant {
    Contestant(p.id, p.name, 3, [], false, true, [])
  }

  /** `start_game`'s contestants: one per member, in member order. */
  function BuildContestants(players: seq<Player>): (r: seq<Contestant>)
    ensures |r| == |players|
    ensures forall i :: 0 <= i < |players| ==> r[i].id == players[i].id && r[i].name == players[i].name
    ensures forall i :: 0 <= i < |players| ==>
      r[i].lives == 3 && r[i].items == [] && !r[i].isAI && r[i].isOnline && r[i].statusEffects == []
  {
    seq(|players|, i requires 0 <= i < |players| => NewContestant(players[i]))
  }

  /** The game `start_game` stores. */
  function StartedGame(players: seq<Player>, e: Engine): GameState {
    e.startRound(e.initializeGame(BuildContestants(players)), 1)
  }

  /** With an engine that behaves as tested, a started game has the members as contestants in
      order, each with three lives and an item, and a full chamber under play. */
  lemma StartedGameSeatsMembers(players: seq<Player>, e: Engine)
    requires Tested(e)
    ensures var g := StartedGame(players, e);
      && |g.players| == |players|
      && (forall i :: 0 <= i < |players| ==> g.players[i].id == players[i].id)
      && (forall i :: 0 <= i < |players| ==> g.players[i].lives == 3 && |g.players[i].items| > 0)
      && g.gameState == Playing && GobletsConsistent(g) && g.gobletsRemaining > 0
  {
    var cs := BuildContestants(players);
    var init := e.initializeGame(cs);
    assert InitializeGameContract(cs, init);
    var g := e.startRound(init, 1);
    assert StartRoundContract(init, 1, g);
    StartedRoundChamber(init, 1, g);
  }

  // ----- Handlers ------------------------------------------------------------------------

  /** The auto-remove callback: when the room still has a game, a game down to one contestant
      is stored as over and announced; otherwise the removal is announced and nothing is
      written. When the record is gone by the time of the write, `updateGameState` throws
      `Room not found` before the emit, so nothing is announced. */
  method AutoRemove(rooms: RoomManager, roomId: string, playerId: string, roomData: Option<RoomData>)
    returns (update: Option<GameUpdate>)
    modifies rooms.repo
    ensures roomData.None? || roomData.value.gameState.None? ==> update.None? && unchanged(rooms.repo)
    ensures roomData.Some? && roomData.value.gameState.Some? ==>
      var g := roomData.value.gameState.value;
      && (|g.players| != 1 || RoomKey(roomId) in old(rooms.repo.store) ==>
            update == Some(AfterRemovalUpdate(g, playerId, "Player removed due to disconnect.")))
      && (|g.players| != 1 ==> unchanged(rooms.repo))
      && (|g.players| == 1 && RoomKey(roomId) in old(rooms.repo.store) ==>
            var room := old(rooms.repo.store)[RoomKey(roomId)].(gameState := Some(GameOverIfLastContestant(g)));
            rooms.repo.store == old(rooms.repo.store)[RoomKey(roomId) := room]
            && rooms.repo.publicRoomIds == ListedAfterSave(old(rooms.repo.publicRoomIds), roomId, room))
      && (|g.players| == 1 && RoomKey(roomId) !in old(rooms.repo.store) ==> update.None? && unchanged(rooms.repo))
  {
    if roomData.None? || roomData.value.gameState.None? {
      return None;
    }
    var g := roomData.value.gameState.value;
    if |g.players| == 1 {
      var o := rooms.UpdateGameState(roomId, GameOverIfLastContestant(g));
      if o.Fail? {
        return None;
      }
    }
    update := Some(AfterRemovalUpdate(g, playerId, "Player removed due to disconnect."));
  }

  /** `leave_room`: the member leaves; when the room keeps a game, the broadcast copy is over
      if one contestant is left, but the stored game is not. */
  method LeaveRoomHandler(rooms: RoomManager, roomId: string, playerId: string)
    returns (left: Option<RoomData>, update: Option<GameUpdate>)
    modifies rooms.repo
    ensures old(rooms.repo.Lookup(roomId)).Some? ==> left == AfterLeave(old(rooms.repo.Lookup(roomId)).value, playerId)
    ensures old(rooms.repo.Lookup(roomId)).None? ==> left.None? && unchanged(rooms.repo)
    ensures old(rooms.repo.Lookup(roomId)).Some? && left.None? ==>
      rooms.repo.store == old(rooms.repo.store) - {RoomKey(roomId)}
      && rooms.repo.publicRoomIds == old(rooms.repo.publicRoomIds) - {roomId}
    ensures left.Some? ==>
      rooms.repo.store == old(rooms.repo.store)[RoomKey(roomId) := left.value]
      && rooms.repo.publicRoomIds == ListedAfterSave(old(rooms.repo.publicRoomIds), roomId, left.value)
    ensures left.None? || left.value.gameState.None? <==> update.None?
    ensures update.Some? ==> update.value.game == GameOverIfLastContestant(left.value.gameState.value)
  {
    var before := rooms.GetRoom(roomId);
    var name := "A player";
    if before.Some? {
      var k := FindIndex(before.value.players, HasId(playerId));
      if k != -1 {
        name := before.value.players[k].name;
      }
    }
    left := rooms.LeaveRoom(roomId, playerId);
    update := None;
    if left.Some? && left.value.gameState.Some? {
      update := Some(AfterRemovalUpdate(left.value.gameState.value, playerId, name + " has left the game."));
    }
  }

  /** `kick_player` from the member using `socketId`: refused unless that member is the host,
      ignored for a target who is not a member, otherwise the target leaves as in `leave_room`. */
  method KickPlayer(rooms: RoomManager, roomId: string, socketId: string, targetPlayerId: string)
    returns (error: Option<string>, left: Option<RoomData>, update: Option<GameUpdate>)
    modifies rooms.repo
    ensures old(rooms.repo.Lookup(roomId)).None? ==> error.None? && left.None? && update.None? && unchanged(rooms.repo)
    ensures old(rooms.repo.Lookup(roomId)).Some? ==>
      var room := old(rooms.repo.Lookup(roomId)).value;
      var d := DecideKick(room, socketId, targetPlayerId);
      && (d.NotHost? ==> error == Some(NOT_HOST) && unchanged(rooms.repo) && update.None?)
      && (d.NoTarget? ==> error.None? && unchanged(rooms.repo) && update.None?)
      && (d.KickOut? ==>
            && error.None? && left == AfterLeave(room, targetPlayerId)
            && (left.None? ==>
                  rooms.repo.store == old(rooms.repo.store) - {RoomKey(roomId)}
                  && rooms.repo.publicRoomIds == old(rooms.repo.publicRoomIds) - {roomId})
            && (left.Some? ==>
                  rooms.repo.store == old(rooms.repo.store)[RoomKey(roomId) := left.value]
                  && rooms.repo.publicRoomIds == ListedAfterSave(old(rooms.repo.publicRoomIds), roomId, left.value))
            && (left.None? || left.value.gameState.None? <==> update.None?)
            && (update.Some? ==> update.value.game == GameOverIfLastContestant(left.value.gameState.value)))
  {
    error, left, update := None, None, None;
    var room := rooms.GetRoom(roomId);
    if room.None? {
      return;
    }
    var d := DecideKick(room.value, socketId, targetPlayerId);
    if d.NotHost? {
      error := Some(NOT_HOST);
      return;
    }
    if d.NoTarget? {
      return;
    }
    var k := FindIndex(room.value.players, HasSocket(socketId));
    var requester := room.value.players[k];
    left := rooms.LeaveRoom(roomId, targetPlayerId);
    if left.Some? && left.value.gameState.Some? {
      update := Some(AfterRemovalUpdate(left.value.gameState.value, requester.id, d.target.name + " has been kicked out."));
    }
  }

  /** `start_game`: a missing room is ignored; otherwise the started game is stored. */
  method StartGame(rooms: RoomManager, roomId: string, e: Engine) returns (started: Option<RoomData>)
    modifies rooms.repo
    ensures old(rooms.repo.Lookup(roomId)).None? ==> started.None? && unchanged(rooms.repo)
    ensures old(rooms.repo.Lookup(roomId)).Some? ==>
      var room := old(rooms.repo.Lookup(roomId)).value;
      && started == Some(room.(gameState := Some(StartedGame(room.players, e))))
      && rooms.repo.store == old(rooms.repo.store)[RoomKey(roomId) := started.value]
      && rooms.repo.publicRoomIds == ListedAfterSave(old(rooms.repo.publicRoomIds), roomId, started.value)
  {
    var room := rooms.GetRoom(roomId);
    if room.None? {
      return None;
    }
    var game := StartedGame(room.value.players, e);
    var _ := rooms.UpdateGameState(roomId, game);
    started := Some(room.value.(gameState := Some(game)));
  }

  /** `player_action`: on a room with a game, a steal is applied first (an early return plays
      no turn), then the engine plays the turn and its game is stored. */
  method PlayerActionHandler(rooms: RoomManager, roomId: string, action: PlayerAction, e: Engine)
    returns (r: Result<Option<TurnOutcome>>)
    modifies rooms.repo
    ensures old(rooms.repo.Lookup(roomId)).None? || old(rooms.repo.Lookup(roomId)).value.gameState.None? ==>
      r == Success(None) && unchanged(rooms.repo)
    ensures old(rooms.repo.Lookup(roomId)).Some? && old(rooms.repo.Lookup(roomId)).value.gameState.Some? ==>
      var room := old(rooms.repo.Lookup(roomId)).value;
      var g := room.gameState.value;
      var s := if action.kind == "steal" then Steal(g, action) else Success(Some(g));
      && (s.Failure? ==> r == Failure(s.error) && unchanged(rooms.repo))
      && (s == Success(None) ==> r == Success(None) && unchanged(rooms.repo))
      && (s.Success? && s.value.Some? ==>
            var out := e.playTurn(s.value.value, action);
            var saved := room.(gameState := Some(out.updatedGame));
            r == Success(Some(out))
            && rooms.repo.store == old(rooms.repo.store)[RoomKey(roomId) := saved]
            && rooms.repo.publicRoomIds == ListedAfterSave(old(rooms.repo.publicRoomIds), roomId, saved))
  {
    var room := rooms.GetRoom(roomId);
    if room.None? || room.value.gameState.None? {
      return Success(None);
    }
    var g := room.value.gameState.value;
    if action.kind == "steal" {
      var s := Steal(g, action);
      if s.Failure? {
        return Failure(s.error);
      }
      if s.value.None? {
        return Success(None);
      }
      g := s.value.value;
    }
    var out := e.playTurn(g, action);
    var _ := rooms.UpdateGameState(roomId, out.updatedGame);
    r := Success(Some(out));
  }

  /** The turn announcement sent before the turn manager runs. */
  function TurnAnnouncement(active: Contestant): (m: ActionMessage)
    ensures m.kind == "turn" && m.userId == Some(active.id)
  {
    ActionMessage("turn", None, Some(active.id), None, Some("It is " + active.name + "'s turn."))
  }

  /** The step `player_action` schedules after its delay: with the room's stored game it
      announces whose turn it is, lets the turn manager act, and stores the game the turn
      manager returns. A throw of the turn manager keeps the write it made before throwing. */
  method FollowUpTurn(rooms: RoomManager, roomId: string, e: Engine)
    returns (r: Result<Option<(ActionMessage, TurnResult)>>)
    modifies rooms.repo
    ensures old(rooms.repo.Lookup(roomId)).None? || old(rooms.repo.Lookup(roomId)).value.gameState.None? ==>
      r == Success(None) && unchanged(rooms.repo)
    ensures old(rooms.repo.Lookup(roomId)).Some? && old(rooms.repo.Lookup(roomId)).value.gameState.Some? ==>
      var g := old(rooms.repo.Lookup(roomId)).value.gameState.value;
      var step := PlanTurn(old(rooms.repo.Lookup(roomId)), g, e);
      var room := old(rooms.repo.Lookup(roomId)).value;
      && (!HasActive(g) ==> r == Failure(READ_OF_UNDEFINED) && unchanged(rooms.repo))
      && (HasActive(g) && step.outcome.Failure? ==>
            && r == Failure(step.outcome.error)
            && (step.persist.None? ==> unchanged(rooms.repo))
            && (step.persist.Some? ==>
                  rooms.repo.store == old(rooms.repo.store)[RoomKey(roomId) := room.(gameState := step.persist)]
                  && rooms.repo.publicRoomIds == ListedAfterSave(old(rooms.repo.publicRoomIds), roomId, room)))
      && (HasActive(g) && step.outcome.Success? ==>
            && r == Success(Some((TurnAnnouncement(g.players[g.activePlayerIndex]), step.outcome.value)))
            && rooms.repo.store == old(rooms.repo.store)[RoomKey(roomId) := room.(gameState := Some(step.outcome.value.game))]
            && rooms.repo.publicRoomIds == ListedAfterSave(old(rooms.repo.publicRoomIds), roomId, room))
  {
    var room := rooms.GetRoom(roomId);
    if room.None? || room.value.gameState.None? {
      return Success(None);
    }
    var g := room.value.gameState.value;
    if !HasActive(g) {
      return Failure(READ_OF_UNDEFINED);
    }
    var announcement := TurnAnnouncement(g.players[g.activePlayerIndex]);
    var result := TakeTurn(rooms, roomId, g, e, room.value);
    if result.Failure? {
      return Failure(result.error);
    }
    r := Success(Some((announcement, result.value)));
  }

  /** The turn manager's part of that step: its own write, then the game it returns. */
  method TakeTurn(rooms: RoomManager, roomId: string, g: GameState, e: Engine, ghost room: RoomData)
    returns (result: Result<TurnResult>)
    requires rooms.repo.Lookup(roomId) == Some(room)
    modifies rooms.repo
    ensures var step := PlanTurn(Some(room), g, e);
      && result == step.outcome
      && (result.Failure? && step.persist.None? ==> unchanged(rooms.repo))
      && (result.Failure? && step.persist.Some? ==>
            rooms.repo.store == old(rooms.repo.store)[RoomKey(roomId) := room.(gameState := step.persist)]
            && rooms.repo.publicRoomIds == ListedAfterSave(old(rooms.repo.publicRoomIds), roomId, room))
      && (result.Success? ==>
            rooms.repo.store == old(rooms.repo.store)[RoomKey(roomId) := room.(gameState := Some(result.value.game))]
            && rooms.repo.publicRoomIds == ListedAfterSave(old(rooms.repo.publicRoomIds), roomId, room))
  {
    ghost var store0 := rooms.repo.store;
    result := HandlePlayerTurn(rooms, roomId, g, e);
    if result.Success? {
      ghost var store1 := rooms.repo.store;
      assert RoomKey(roomId) in store1 && store1[RoomKey(roomId)] == room.(gameState := store1[RoomKey(roomId)].gameState);
      var _ := rooms.UpdateGameState(roomId, result.value.game);
      assert rooms.repo.store == store0[RoomKey(roomId) := room.(gameState := Some(result.value.game))];
    }
  }
}
