/** Room lifecycle (backend/src/rooms/roomManager.ts): each operation reads the room from the
    repository, computes the new record and writes it back. The record computations are the
    functions below; `RoomManager` runs them against the repository. */
module Rooms {

  import opened Wrappers
  import opened Types
  import opened Seqs
  import opened Repository

  /** The connection entry written for a player who joins. */
  function ConnectedState(p: Player): PlayerConnectionState {
    PlayerConnectionState(p.id, p.socketId, Connected, None)
  }

  /** What the room operations keep true of a record: member ids are unique, the host is a
      member, the room is not over-full, and the connection states follow the members one
      for one. */
  predicate RoomInvariant(r: RoomData) {
    && UniquePlayerIds(r.players)
    && HasPlayer(r.players, r.host.id)
    && |r.players| <= r.maxPlayers
    && |r.connectionStates| == |r.players|
    && (forall i :: 0 <= i < |r.players| ==> r.connectionStates[i].playerId == r.players[i].id)
  }

  /** The record `createRoom` stores. */
  function NewRoom(roomId: string, host: Player, maxPlayers: int, isPrivate: bool, password: string,
                   voiceChatEnabled: bool): (r: RoomData)
    ensures r.id == roomId && r.host == host && r.players == [host] && r.gameState.None?
    ensures r.connectionStates == [PlayerConnectionState(host.id, host.socketId, Connected, None)]
    ensures r.maxPlayers == maxPlayers && r.isPrivate == isPrivate && r.password == password
    ensures r.voiceChatEnabled == voiceChatEnabled
  {
    RoomData(roomId, host, [host], maxPlayers, isPrivate, password, None, voiceChatEnabled, [ConnectedState(host)])
  }

  /** A created room satisfies the invariant whenever it can hold its host. */
  lemma NewRoomInvariant(roomId: string, host: Player, maxPlayers: int, isPrivate: bool, password: string,
                         voiceChatEnabled: bool)
    requires maxPlayers >= 1
    ensures RoomInvariant(NewRoom(roomId, host, maxPlayers, isPrivate, password, voiceChatEnabled))
  {
    var r := NewRoom(roomId, host, maxPlayers, isPrivate, password, voiceChatEnabled);
    assert r.players[0].id == host.id;
  }

  /** A private room admits only the exact password; an absent one never matches. */
  predicate PasswordAccepted(room: RoomData, password: Option<string>) {
    !room.isPrivate || password == Some(room.password)
  }

  /** `joinRoom`'s record computation: the checks in the source's order, then the player and a
      connected state for them appended. */
  function Join(room: Option<RoomData>, player: Player, password: Option<string>): (r: Result<RoomData>)
    ensures r.Success? <==> (room.Some? && PasswordAccepted(room.value, password)
      && !HasPlayer(room.value.players, player.id) && |room.value.players| < room.value.maxPlayers)
    ensures room.None? ==> r == Failure("Room not found. Please refresh to fetch new rooms.")
    ensures room.Some? && !PasswordAccepted(room.value, password) ==> r == Failure("Incorrect password")
    ensures room.Some? && PasswordAccepted(room.value, password) && HasPlayer(room.value.players, player.id) ==>
      r == Failure("Player already in room")
    ensures (room.Some? && PasswordAccepted(room.value, password) && !HasPlayer(room.value.players, player.id)
      && |room.value.players| >= room.value.maxPlayers) ==> r == Failure("Room is full")
    ensures r.Success? ==> (r.value.players == room.value.players + [player]
      && r.value.connectionStates == room.value.connectionStates + [ConnectedState(player)]
      && r.value.(players := room.value.players, connectionStates := room.value.connectionStates) == room.value)
  {
    if room.None? then Failure("Room not found. Please refresh to fetch new rooms.")
    else
      var rm := room.value;
      if rm.isPrivate && password != Some(rm.password) then Failure("Incorrect password")
      else if exists i :: 0 <= i < |rm.players| && rm.players[i].id == player.id then Failure("Player already in room")
      else if |rm.players| >= rm.maxPlayers then Failure("Room is full")
      else Success(rm.(players := rm.players + [player], connectionStates := rm.connectionStates + [ConnectedState(player)]))
  }

  /** Joining keeps the room invariant. */
  lemma JoinKeepsInvariant(room: RoomData, player: Player, password: Option<string>)
    requires RoomInvariant(room)
    requires Join(Some(room), player, password).Success?
    ensures RoomInvariant(Join(Some(room), player, password).value)
  {
    var r := Join(Some(room), player, password).value;
    var n := |room.players|;
    assert forall i :: 0 <= i < n ==> r.players[i] == room.players[i];
    assert r.players[n] == player;
    assert !HasPlayer(room.players, player.id);
    var h :| 0 <= h < n && room.players[h].id == room.host.id;
    assert r.players[h].id == r.host.id;
  }

  // ----- Leaving --------------------------------------------------------------------------

  /** The predicates the source's `filter` and `findIndex` calls apply. */
  function IsContestant(playerId: string): Contestant -> bool {
    (c: Contestant) => c.id == playerId
  }

  function OtherContestant(playerId: string): Contestant -> bool {
    (c: Contestant) => c.id != playerId
  }

  function OtherPlayer(playerId: string): Player -> bool {
    (p: Player) => p.id != playerId
  }

  function OtherState(playerId: string): PlayerConnectionState -> bool {
    (s: PlayerConnectionState) => s.playerId != playerId
  }

  /** A JavaScript number as far as the index arithmetic needs it. */
  datatype JsNumber = Num(n: int) | NaN

  /** JavaScript's `a % b` on integers: the remainder takes the dividend's sign, and a zero
      divisor gives NaN. */
  function JsRemainder(a: int, b: int): (r: JsNumber)
    ensures b != 0 && a >= 0 ==> r == Num(a % b)
    ensures b == 0 <==> r == NaN
  {
    if b == 0 then NaN
    else if a >= 0 then Num(a % (if b < 0 then -b else b))
    else Num(-((-a) % (if b < 0 then -b else b)))
  }

  /** The turn index after a leave, as the source computes it (lines 99-110): `leaver` is the
      `findIndex` result, -1 for someone who is not a contestant. */
  function ActiveIndexAfterLeaveAsWritten(leaver: int, current: int, remaining: nat): JsNumber {
    if leaver == current then JsRemainder(current, remaining)
    else if leaver < current then Num(current - 1)
    else Num(current)
  }

  /** The turn index after a leave as evidently intended: a leaver who is not a contestant
      changes nothing; when the active contestant leaves, the one after it takes the turn,
      wrapping round to the first (index 0 also when nobody is left, rather than NaN). */
  function ActiveIndexAfterLeave(leaver: int, current: int, remaining: nat): int {
    if leaver == -1 then current
    else if leaver == current then (if current < remaining then current else 0)
    else if leaver < current then current - 1
    else current
  }

  /** Both computations agree whenever the leaver is a contestant and one remains. */
  lemma ActiveIndexCorrectionIsConservative(leaver: int, current: int, remaining: nat)
    requires 0 <= leaver && 0 <= current && remaining > 0
    requires leaver == current ==> current <= remaining
    ensures ActiveIndexAfterLeaveAsWritten(leaver, current, remaining) == Num(ActiveIndexAfterLeave(leaver, current, remaining))
  {
  }

  /** The game part of `leaveRoom` as written: the contestants left and the new turn index. */
  function LeaveGameAsWritten(g: GameState, playerId: string): (seq<Contestant>, JsNumber) {
    var remaining := Filter(g.players, OtherContestant(playerId));
    (remaining, ActiveIndexAfterLeaveAsWritten(FindIndex(g.players, IsContestant(playerId)), g.activePlayerIndex, |remaining|))
  }

  /** As written, a room member who is not a contestant (one who joined after the start) still
      moves the turn back by one: to the previous contestant, or to index -1 from index 0. */
  lemma SpectatorLeavingMovesTurnAsWritten(g: GameState, playerId: string)
    requires HasActive(g) && !HasContestant(g.players, playerId)
    ensures LeaveGameAsWritten(g, playerId).0 == g.players
    ensures LeaveGameAsWritten(g, playerId).1 == Num(g.activePlayerIndex - 1)
  {
    assert forall j :: 0 <= j < |g.players| ==> !IsContestant(playerId)(g.players[j]);
    assert forall j :: 0 <= j < |g.players| ==> OtherContestant(playerId)(g.players[j]);
  }

  /** As written, the last contestant leaving makes the index `NaN`. */
  lemma LastContestantLeavingAsWritten(g: GameState)
    requires |g.players| == 1 && g.activePlayerIndex == 0
    ensures LeaveGameAsWritten(g, g.players[0].id).0 == []
    ensures LeaveGameAsWritten(g, g.players[0].id).1 == NaN
  {
    var s := g.players;
    assert s[1..] == [];
    assert Filter(s, OtherContestant(s[0].id)) == Filter(s[1..], OtherContestant(s[0].id));
  }

  /** The game part of `leaveRoom`, with the corrected turn index: the contestant is filtered
      out, and a leaver who is not a contestant leaves the index where it was. */
  function LeaveGame(g: GameState, playerId: string): (r: GameState)
    ensures r.players == Filter(g.players, OtherContestant(playerId))
    ensures !HasContestant(g.players, playerId) ==> r.activePlayerIndex == g.activePlayerIndex
    ensures r.(players := g.players, activePlayerIndex := g.activePlayerIndex) == g
  {
    var remaining := Filter(g.players, OtherContestant(playerId));
    var leaver := FindIndex(g.players, IsContestant(playerId));
    assert leaver == -1 <==> !HasContestant(g.players, playerId) by {
      assert forall j :: 0 <= j < |g.players| ==> (IsContestant(playerId)(g.players[j]) <==> g.players[j].id == playerId);
    }
    g.(players := remaining, activePlayerIndex := ActiveIndexAfterLeave(leaver, g.activePlayerIndex, |remaining|))
  }

  /** With unique ids, a contestant's leave removes exactly its entry and moves the turn index
      by the leaver's position. */
  lemma LeaveGameRemovesOne(g: GameState, k: int)
    requires UniqueContestantIds(g.players) && 0 <= k < |g.players|
    ensures LeaveGame(g, g.players[k].id).players == RemoveAt(g.players, k)
    ensures LeaveGame(g, g.players[k].id).activePlayerIndex == ActiveIndexAfterLeave(k, g.activePlayerIndex, |g.players| - 1)
  {
    var id := g.players[k].id;
    assert IsContestant(id)(g.players[k]);
    assert forall j :: 0 <= j < k ==> !IsContestant(id)(g.players[j]);
    assert FindIndex(g.players, IsContestant(id)) == k;
    assert forall i :: 0 <= i < |g.players| && i != k ==> OtherContestant(id)(g.players[i]);
    FilterRemovesOne(g.players, OtherContestant(id), k);
  }

  /** Wherever the source's index is a number naming a contestant (the leaver is a contestant
      and at least one remains), it is the index `LeaveGame` keeps: the correction changes
      only the two cases of the findings. */
  lemma LeaveGameAgreesWithSource(g: GameState, playerId: string)
    requires UniqueContestantIds(g.players) && HasActive(g) && HasContestant(g.players, playerId) && |g.players| >= 2
    ensures LeaveGameAsWritten(g, playerId) == (LeaveGame(g, playerId).players, Num(LeaveGame(g, playerId).activePlayerIndex))
    ensures var w := LeaveGameAsWritten(g, playerId); w.1.Num? && 0 <= w.1.n < |w.0|
  {
    var k :| 0 <= k < |g.players| && g.players[k].id == playerId;
    LeaveGameRemovesOne(g, k);
    var r := LeaveGame(g, playerId);
    LeaveGameIndices(g, playerId, k);
    ActiveIndexCorrectionIsConservative(k, g.activePlayerIndex, |r.players|);
    LeaveGameKeepsActiveInBounds(g, playerId);
  }

  /** Both games of a leave by the contestant at `k`, computed from the same `findIndex`. */
  lemma LeaveGameIndices(g: GameState, playerId: string, k: int)
    requires UniqueContestantIds(g.players) && 0 <= k < |g.players| && g.players[k].id == playerId
    ensures LeaveGameAsWritten(g, playerId).0 == LeaveGame(g, playerId).players
    ensures LeaveGameAsWritten(g, playerId).1 == ActiveIndexAfterLeaveAsWritten(k, g.activePlayerIndex, |LeaveGame(g, playerId).players|)
    ensures LeaveGame(g, playerId).activePlayerIndex == ActiveIndexAfterLeave(k, g.activePlayerIndex, |LeaveGame(g, playerId).players|)
  {
    assert IsContestant(playerId)(g.players[k]);
    assert forall j :: 0 <= j < k ==> !IsContestant(playerId)(g.players[j]);
    assert FindIndex(g.players, IsContestant(playerId)) == k;
  }

  /** Someone who is not a contestant leaving leaves the game as it was. */
  lemma LeaveGameOfOutsider(g: GameState, playerId: string)
    requires !HasContestant(g.players, playerId)
    ensures LeaveGame(g, playerId) == g
  {
    assert forall j :: 0 <= j < |g.players| ==> !IsContestant(playerId)(g.players[j]);
    assert forall j :: 0 <= j < |g.players| ==> OtherContestant(playerId)(g.players[j]);
  }

  /** A leave keeps the turn index on a contestant while one remains, and removes the leaver
      and nobody else. */
  lemma LeaveGameKeepsActiveInBounds(g: GameState, playerId: string)
    requires UniqueContestantIds(g.players) && HasActive(g)
    ensures var r := LeaveGame(g, playerId);
      && !HasContestant(r.players, playerId)
      && |r.players| == (if HasContestant(g.players, playerId) then |g.players| - 1 else |g.players|)
      && (|r.players| > 0 ==> HasActive(r))
  {
    var r := LeaveGame(g, playerId);
    if k :| 0 <= k < |g.players| && g.players[k].id == playerId {
      LeaveGameRemovesOne(g, k);
    } else {
      LeaveGameOfOutsider(g, playerId);
    }
    assert forall i :: 0 <= i < |r.players| ==> OtherContestant(playerId)(r.players[i]);
  }

  /** Someone other than the active contestant leaving keeps the same contestant's turn. */
  lemma LeaveGameKeepsTurn(g: GameState, playerId: string)
    requires UniqueContestantIds(g.players) && HasActive(g)
    requires g.players[g.activePlayerIndex].id != playerId
    ensures HasActive(LeaveGame(g, playerId))
    ensures LeaveGame(g, playerId).players[LeaveGame(g, playerId).activePlayerIndex] == g.players[g.activePlayerIndex]
  {
    if k :| 0 <= k < |g.players| && g.players[k].id == playerId {
      LeaveGameRemovesOne(g, k);
      var a := g.activePlayerIndex;
      assert k != a;
      var r := LeaveGame(g, playerId);
      if k < a {
        assert r.activePlayerIndex == a - 1;
        assert RemoveAt(g.players, k)[a - 1] == g.players[a];
      } else {
        assert r.activePlayerIndex == a;
        assert RemoveAt(g.players, k)[a] == g.players[a];
      }
    } else {
      LeaveGameOfOutsider(g, playerId);
    }
  }

  /** The active contestant leaving passes the turn to the next contestant in order, wrapping
      round to the first. */
  lemma LeaveGameOfActivePassesTurn(g: GameState)
    requires UniqueContestantIds(g.players) && HasActive(g) && |g.players| >= 2
    ensures var r := LeaveGame(g, g.players[g.activePlayerIndex].id);
      var next := if g.activePlayerIndex + 1 < |g.players| then g.activePlayerIndex + 1 else 0;
      HasActive(r) && r.players[r.activePlayerIndex] == g.players[next]
  {
    var k, n := g.activePlayerIndex, |g.players|;
    LeaveGameRemovesOne(g, k);
    var r := LeaveGame(g, g.players[k].id);
    if k < n - 1 {
      assert r.activePlayerIndex == k;
      assert RemoveAt(g.players, k)[k] == g.players[k + 1];
    } else {
      assert r.activePlayerIndex == 0;
      assert RemoveAt(g.players, k)[0] == g.players[0];
    }
  }

  /** `leaveRoom`'s record computation: the player leaves the game, the member list and the
      connection states; None when nobody is left (the room is deleted); otherwise a host who
      left is replaced by the first remaining member. */
  function AfterLeave(room: RoomData, playerId: string): (r: Option<RoomData>)
    ensures r.None? <==> forall i :: 0 <= i < |room.players| ==> room.players[i].id == playerId
    ensures r.Some? ==> !HasPlayer(r.value.players, playerId)
    ensures r.Some? ==> (r.value.players == Filter(room.players, OtherPlayer(playerId))
      && r.value.connectionStates == Filter(room.connectionStates, OtherState(playerId))
      && r.value.gameState == (if room.gameState.Some? then Some(LeaveGame(room.gameState.value, playerId)) else None)
      && r.value.host == (if room.host.id == playerId then r.value.players[0] else room.host)
      && r.value.(players := room.players, connectionStates := room.connectionStates,
                  gameState := room.gameState, host := room.host) == room)
  {
    var players := Filter(room.players, OtherPlayer(playerId));
    assert forall i :: 0 <= i < |players| ==> players[i].id != playerId by {
      assert forall i :: 0 <= i < |players| ==> OtherPlayer(playerId)(players[i]);
    }
    assert (forall i :: 0 <= i < |room.players| ==> room.players[i].id == playerId) <==> |players| == 0 by {
      assert forall i :: 0 <= i < |room.players| && room.players[i].id != playerId ==>
        OtherPlayer(playerId)(room.players[i]) && room.players[i] in players;
    }
    if |players| == 0 then None
    else
      var game := if room.gameState.Some? then Some(LeaveGame(room.gameState.value, playerId)) else None;
      Some(room.(
        gameState := game,
        players := players,
        connectionStates := Filter(room.connectionStates, OtherState(playerId)),
        host := if room.host.id == playerId then players[0] else room.host))
  }

  /** Removing one position from aligned member and connection lists keeps them aligned and
      the ids unique. */
  lemma RemoveAtKeepsAlignment(ps: seq<Player>, cs: seq<PlayerConnectionState>, k: int)
    requires UniquePlayerIds(ps) && |cs| == |ps| && 0 <= k < |ps|
    requires forall i :: 0 <= i < |ps| ==> cs[i].playerId == ps[i].id
    ensures UniquePlayerIds(RemoveAt(ps, k))
    ensures |RemoveAt(cs, k)| == |RemoveAt(ps, k)|
    ensures forall i :: 0 <= i < |ps| - 1 ==> RemoveAt(cs, k)[i].playerId == RemoveAt(ps, k)[i].id
  {
    var ps' := RemoveAt(ps, k);
    assert forall i :: 0 <= i < |ps'| ==> ps'[i] == ps[if i < k then i else i + 1];
  }

  /** Filtering one id out of aligned member and connection lists keeps them aligned and the
      ids unique. */
  lemma FilterKeepsAlignment(ps: seq<Player>, cs: seq<PlayerConnectionState>, playerId: string)
    requires UniquePlayerIds(ps) && |cs| == |ps|
    requires forall i :: 0 <= i < |ps| ==> cs[i].playerId == ps[i].id
    ensures UniquePlayerIds(Filter(ps, OtherPlayer(playerId)))
    ensures |Filter(cs, OtherState(playerId))| == |Filter(ps, OtherPlayer(playerId))|
    ensures forall i :: 0 <= i < |Filter(ps, OtherPlayer(playerId))| ==>
      Filter(cs, OtherState(playerId))[i].playerId == Filter(ps, OtherPlayer(playerId))[i].id
  {
    if k :| 0 <= k < |ps| && ps[k].id == playerId {
      FilterOneKeepsAlignment(ps, cs, playerId, k);
      RemoveAtKeepsAlignment(ps, cs, k);
    } else {
      forall i | 0 <= i < |ps| ensures OtherPlayer(playerId)(ps[i]) && OtherState(playerId)(cs[i]) {}
      FilterKeepsAll(ps, OtherPlayer(playerId));
      FilterKeepsAll(cs, OtherState(playerId));
    }
  }

  /** The case of that lemma where the member is present, at `k`. */
  lemma FilterOneKeepsAlignment(ps: seq<Player>, cs: seq<PlayerConnectionState>, playerId: string, k: int)
    requires UniquePlayerIds(ps) && |cs| == |ps|
    requires forall i :: 0 <= i < |ps| ==> cs[i].playerId == ps[i].id
    requires 0 <= k < |ps| && ps[k].id == playerId
    ensures Filter(ps, OtherPlayer(playerId)) == RemoveAt(ps, k)
    ensures Filter(cs, OtherState(playerId)) == RemoveAt(cs, k)
  {
    assert forall i :: 0 <= i < |ps| && i != k ==> OtherPlayer(playerId)(ps[i]);
    FilterRemovesOne(ps, OtherPlayer(playerId), k);
    assert forall i :: 0 <= i < |cs| && i != k ==> OtherState(playerId)(cs[i]);
    FilterRemovesOne(cs, OtherState(playerId), k);
  }

  /** A leave that keeps the room keeps the room invariant. */
  lemma AfterLeaveKeepsInvariant(room: RoomData, playerId: string)
    requires RoomInvariant(room) && AfterLeave(room, playerId).Some?
    ensures RoomInvariant(AfterLeave(room, playerId).value)
  {
    var r := AfterLeave(room, playerId).value;
    FilterKeepsAlignment(room.players, room.connectionStates, playerId);
    if room.host.id != playerId {
      var h :| 0 <= h < |room.players| && room.players[h].id == room.host.id;
      assert OtherPlayer(playerId)(room.players[h]);
      assert room.players[h] in r.players;
      var j :| 0 <= j < |r.players| && r.players[j] == room.players[h];
      assert r.players[j].id == r.host.id;
    } else {
      assert r.players[0].id == r.host.id;
    }
  }

  // ----- The manager over the repository ---------------------------------------------------

  /** The listing entries `getPublicRooms` keeps: rooms with a free seat and no game. */
  function AvailableIn(store: map<string, RoomData>): PublicRoomData -> bool {
    (p: PublicRoomData) => RoomKey(p.id) in store && |store[RoomKey(p.id)].players| < store[RoomKey(p.id)].maxPlayers
      && store[RoomKey(p.id)].gameState.None?
  }

  class RoomManager {
    const repo: RoomRepository

    constructor(repo: RoomRepository)
      ensures this.repo == repo
    {
      this.repo := repo;
    }

    /** `createRoom`: fails on an existing id; otherwise stores the room with the host as its
        only member, no game and one connected state. */
    method CreateRoom(roomId: string, host: Player, maxPlayers: int, isPrivate: bool, password: string,
                      voiceChatEnabled: bool) returns (o: Outcome)
      modifies repo
      ensures RoomKey(roomId) in old(repo.store) ==>
        o == Fail("Room already exists") && unchanged(repo)
      ensures RoomKey(roomId) !in old(repo.store) ==>
        var room := NewRoom(roomId, host, maxPlayers, isPrivate, password, voiceChatEnabled);
        && o == Pass
        && repo.store == old(repo.store)[RoomKey(roomId) := room]
        && repo.publicRoomIds == ListedAfterSave(old(repo.publicRoomIds), roomId, room)
    {
      var taken := repo.RoomExists(roomId);
      if taken {
        return Fail("Room already exists");
      }
      repo.SaveRoom(roomId, NewRoom(roomId, host, maxPlayers, isPrivate, password, voiceChatEnabled));
      o := Pass;
    }

    /** `joinRoom`: stores the room `Join` computes, or reports its error and changes nothing. */
    method JoinRoom(roomId: string, player: Player, password: Option<string>) returns (o: Outcome)
      modifies repo
      ensures var j := Join(old(repo.Lookup(roomId)), player, password);
        && (j.Failure? ==> o == Fail(j.error) && unchanged(repo))
        && (j.Success? ==>
              && o == Pass
              && repo.store == old(repo.store)[RoomKey(roomId) := j.value]
              && repo.publicRoomIds == ListedAfterSave(old(repo.publicRoomIds), roomId, j.value))
    {
      var room := repo.GetRoom(roomId);
      var j := Join(room, player, password);
      if j.Failure? {
        return Fail(j.error);
      }
      repo.SaveRoom(roomId, j.value);
      o := Pass;
    }

    /** `leaveRoom`: absent for a missing room; otherwise the record `AfterLeave` computes is
        stored, or the room is deleted when nobody is left. */
    method LeaveRoom(roomId: string, playerId: string) returns (r: Option<RoomData>)
      modifies repo
      ensures old(repo.Lookup(roomId)).None? ==> r.None? && unchanged(repo)
      ensures old(repo.Lookup(roomId)).Some? ==> r == AfterLeave(old(repo.Lookup(roomId)).value, playerId)
      ensures old(repo.Lookup(roomId)).Some? && r.None? ==>
        repo.store == old(repo.store) - {RoomKey(roomId)} && repo.publicRoomIds == old(repo.publicRoomIds) - {roomId}
      ensures r.Some? ==>
        repo.store == old(repo.store)[RoomKey(roomId) := r.value]
        && repo.publicRoomIds == ListedAfterSave(old(repo.publicRoomIds), roomId, r.value)
    {
      var room := repo.GetRoom(roomId);
      if room.None? {
        return None;
      }
      r := AfterLeave(room.value, playerId);
      if r.None? {
        var _ := repo.DeleteRoom(roomId);
      } else {
        repo.SaveRoom(roomId, r.value);
      }
    }

    /** `getPublicRooms`: the repository's listing, `listed`, narrowed to rooms with a free seat
        and no game, in listing order. */
    method GetPublicRooms() returns (available: seq<PublicRoomData>, ghost listed: seq<PublicRoomData>, ghost order: seq<string>)
      modifies repo
      ensures repo.store == old(repo.store)
      ensures forall id :: id in order <==> id in old(repo.publicRoomIds) && RoomKey(id) in repo.store
      ensures forall id :: id in repo.publicRoomIds <==> id in order
      ensures |listed| == |order|
      ensures forall i :: 0 <= i < |order| ==> RoomKey(order[i]) in repo.store && listed[i] == ToPublic(repo.store[RoomKey(order[i])])
      ensures available == Filter(listed, AvailableIn(repo.store))
    {
      var rooms;
      rooms, order := repo.GetPublicRooms();
      listed := rooms;
      available := KeepAvailable(rooms);
    }

    /** The loop of `getPublicRooms`: each entry whose room, fetched again, has a free seat and
        no game. */
    method KeepAvailable(rooms: seq<PublicRoomData>) returns (available: seq<PublicRoomData>)
      ensures available == Filter(rooms, AvailableIn(repo.store))
    {
      available := [];
      var n := 0;
      while n < |rooms|
        invariant n <= |rooms|
        invariant available == Filter(rooms[..n], AvailableIn(repo.store))
      {
        available := KeepIfAvailable(rooms[n], rooms[..n], available);
        assert rooms[..n + 1] == rooms[..n] + [rooms[n]];
        n := n + 1;
      }
      assert rooms[..n] == rooms;
    }

    /** One pass of that loop: the entry is kept when its room, fetched again, is available. */
    method KeepIfAvailable(p: PublicRoomData, ghost seen: seq<PublicRoomData>, kept: seq<PublicRoomData>)
      returns (available: seq<PublicRoomData>)
      requires kept == Filter(seen, AvailableIn(repo.store))
      ensures available == Filter(seen + [p], AvailableIn(repo.store))
    {
      var room := repo.GetRoom(p.id);
      FilterSnoc(seen, p, AvailableIn(repo.store));
      if room.Some? && |room.value.players| < room.value.maxPlayers && room.value.gameState.None? {
        assert AvailableIn(repo.store)(p);
        available := kept + [p];
      } else {
        assert !AvailableIn(repo.store)(p);
        available := kept;
      }
    }

    /** `getRoom`. */
    method GetRoom(roomId: string) returns (r: Option<RoomData>)
      ensures r.Some? <==> RoomKey(roomId) in repo.store
      ensures r.Some? ==> r.value == repo.store[RoomKey(roomId)]
    {
      r := repo.GetRoom(roomId);
    }

    /** `getAllRooms`: every stored room with its id, each once. */
    method GetAllRooms() returns (rooms: seq<(string, RoomData)>)
      ensures forall i :: 0 <= i < |rooms| ==> RoomKey(rooms[i].0) in repo.store && rooms[i].1 == repo.store[RoomKey(rooms[i].0)]
      ensures forall id :: RoomKey(id) in repo.store ==> exists i :: 0 <= i < |rooms| && rooms[i].0 == id
      ensures forall i, j :: 0 <= i < j < |rooms| ==> rooms[i].0 != rooms[j].0
    {
      var ids := repo.GetAllRoomIds();
      rooms := [];
      var n := 0;
      while n < |ids|
        invariant n <= |ids| && |rooms| == n
        invariant forall i :: 0 <= i < n ==> rooms[i].0 == ids[i]
        invariant forall i :: 0 <= i < n ==> RoomKey(rooms[i].0) in repo.store && rooms[i].1 == repo.store[RoomKey(rooms[i].0)]
      {
        var room := repo.GetRoom(ids[n]);
        rooms := rooms + [(ids[n], room.value)];
        n := n + 1;
      }
      forall id | RoomKey(id) in repo.store
        ensures exists i :: 0 <= i < |rooms| && rooms[i].0 == id
      {
        var i :| 0 <= i < |ids| && ids[i] == id;
        assert rooms[i].0 == id;
      }
    }

    /** `updateGameState`: fails on a missing room; otherwise replaces only its game. */
    method UpdateGameState(roomId: string, game: GameState) returns (o: Outcome)
      modifies repo
      ensures RoomKey(roomId) !in old(repo.store) ==> o == Fail("Room not found") && unchanged(repo)
      ensures RoomKey(roomId) in old(repo.store) ==>
        var room := old(repo.store)[RoomKey(roomId)].(gameState := Some(game));
        o == Pass && repo.store == old(repo.store)[RoomKey(roomId) := room]
        && repo.publicRoomIds == ListedAfterSave(old(repo.publicRoomIds), roomId, room)
    {
      var room := repo.GetRoom(roomId);
      if room.None? {
        return Fail("Room not found");
      }
      repo.SaveRoom(roomId, room.value.(gameState := Some(game)));
      o := Pass;
    }

    /** `updateRoom`: overwrites the whole record. */
    method UpdateRoom(roomId: string, data: RoomData)
      modifies repo
      ensures repo.store == old(repo.store)[RoomKey(roomId) := data]
      ensures repo.publicRoomIds == ListedAfterSave(old(repo.publicRoomIds), roomId, data)
    {
      repo.SaveRoom(roomId, data);
    }

    /** `removeRoom`. */
    method RemoveRoom(roomId: string)
      modifies repo
      ensures repo.store == old(repo.store) - {RoomKey(roomId)}
      ensures repo.publicRoomIds == old(repo.publicRoomIds) - {roomId}
    {
      var _ := repo.DeleteRoom(roomId);
    }

    /** `playerExists`: the room exists and has a member with the id. */
    method PlayerExists(roomId: string, playerId: string) returns (b: bool)
      ensures b <==> RoomKey(roomId) in repo.store && HasPlayer(repo.store[RoomKey(roomId)].players, playerId)
    {
      var room := repo.GetRoom(roomId);
      b := room.Some? && HasPlayer(room.value.players, playerId);
    }

    /** `roomExists`. */
    method RoomExists(roomId: string) returns (b: bool)
      ensures b <==> RoomKey(roomId) in repo.store
    {
      b := repo.RoomExists(roomId);
    }
  }
}
