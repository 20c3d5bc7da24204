/** Connection tracking (backend/src/rooms/connectionManager.ts): the per-player connection
    states kept in the room record, and the armed disconnect timers. A timer is kept under its
    key with the room and player its expiry removes and the time it is due; the wall clock is
    the `now` parameter and the expiry itself is the method `TimerExpired`. */
module Connections {

  import opened Wrappers
  import opened Types
  import opened Seqs
  import opened Repository
  import opened Rooms

  /** The grace period before a disconnected player is removed, in milliseconds. */
  const DISCONNECT_GRACE_MS: int := 60000

  /** An armed disconnect timer: the room and player its expiry removes, and the time it is
      due, the grace period after it was armed. */
  datatype DisconnectTimer = DisconnectTimer(roomId: string, playerId: string, dueAt: int)

  /** `getTimerKey`. */
  function TimerKey(roomId: string, playerId: string): string {
    roomId + ":" + playerId
  }

  function IsStateOf(playerId: string): PlayerConnectionState -> bool {
    (s: PlayerConnectionState) => s.playerId == playerId
  }

  function HasSocket(socketId: string): Player -> bool {
    (p: Player) => p.socketId == socketId
  }

  function HasId(playerId: string): Player -> bool {
    (p: Player) => p.id == playerId
  }

  /** `connectionStates?.find(s => s.playerId === playerId)`: the first entry for the player. */
  function StateOf(states: seq<PlayerConnectionState>, playerId: string): (r: Option<PlayerConnectionState>)
    ensures r.Some? ==> r.value in states && r.value.playerId == playerId
    ensures r.None? <==> forall i :: 0 <= i < |states| ==> states[i].playerId != playerId
  {
    var k := FindIndex(states, IsStateOf(playerId));
    assert k == -1 <==> forall i :: 0 <= i < |states| ==> !IsStateOf(playerId)(states[i]);
    if k == -1 then None else Some(states[k])
  }

  /** `upsertConnectionState`: the player's first entry is overwritten in place (every field of
      the new state is present, so the spread merge is a replacement), or the state is appended
      when the player has none. */
  function Upsert(states: seq<PlayerConnectionState>, state: PlayerConnectionState): (r: seq<PlayerConnectionState>)
    ensures StateOf(states, state.playerId).None? ==> r == states + [state]
    ensures StateOf(states, state.playerId).Some? ==> |r| == |states|
    ensures forall i :: 0 <= i < |states| && states[i].playerId != state.playerId ==> r[i] == states[i]
  {
    var k := FindIndex(states, IsStateOf(state.playerId));
    assert k == -1 <==> forall i :: 0 <= i < |states| ==> !IsStateOf(state.playerId)(states[i]);
    if k == -1 then states + [state] else states[k := state]
  }

  /** After an upsert, looking the player up yields the new state, and every other player's
      state is what it was. */
  lemma UpsertThenLookup(states: seq<PlayerConnectionState>, state: PlayerConnectionState, other: string)
    requires other != state.playerId
    ensures StateOf(Upsert(states, state), state.playerId) == Some(state)
    ensures StateOf(Upsert(states, state), other) == StateOf(states, other)
  {
    var r := Upsert(states, state);
    var k := FindIndex(states, IsStateOf(state.playerId));
    if k == -1 {
      assert forall i :: 0 <= i < |states| ==> !IsStateOf(state.playerId)(states[i]);
      assert forall i :: 0 <= i < |states| ==> r[i] == states[i];
      assert IsStateOf(state.playerId)(r[|states|]);
      assert FindIndex(r, IsStateOf(state.playerId)) == |states|;
    } else {
      assert r == states[k := state];
      assert IsStateOf(state.playerId)(r[k]);
      assert forall j :: 0 <= j < k ==> !IsStateOf(state.playerId)(r[j]);
      assert FindIndex(r, IsStateOf(state.playerId)) == k;
    }
    var ko, ro := FindIndex(states, IsStateOf(other)), FindIndex(r, IsStateOf(other));
    assert !IsStateOf(other)(state);
    assert forall i :: 0 <= i < |r| ==> (IsStateOf(other)(r[i]) <==> i < |states| && IsStateOf(other)(states[i]));
    if ko == -1 {
      assert ro == -1;
    } else {
      assert r[ko] == states[ko];
      assert ro == ko;
    }
  }

  /** An upsert for a member keeps the connection states in step with the members. */
  lemma UpsertKeepsAlignment(room: RoomData, state: PlayerConnectionState)
    requires RoomInvariant(room) && HasPlayer(room.players, state.playerId)
    ensures RoomInvariant(room.(connectionStates := Upsert(room.connectionStates, state)))
  {
    var k :| 0 <= k < |room.players| && room.players[k].id == state.playerId;
    assert room.connectionStates[k].playerId == state.playerId;
    var j := FindIndex(room.connectionStates, IsStateOf(state.playerId));
    assert j != -1 by { assert IsStateOf(state.playerId)(room.connectionStates[k]); }
    assert room.connectionStates[j].playerId == room.players[j].id;
  }

  /** `handleDisconnect`'s record computation for the member at index `k`: its state becomes
      disconnected since `now`. */
  function AfterDisconnect(room: RoomData, k: int, socketId: string, now: int): (r: RoomData)
    requires 0 <= k < |room.players|
    ensures r.(connectionStates := room.connectionStates) == room
  {
    room.(connectionStates := Upsert(room.connectionStates,
      PlayerConnectionState(room.players[k].id, socketId, Disconnected, Some(now))))
  }

  /** The state `handleReconnect` writes. */
  function ReconnectedState(playerId: string, socketId: string): PlayerConnectionState {
    PlayerConnectionState(playerId, socketId, Connected, None)
  }

  /** The reconnection is refused: the player is connected under another socket. */
  predicate ConnectedElsewhere(room: RoomData, playerId: string, socketId: string) {
    var s := StateOf(room.connectionStates, playerId);
    s.Some? && s.value.status == Connected && s.value.socketId != socketId
  }

  /** `handleReconnect`'s record computation: None for a missing room, a missing member or a
      member connected under another socket; otherwise the member's socket id is replaced (the
      host copy keeps its old one) and its state becomes connected. */
  function Reconnected(room: Option<RoomData>, playerId: string, socketId: string): (r: Option<RoomData>)
    ensures r.None? <==> room.None? || !HasPlayer(room.value.players, playerId) || ConnectedElsewhere(room.value, playerId, socketId)
    ensures r.Some? ==>
      && r.value.connectionStates == Upsert(room.value.connectionStates, ReconnectedState(playerId, socketId))
      && (var k := FindIndex(room.value.players, HasId(playerId));
          0 <= k < |room.value.players| && room.value.players[k].id == playerId
          && r.value.players == room.value.players[k := room.value.players[k].(socketId := socketId)])
      && r.value.(players := room.value.players, connectionStates := room.value.connectionStates) == room.value
  {
    if room.None? then None
    else
      var rm := room.value;
      var k := FindIndex(rm.players, HasId(playerId));
      assert k == -1 <==> !HasPlayer(rm.players, playerId) by {
        assert forall i :: 0 <= i < |rm.players| ==> (HasId(playerId)(rm.players[i]) <==> rm.players[i].id == playerId);
      }
      if k == -1 then None
      else if ConnectedElsewhere(rm, playerId, socketId) then None
      else
        Some(rm.(
          players := rm.players[k := rm.players[k].(socketId := socketId)],
          connectionStates := Upsert(rm.connectionStates, ReconnectedState(playerId, socketId))))
  }

  /** A successful reconnection leaves the player connected under the new socket, keeps the
      room invariant, gives the member with that id the new socket id, and leaves every other
      member as it was. */
  lemma ReconnectedConnects(room: RoomData, playerId: string, socketId: string)
    requires RoomInvariant(room) && Reconnected(Some(room), playerId, socketId).Some?
    ensures var r := Reconnected(Some(room), playerId, socketId).value;
      && StateOf(r.connectionStates, playerId) == Some(ReconnectedState(playerId, socketId))
      && RoomInvariant(r)
      && |r.players| == |room.players|
      && (forall i :: 0 <= i < |r.players| && r.players[i].id == playerId ==> r.players[i].socketId == socketId)
      && (forall i :: 0 <= i < |r.players| && r.players[i].id != playerId ==> r.players[i] == room.players[i])
  {
    var r := Reconnected(Some(room), playerId, socketId).value;
    ReconnectedPlayers(room, playerId, socketId);
    UpsertThenLookup(room.connectionStates, ReconnectedState(playerId, socketId), playerId + "'");
    UpsertKeepsAlignment(room, ReconnectedState(playerId, socketId));
    assert HasPlayer(room.players, room.host.id);
    var h :| 0 <= h < |room.players| && room.players[h].id == room.host.id;
    assert r.players[h].id == r.host.id;
  }

  /** The member part of that lemma: only the member with the id changes, and only its socket. */
  lemma ReconnectedPlayers(room: RoomData, playerId: string, socketId: string)
    requires UniquePlayerIds(room.players) && Reconnected(Some(room), playerId, socketId).Some?
    ensures var ps := Reconnected(Some(room), playerId, socketId).value.players;
      && |ps| == |room.players|
      && (forall i :: 0 <= i < |ps| ==> ps[i].id == room.players[i].id)
      && (forall i :: 0 <= i < |ps| && ps[i].id == playerId ==> ps[i].socketId == socketId)
      && (forall i :: 0 <= i < |ps| && ps[i].id != playerId ==> ps[i] == room.players[i])
  {
    var ps := Reconnected(Some(room), playerId, socketId).value.players;
    var k := FindIndex(room.players, HasId(playerId));
    assert ps == room.players[k := room.players[k].(socketId := socketId)];
    forall i | 0 <= i < |ps| && i != k
      ensures ps[i] == room.players[i] && ps[i].id != playerId
    {
      assert room.players[i].id != room.players[k].id;
    }
  }

  /** A member whose state is disconnected can always reconnect, from any socket. */
  lemma DisconnectedMemberCanReconnect(room: RoomData, k: int, oldSocket: string, now: int, socketId: string)
    requires RoomInvariant(room) && 0 <= k < |room.players|
    ensures Reconnected(Some(AfterDisconnect(room, k, oldSocket, now)), room.players[k].id, socketId).Some?
  {
    var id := room.players[k].id;
    var s := PlayerConnectionState(id, oldSocket, Disconnected, Some(now));
    UpsertThenLookup(room.connectionStates, s, id + "'");
    assert HasPlayer(AfterDisconnect(room, k, oldSocket, now).players, id);
  }

  class ConnectionManager {
    const rooms: RoomManager
    /** The armed timers, by key. */
    var disconnectTimers: map<string, DisconnectTimer>
    /** Whether `setAutoRemoveHandler` has installed the callback. */
    var handlerSet: bool
    /** The callback invocations so far: room, player and the room returned by the leave. */
    var autoRemoved: seq<(string, string, Option<RoomData>)>

    constructor(rooms: RoomManager)
      ensures this.rooms == rooms && disconnectTimers == map[] && !handlerSet && autoRemoved == []
    {
      this.rooms := rooms;
      disconnectTimers := map[];
      handlerSet := false;
      autoRemoved := [];
    }

    /** `setAutoRemoveHandler`. */
    method SetAutoRemoveHandler()
      modifies this
      ensures handlerSet && disconnectTimers == old(disconnectTimers) && autoRemoved == old(autoRemoved)
    {
      handlerSet := true;
    }

    /** `clearDisconnectTimer`: disarms the timer for the pair, if one is armed. */
    method ClearDisconnectTimer(roomId: string, playerId: string)
      modifies this
      ensures disconnectTimers == old(disconnectTimers) - {TimerKey(roomId, playerId)}
      ensures handlerSet == old(handlerSet) && autoRemoved == old(autoRemoved)
    {
      disconnectTimers := disconnectTimers - {TimerKey(roomId, playerId)};
    }

    /** `setDisconnectTimer` at time `now`: clears any timer for the pair, then arms exactly
        one, due when the grace period has passed. */
    method SetDisconnectTimer(roomId: string, playerId: string, now: int)
      modifies this
      ensures disconnectTimers == old(disconnectTimers)[TimerKey(roomId, playerId) :=
        DisconnectTimer(roomId, playerId, now + DISCONNECT_GRACE_MS)]
      ensures handlerSet == old(handlerSet) && autoRemoved == old(autoRemoved)
    {
      ClearDisconnectTimer(roomId, playerId);
      disconnectTimers := disconnectTimers[TimerKey(roomId, playerId) := DisconnectTimer(roomId, playerId, now + DISCONNECT_GRACE_MS)];
    }

    /** The expiry of the timer under `key` at time `now`, once it is due: the player leaves
        the room as in `leaveRoom`, the callback (when installed) receives the result, and the
        key is dropped. */
    method TimerExpired(key: string, now: int) returns (left: Option<RoomData>)
      requires key in disconnectTimers && disconnectTimers[key].dueAt <= now
      modifies this, rooms.repo
      ensures var t := old(disconnectTimers)[key];
        && (old(rooms.repo.Lookup(t.roomId)).None? ==> left.None? && unchanged(rooms.repo))
        && (old(rooms.repo.Lookup(t.roomId)).Some? ==> left == AfterLeave(old(rooms.repo.Lookup(t.roomId)).value, t.playerId))
        && (old(rooms.repo.Lookup(t.roomId)).Some? && left.None? ==>
              rooms.repo.store == old(rooms.repo.store) - {RoomKey(t.roomId)}
              && rooms.repo.publicRoomIds == old(rooms.repo.publicRoomIds) - {t.roomId})
        && (left.Some? ==>
              rooms.repo.store == old(rooms.repo.store)[RoomKey(t.roomId) := left.value]
              && rooms.repo.publicRoomIds == ListedAfterSave(old(rooms.repo.publicRoomIds), t.roomId, left.value))
        && autoRemoved == old(autoRemoved) + (if handlerSet then [(t.roomId, t.playerId, left)] else [])
      ensures disconnectTimers == old(disconnectTimers) - {key}
      ensures handlerSet == old(handlerSet)
    {
      var roomId, playerId := disconnectTimers[key].roomId, disconnectTimers[key].playerId;
      left := rooms.LeaveRoom(roomId, playerId);
      if handlerSet {
        autoRemoved := autoRemoved + [(roomId, playerId, left)];
      }
      disconnectTimers := disconnectTimers - {key};
    }

    /** `handleDisconnect`: None for a missing room; the room unchanged when no member has the
        socket; otherwise the first such member's state becomes disconnected since `now`, the
        room is stored and one timer is armed for the pair. */
    method HandleDisconnect(roomId: string, socketId: string, now: int) returns (r: Option<RoomData>)
      modifies this, rooms.repo
      ensures old(rooms.repo.Lookup(roomId)).None? ==>
        r.None? && unchanged(rooms.repo) && disconnectTimers == old(disconnectTimers)
      ensures old(rooms.repo.Lookup(roomId)).Some? ==>
        var room := old(rooms.repo.Lookup(roomId)).value;
        var k := FindIndex(room.players, HasSocket(socketId));
        && (k == -1 ==> r == Some(room) && unchanged(rooms.repo) && disconnectTimers == old(disconnectTimers))
        && (k != -1 ==>
              && r == Some(AfterDisconnect(room, k, socketId, now))
              && rooms.repo.store == old(rooms.repo.store)[RoomKey(roomId) := r.value]
              && rooms.repo.publicRoomIds == ListedAfterSave(old(rooms.repo.publicRoomIds), roomId, r.value)
              && disconnectTimers == old(disconnectTimers)[TimerKey(roomId, room.players[k].id) :=
                   DisconnectTimer(roomId, room.players[k].id, now + DISCONNECT_GRACE_MS)])
      ensures handlerSet == old(handlerSet) && autoRemoved == old(autoRemoved)
    {
      var room := rooms.GetRoom(roomId);
      if room.None? {
        return None;
      }
      var k := FindIndex(room.value.players, HasSocket(socketId));
      if k == -1 {
        return room;
      }
      var updated := AfterDisconnect(room.value, k, socketId, now);
      rooms.UpdateRoom(roomId, updated);
      SetDisconnectTimer(roomId, room.value.players[k].id, now);
      r := Some(updated);
    }

    /** `handleReconnect`: stores the room `Reconnected` computes and disarms the player's
        timer; on refusal nothing changes. */
    method HandleReconnect(roomId: string, playerId: string, socketId: string) returns (r: Option<RoomData>)
      modifies this, rooms.repo
      ensures r == Reconnected(old(rooms.repo.Lookup(roomId)), playerId, socketId)
      ensures r.None? ==> unchanged(rooms.repo) && disconnectTimers == old(disconnectTimers)
      ensures r.Some? ==>
        && rooms.repo.store == old(rooms.repo.store)[RoomKey(roomId) := r.value]
        && rooms.repo.publicRoomIds == ListedAfterSave(old(rooms.repo.publicRoomIds), roomId, r.value)
        && disconnectTimers == old(disconnectTimers) - {TimerKey(roomId, playerId)}
      ensures handlerSet == old(handlerSet) && autoRemoved == old(autoRemoved)
    {
      var room := rooms.GetRoom(roomId);
      r := Reconnected(room, playerId, socketId);
      if r.None? {
        return;
      }
      rooms.UpdateRoom(roomId, r.value);
      ClearDisconnectTimer(roomId, playerId);
    }
  }
}
