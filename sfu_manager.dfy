/** The voice-chat room registry (backend/src/webrtc/sfuManager.ts): the mock selective
    forwarding unit that keeps voice rooms and their participants, the events it emits, and
    the manager that picks an implementation by provider name and forwards its events. */
module Sfu {

  import opened Wrappers
  import opened Seqs

  datatype VoiceParticipant = VoiceParticipant(
    id: string, name: string, sfuParticipantId: string, muted: bool, joinedAt: int)

  /** A voice room; `participants` lists the participants in insertion order, as the source's
      `Map` iterates them. */
  datatype VoiceRoom = VoiceRoom(
    id: string, sfuRoomId: string, participants: seq<VoiceParticipant>, active: bool, createdAt: int)

  datatype EventData = NoData | RoomData(sfuRoomId: string) | JoinData(name: string, sfuParticipantId: string)
                     | MuteData(muted: bool)

  datatype SfuEvent = SfuEvent(kind: string, roomId: string, participantId: Option<string>, data: EventData)

  /** An event emitted on a named channel of an event emitter. */
  datatype Emission = Emission(channel: string, event: SfuEvent)

  /** The one channel the mock emits on. */
  const SFU_CHANNEL: string := "sfu-event"

  /** The channels (and event kinds) the manager listens to on its implementation. */
  const LISTENED: set<string> :=
    {"error", "participant-joined", "participant-left", "participant-muted", "participant-unmuted"}

  const TOKEN_LIFETIME_MS: int := 3600000

  /** The payload of a mock join token (the source sends it base64-encoded JSON). */
  datatype JoinToken = JoinToken(roomId: string, participantId: string, name: string, exp: int)

  // ----- Participant lists ---------------------------------------------------------------

  predicate IsParticipant(pid: string, p: VoiceParticipant) { p.id == pid }

  function ParticipantNamed(pid: string): VoiceParticipant -> bool {
    p => IsParticipant(pid, p)
  }

  predicate HasParticipant(ps: seq<VoiceParticipant>, pid: string) {
    exists i :: 0 <= i < |ps| && ps[i].id == pid
  }

  /** No two participants share an id (they are the keys of a map). */
  predicate DistinctParticipants(ps: seq<VoiceParticipant>) {
    forall i, j :: 0 <= i < j < |ps| ==> ps[i].id != ps[j].id
  }

  /** Where the participant is, or -1. */
  function ParticipantIndex(ps: seq<VoiceParticipant>, pid: string): (k: int)
    ensures k == -1 <==> !HasParticipant(ps, pid)
    ensures k != -1 ==> 0 <= k < |ps| && ps[k].id == pid
    ensures k != -1 && DistinctParticipants(ps) ==> forall j :: 0 <= j < |ps| && ps[j].id == pid ==> j == k
  {
    var k := FindIndex(ps, ParticipantNamed(pid));
    assert forall j :: 0 <= j < |ps| ==> (ParticipantNamed(pid)(ps[j]) <==> ps[j].id == pid);
    k
  }

  /** A newly added participant. */
  function NewParticipant(pid: string, name: string, now: int): (p: VoiceParticipant)
    ensures p.id == pid && p.name == name && !p.muted && p.joinedAt == now
    ensures p.sfuParticipantId == "p-" + pid
  {
    VoiceParticipant(pid, name, "p-" + pid, false, now)
  }

  /** The list after the participant leaves. */
  function Without(ps: seq<VoiceParticipant>, pid: string): (r: seq<VoiceParticipant>)
    requires HasParticipant(ps, pid)
    ensures |r| == |ps| - 1
    ensures DistinctParticipants(ps) ==> DistinctParticipants(r) && !HasParticipant(r, pid)
    ensures forall i :: 0 <= i < |ps| && ps[i].id != pid ==> ps[i] in r
  {
    var k := ParticipantIndex(ps, pid);
    var r := RemoveAt(ps, k);
    assert forall i :: 0 <= i < |ps| && i != k ==> ps[i] == r[if i < k then i else i - 1];
    r
  }

  /** The list with the participant's `muted` flag set. */
  function WithMute(ps: seq<VoiceParticipant>, pid: string, muted: bool): (r: seq<VoiceParticipant>)
    requires HasParticipant(ps, pid)
    ensures |r| == |ps|
    ensures forall i :: 0 <= i < |ps| ==> r[i].id == ps[i].id
    ensures forall i :: 0 <= i < |ps| && ps[i].id != pid ==> r[i] == ps[i]
    ensures DistinctParticipants(ps) ==> DistinctParticipants(r)
    ensures r[ParticipantIndex(ps, pid)] == ps[ParticipantIndex(ps, pid)].(muted := muted)
  {
    var k := ParticipantIndex(ps, pid);
    ps[k := ps[k].(muted := muted)]
  }

  /** Adding a participant and then removing it restores the list. */
  lemma AddThenRemoveRestores(ps: seq<VoiceParticipant>, p: VoiceParticipant)
    requires !HasParticipant(ps, p.id)
    ensures HasParticipant(ps + [p], p.id) && Without(ps + [p], p.id) == ps
  {
    var qs := ps + [p];
    assert qs[|ps|].id == p.id;
    assert ParticipantIndex(qs, p.id) == |ps| by {
      assert forall j :: 0 <= j < |ps| ==> qs[j].id != p.id;
    }
    assert RemoveAt(qs, |ps|) == ps;
  }

  /** Adding keeps ids distinct exactly when the id is new. */
  lemma AddKeepsDistinct(ps: seq<VoiceParticipant>, p: VoiceParticipant)
    requires DistinctParticipants(ps)
    ensures DistinctParticipants(ps + [p]) <==> !HasParticipant(ps, p.id)
  {
    var qs := ps + [p];
    if HasParticipant(ps, p.id) {
      var i :| 0 <= i < |ps| && ps[i].id == p.id;
      assert qs[i].id == qs[|ps|].id;
    }
  }

  /** The emissions of `participant-left` for each id, in order. */
  function LeftEmissions(roomId: string, ids: seq<string>): (r: seq<Emission>)
    ensures |r| == |ids|
    ensures forall i :: 0 <= i < |ids| ==>
      r[i] == Emission(SFU_CHANNEL, SfuEvent("participant-left", roomId, Some(ids[i]), NoData))
  {
    if |ids| == 0 then []
    else [Emission(SFU_CHANNEL, SfuEvent("participant-left", roomId, Some(ids[0]), NoData))] + LeftEmissions(roomId, ids[1..])
  }

  lemma LeftEmissionsSnoc(roomId: string, ids: seq<string>, id: string)
    ensures LeftEmissions(roomId, ids + [id])
         == LeftEmissions(roomId, ids) + [Emission(SFU_CHANNEL, SfuEvent("participant-left", roomId, Some(id), NoData))]
  {
    var l, r := LeftEmissions(roomId, ids + [id]),
      LeftEmissions(roomId, ids) + [Emission(SFU_CHANNEL, SfuEvent("participant-left", roomId, Some(id), NoData))];
    assert |l| == |r|;
    forall i | 0 <= i < |l| ensures l[i] == r[i] {
      if i < |ids| { assert (ids + [id])[i] == ids[i]; }
    }
  }

  lemma LeftEmissionsStep(roomId: string, ids: seq<string>, i: int)
    requires 0 <= i < |ids|
    ensures LeftEmissions(roomId, ids[..i + 1])
         == LeftEmissions(roomId, ids[..i]) + [Emission(SFU_CHANNEL, SfuEvent("participant-left", roomId, Some(ids[i]), NoData))]
  {
    assert ids[..i + 1] == ids[..i] + [ids[i]];
    LeftEmissionsSnoc(roomId, ids[..i], ids[i]);
  }

  /** The ids of a participant list, in order. */
  function IdsOf(ps: seq<VoiceParticipant>): (r: seq<string>)
    ensures |r| == |ps| && forall i :: 0 <= i < |ps| ==> r[i] == ps[i].id
  {
    if |ps| == 0 then [] else [ps[0].id] + IdsOf(ps[1..])
  }

  // ----- The mock implementation ---------------------------------------------------------

  class MockSfu {
    var rooms: map<string, VoiceRoom>
    /** The room ids in insertion order (the iteration order of the source's `Map`). */
    var roomOrder: seq<string>
    /** Every event emitted so far, with its channel. */
    var emitted: seq<Emission>

    ghost predicate Valid()
      reads this
    {
      && (forall id :: id in rooms <==> id in roomOrder)
      && (forall i, j :: 0 <= i < j < |roomOrder| ==> roomOrder[i] != roomOrder[j])
      && (forall id :: id in rooms ==> DistinctParticipants(rooms[id].participants))
      && (forall i :: 0 <= i < |emitted| ==> emitted[i].channel == SFU_CHANNEL)
    }

    constructor ()
      ensures Valid() && rooms == map[] && roomOrder == [] && emitted == []
    {
      rooms, roomOrder, emitted := map[], [], [];
    }

    /** `shutdown`: every room is dropped. */
    method Shutdown()
      requires Valid()
      modifies this
      ensures Valid() && rooms == map[] && roomOrder == [] && emitted == old(emitted)
    {
      rooms, roomOrder := map[], [];
    }

    method Emit(event: SfuEvent)
      requires Valid()
      modifies this
      ensures Valid() && rooms == old(rooms) && roomOrder == old(roomOrder)
      ensures emitted == old(emitted) + [Emission(SFU_CHANNEL, event)]
    {
      emitted := emitted + [Emission(SFU_CHANNEL, event)];
    }

    /** `createVoiceRoom`: refused for an existing id; otherwise an empty active room. */
    method CreateVoiceRoom(roomId: string, now: int) returns (r: Result<VoiceRoom>)
      requires Valid()
      modifies this
      ensures Valid()
      ensures roomId in old(rooms) ==> r == Failure("Room " + roomId + " already exists") && unchanged(this)
      ensures roomId !in old(rooms) ==>
        && r == Success(VoiceRoom(roomId, "sfu-" + roomId, [], true, now))
        && rooms == old(rooms)[roomId := r.value]
        && roomOrder == old(roomOrder) + [roomId]
        && emitted == old(emitted) + [Emission(SFU_CHANNEL, SfuEvent("room-created", roomId, None, RoomData("sfu-" + roomId)))]
    {
      if roomId in rooms {
        return Failure("Room " + roomId + " already exists");
      }
      var room := VoiceRoom(roomId, "sfu-" + roomId, [], true, now);
      rooms := rooms[roomId := room];
      roomOrder := roomOrder + [roomId];
      Emit(SfuEvent("room-created", roomId, None, RoomData(room.sfuRoomId)));
      r := Success(room);
    }

    /** `addParticipant`: refused for a missing room or a participant already present;
        otherwise an unmuted participant is appended. */
    method AddParticipant(roomId: string, pid: string, name: string, now: int) returns (r: Result<VoiceParticipant>)
      requires Valid()
      modifies this
      ensures Valid()
      ensures roomId !in old(rooms) ==> r == Failure("Room " + roomId + " not found") && unchanged(this)
      ensures roomId in old(rooms) && HasParticipant(old(rooms)[roomId].participants, pid) ==>
        r == Failure("Participant " + pid + " already in room") && unchanged(this)
      ensures roomId in old(rooms) && !HasParticipant(old(rooms)[roomId].participants, pid) ==>
        var room := old(rooms)[roomId];
        && r == Success(NewParticipant(pid, name, now))
        && rooms == old(rooms)[roomId := room.(participants := room.participants + [r.value])]
        && roomOrder == old(roomOrder)
        && emitted == old(emitted) + [Emission(SFU_CHANNEL, SfuEvent("participant-joined", roomId, Some(pid), JoinData(name, "p-" + pid)))]
    {
      if roomId !in rooms {
        return Failure("Room " + roomId + " not found");
      }
      var room := rooms[roomId];
      if ParticipantIndex(room.participants, pid) != -1 {
        return Failure("Participant " + pid + " already in room");
      }
      var p := NewParticipant(pid, name, now);
      AddKeepsDistinct(room.participants, p);
      rooms := rooms[roomId := room.(participants := room.participants + [p])];
      Emit(SfuEvent("participant-joined", roomId, Some(pid), JoinData(name, p.sfuParticipantId)));
      r := Success(p);
    }

    /** `removeParticipant`: refused for a missing room or participant; otherwise only that
        participant goes. */
    method RemoveParticipant(roomId: string, pid: string) returns (o: Outcome)
      requires Valid()
      modifies this
      ensures Valid()
      ensures roomId !in old(rooms) ==> o == Fail("Room " + roomId + " not found") && unchanged(this)
      ensures roomId in old(rooms) && !HasParticipant(old(rooms)[roomId].participants, pid) ==>
        o == Fail("Participant " + pid + " not in room") && unchanged(this)
      ensures roomId in old(rooms) && HasParticipant(old(rooms)[roomId].participants, pid) ==>
        var room := old(rooms)[roomId];
        && o == Pass
        && rooms == old(rooms)[roomId := room.(participants := Without(room.participants, pid))]
        && roomOrder == old(roomOrder)
        && emitted == old(emitted) + [Emission(SFU_CHANNEL, SfuEvent("participant-left", roomId, Some(pid), NoData))]
    {
      if roomId !in rooms {
        return Fail("Room " + roomId + " not found");
      }
      var room := rooms[roomId];
      if ParticipantIndex(room.participants, pid) == -1 {
        return Fail("Participant " + pid + " not in room");
      }
      rooms := rooms[roomId := room.(participants := Without(room.participants, pid))];
      Emit(SfuEvent("participant-left", roomId, Some(pid), NoData));
      o := Pass;
    }

    /** `updateParticipantMute`: refused for a missing room or participant; otherwise only
        that participant's flag changes. */
    method UpdateParticipantMute(roomId: string, pid: string, muted: bool) returns (o: Outcome)
      requires Valid()
      modifies this
      ensures Valid()
      ensures roomId !in old(rooms) ==> o == Fail("Room " + roomId + " not found") && unchanged(this)
      ensures roomId in old(rooms) && !HasParticipant(old(rooms)[roomId].participants, pid) ==>
        o == Fail("Participant " + pid + " not in room") && unchanged(this)
      ensures roomId in old(rooms) && HasParticipant(old(rooms)[roomId].participants, pid) ==>
        var room := old(rooms)[roomId];
        && o == Pass
        && rooms == old(rooms)[roomId := room.(participants := WithMute(room.participants, pid, muted))]
        && roomOrder == old(roomOrder)
        && emitted == old(emitted) + [Emission(SFU_CHANNEL,
             SfuEvent(if muted then "participant-muted" else "participant-unmuted", roomId, Some(pid), MuteData(muted)))]
    {
      if roomId !in rooms {
        return Fail("Room " + roomId + " not found");
      }
      var room := rooms[roomId];
      if ParticipantIndex(room.participants, pid) == -1 {
        return Fail("Participant " + pid + " not in room");
      }
      rooms := rooms[roomId := room.(participants := WithMute(room.participants, pid, muted))];
      Emit(SfuEvent(if muted then "participant-muted" else "participant-unmuted", roomId, Some(pid), MuteData(muted)));
      o := Pass;
    }

    /** One pass of the deletion loop: the room's first participant is removed. */
    method RemoveLeading(roomId: string)
      requires Valid() && roomId in rooms && |rooms[roomId].participants| > 0
      modifies this
      ensures Valid() && roomOrder == old(roomOrder)
      ensures rooms == old(rooms)[roomId := old(rooms)[roomId].(participants := old(rooms)[roomId].participants[1..])]
      ensures emitted == old(emitted)
        + [Emission(SFU_CHANNEL, SfuEvent("participant-left", roomId, Some(old(rooms)[roomId].participants[0].id), NoData))]
    {
      var ps := rooms[roomId].participants;
      assert ParticipantIndex(ps, ps[0].id) == 0;
      assert RemoveAt(ps, 0) == ps[1..];
      var o := RemoveParticipant(roomId, ps[0].id);
    }

    /** `deleteVoiceRoom`: refused for a missing room; otherwise every participant is removed
        in order (one `participant-left` each), then the room. */
    method DeleteVoiceRoom(roomId: string) returns (o: Outcome)
      requires Valid()
      modifies this
      ensures Valid()
      ensures roomId !in old(rooms) ==> o == Fail("Room " + roomId + " not found") && unchanged(this)
      ensures roomId in old(rooms) ==>
        && o == Pass
        && rooms == old(rooms) - {roomId}
        && roomId !in roomOrder
        && emitted == old(emitted) + LeftEmissions(roomId, IdsOf(old(rooms)[roomId].participants))
                      + [Emission(SFU_CHANNEL, SfuEvent("room-deleted", roomId, None, NoData))]
    {
      if roomId !in rooms {
        return Fail("Room " + roomId + " not found");
      }
      RemoveAllParticipants(roomId);
      DropRoom(roomId);
      o := Pass;
    }

    /** The deletion loop: each participant, in order, is removed. */
    method RemoveAllParticipants(roomId: string)
      requires Valid() && roomId in rooms
      modifies this
      ensures Valid() && roomOrder == old(roomOrder)
      ensures rooms == old(rooms)[roomId := old(rooms)[roomId].(participants := [])]
      ensures emitted == old(emitted) + LeftEmissions(roomId, IdsOf(old(rooms)[roomId].participants))
    {
      var ps := rooms[roomId].participants;
      var ids := IdsOf(ps);
      var i := 0;
      while i < |ids|
        invariant 0 <= i <= |ids|
        invariant Valid()
        invariant roomOrder == old(roomOrder)
        invariant rooms == old(rooms)[roomId := old(rooms)[roomId].(participants := ps[i..])]
        invariant emitted == old(emitted) + LeftEmissions(roomId, ids[..i])
      {
        RemoveNext(roomId, ps, ids, i, old(rooms), old(emitted));
        i := i + 1;
      }
      assert ids[..i] == ids;
    }

    /** The loop body: with `ps[i..]` left, its first participant is removed. */
    method RemoveNext(roomId: string, ghost ps: seq<VoiceParticipant>, ghost ids: seq<string>, ghost i: int,
                      ghost rooms0: map<string, VoiceRoom>, ghost emitted0: seq<Emission>)
      requires Valid() && 0 <= i < |ids| && ids == IdsOf(ps) && roomId in rooms0
      requires rooms == rooms0[roomId := rooms0[roomId].(participants := ps[i..])]
      requires emitted == emitted0 + LeftEmissions(roomId, ids[..i])
      modifies this
      ensures Valid() && roomOrder == old(roomOrder)
      ensures rooms == rooms0[roomId := rooms0[roomId].(participants := ps[i + 1..])]
      ensures emitted == emitted0 + LeftEmissions(roomId, ids[..i + 1])
    {
      assert ps[i..][1..] == ps[i + 1..];
      RemoveLeading(roomId);
      LeftEmissionsStep(roomId, ids, i);
    }

    /** The room itself goes, and `room-deleted` is emitted. */
    method DropRoom(roomId: string)
      requires Valid() && roomId in rooms
      modifies this
      ensures Valid() && rooms == old(rooms) - {roomId} && roomId !in roomOrder
      ensures emitted == old(emitted) + [Emission(SFU_CHANNEL, SfuEvent("room-deleted", roomId, None, NoData))]
    {
      var k := FindIndex(roomOrder, (id: string) => id == roomId);
      rooms := rooms - {roomId};
      roomOrder := RemoveAt(roomOrder, k);
      assert forall j :: 0 <= j < |old(roomOrder)| && j != k ==> old(roomOrder)[j] in roomOrder by {
        assert forall j :: 0 <= j < |old(roomOrder)| && j != k ==> old(roomOrder)[j] == roomOrder[if j < k then j else j - 1];
      }
      Emit(SfuEvent("room-deleted", roomId, None, NoData));
    }

    /** `getJoinToken`: refused for a missing room; otherwise a token that expires an hour
        after `now`. */
    function GetJoinToken(roomId: string, pid: string, name: string, now: int): (r: Result<JoinToken>)
      reads this
      ensures r.Failure? <==> roomId !in rooms
      ensures r.Failure? ==> r.error == "Room " + roomId + " not found"
      ensures r.Success? ==> r.value.roomId == roomId && r.value.participantId == pid && r.value.exp - now == TOKEN_LIFETIME_MS
    {
      if roomId !in rooms then Failure("Room " + roomId + " not found")
      else Success(JoinToken(roomId, pid, name, now + TOKEN_LIFETIME_MS))
    }

    /** `getParticipants`: refused for a missing room; otherwise its participants in order. */
    function GetParticipants(roomId: string): (r: Result<seq<VoiceParticipant>>)
      reads this
      ensures r.Failure? <==> roomId !in rooms
      ensures r.Failure? ==> r.error == "Room " + roomId + " not found"
      ensures r.Success? ==> r.value == rooms[roomId].participants
      ensures r.Success? && Valid() ==> DistinctParticipants(r.value)
    {
      if roomId !in rooms then Failure("Room " + roomId + " not found") else Success(rooms[roomId].participants)
    }

    function RoomExists(roomId: string): (b: bool)
      reads this
      ensures b <==> GetRoom(roomId).Some?
    {
      roomId in rooms
    }

    function GetRoom(roomId: string): (r: Option<VoiceRoom>)
      reads this
      ensures r.Some? <==> roomId in rooms
      ensures r.Some? ==> r.value == rooms[roomId]
    {
      if roomId in rooms then Some(rooms[roomId]) else None
    }

    /** `getAllRooms`: every room, in insertion order. */
    method GetAllRooms() returns (rs: seq<VoiceRoom>)
      requires Valid()
      ensures |rs| == |rooms|
      ensures |rs| == |roomOrder| && forall i :: 0 <= i < |rs| ==> rs[i] == rooms[roomOrder[i]]
    {
      rs := [];
      var i := 0;
      while i < |roomOrder|
        invariant 0 <= i <= |roomOrder|
        invariant |rs| == i && forall j :: 0 <= j < i ==> rs[j] == rooms[roomOrder[j]]
      {
        rs := rs + [rooms[roomOrder[i]]];
        i := i + 1;
      }
      OrderCoversRooms();
    }

    lemma OrderCoversRooms()
      requires Valid()
      ensures |rooms| == |roomOrder|
    {
      var ks := set i | 0 <= i < |roomOrder| :: roomOrder[i];
      assert rooms.Keys == ks;
      DistinctCard(roomOrder);
    }

    method HealthCheck() returns (healthy: bool)
      ensures healthy
    {
      healthy := true;
    }
  }

  /** A sequence without repeats has as many distinct elements as positions. */
  lemma {:induction false} DistinctCard(s: seq<string>)
    requires forall i, j :: 0 <= i < j < |s| ==> s[i] != s[j]
    ensures |set i | 0 <= i < |s| :: s[i]| == |s|
  {
    if |s| > 0 {
      var t := s[..|s| - 1];
      DistinctCard(t);
      var a := set i | 0 <= i < |t| :: t[i];
      var b := set i | 0 <= i < |s| :: s[i];
      assert b == a + {s[|s| - 1]};
      assert s[|s| - 1] !in a;
    }
  }

  // ----- Event forwarding ----------------------------------------------------------------

  /** The events the manager re-emits, as written: its listeners are registered on the
      channels named by the event kinds. */
  function ForwardedAsWritten(xs: seq<Emission>): (r: seq<SfuEvent>)
    ensures |r| <= |xs|
  {
    if |xs| == 0 then []
    else (if xs[0].channel in LISTENED then [xs[0].event] else []) + ForwardedAsWritten(xs[1..])
  }

  /** Nothing the mock emits reaches a listener of the manager: the mock emits only on
      `sfu-event`, a channel the manager does not listen to. */
  lemma {:induction false} MockEventsNeverForwardedAsWritten(xs: seq<Emission>)
    requires forall i :: 0 <= i < |xs| ==> xs[i].channel == SFU_CHANNEL
    ensures ForwardedAsWritten(xs) == []
  {
    if |xs| > 0 {
      MockEventsNeverForwardedAsWritten(xs[1..]);
    }
  }

  /** The same for the events emitted after the first `n`. */
  lemma SuffixNeverForwardedAsWritten(xs: seq<Emission>, n: int)
    requires 0 <= n <= |xs| && forall i :: 0 <= i < |xs| ==> xs[i].channel == SFU_CHANNEL
    ensures ForwardedAsWritten(xs[n..]) == []
  {
    MockEventsNeverForwardedAsWritten(xs[n..]);
  }

  /** A participant joining is dropped by the written forwarding and kept by the corrected one. */
  lemma JoinEventLostAsWritten(roomId: string, pid: string, name: string)
    ensures var x := Emission(SFU_CHANNEL, SfuEvent("participant-joined", roomId, Some(pid), JoinData(name, "p-" + pid)));
      ForwardedAsWritten([x]) == [] && Forwarded([x]) == [x.event]
  {
  }

  /** The events the manager re-emits, corrected: those the mock emits on `sfu-event` whose
      kind is one the manager listens for. */
  function Forwarded(xs: seq<Emission>): (r: seq<SfuEvent>)
    ensures |r| <= |xs|
    ensures forall e :: e in r ==> e.kind in LISTENED
    ensures forall i :: 0 <= i < |xs| && xs[i].channel == SFU_CHANNEL && xs[i].event.kind in LISTENED ==> xs[i].event in r
  {
    if |xs| == 0 then []
    else
      var rest := Forwarded(xs[1..]);
      assert forall i :: 1 <= i < |xs| ==> xs[i] == xs[1..][i - 1];
      (if xs[0].channel == SFU_CHANNEL && xs[0].event.kind in LISTENED then [xs[0].event] else []) + rest
  }

  lemma {:induction false} ForwardedAppend(xs: seq<Emission>, ys: seq<Emission>)
    ensures Forwarded(xs + ys) == Forwarded(xs) + Forwarded(ys)
  {
    if |xs| == 0 {
      assert xs + ys == ys;
    } else {
      assert (xs + ys)[1..] == xs[1..] + ys;
      ForwardedAppend(xs[1..], ys);
    }
  }

  /** The `participant-left` events of a room deletion are all forwarded, in order. */
  lemma {:induction false} LeftEmissionsForwarded(roomId: string, ids: seq<string>)
    ensures Forwarded(LeftEmissions(roomId, ids)) == seq(|ids|, i requires 0 <= i < |ids| => SfuEvent("participant-left", roomId, Some(ids[i]), NoData))
  {
    if |ids| > 0 {
      LeftEmissionsForwarded(roomId, ids[1..]);
      assert LeftEmissions(roomId, ids)[1..] == LeftEmissions(roomId, ids[1..]);
    }
  }

  // ----- The manager ---------------------------------------------------------------------

  datatype Implementation = MockImplementation

  /** The provider switch: the known providers all run the mock (the others are not yet
      implemented); an unknown provider is an error. */
  function ImplementationFor(provider: string): (r: Result<Implementation>)
    ensures r.Success? <==> provider == "mock" || provider == "livekit" || provider == "mediasoup"
    ensures r.Failure? ==> r.error == "Unknown SFU provider: " + provider
  {
    if provider == "mock" || provider == "livekit" || provider == "mediasoup" then Success(MockImplementation)
    else Failure("Unknown SFU provider: " + provider)
  }

  /** The provider used when none is configured: `SFU_PROVIDER`, or `mock` when unset or empty. */
  function ConfiguredProvider(env: Option<string>): (p: string)
    ensures env.Some? && env.value != "" ==> p == env.value
    ensures env.None? || env.value == "" ==> p == "mock"
  {
    if env.Some? && env.value != "" then env.value else "mock"
  }

  /** The manager over its implementation. `forwarded` is the corrected forwarding: the events
      the manager re-emits when it listens on the channel the mock emits on. Each method also
      states that, as the source is written, none of the events it causes reaches a listener. */
  class SfuManager {
    const impl: MockSfu
    /** The events re-emitted on the manager's own `sfu-event` channel, forwarded as corrected. */
    var forwarded: seq<SfuEvent>

    ghost predicate Valid()
      reads this, impl
    {
      impl.Valid()
    }

    constructor ()
      ensures Valid() && fresh(impl) && impl.rooms == map[] && impl.emitted == [] && forwarded == []
    {
      impl := new MockSfu();
      forwarded := [];
    }

    method Shutdown()
      requires Valid()
      modifies impl
      ensures Valid() && impl.rooms == map[] && impl.emitted == old(impl.emitted)
    {
      impl.Shutdown();
    }

    method CreateVoiceRoom(roomId: string, now: int) returns (r: Result<VoiceRoom>)
      requires Valid()
      modifies this, impl
      ensures Valid()
      ensures |old(impl.emitted)| <= |impl.emitted| && ForwardedAsWritten(impl.emitted[|old(impl.emitted)|..]) == []
      ensures roomId in old(impl.rooms) ==> r.Failure? && unchanged(impl) && forwarded == old(forwarded)
      ensures roomId !in old(impl.rooms) ==>
        && r == Success(VoiceRoom(roomId, "sfu-" + roomId, [], true, now))
        && impl.rooms == old(impl.rooms)[roomId := r.value]
        && forwarded == old(forwarded)
    {
      var before := |impl.emitted|;
      r := impl.CreateVoiceRoom(roomId, now);
      forwarded := forwarded + Forwarded(impl.emitted[before..]);
      SuffixNeverForwardedAsWritten(impl.emitted, before);
    }

    method AddParticipant(roomId: string, pid: string, name: string, now: int) returns (r: Result<VoiceParticipant>)
      requires Valid()
      modifies this, impl
      ensures Valid()
      ensures |old(impl.emitted)| <= |impl.emitted| && ForwardedAsWritten(impl.emitted[|old(impl.emitted)|..]) == []
      ensures r.Failure? ==> unchanged(impl) && forwarded == old(forwarded)
      ensures r.Success? <==> roomId in old(impl.rooms) && !HasParticipant(old(impl.rooms)[roomId].participants, pid)
      ensures r.Success? ==>
        var room := old(impl.rooms)[roomId];
        && impl.rooms == old(impl.rooms)[roomId := room.(participants := room.participants + [r.value])]
        && forwarded == old(forwarded) + [SfuEvent("participant-joined", roomId, Some(pid), JoinData(name, "p-" + pid))]
    {
      var before := |impl.emitted|;
      r := impl.AddParticipant(roomId, pid, name, now);
      forwarded := forwarded + Forwarded(impl.emitted[before..]);
      SuffixNeverForwardedAsWritten(impl.emitted, before);
    }

    method RemoveParticipant(roomId: string, pid: string) returns (o: Outcome)
      requires Valid()
      modifies this, impl
      ensures Valid()
      ensures |old(impl.emitted)| <= |impl.emitted| && ForwardedAsWritten(impl.emitted[|old(impl.emitted)|..]) == []
      ensures o.Fail? ==> unchanged(impl) && forwarded == old(forwarded)
      ensures o.Pass? <==> roomId in old(impl.rooms) && HasParticipant(old(impl.rooms)[roomId].participants, pid)
      ensures o.Pass? ==>
        var room := old(impl.rooms)[roomId];
        && impl.rooms == old(impl.rooms)[roomId := room.(participants := Without(room.participants, pid))]
        && forwarded == old(forwarded) + [SfuEvent("participant-left", roomId, Some(pid), NoData)]
    {
      var before := |impl.emitted|;
      o := impl.RemoveParticipant(roomId, pid);
      forwarded := forwarded + Forwarded(impl.emitted[before..]);
      SuffixNeverForwardedAsWritten(impl.emitted, before);
    }

    method UpdateParticipantMute(roomId: string, pid: string, muted: bool) returns (o: Outcome)
      requires Valid()
      modifies this, impl
      ensures Valid()
      ensures |old(impl.emitted)| <= |impl.emitted| && ForwardedAsWritten(impl.emitted[|old(impl.emitted)|..]) == []
      ensures o.Fail? ==> unchanged(impl) && forwarded == old(forwarded)
      ensures o.Pass? <==> roomId in old(impl.rooms) && HasParticipant(old(impl.rooms)[roomId].participants, pid)
      ensures o.Pass? ==>
        var room := old(impl.rooms)[roomId];
        && impl.rooms == old(impl.rooms)[roomId := room.(participants := WithMute(room.participants, pid, muted))]
        && forwarded == old(forwarded)
             + [SfuEvent(if muted then "participant-muted" else "participant-unmuted", roomId, Some(pid), MuteData(muted))]
    {
      var before := |impl.emitted|;
      o := impl.UpdateParticipantMute(roomId, pid, muted);
      forwarded := forwarded + Forwarded(impl.emitted[before..]);
      SuffixNeverForwardedAsWritten(impl.emitted, before);
    }

    /** Deleting a room forwards one `participant-left` per participant, in order (the
        `room-deleted` event is not a kind the manager listens for). */
    method DeleteVoiceRoom(roomId: string) returns (o: Outcome)
      requires Valid()
      modifies this, impl
      ensures Valid()
      ensures |old(impl.emitted)| <= |impl.emitted| && ForwardedAsWritten(impl.emitted[|old(impl.emitted)|..]) == []
      ensures o.Fail? <==> roomId !in old(impl.rooms)
      ensures o.Fail? ==> unchanged(impl) && forwarded == old(forwarded)
      ensures o.Pass? ==>
        var ids := IdsOf(old(impl.rooms)[roomId].participants);
        && impl.rooms == old(impl.rooms) - {roomId}
        && !impl.RoomExists(roomId)
        && forwarded == old(forwarded) + seq(|ids|, i requires 0 <= i < |ids| => SfuEvent("participant-left", roomId, Some(ids[i]), NoData))
    {
      var before := |impl.emitted|;
      o := impl.DeleteVoiceRoom(roomId);
      if o.Pass? {
        ghost var ids := IdsOf(old(impl.rooms)[roomId].participants);
        ghost var deleted := Emission(SFU_CHANNEL, SfuEvent("room-deleted", roomId, None, NoData));
        assert impl.emitted[before..] == LeftEmissions(roomId, ids) + [deleted];
        ForwardedAppend(LeftEmissions(roomId, ids), [deleted]);
        LeftEmissionsForwarded(roomId, ids);
      }
      forwarded := forwarded + Forwarded(impl.emitted[before..]);
      SuffixNeverForwardedAsWritten(impl.emitted, before);
    }
  }

  /** `new SFUManager(config)`: the provider picks the implementation or the constructor throws. */
  method NewSfuManager(provider: string) returns (r: Result<SfuManager>)
    ensures r.Failure? <==> ImplementationFor(provider).Failure?
    ensures r.Failure? ==> r.error == "Unknown SFU provider: " + provider
    ensures r.Success? ==>
      && fresh(r.value) && fresh(r.value.impl) && r.value.Valid()
      && r.value.impl.rooms == map[] && r.value.forwarded == []
  {
    var impl := ImplementationFor(provider);
    if impl.Failure? {
      return Failure(impl.error);
    }
    var m := new SfuManager();
    r := Success(m);
  }
}
