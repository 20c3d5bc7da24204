/** The Redis room repository (backend/src/repositories/roomRepository.ts). Redis is modelled
    by its two structures the repository touches: the string keys `room:<id>` holding a room,
    and the set `public_rooms`. Expiry (TTL) and the public-room cache are not modelled. */
module Repository {

  import opened Wrappers
  import opened Types
  import opened Strings

  const ROOM_PREFIX: string := "room:"

  /** `getRoomKey`. */
  function RoomKey(roomId: string): string {
    ROOM_PREFIX + roomId
  }

  /** `key.replace(ROOM_PREFIX, '')`: the room id `getAllRoomIds` extracts from a key. */
  function IdOfKey(key: string): string {
    ReplaceFirst(key, ROOM_PREFIX, "")
  }

  /** Extracting the id from a room's key gives the room id back. */
  lemma IdOfRoomKey(roomId: string)
    ensures IdOfKey(RoomKey(roomId)) == roomId
    ensures StartsWith(RoomKey(roomId), ROOM_PREFIX)
  {
    var k := RoomKey(roomId);
    assert k[..|ROOM_PREFIX|] == ROOM_PREFIX;
    ReplaceFirstAtStart(k, ROOM_PREFIX, "");
    assert k[|ROOM_PREFIX|..] == roomId;
  }

  /** Every key the scan pattern `room:*` matches is the key of the id extracted from it. */
  lemma RoomKeyOfId(key: string)
    requires StartsWith(key, ROOM_PREFIX)
    ensures RoomKey(IdOfKey(key)) == key
  {
    ReplaceFirstAtStart(key, ROOM_PREFIX, "");
    assert key == key[..|ROOM_PREFIX|] + key[|ROOM_PREFIX|..];
  }

  /** Distinct rooms have distinct keys. */
  lemma RoomKeyInjective(a: string, b: string)
    ensures RoomKey(a) == RoomKey(b) <==> a == b
  {
    if RoomKey(a) == RoomKey(b) {
      IdOfRoomKey(a);
      IdOfRoomKey(b);
    }
  }

  /** The public-room set after `saveRoom(roomId, data)`. */
  function ListedAfterSave(ids: set<string>, roomId: string, data: RoomData): set<string> {
    if data.isPrivate then ids else ids + {roomId}
  }

  /** The listing entry `getPublicRooms` builds from a stored room. */
  function ToPublic(r: RoomData): PublicRoomData {
    PublicRoomData(r.id, r.host, |r.players|, r.maxPlayers, r.voiceChatEnabled)
  }

  /** The members of a set (`sMembers`, a scan), each once, in an order the store chooses. */
  method Members(s: set<string>) returns (xs: seq<string>)
    ensures forall x :: x in xs <==> x in s
    ensures forall i, j :: 0 <= i < j < |xs| ==> xs[i] != xs[j]
    ensures |xs| == |s|
  {
    var todo := s;
    xs := [];
    while todo != {}
      invariant todo <= s
      invariant forall x :: x in xs <==> x in s && x !in todo
      invariant forall i, j :: 0 <= i < j < |xs| ==> xs[i] != xs[j]
      invariant |xs| + |todo| == |s|
      decreases |todo|
    {
      var x :| x in todo;
      todo := todo - {x};
      xs := xs + [x];
    }
  }

  class RoomRepository {
    /** The string keys holding a JSON-encoded room. */
    var store: map<string, RoomData>
    /** The members of the `public_rooms` set. */
    var publicRoomIds: set<string>

    constructor()
      ensures store == map[] && publicRoomIds == {}
    {
      store := map[];
      publicRoomIds := {};
    }

    /** The room stored under the id, if any. */
    function Lookup(roomId: string): Option<RoomData>
      reads this
    {
      if RoomKey(roomId) in store then Some(store[RoomKey(roomId)]) else None
    }

    /** The keys the scan pattern `room:*` matches. */
    ghost function RoomKeys(): set<string>
      reads this
    {
      set k | k in store && StartsWith(k, ROOM_PREFIX)
    }

    /** The listed ids whose room still exists. */
    ghost function LivePublicIds(): set<string>
      reads this
    {
      set id | id in publicRoomIds && RoomKey(id) in store
    }

    /** `saveRoom`: overwrites the room, and lists it when it is public; a room saved as
        private is not taken off the list. */
    method SaveRoom(roomId: string, data: RoomData)
      modifies this
      ensures store == old(store)[RoomKey(roomId) := data]
      ensures publicRoomIds == ListedAfterSave(old(publicRoomIds), roomId, data)
    {
      store := store[RoomKey(roomId) := data];
      if !data.isPrivate {
        publicRoomIds := publicRoomIds + {roomId};
      }
    }

    /** `getRoom`. */
    method GetRoom(roomId: string) returns (r: Option<RoomData>)
      ensures r.Some? <==> RoomKey(roomId) in store
      ensures r.Some? ==> r.value == store[RoomKey(roomId)]
    {
      var key := RoomKey(roomId);
      if key in store {
        r := Some(store[key]);
      } else {
        r := None;
      }
    }

    /** `deleteRoom`: removes the key and the listing; reports whether the key existed. */
    method DeleteRoom(roomId: string) returns (deleted: bool)
      modifies this
      ensures deleted <==> RoomKey(roomId) in old(store)
      ensures store == old(store) - {RoomKey(roomId)}
      ensures publicRoomIds == old(publicRoomIds) - {roomId}
    {
      var key := RoomKey(roomId);
      deleted := key in store;
      store := store - {key};
      publicRoomIds := publicRoomIds - {roomId};
    }

    /** `roomExists`. */
    method RoomExists(roomId: string) returns (b: bool)
      ensures b <==> Lookup(roomId).Some?
    {
      b := RoomKey(roomId) in store;
    }

    /** `getPublicRooms` (cache miss): one entry per listed id whose room exists, in the order
        `order` the set yields them; listed ids whose room is gone are dropped from the set. */
    method GetPublicRooms() returns (rooms: seq<PublicRoomData>, ghost order: seq<string>)
      modifies this
      ensures store == old(store)
      ensures forall id :: id in order <==> id in old(publicRoomIds) && RoomKey(id) in store
      ensures forall i, j :: 0 <= i < j < |order| ==> order[i] != order[j]
      ensures forall id :: id in publicRoomIds <==> id in order
      ensures |rooms| == |order|
      ensures forall i :: 0 <= i < |order| ==> RoomKey(order[i]) in store && rooms[i] == ToPublic(store[RoomKey(order[i])])
    {
      var members := Members(publicRoomIds);
      rooms := [];
      order := [];
      var n := 0;
      while n < |members|
        invariant n <= |members|
        invariant store == old(store)
        invariant forall id :: id in publicRoomIds <==> id in old(publicRoomIds) && (id in members[..n] ==> RoomKey(id) in store)
        invariant forall id :: id in order <==> id in members[..n] && RoomKey(id) in store
        invariant forall i, j :: 0 <= i < j < |order| ==> order[i] != order[j]
        invariant |rooms| == |order|
        invariant forall i :: 0 <= i < |order| ==> RoomKey(order[i]) in store && rooms[i] == ToPublic(store[RoomKey(order[i])])
      {
        var id := members[n];
        assert members[..n + 1] == members[..n] + [id];
        assert id !in members[..n];
        var r := GetRoom(id);
        if r.Some? {
          rooms := rooms + [ToPublic(r.value)];
          order := order + [id];
        } else {
          publicRoomIds := publicRoomIds - {id};
        }
        n := n + 1;
      }
      assert members[..n] == members;
    }

    /** `updateRoomPrivacy`: only the listing changes. */
    method UpdateRoomPrivacy(roomId: string, isPrivate: bool)
      modifies this
      ensures store == old(store)
      ensures publicRoomIds == if isPrivate then old(publicRoomIds) - {roomId} else old(publicRoomIds) + {roomId}
    {
      if isPrivate {
        publicRoomIds := publicRoomIds - {roomId};
      } else {
        publicRoomIds := publicRoomIds + {roomId};
      }
    }

    /** `getAllRoomIds`: the id of every stored room, each once, in the order the scan yields
        the keys. */
    method GetAllRoomIds() returns (ids: seq<string>)
      ensures forall id :: id in ids <==> RoomKey(id) in store
      ensures forall i, j :: 0 <= i < j < |ids| ==> ids[i] != ids[j]
      ensures |ids| == |RoomKeys()|
    {
      var keys := Members(set k | k in store && StartsWith(k, ROOM_PREFIX));
      assert forall i :: 0 <= i < |keys| ==> keys[i] in RoomKeys();
      ids := [];
      var n := 0;
      while n < |keys|
        invariant n <= |keys| && |ids| == n
        invariant forall i :: 0 <= i < n ==> RoomKey(ids[i]) == keys[i]
      {
        RoomKeyOfId(keys[n]);
        ids := ids + [IdOfKey(keys[n])];
        n := n + 1;
      }
      forall i, j | 0 <= i < j < |ids|
        ensures ids[i] != ids[j]
      {
        assert keys[i] != keys[j];
      }
      forall id | id in ids
        ensures RoomKey(id) in store
      {
        var i :| 0 <= i < |ids| && ids[i] == id;
        assert keys[i] in RoomKeys();
      }
      forall id | RoomKey(id) in store
        ensures id in ids
      {
        IdOfRoomKey(id);
        assert RoomKey(id) in RoomKeys();
        assert RoomKey(id) in keys;
        var i :| 0 <= i < |keys| && keys[i] == RoomKey(id);
        RoomKeyInjective(ids[i], id);
      }
    }

    /** `getRoomCount`: the number of stored rooms. */
    method GetRoomCount() returns (n: nat)
      ensures n == |RoomKeys()|
    {
      var ids := GetAllRoomIds();
      n := |ids|;
    }
  }
}
