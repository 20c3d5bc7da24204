# Chalice of the King — the server-side game and room layer in Dafny

This project models the server of Chalice of the King, a turn-based multiplayer game. Contestants take turns drinking from a chamber of goblets. Some goblets are poisonous and cost lives. Items change the chamber or the contestants. The layers modelled are:

- **Item effects** (`item_system.dfy`): the eight artifacts and the dispatcher `Item`. Each is a pure `GameState -> ItemOutcome` function.
- **Game engine** (`game_engine.dfy`): the engine's source is not part of this model. `initializeGame`, `startRound` and `playTurn` are uninterpreted function values, as are `nextRound`, `skipIfChained` and `refillChambers`. A ghost predicate `Tested(e)` states what the engine's test suite asserts.
- **Room store** (`repository.dfy`): the Redis repository is the class `RoomRepository`. It holds a `map` from the key `room:<id>` to a room record, plus the `set` of public room ids.
- **Room lifecycle** (`room_manager.dfy`): create, join, leave and public listing as functions on room records. The class `RoomManager` applies them to the store. `leaveRoom` removes the member, fixes the active index and reassigns the host.
- **Connection tracking** (`connection_manager.dfy`): per-player connection states, the armed disconnect timers (a map from timer key to room and player), and the expiry callback.
- **Turn orchestration** (`turn_manager.dfy`): the fixed-priority decision chain of `handlePlayerTurn` and `checkDeathsAndAdvance`. What is persisted is told apart from what is reported.
- **Payload schemas** (`validation.ts` in `validation.dfy`): the schemas as predicates, including JavaScript `trim` and UTF-16 `length`.
- **Socket handler rules** (`socket_handlers.dfy`):
  - the in-place steal transfer;
  - host-only kicking;
  - the one-contestant-left game over;
  - the contestants of a new game;
  - each handler as one atomic step against the store.
- **Voice rooms** (`sfu_manager.dfy`): the mock selective forwarding unit as the class `MockSfu`, with rooms, participants in insertion order and the log of emitted events. The `SfuManager` covers the provider switch and event forwarding.

Shared pieces: `wrappers.dfy` (`Option`, `Result`, `Outcome`), `seqs.dfy` (`findIndex`, `filter`, `splice`), `strings.dfy` (`indexOf`, `replace`, number rendering) and `types.dfy` (the shared records of `shared/types/types.ts`).

JavaScript behaviour the model writes out:

- A thrown error is a `Failure` carrying the message. Reading a field of `undefined` throws JavaScript's `TypeError` message.
- `%` truncates, and `x % 0` is `NaN` (the `JsNumber` datatype).
- `String.replace` with a string pattern replaces only the first occurrence.
- Writing past the end of an array leaves falsy holes.
- `Date.now()` and `Math.random()` are parameters (`now`, `pick`, the room id).

Two behaviours of the code worth knowing:

- When one contestant is left, only the auto-remove path stores `game_over` (socketHandlers.ts:55-62). `leave_room` and `kick_player` mark only the broadcast copy (socketHandlers.ts:163-169, 223-229), and the model does the same.
- In two places the stored state follows the corrected behaviour of "## Findings", not the code, and "## Left out" says so member by member:
  - the turn index after a leave (roomManager.ts:99-110);
  - the manager's event forwarding (sfuManager.ts:264-279).
  Each code-as-written behaviour is modelled beside its correction. `Rooms.LeaveGameAgreesWithSource` shows the two turn indexes agree wherever the code's index names a contestant, and every `SfuManager` method states that, as written, none of its events reaches a listener.

## Model

| member | source | states |
|---|---|---|
| ItemSystem.RoyalScrutinyGlass | shared/logic/itemSystem.ts:5-18 | the game is unchanged; the result is `POISONOUS` exactly when the current goblet is poisonous, `HOLY` otherwise |
| ItemSystem.VerdictAmplifier | shared/logic/itemSystem.ts:21-38 | only the active contestant changes, gaining `amplified`; the result is `AMPLIFIED` |
| ItemSystem.CrownDisavowal | shared/logic/itemSystem.ts:41-62 | the current goblet is spliced out; `gobletsRemaining` drops by one; nothing else changes; the verdict is that of the removed goblet |
| ItemSystem.SpliceOne | shared/logic/itemSystem.ts:44 | `splice(i, 1)` on a list: an index inside it removes that one element and returns it; an index at or past the end removes nothing |
| ItemSystem.CrownDisavowalKeepsChamberConsistent | shared/logic/itemSystem.ts:41-49 | while a goblet remains, the chamber invariant `gobletsRemaining == |goblets| - currentGobletIndex` is kept, with one goblet fewer and the same index |
| ItemSystem.RoyalChainOrder | shared/logic/itemSystem.ts:65-80 | exactly the contestants with the target id gain `chained`; with no match the game is unchanged |
| ItemSystem.LedgerCandidates | shared/logic/itemSystem.ts:103-106 | the indices from the current goblet to the last one, in order: as many as there are goblets from there on |
| ItemSystem.SovereignPotion | shared/logic/itemSystem.ts:83-98 | the active contestant gains exactly one life, with no cap; nobody else changes; the result is `HEALED` |
| ItemSystem.LedgerIndex | shared/logic/itemSystem.ts:101-110 | the peeked index is a goblet at or after the current one; there is none exactly when no goblet is left |
| ItemSystem.ChronicleLedger | shared/logic/itemSystem.ts:101-121 | the game is unchanged; the report names the peeked goblet, or `HOLY:NaN` when none is left |
| ItemSystem.ChronicleLedgerOffset | shared/logic/itemSystem.ts:111-116 | the reported offset `idx - current + 1` is at least 1; every goblet from the current one on can be the one revealed |
| ItemSystem.JsAssign | shared/logic/itemSystem.ts:127 | an array element write, including growth past the end and a negative index that changes no element |
| ItemSystem.ParadoxDial | shared/logic/itemSystem.ts:124-136 | only the current goblet is negated; the report gives the new verdict with `:INVERTED` |
| ItemSystem.ParadoxDialTwiceRestores | shared/logic/itemSystem.ts:124-128 | turning the dial twice restores the original game |
| ItemSystem.ThiefTooth | shared/logic/itemSystem.ts:139-181 | with nobody else holding an item, every tooth leaves the active inventory (`FAILED_NO_TARGET`); otherwise the active contestant gains `thief` (`STEAL`); nobody else changes |
| ItemSystem.ConsumeItem | shared/logic/itemSystem.ts:189-194 | the first copy of the item leaves the active inventory, the rest keep their order, other contestants are unchanged |
| ItemSystem.Item | shared/logic/itemSystem.ts:184-208 | succeeds exactly when the active contestant holds a known item, and Royal Chain Order has a non-empty target; the message is `artifact_used` by the active contestant |
| ItemSystem.ItemInventories | shared/logic/itemSystem.ts:189-206 | after a successful use, only the first copy leaves the active inventory, other inventories are unchanged; only a tooth with nothing to steal also drops the other teeth |
| ItemSystem.EffectKeepsInventories | shared/logic/itemSystem.ts:196-205 | no effect other than Thief's Tooth changes an inventory |
| GameEngine.GobletCounts | backend/src/__tests__/gameEngine.test.ts:84-89 | a chamber has as many goblets as its poisonous and holy counts together |
| GameEngine.StartedRoundChamber | backend/src/__tests__/gameEngine.test.ts:60-98 | a started round is a full, consistent chamber whose size is the configured poisonous plus holy count |
| GameEngine.DrinkConsumesOneGoblet | backend/src/__tests__/gameEngine.test.ts:134-144 | a drink moves the goblet index and the remaining count in lock-step |
| Repository.RoomKey | backend/src/repositories/roomRepository.ts:18-20 | the record key of a room: the prefix `room:` followed by the id (its properties are `IdOfRoomKey`, `RoomKeyOfId` and `RoomKeyInjective`) |
| Repository.IdOfKey | backend/src/repositories/roomRepository.ts:218 | the id read back from a key: the first `room:` in it replaced by nothing (its properties are `IdOfRoomKey` and `RoomKeyOfId`) |
| Repository.IdOfRoomKey | backend/src/repositories/roomRepository.ts:218 | stripping the prefix from `room:<id>` gives back the id |
| Repository.RoomKeyOfId | backend/src/repositories/roomRepository.ts:218 | a key with the prefix is the key of its stripped id |
| Repository.RoomKeyInjective | backend/src/repositories/roomRepository.ts:18-20 | distinct ids have distinct keys |
| Repository.Members | backend/src/repositories/roomRepository.ts:135 | the members of a set as a list without repeats |
| Repository.ListedAfterSave | backend/src/repositories/roomRepository.ts:35-40 | a save adds a public room's id to the public set and leaves it otherwise |
| Repository.ToPublic | backend/src/repositories/roomRepository.ts:149-155 | the listing entry: id, host, member count, seat count and voice flag |
| Repository.RoomRepository.SaveRoom | backend/src/repositories/roomRepository.ts:25-47 | the record is stored; the id joins the public set when the room is public and is never removed by a save |
| Repository.RoomRepository.GetRoom | backend/src/repositories/roomRepository.ts:52-74 | the stored record, or absent |
| Repository.RoomRepository.DeleteRoom | backend/src/repositories/roomRepository.ts:79-104 | the record and the public-set member go; true exactly when a record existed |
| Repository.RoomRepository.RoomExists | backend/src/repositories/roomRepository.ts:109-119 | true exactly when a record is stored |
| Repository.RoomRepository.GetPublicRooms | backend/src/repositories/roomRepository.ts:124-172 | one projection per live public id; ids with no record leave the public set; the store is unchanged |
| Repository.RoomRepository.UpdateRoomPrivacy | backend/src/repositories/roomRepository.ts:177-194 | going private removes the id from the public set; going public adds it |
| Repository.RoomRepository.GetAllRoomIds | backend/src/repositories/roomRepository.ts:199-229 | every stored room's id exactly once, and nothing else |
| Repository.RoomRepository.GetRoomCount | backend/src/repositories/roomRepository.ts:249-257 | the number of stored rooms |
| Rooms.NewRoom | backend/src/rooms/roomManager.ts:28-44 | the stored record has the host as its only member, no game, one connected state for the host, and the given settings |
| Rooms.NewRoomInvariant | backend/src/rooms/roomManager.ts:28-44 | a created room has the host as its only member, with one connected state, and satisfies the room invariant |
| Rooms.PasswordAccepted | backend/src/rooms/roomManager.ts:59 | a password is accepted by a public room always, and by a private room only when it is the room's password (used by `Join`'s error order) |
| Rooms.Join | backend/src/rooms/roomManager.ts:53-84 | errors come in the source's order: not found, wrong password (private rooms only), already joined, full; otherwise exactly one member and one connected state are appended |
| Rooms.JoinKeepsInvariant | backend/src/rooms/roomManager.ts:73-82 | a successful join keeps ids unique, the host a member, the size within `maxPlayers` and states aligned |
| Rooms.JsRemainder | backend/src/rooms/roomManager.ts:107 | JavaScript `%`: a zero divisor gives `NaN`, and a non-negative dividend gives the ordinary remainder |
| Rooms.LeaveGameAsWritten | backend/src/rooms/roomManager.ts:97-111 | the game's leave as the code computes it, with a JavaScript number as the index; its properties are `SpectatorLeavingMovesTurnAsWritten`, `LastContestantLeavingAsWritten` and `LeaveGameAgreesWithSource` |
| Rooms.ActiveIndexAfterLeaveAsWritten | backend/src/rooms/roomManager.ts:99-110 | the active-index update as written, with JavaScript `%` |
| Rooms.SpectatorLeavingMovesTurnAsWritten | backend/src/rooms/roomManager.ts:99-109 | as written, a leaver who is not a contestant still moves the turn back by one |
| Rooms.LastContestantLeavingAsWritten | backend/src/rooms/roomManager.ts:103-107 | as written, the last contestant leaving sets the index to `NaN` |
| Rooms.ActiveIndexAfterLeave | backend/src/rooms/roomManager.ts:99-110 | corrected update: unchanged for a non-contestant; the next contestant (wrapping) when the active one leaves; one less when an earlier one leaves |
| Rooms.ActiveIndexCorrectionIsConservative | backend/src/rooms/roomManager.ts:99-110 | the correction agrees with the code whenever the leaver is a contestant and some contestant remains |
| Rooms.LeaveGame | backend/src/rooms/roomManager.ts:97-111 | the contestants are those without the leaver's id; a leaver who is not a contestant leaves the turn index where it was (the corrected rule); only the contestants and the turn index change |
| Rooms.LeaveGameAgreesWithSource | backend/src/rooms/roomManager.ts:99-110 | when a contestant leaves and one remains, the code's index is a number in range and equals the corrected one, with the same contestants |
| Rooms.LeaveGameRemovesOne | backend/src/rooms/roomManager.ts:99-111 | a contestant's leave removes exactly their entry, and the index follows the corrected rule |
| Rooms.LeaveGameOfOutsider | backend/src/rooms/roomManager.ts:99-111 | a non-contestant's leave leaves the game unchanged (corrected rule) |
| Rooms.LeaveGameKeepsActiveInBounds | backend/src/rooms/roomManager.ts:99-111 | while a contestant remains, the active index stays in range (corrected rule) |
| Rooms.LeaveGameKeepsTurn | backend/src/rooms/roomManager.ts:99-110 | when someone other than the active contestant leaves, the same contestant keeps the turn |
| Rooms.LeaveGameOfActivePassesTurn | backend/src/rooms/roomManager.ts:103-107 | when the active contestant leaves, the turn passes to the one after them, wrapping to the first (corrected rule) |
| Rooms.AfterLeave | backend/src/rooms/roomManager.ts:89-135 | absent exactly when nobody else is left; otherwise the member and their state are gone, the game is `LeaveGame`'s (corrected turn index), and the host is the first member if the host left, unchanged otherwise |
| Rooms.AfterLeaveKeepsInvariant | backend/src/rooms/roomManager.ts:114-130 | a leave that keeps the room keeps the room invariant |
| Rooms.FilterKeepsAlignment | backend/src/rooms/roomManager.ts:114-117 | filtering one id out of members and states keeps them aligned and unique |
| Rooms.RoomManager.CreateRoom | backend/src/rooms/roomManager.ts:14-48 | fails with `Room already exists`; otherwise stores the new room |
| Rooms.RoomManager.JoinRoom | backend/src/rooms/roomManager.ts:53-84 | stores what `Join` computes, or reports its error and changes nothing |
| Rooms.RoomManager.LeaveRoom | backend/src/rooms/roomManager.ts:89-135 | absent for a missing room; otherwise stores what `AfterLeave` computes (corrected turn index), or deletes the room and its public-set entry when it is empty |
| Rooms.RoomManager.GetPublicRooms | backend/src/rooms/roomManager.ts:140-155 | the repository's listing narrowed, in order, to rooms with a free seat and no game |
| Rooms.RoomManager.KeepAvailable | backend/src/rooms/roomManager.ts:144-152 | the filtering loop keeps exactly the available entries, in order |
| Rooms.RoomManager.GetRoom | backend/src/rooms/roomManager.ts:160-163 | the stored record, or absent |
| Rooms.RoomManager.GetAllRooms | backend/src/rooms/roomManager.ts:168-180 | every stored room |
| Rooms.RoomManager.UpdateGameState | backend/src/rooms/roomManager.ts:185-195 | fails with `Room not found`; otherwise replaces only the game |
| Rooms.RoomManager.UpdateRoom | backend/src/rooms/roomManager.ts:200-203 | stores the record |
| Rooms.RoomManager.RemoveRoom | backend/src/rooms/roomManager.ts:208-211 | deletes the record |
| Rooms.RoomManager.PlayerExists | backend/src/rooms/roomManager.ts:216-219 | true exactly when the room is stored and has a member with the id |
| Rooms.RoomManager.RoomExists | backend/src/rooms/roomManager.ts:224-226 | true exactly when the room is stored |
| Connections.StateOf | backend/src/rooms/connectionManager.ts:103-105 | the player's first connection state, absent exactly when there is none |
| Connections.Upsert | backend/src/rooms/connectionManager.ts:23-37 | appends when the player has no state; otherwise overwrites it in place, keeping the length and every other player's state |
| Connections.UpsertThenLookup | backend/src/rooms/connectionManager.ts:23-37 | after an upsert, looking the player up gives the new state, and another player's lookup is unchanged |
| Connections.UpsertKeepsAlignment | backend/src/rooms/connectionManager.ts:23-37 | upserting a member's state keeps the room invariant |
| Connections.AfterDisconnect | backend/src/rooms/connectionManager.ts:78-83 | only the connection states change |
| Connections.ConnectedElsewhere | backend/src/rooms/connectionManager.ts:103-109 | the player's first state is connected under a socket other than the given one, which is when a reconnect is refused (used by `Reconnected` and `DisconnectedMemberCanReconnect`) |
| Connections.Reconnected | backend/src/rooms/connectionManager.ts:92-124 | refused exactly for a missing room, a missing player, or a player connected under another socket; otherwise the first member with the id gets the new socket id, every other member and the host copy stay as they were, and the state is connected with no timestamp |
| Connections.ReconnectedConnects | backend/src/rooms/connectionManager.ts:111-118 | after a reconnect the member uses the new socket, every other member is unchanged, their state is connected and the room invariant holds |
| Connections.DisconnectedMemberCanReconnect | backend/src/rooms/connectionManager.ts:78-109 | a member who was disconnected is never refused |
| Connections.ConnectionManager.SetAutoRemoveHandler | backend/src/rooms/connectionManager.ts:13-17 | the callback is registered |
| Connections.ConnectionManager.ClearDisconnectTimer | backend/src/rooms/connectionManager.ts:39-46 | the player's timer is disarmed |
| Connections.ConnectionManager.SetDisconnectTimer | backend/src/rooms/connectionManager.ts:48-65 | exactly one timer is armed for the room and player, due 60000 ms after `now` |
| Connections.ConnectionManager.TimerExpired | backend/src/rooms/connectionManager.ts:52-62 | once due, the player leaves the room as in `leaveRoom` (the room and its public-set entry deleted when empty, otherwise the new record stored), the callback gets the result when one is registered, and the timer's key is removed |
| Connections.ConnectionManager.HandleDisconnect | backend/src/rooms/connectionManager.ts:67-90 | null for a missing room; the room unchanged when no member has the socket; otherwise the member is stored as disconnected at `now` and a timer due 60000 ms later is armed |
| Connections.ConnectionManager.HandleReconnect | backend/src/rooms/connectionManager.ts:92-124 | gives what `Reconnected` computes; a refusal changes nothing; an acceptance stores the room and disarms the timer |
| Turns.CheckDeathsAndAdvance | backend/src/rooms/turnManager.ts:64-96 | with a contestant at no lives, the next round is persisted and announced (`Game Over!` when the game ends); otherwise the check passes |
| Turns.PlanTurn | backend/src/rooms/turnManager.ts:5-62 | `No room found.` with delay 0 for a missing room or game; a persisted game is the one reported, with delay 5000; every delay is 0, 3000 or 5000 |
| Turns.TurnPriorities | backend/src/rooms/turnManager.ts:15-61 | the fixed order: waiting for reconnect, deaths, chained skip, thief, refill, drink |
| Turns.AwaitingReconnect | backend/src/rooms/turnManager.ts:15-19 | the active contestant has a stored connection state that is not `connected` |
| Turns.HandlePlayerTurn | backend/src/rooms/turnManager.ts:5-62 | reports what `PlanTurn` decides and stores exactly the game it persists |
| Validation.TrimStart | backend/src/schemas/validation.ts:3 | the result is a suffix, it starts with a non-space, and all that was removed is white space |
| Validation.TrimEnd | backend/src/schemas/validation.ts:3 | the result is a prefix, it ends with a non-space, and all that was removed is white space |
| Validation.Trim | backend/src/schemas/validation.ts:3 | the result neither starts nor ends with white space |
| Validation.TrimIdempotent | backend/src/schemas/validation.ts:3 | trimming twice is trimming once |
| Validation.Utf16Length | backend/src/schemas/validation.ts:3 | a string's JavaScript length lies between its code-point count and twice that |
| Validation.ValidPlayer | backend/src/schemas/validation.ts:5-8 | a non-empty id and a name of 2 to 20 characters once trimmed |
| Validation.ValidPassword | backend/src/schemas/validation.ts:10 | 4 to 64 characters once trimmed |
| Validation.ValidCreateRoom | backend/src/schemas/validation.ts:12-30 | a valid host, an integer seat count from 2 to 4, a password of at most 64 trimmed characters, and a valid password for a private room |
| Validation.ValidRoomId | backend/src/socketHandlers.ts:12 | 1 to 50 characters once trimmed |
| Validation.ValidJoinRoom | backend/src/schemas/validation.ts:32-36 | a valid room id and player, and a password of at most 64 trimmed characters |
| Validation.ValidItemType | backend/src/schemas/validation.ts:38-47 | one of the eight item names |
| Validation.ValidAction | backend/src/schemas/validation.ts:49-88 | a known action type with what it needs: a target for a drink, an item for a use, both for a steal |
| Validation.ParsedPlayerRevalidates | backend/src/schemas/validation.ts:3-8 | a player the schema accepts, once parsed, is accepted again; its name is trimmed and has 2 to 20 characters |
| Validation.CreateRoomPasswordRule | backend/src/schemas/validation.ts:12-30 | a private room has a password of 4 to 64 characters once trimmed; any password has at most 64 |
| Validation.ActionRequirements | backend/src/schemas/validation.ts:49-88 | a drink needs a target; a steal needs a target and a known item; an item use without a target is valid, even for Royal Chain Order |
| SocketHandlers.AllItemsUpdate | backend/src/socketHandlers.ts:414-415 | replacing one contestant changes the pool of held items by exactly the two inventories |
| SocketHandlers.StealTarget | backend/src/socketHandlers.ts:407-408 | the target's index, or -1 exactly when no contestant has the id |
| SocketHandlers.Steal | backend/src/socketHandlers.ts:402-420 | no turn exactly when the item or target is missing or empty, the target is not a contestant, or the target lacks the item; only the players change |
| SocketHandlers.TransferConserves | backend/src/socketHandlers.ts:414-415 | moving one item between contestants keeps the pool of held items |
| SocketHandlers.StealMovesOneItem | backend/src/socketHandlers.ts:413-419 | no item is created or lost; the active contestant gains the item and loses every `thief`; the target loses one copy; everyone else is unchanged |
| SocketHandlers.DecideKick | backend/src/socketHandlers.ts:196-204 | refused exactly when no member uses the socket or the first one is not the host; otherwise the target, or nothing when not a member |
| SocketHandlers.OnlyHostKicks | backend/src/socketHandlers.ts:196-201 | a kick that goes ahead was requested from the host's socket |
| SocketHandlers.GameOverIfLastContestant | backend/src/socketHandlers.ts:55-62 | only the phase can change, and it becomes `game_over` exactly when one contestant is left; the same rule is applied at lines 163-169 and 223-229 |
| SocketHandlers.AfterRemovalUpdate | backend/src/socketHandlers.ts:55-71 | `GAME OVER!` when one contestant is left, otherwise the announcement from the given user, always with delay 5000; the leave and kick handlers use it at lines 163-176 and 223-237 |
| SocketHandlers.BuildContestants | backend/src/socketHandlers.ts:313-321 | one contestant per member, in order, with 3 lives, no items, not AI, online and no statuses |
| SocketHandlers.StartedGameSeatsMembers | backend/src/socketHandlers.ts:313-326 | with an engine that behaves as tested, a new game seats the members in order, with 3 lives and an item each, in a full chamber |
| SocketHandlers.AutoRemove | backend/src/socketHandlers.ts:48-72 | without a game nothing is broadcast; a game down to one contestant is stored as over; otherwise nothing is written; the broadcast is `AfterRemovalUpdate`, except that none is made when the record to update is gone (`updateGameState` throws first) |
| SocketHandlers.LeaveRoomHandler | backend/src/socketHandlers.ts:142-179 | the member leaves as in `leaveRoom`, with the same store and public-set changes; the broadcast game is over when one contestant is left, the stored one is not |
| SocketHandlers.KickPlayer | backend/src/socketHandlers.ts:181-240 | `Only the host can kick players.` for a requester who is not the host; no-op for a target who is not a member; otherwise the target leaves as in `leaveRoom`, with the same store and public-set changes |
| SocketHandlers.StartGame | backend/src/socketHandlers.ts:298-332 | a missing room is ignored; otherwise the started game is stored and the public set updated as by a save |
| SocketHandlers.PlayerActionHandler | backend/src/socketHandlers.ts:388-424 | a steal is applied first; its early return or throw changes nothing; otherwise the engine's game is stored and the public set updated as by a save |
| SocketHandlers.FollowUpTurn | backend/src/socketHandlers.ts:428-445 | nothing changes without a room or game, or when there is no active contestant (the read throws); otherwise it announces whose turn it is and the room's record changes only in its game, which becomes the turn manager's; a throw of the turn manager keeps the write made before it |
| SocketHandlers.TakeTurn | backend/src/socketHandlers.ts:442-445 | the turn manager's own write, then the game it returns, replace only the room's game; a throw keeps the write made before it |
| SocketHandlers.ValidPlayerActionPayload | backend/src/socketHandlers.ts:27-31 | a room id, a valid action and an integer delay from 0 to 30000 |
| SocketHandlers.Robbed | backend/src/socketHandlers.ts:414 | the target loses the first copy of the item |
| SocketHandlers.Enriched | backend/src/socketHandlers.ts:415-418 | the thief gains the item and loses every `thief` status |
| SocketHandlers.NewContestant | backend/src/socketHandlers.ts:314-322 | a member as a contestant with 3 lives, no items, not AI, online, no statuses |
| SocketHandlers.StartedGame | backend/src/socketHandlers.ts:324-326 | `startRound(initializeGame(contestants), 1)` |
| SocketHandlers.TurnAnnouncement | backend/src/socketHandlers.ts:432-438 | a `turn` message from the active contestant naming them |
| Sfu.ParticipantIndex | backend/src/webrtc/sfuManager.ts:135 | the participant's position, -1 exactly when absent, unique when ids are distinct |
| Sfu.NewParticipant | backend/src/webrtc/sfuManager.ts:105-111 | an unmuted participant with `sfuParticipantId` `p-<id>` |
| Sfu.Without | backend/src/webrtc/sfuManager.ts:140 | one entry fewer; the participant is gone and everyone else stays |
| Sfu.WithMute | backend/src/webrtc/sfuManager.ts:209 | only that participant's flag changes |
| Sfu.AddThenRemoveRestores | backend/src/webrtc/sfuManager.ts:113-140 | adding a participant and removing it restores the list |
| Sfu.AddKeepsDistinct | backend/src/webrtc/sfuManager.ts:101-113 | adding keeps ids distinct exactly when the id is new |
| Sfu.LeftEmissions | backend/src/webrtc/sfuManager.ts:146-150 | one `participant-left` emission per id, in order, on `sfu-event` |
| Sfu.MockSfu.Shutdown | backend/src/webrtc/sfuManager.ts:39-42 | every room is dropped |
| Sfu.MockSfu.CreateVoiceRoom | backend/src/webrtc/sfuManager.ts:44-68 | refused for an existing id; otherwise an empty active room `sfu-<id>` is added and `room-created` is emitted |
| Sfu.MockSfu.AddParticipant | backend/src/webrtc/sfuManager.ts:91-127 | refused for a missing room or a participant already present; otherwise the participant is appended and `participant-joined` is emitted |
| Sfu.MockSfu.RemoveParticipant | backend/src/webrtc/sfuManager.ts:129-151 | refused for a missing room or participant; otherwise only that participant goes and `participant-left` is emitted |
| Sfu.MockSfu.UpdateParticipantMute | backend/src/webrtc/sfuManager.ts:194-220 | refused for a missing room or participant; otherwise only that flag changes and `participant-muted` or `participant-unmuted` is emitted |
| Sfu.MockSfu.DeleteVoiceRoom | backend/src/webrtc/sfuManager.ts:70-89 | refused for a missing room; otherwise one `participant-left` per participant in order, then the room goes and `room-deleted` is emitted |
| Sfu.MockSfu.RemoveAllParticipants | backend/src/webrtc/sfuManager.ts:77-79 | the loop removes every participant in order |
| Sfu.MockSfu.GetJoinToken | backend/src/webrtc/sfuManager.ts:153-175 | refused for a missing room; otherwise a token for the participant expiring an hour after `now` |
| Sfu.MockSfu.GetParticipants | backend/src/webrtc/sfuManager.ts:177-184 | refused for a missing room; otherwise the room's participant list itself, in insertion order with the muted flags, with no id twice |
| Sfu.MockSfu.RoomExists | backend/src/webrtc/sfuManager.ts:186-188 | true exactly when the room can be fetched |
| Sfu.MockSfu.GetRoom | backend/src/webrtc/sfuManager.ts:190-192 | the room, or absent |
| Sfu.MockSfu.GetAllRooms | backend/src/webrtc/sfuManager.ts:222-224 | every room once, in insertion order |
| Sfu.MockSfu.HealthCheck | backend/src/webrtc/sfuManager.ts:226-229 | always healthy |
| Sfu.ForwardedAsWritten | backend/src/webrtc/sfuManager.ts:264-279 | the events the manager's listeners receive as registered: those on the channels named by event kinds |
| Sfu.MockEventsNeverForwardedAsWritten | backend/src/webrtc/sfuManager.ts:264-279 | as written, nothing the mock emits (always on `sfu-event`, lines 61, 119, 146, 214) is forwarded |
| Sfu.JoinEventLostAsWritten | backend/src/webrtc/sfuManager.ts:119-124 | a `participant-joined` event is dropped as written and kept by the corrected forwarding |
| Sfu.Forwarded | backend/src/webrtc/sfuManager.ts:264-279 | corrected forwarding: every mock event whose kind the manager listens for, and only such events |
| Sfu.ForwardedAppend | backend/src/webrtc/sfuManager.ts:264-279 | forwarding distributes over a sequence of emissions |
| Sfu.LeftEmissionsForwarded | backend/src/webrtc/sfuManager.ts:271-273 | every `participant-left` of a deletion is forwarded, in order |
| Sfu.ImplementationFor | backend/src/webrtc/sfuManager.ts:244-262 | `mock`, `livekit` and `mediasoup` give the mock; anything else is `Unknown SFU provider: <name>` |
| Sfu.ConfiguredProvider | backend/src/webrtc/sfuManager.ts:361-362 | `SFU_PROVIDER`, or `mock` when unset or empty |
| Sfu.SfuManager.AddParticipant | backend/src/webrtc/sfuManager.ts:298-304 | delegates to the mock; the corrected forwarding passes on its `participant-joined`; as written, no event of the call reaches a listener |
| Sfu.SfuManager.RemoveParticipant | backend/src/webrtc/sfuManager.ts:306-308 | delegates to the mock; the corrected forwarding passes on its `participant-left`; as written, no event of the call reaches a listener |
| Sfu.SfuManager.UpdateParticipantMute | backend/src/webrtc/sfuManager.ts:330-340 | delegates to the mock; the corrected forwarding passes on its mute event; as written, no event of the call reaches a listener |
| Sfu.SfuManager.DeleteVoiceRoom | backend/src/webrtc/sfuManager.ts:294-296 | delegates to the mock; the room is gone; the corrected forwarding passes on one `participant-left` per participant, in order; as written, no event of the call reaches a listener |
| Sfu.SfuManager.Shutdown | backend/src/webrtc/sfuManager.ts:286-288 | delegates to the mock: every room is dropped |
| Sfu.SfuManager.CreateVoiceRoom | backend/src/webrtc/sfuManager.ts:290-292 | delegates to the mock; `room-created` is not a forwarded kind; as written, no event of the call reaches a listener |
| Sfu.NewSfuManager | backend/src/webrtc/sfuManager.ts:239-262 | a fresh manager over an empty mock, or the provider error |

## Left out

- The engine's bodies and the AI (`gameEngine.ts`, `aiLogic`) are not part of this model. Only what the tests assert is stated, as `Tested(e)`. Turn direction, holy scoring for an opponent, and the internals of `nextRound` and `refillChambers` stay unspecified.
- The AI memory writes in the item effects (`gobletMemory`, `gobletCountMemory`) are left out: they feed only the AI.
- Rooms.LeaveGame, Rooms.AfterLeave, Rooms.RoomManager.LeaveRoom: the stored game uses the corrected turn index, not the code's (roomManager.ts:106-109), because the rest of the model (the item effects, `Turns.PlanTurn` and the socket handlers) reads `players[activePlayerIndex]` and relies on the stored index naming a contestant whenever one is left, and the record's index is an integer that cannot hold `NaN`. Two inputs store a different index from the code. (1) Contestants [A, B] with B active at index 1, and a member C who is not a contestant leaves: the code stores 0, the model 1; with A active at index 0, the code stores -1, the model 0. (2) A, the only contestant, active at index 0, leaves while another member stays: the code stores `NaN` (`null` in JSON), the model 0. The code's index is modelled by `Rooms.LeaveGameAsWritten`, and `Rooms.LeaveGameAgreesWithSource` shows the two agree in every other case where a contestant leaves. The same holds for the callers `Connections.ConnectionManager.TimerExpired`, `SocketHandlers.LeaveRoomHandler` and `SocketHandlers.KickPlayer`.
- Sfu.SfuManager.AddParticipant, Sfu.SfuManager.RemoveParticipant, Sfu.SfuManager.UpdateParticipantMute, Sfu.SfuManager.DeleteVoiceRoom: `forwarded` grows by the corrected forwarding (`Sfu.Forwarded`). As written, the manager re-emits nothing: it listens on channels named after event kinds, while the mock emits only on `sfu-event` (sfuManager.ts:61, 85, 119, 146, 214 against 265-279). Each of these methods therefore also states that, as written, none of the events it causes reaches a listener (`Sfu.ForwardedAsWritten`).
- Redis connection handling, retries and store errors are left out. Every store call succeeds. Because `leaveRoom` then never throws, the timer's "key removed even if it throws" path is not exercised.
- Key TTLs, `expire`, `refreshRoom` and the five-second public-room cache are left out; the cache is treated as always missing.
- `Repository.RoomRepository.GetAllRoomIds`: SCAN cursors are not modelled. The keys are listed in one pass, each once. A real SCAN may repeat a key.
- Socket.IO transport, broadcasts, voice signalling relays and socket room joins are not modelled. Handlers return what they would broadcast.
- The socket handlers `create_room`, `join_room`, `fetch_rooms`, `reconnect_room`, `game_ready` and `disconnect` are not modelled as handlers. They validate, call the manager operations modelled above and broadcast. The delayed step of `game_ready` (socketHandlers.ts:357-375) is the same as `SocketHandlers.FollowUpTurn`.
- The `setTimeout` chain after a player action runs as one step (`SocketHandlers.FollowUpTurn`). The later 2.5-second re-broadcast is not modelled.
- Interleaving of concurrent handlers on one room, and the lost updates it allows, are not modelled. Every handler is one atomic step.
- Zod's error objects and issue lists are left out; a payload is only valid or not.
- JSON number parsing is modelled only as far as `IsInteger` on a real number.
- Rate limiting, latency metrics, the React front end, env and bootstrap, logging and the error handler are out of scope.
- `Sfu.MockSfu.GetJoinToken`: the base64 JSON encoding is not modelled; the token is its decoded payload.
- The `SfuManager` read-only pass-throughs (`getParticipants`, `roomExists`, `getRoom`, `getAllRooms`, `healthCheck`, `getJoinToken`, `initialize`) are not repeated. They answer exactly what the mock's members answer, read from `impl`.
- The `getSFUManager` singleton is not modelled; `Sfu.NewSfuManager` builds one manager.
- Timestamps (`createdAt`, `joinedAt`, `disconnectedAt`) come from the `now` parameter.
- Room ids and the ledger's random choice are parameters.

## Findings

| source | as written | input that shows it | evidently intended | confidence | as-written member | corrected member |
|---|---|---|---|---|---|---|
| backend/src/rooms/roomManager.ts:99-110 | the index of the leaver in `gameState.players` is -1 for a member who is not a contestant; `-1 < activePlayerIndex` then decrements the active index | contestants [A, B] with B active (index 1); a room member C who is not a contestant leaves; the turn moves to A. With A active (index 0) the index becomes -1 | a leaver who is not a contestant leaves the game and its turn unchanged | high, not executed | Rooms.SpectatorLeavingMovesTurnAsWritten | Rooms.LeaveGameKeepsTurn |
| backend/src/rooms/roomManager.ts:103-107 | when the active contestant is the last one, the index becomes `activePlayerIndex % 0`, which is `NaN` (stored in JSON as `null`) | one contestant A, active at index 0, leaves a room that still has other members | an index that stays a number: 0 when no contestant is left, otherwise in range | medium, not executed | Rooms.LastContestantLeavingAsWritten | Rooms.LeaveGameKeepsActiveInBounds |
| backend/src/webrtc/sfuManager.ts:264-279 | the manager listens on channels named `error`, `participant-joined`, `participant-left`, `participant-muted` and `participant-unmuted`, but the mock emits every event on `sfu-event`, so nothing is forwarded | `addParticipant("r", "p", "n")` on an existing room `r`: the mock emits `participant-joined` on `sfu-event`, and the manager emits nothing | the manager re-emits, on its own `sfu-event`, each mock event whose kind it listens for | medium, not executed | Sfu.MockEventsNeverForwardedAsWritten | Sfu.Forwarded |
