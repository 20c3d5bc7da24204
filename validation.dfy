/** The payload schemas (backend/src/schemas/validation.ts) as predicates over typed payloads.
    A schema's `.trim()` replaces the value by its trimmed form before the length checks, and
    string lengths are JavaScript lengths, counted in UTF-16 code units. */
module Validation {

  import opened Wrappers
  import opened Types
  import GameEngine

  /** The characters `String.prototype.trim` removes: white space and line terminators. */
  predicate IsJsWhitespace(c: char) {
    var n := c as int;
    (0x09 <= n <= 0x0D) || n == 0x20 || n == 0xA0 || n == 0x1680 || (0x2000 <= n <= 0x200A) ||
    n == 0x2028 || n == 0x2029 || n == 0x202F || n == 0x205F || n == 0x3000 || n == 0xFEFF
  }

  function TrimStart(s: string): (r: string)
    ensures |r| <= |s| && r == s[|s| - |r|..]
    ensures |r| > 0 ==> !IsJsWhitespace(r[0])
    ensures forall i :: 0 <= i < |s| - |r| ==> IsJsWhitespace(s[i])
  {
    if |s| > 0 && IsJsWhitespace(s[0]) then TrimStart(s[1..]) else s
  }

  function TrimEnd(s: string): (r: string)
    ensures |r| <= |s| && r == s[..|r|]
    ensures |r| > 0 ==> !IsJsWhitespace(r[|r| - 1])
    ensures forall i :: |r| <= i < |s| ==> IsJsWhitespace(s[i])
  {
    if |s| > 0 && IsJsWhitespace(s[|s| - 1]) then TrimEnd(s[..|s| - 1]) else s
  }

  /** `s.trim()`. */
  function Trim(s: string): (r: string)
    ensures |r| <= |s|
    ensures |r| > 0 ==> !IsJsWhitespace(r[0]) && !IsJsWhitespace(r[|r| - 1])
  {
    var t := TrimStart(s);
    var r := TrimEnd(t);
    assert |r| > 0 ==> r[0] == t[0];
    r
  }

  /** Trimming a trimmed string changes nothing. */
  lemma TrimIdempotent(s: string)
    ensures Trim(Trim(s)) == Trim(s)
  {
    var r := Trim(s);
    if |r| > 0 {
      assert TrimStart(r) == r;
      assert TrimEnd(r) == r;
    }
  }

  /** A string's `.length`: characters outside the Basic Multilingual Plane count twice. */
  function Utf16Length(s: string): (n: nat)
    ensures |s| <= n <= 2 * |s|
  {
    if |s| == 0 then 0 else (if s[0] as int > 0xFFFF then 2 else 1) + Utf16Length(s[1..])
  }

  /** `z.number().int()`: a JSON number with no fractional part. */
  predicate IsInteger(x: real) {
    x.Floor as real == x
  }

  datatype PlayerInput = PlayerInput(id: string, name: string)

  /** `PlayerSchema`: a non-empty id and a name of 2 to 20 characters once trimmed. */
  predicate ValidPlayer(p: PlayerInput) {
    Utf16Length(p.id) >= 1 && 2 <= Utf16Length(Trim(p.name)) <= 20
  }

  /** The player `PlayerSchema` yields: the name is trimmed. */
  function ParsedPlayer(p: PlayerInput): PlayerInput {
    p.(name := Trim(p.name))
  }

  /** A parsed player passes the schema again, and its name has no surrounding white space
      and 2 to 20 characters as it stands. */
  lemma ParsedPlayerRevalidates(p: PlayerInput)
    requires ValidPlayer(p)
    ensures ValidPlayer(ParsedPlayer(p))
    ensures var n := ParsedPlayer(p).name;
      2 <= Utf16Length(n) <= 20 && !IsJsWhitespace(n[0]) && !IsJsWhitespace(n[|n| - 1])
  {
    TrimIdempotent(p.name);
  }

  datatype CreateRoomInput = CreateRoomInput(
    host: PlayerInput,
    maxPlayer: real,
    isPrivate: bool,
    password: Option<string>,
    voiceChatEnabled: bool)

  /** `PasswordSchema`: 4 to 64 characters once trimmed. */
  predicate ValidPassword(s: string) {
    4 <= Utf16Length(Trim(s)) <= 64
  }

  /** `CreateRoomSchema`, with its refinement for private rooms. */
  predicate ValidCreateRoom(x: CreateRoomInput) {
    && ValidPlayer(x.host)
    && IsInteger(x.maxPlayer) && 2.0 <= x.maxPlayer <= 4.0
    && (x.password.Some? ==> Utf16Length(Trim(x.password.value)) <= 64)
    && (x.isPrivate ==> x.password.Some? && Trim(x.password.value) != "" && ValidPassword(Trim(x.password.value)))
  }

  /** A private room gets a password of 4 to 64 characters once trimmed; a public one
      at most 64, or none. */
  lemma CreateRoomPasswordRule(x: CreateRoomInput)
    requires ValidCreateRoom(x)
    ensures x.isPrivate ==> x.password.Some? && 4 <= Utf16Length(Trim(x.password.value)) <= 64
    ensures x.password.Some? ==> Utf16Length(Trim(x.password.value)) <= 64
  {
    if x.isPrivate {
      TrimIdempotent(x.password.value);
    }
  }

  datatype JoinRoomInput = JoinRoomInput(roomId: string, player: PlayerInput, password: Option<string>)

  /** A room id of 1 to 50 characters once trimmed (also the socket layer's `RoomIdSchema`). */
  predicate ValidRoomId(s: string) {
    1 <= Utf16Length(Trim(s)) <= 50
  }

  /** `JoinRoomSchema`. */
  predicate ValidJoinRoom(x: JoinRoomInput) {
    && ValidRoomId(x.roomId)
    && ValidPlayer(x.player)
    && (x.password.Some? ==> Utf16Length(Trim(x.password.value)) <= 64)
  }

  /** `ItemTypeSchema`: one of the eight item names. */
  predicate ValidItemType(s: string) {
    s in KNOWN_ITEMS
  }

  /** `ActionSchema`, with its refinement on what each action type needs. */
  predicate ValidAction(a: GameEngine.PlayerAction) {
    && (a.kind == "drink" || a.kind == "use_item" || a.kind == "steal")
    && (a.targetPlayerId.Some? ==> Utf16Length(a.targetPlayerId.value) >= 1)
    && (a.itemType.Some? ==> ValidItemType(a.itemType.value))
    && (a.kind == "drink" ==> a.targetPlayerId.Some?)
    && (a.kind == "use_item" ==> a.itemType.Some?)
    && (a.kind == "steal" ==> a.itemType.Some? && a.targetPlayerId.Some?)
  }

  /** What each action type needs: a drink a target, an item use an item (and no target, even
      for Royal Chain Order), a steal both. */
  lemma ActionRequirements(a: GameEngine.PlayerAction)
    requires ValidAction(a)
    ensures a.kind == "drink" ==> a.targetPlayerId.Some? && a.targetPlayerId.value != ""
    ensures a.kind == "steal" ==> a.targetPlayerId.Some? && a.targetPlayerId.value != "" && a.itemType.value in KNOWN_ITEMS
    ensures ValidAction(GameEngine.PlayerAction("use_item", None, Some(ROYAL_CHAIN_ORDER)))
  {
    assert ROYAL_CHAIN_ORDER in KNOWN_ITEMS;
  }
}
