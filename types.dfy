/** The shared records of the game and room layer (shared/types/types.ts). */
module Types {

  import opened Wrappers

  /** Item identifiers; the union type is open (`| string`), so any string is an item. */
  type ItemType = string

  /** Status tags; also an open union of strings. */
  type StatusEffect = string

  const ROYAL_SCRUTINY_GLASS: ItemType := "royal_scrutiny_glass"
  const VERDICT_AMPLIFIER: ItemType := "verdict_amplifier"
  const CROWN_DISAVOWAL: ItemType := "crown_disavowal"
  const ROYAL_CHAIN_ORDER: ItemType := "royal_chain_order"
  const SOVEREIGN_POTION: ItemType := "sovereign_potion"
  const CHRONICLE_LEDGER: ItemType := "chronicle_ledger"
  const PARADOX_DIAL: ItemType := "paradox_dial"
  const THIEFS_TOOTH: ItemType := "thiefs_tooth"

  /** The eight item names the game knows. */
  const KNOWN_ITEMS: seq<ItemType> := [ROYAL_SCRUTINY_GLASS, VERDICT_AMPLIFIER, CROWN_DISAVOWAL,
    ROYAL_CHAIN_ORDER, SOVEREIGN_POTION, CHRONICLE_LEDGER, PARADOX_DIAL, THIEFS_TOOTH]

  const CHAINED: StatusEffect := "chained"
  const AMPLIFIED: StatusEffect := "amplified"
  const THIEF: StatusEffect := "thief"

  /** The narrative message that accompanies every game update; `kind` is the source's `type`. */
  datatype ActionMessage = ActionMessage(
    kind: string,
    item: Option<ItemType>,
    userId: Option<string>,
    targetId: Option<string>,
    result: Option<string>)

  /** A message that carries only a type and, optionally, a result. */
  function Note(kind: string, result: Option<string>): ActionMessage {
    ActionMessage(kind, None, None, None, result)
  }

  /** In-game identity of a player. */
  datatype Contestant = Contestant(
    id: string,
    name: string,
    lives: int,
    items: seq<ItemType>,
    isAI: bool,
    isOnline: bool,
    statusEffects: seq<StatusEffect>)

  /** Connection-level identity of a room member. */
  datatype Player = Player(id: string, name: string, socketId: string)

  datatype ConnectionStatus = Connected | Disconnected | Reconnecting | Abandoned

  datatype PlayerConnectionState = PlayerConnectionState(
    playerId: string,
    socketId: string,
    status: ConnectionStatus,
    disconnectedAt: Option<int>)

  datatype Score = Score(playerId: string, name: string, score: int)

  datatype Phase = Loading | Playing | RoundOver | GameOver

  datatype Direction = Clockwise | CounterClockwise

  /** Round configuration; the field name `poisnousGoblets` is the source's spelling. */
  datatype RoundConfig = RoundConfig(
    round: int,
    poisnousGoblets: int,
    holyGoblets: int,
    lives: int,
    itemCount: int,
    suddenDeath: bool)

  /** The game embedded in a room; goblets are `true` when poisonous. */
  datatype GameState = GameState(
    players: seq<Contestant>,
    currentRound: RoundConfig,
    activePlayerIndex: int,
    goblets: seq<bool>,
    currentGobletIndex: int,
    gobletsRemaining: int,
    turnOrderDirection: Direction,
    gameState: Phase,
    scoreChart: seq<Score>)

  /** The persisted room aggregate. The optional `connectionStates` of the source is an
      empty sequence when absent: every reader treats the two alike. */
  datatype RoomData = RoomData(
    id: string,
    host: Player,
    players: seq<Player>,
    maxPlayers: int,
    isPrivate: bool,
    password: string,
    gameState: Option<GameState>,
    voiceChatEnabled: bool,
    connectionStates: seq<PlayerConnectionState>)

  /** The listing entry of a public room. */
  datatype PublicRoomData = PublicRoomData(
    id: string,
    host: Player,
    playersActive: int,
    maxPlayers: int,
    voiceChatEnabled: bool)

  /** The active index points at a contestant (reading it would otherwise throw). */
  predicate HasActive(g: GameState) {
    0 <= g.activePlayerIndex < |g.players|
  }

  /** The goblet at index `i` as JavaScript reads it: out of range is `undefined`, which is falsy. */
  function GobletAt(goblets: seq<bool>, i: int): bool {
    0 <= i < |goblets| && goblets[i]
  }

  /** The chamber invariant: remaining goblets are those after the current index. */
  predicate GobletsConsistent(g: GameState) {
    0 <= g.currentGobletIndex <= |g.goblets| && g.gobletsRemaining == |g.goblets| - g.currentGobletIndex
  }

  /** No two contestants share an id. */
  predicate UniqueContestantIds(ps: seq<Contestant>) {
    forall i, j :: 0 <= i < j < |ps| ==> ps[i].id != ps[j].id
  }

  /** No two room members share an id. */
  predicate UniquePlayerIds(ps: seq<Player>) {
    forall i, j :: 0 <= i < j < |ps| ==> ps[i].id != ps[j].id
  }

  /** Some contestant has the id. */
  predicate HasContestant(ps: seq<Contestant>, id: string) {
    exists i :: 0 <= i < |ps| && ps[i].id == id
  }

  /** Some room member has the id. */
  predicate HasPlayer(ps: seq<Player>, id: string) {
    exists i :: 0 <= i < |ps| && ps[i].id == id
  }

  /** `statusEffects.includes(s)`. */
  predicate HasStatus(c: Contestant, s: StatusEffect) {
    s in c.statusEffects
  }
}
