/** The eight item effects and their dispatcher (shared/logic/itemSystem.ts). Each effect
    returns a new game state and the message describing it; none mutates its input. */
module ItemSystem {

  import opened Wrappers
  import opened Strings
  import opened Seqs
  import opened Types

  datatype ItemOutcome = ItemOutcome(updatedGame: GameState, actionMessage: ActionMessage)

  /** The `artifact_used` message of item `item` used by `userId`. */
  function ArtifactUsed(item: ItemType, userId: string, targetId: Option<string>, result: string): ActionMessage {
    ActionMessage("artifact_used", Some(item), Some(userId), targetId, Some(result))
  }

  /** How a goblet's content is reported. */
  function Verdict(poisonous: bool): string {
    if poisonous then "POISONOUS" else "HOLY"
  }

  function ActiveId(g: GameState): string
    requires HasActive(g)
  {
    g.players[g.activePlayerIndex].id
  }

  /** Replaces the active contestant. */
  function WithActive(g: GameState, c: Contestant): (r: GameState)
    requires HasActive(g)
    ensures HasActive(r) && ActiveId(r) == c.id
  {
    g.(players := g.players[g.activePlayerIndex := c])
  }

  /** Royal Scrutiny Glass: reveals the current goblet, changes nothing. */
  function RoyalScrutinyGlass(g: GameState): (r: ItemOutcome)
    requires HasActive(g)
    ensures r.updatedGame == g
    ensures r.actionMessage.result == Some("POISONOUS") <==> GobletAt(g.goblets, g.currentGobletIndex)
    ensures r.actionMessage.result == Some("HOLY") <==> !GobletAt(g.goblets, g.currentGobletIndex)
    ensures r.actionMessage.kind == "artifact_used" && r.actionMessage.userId == Some(ActiveId(g))
  {
    var poisonous := GobletAt(g.goblets, g.currentGobletIndex);
    ItemOutcome(g, ArtifactUsed(ROYAL_SCRUTINY_GLASS, ActiveId(g), None, Verdict(poisonous)))
  }

  /** Verdict Amplifier: tags the active contestant `amplified`. */
  function VerdictAmplifier(g: GameState): (r: ItemOutcome)
    requires HasActive(g)
    ensures var a, ps := g.activePlayerIndex, r.updatedGame.players;
      && |ps| == |g.players|
      && ps[a] == g.players[a].(statusEffects := g.players[a].statusEffects + [AMPLIFIED])
      && (forall j :: 0 <= j < |ps| && j != a ==> ps[j] == g.players[j])
    ensures r.updatedGame.(players := g.players) == g
    ensures r.actionMessage.result == Some("AMPLIFIED")
  {
    var p := g.players[g.activePlayerIndex];
    ItemOutcome(WithActive(g, p.(statusEffects := p.statusEffects + [AMPLIFIED])),
                ArtifactUsed(VERDICT_AMPLIFIER, p.id, None, "AMPLIFIED"))
  }

  /** `[...s].splice(start, 1)` on a copy: the JavaScript start-index rules (negative counts
      from the end, past the end removes nothing); returns the removed value (undefined is falsy). */
  function SpliceOne(s: seq<bool>, start: int): (r: (seq<bool>, bool))
    ensures 0 <= start < |s| ==> r.0 == RemoveAt(s, start) && r.1 == s[start]
    ensures start >= |s| ==> r == (s, false)
  {
    var k := if start < 0 then (if |s| + start < 0 then 0 else |s| + start) else start;
    if k < |s| then (RemoveAt(s, k), s[k]) else (s, false)
  }

  /** Crown Disavowal: discards the current goblet without resolving it. */
  function CrownDisavowal(g: GameState): (r: ItemOutcome)
    requires HasActive(g)
    ensures var i := g.currentGobletIndex;
      0 <= i < |g.goblets| ==> r.updatedGame.goblets == g.goblets[..i] + g.goblets[i + 1..]
    ensures g.currentGobletIndex >= |g.goblets| ==> r.updatedGame.goblets == g.goblets
    ensures r.updatedGame.gobletsRemaining == g.gobletsRemaining - 1
    ensures r.updatedGame.(goblets := g.goblets, gobletsRemaining := g.gobletsRemaining) == g
    ensures g.currentGobletIndex >= 0 ==>
      r.actionMessage.result == Some(Verdict(GobletAt(g.goblets, g.currentGobletIndex)))
  {
    var (rest, removed) := SpliceOne(g.goblets, g.currentGobletIndex);
    ItemOutcome(g.(goblets := rest, gobletsRemaining := g.gobletsRemaining - 1),
                ArtifactUsed(CROWN_DISAVOWAL, ActiveId(g), None, Verdict(removed)))
  }

  /** Crown Disavowal keeps `gobletsRemaining == |goblets| - currentGobletIndex` while a goblet remains. */
  lemma CrownDisavowalKeepsChamberConsistent(g: GameState)
    requires HasActive(g) && GobletsConsistent(g) && g.gobletsRemaining > 0
    ensures GobletsConsistent(CrownDisavowal(g).updatedGame)
    ensures |CrownDisavowal(g).updatedGame.goblets| == |g.goblets| - 1
    ensures CrownDisavowal(g).updatedGame.currentGobletIndex == g.currentGobletIndex
  {
  }

  /** `c` with `chained` appended when its id is the target. */
  function ChainIfTarget(c: Contestant, targetId: string): Contestant {
    if c.id == targetId then c.(statusEffects := c.statusEffects + [CHAINED]) else c
  }

  /** Royal Chain Order: tags every contestant whose id is the target `chained`. */
  function RoyalChainOrder(g: GameState, targetId: string): (r: ItemOutcome)
    requires HasActive(g)
    ensures var ps := r.updatedGame.players;
      && |ps| == |g.players|
      && (forall j :: 0 <= j < |ps| && g.players[j].id == targetId ==>
            ps[j] == g.players[j].(statusEffects := g.players[j].statusEffects + [CHAINED]))
      && (forall j :: 0 <= j < |ps| && g.players[j].id != targetId ==> ps[j] == g.players[j])
    ensures r.updatedGame.(players := g.players) == g
    ensures !HasContestant(g.players, targetId) ==> r.updatedGame == g
    ensures r.actionMessage.targetId == Some(targetId) && r.actionMessage.result == Some("CHAINED")
  {
    var ps := seq(|g.players|, j requires 0 <= j < |g.players| => ChainIfTarget(g.players[j], targetId));
    ItemOutcome(g.(players := ps), ArtifactUsed(ROYAL_CHAIN_ORDER, ActiveId(g), Some(targetId), "CHAINED"))
  }

  /** Sovereign Potion: one more life for the active contestant, without a cap. */
  function SovereignPotion(g: GameState): (r: ItemOutcome)
    requires HasActive(g)
    ensures var a, ps := g.activePlayerIndex, r.updatedGame.players;
      && |ps| == |g.players|
      && ps[a] == g.players[a].(lives := g.players[a].lives + 1)
      && (forall j :: 0 <= j < |ps| && j != a ==> ps[j] == g.players[j])
    ensures r.updatedGame.(players := g.players) == g
    ensures r.actionMessage.result == Some("HEALED")
  {
    var p := g.players[g.activePlayerIndex];
    ItemOutcome(WithActive(g, p.(lives := p.lives + 1)), ArtifactUsed(SOVEREIGN_POTION, p.id, None, "HEALED"))
  }

  /** The first index Chronicle Ledger may reveal: the current one, or 0 if that is negative. */
  function LedgerStart(g: GameState): nat {
    if g.currentGobletIndex < 0 then 0 else g.currentGobletIndex
  }

  /** `goblets.map((_, i) => i).filter(i => i >= currentGobletIndex)`. */
  function LedgerCandidates(g: GameState): (r: seq<int>)
    ensures |r| == if LedgerStart(g) >= |g.goblets| then 0 else |g.goblets| - LedgerStart(g)
    ensures forall k :: 0 <= k < |r| ==> r[k] == LedgerStart(g) + k
  {
    var from := LedgerStart(g);
    if from >= |g.goblets| then []
    else seq(|g.goblets| - from, k requires 0 <= k < |g.goblets| - from => from + k)
  }

  /** The index revealed for the random choice `pick` (`Math.floor(Math.random() * n)`),
      or None when no goblet is left to reveal. */
  function LedgerIndex(g: GameState, pick: nat): (r: Option<int>)
    requires |LedgerCandidates(g)| == 0 || pick < |LedgerCandidates(g)|
    ensures r.Some? ==> 0 <= r.value < |g.goblets| && r.value >= g.currentGobletIndex
    ensures r.None? <==> |LedgerCandidates(g)| == 0
  {
    var c := LedgerCandidates(g);
    if |c| == 0 then None else Some(c[pick])
  }

  /** The report of revealing goblet `i`: its content and its offset counted from 1 at the current goblet. */
  function LedgerReport(g: GameState, i: int): string
    requires 0 <= i < |g.goblets|
  {
    Verdict(g.goblets[i]) + ":" + IntToString(i - g.currentGobletIndex + 1)
  }

  /** Chronicle Ledger: reveals one goblet at or after the current one without consuming it;
      changes nothing. With no goblet left the source reads `undefined` and reports `HOLY:NaN`. */
  function ChronicleLedger(g: GameState, pick: nat): (r: ItemOutcome)
    requires HasActive(g)
    requires |LedgerCandidates(g)| == 0 || pick < |LedgerCandidates(g)|
    ensures r.updatedGame == g
    ensures LedgerIndex(g, pick).None? ==> r.actionMessage.result == Some("HOLY:NaN")
    ensures LedgerIndex(g, pick).Some? ==>
      r.actionMessage.result == Some(LedgerReport(g, LedgerIndex(g, pick).value))
  {
    var peek := LedgerIndex(g, pick);
    var result := if peek.None? then "HOLY:NaN" else LedgerReport(g, peek.value);
    ItemOutcome(g, ArtifactUsed(CHRONICLE_LEDGER, ActiveId(g), None, result))
  }

  /** The offset Chronicle Ledger reports is at least 1, and every goblet from the current one
      on is revealed by some choice. */
  lemma ChronicleLedgerOffset(g: GameState, pick: nat)
    requires |LedgerCandidates(g)| == 0 || pick < |LedgerCandidates(g)|
    ensures LedgerIndex(g, pick).Some? ==> LedgerIndex(g, pick).value - g.currentGobletIndex + 1 >= 1
    ensures forall i :: 0 <= i < |g.goblets| && i >= g.currentGobletIndex ==>
      exists k: nat :: k < |LedgerCandidates(g)| && LedgerIndex(g, k) == Some(i)
  {
    var c := LedgerCandidates(g);
    forall i | 0 <= i < |g.goblets| && i >= g.currentGobletIndex
      ensures exists k: nat :: k < |c| && LedgerIndex(g, k) == Some(i)
    {
      var k: nat := i - LedgerStart(g);
      assert c[k] == i;
      assert LedgerIndex(g, k) == Some(i);
    }
  }

  /** `a[i] = v` on a JavaScript array of booleans: past the end the array grows, the holes
      read as `undefined` (falsy, modelled as false); a negative `i` sets a non-index property
      and leaves the elements alone. */
  function JsAssign(s: seq<bool>, i: int, v: bool): (r: seq<bool>)
    ensures 0 <= i < |s| ==> r == s[i := v]
    ensures i < 0 ==> r == s
    ensures i >= |s| ==> |r| == i + 1 && r[..|s|] == s && r[i] == v
  {
    if i < 0 then s
    else if i < |s| then s[i := v]
    else s + seq(i - |s|, _ => false) + [v]
  }

  /** Paradox Dial: flips the current goblet. */
  function ParadoxDial(g: GameState): (r: ItemOutcome)
    requires HasActive(g)
    ensures var i := g.currentGobletIndex;
      0 <= i < |g.goblets| ==>
        && |r.updatedGame.goblets| == |g.goblets|
        && r.updatedGame.goblets[i] == !g.goblets[i]
        && (forall j :: 0 <= j < |g.goblets| && j != i ==> r.updatedGame.goblets[j] == g.goblets[j])
    ensures r.updatedGame.(goblets := g.goblets) == g
    ensures r.actionMessage.result == Some(Verdict(!GobletAt(g.goblets, g.currentGobletIndex)) + ":INVERTED")
  {
    var i := g.currentGobletIndex;
    var flipped := !GobletAt(g.goblets, i);
    ItemOutcome(g.(goblets := JsAssign(g.goblets, i, flipped)),
                ArtifactUsed(PARADOX_DIAL, ActiveId(g), None, Verdict(flipped) + ":INVERTED"))
  }

  /** Turning the Paradox Dial twice restores the chamber. */
  lemma ParadoxDialTwiceRestores(g: GameState)
    requires HasActive(g) && 0 <= g.currentGobletIndex < |g.goblets|
    ensures HasActive(ParadoxDial(g).updatedGame)
    ensures ParadoxDial(ParadoxDial(g).updatedGame).updatedGame == g
  {
    var once := ParadoxDial(g).updatedGame;
    var twice := ParadoxDial(once).updatedGame;
    assert twice.goblets == g.goblets;
  }

  /** Some contestant other than the active one holds an item. */
  predicate SomeoneElseHasItems(g: GameState) {
    exists i :: 0 <= i < |g.players| && i != g.activePlayerIndex && |g.players[i].items| > 0
  }

  /** Thief's Tooth: with nothing to steal every remaining tooth is discarded (`FAILED_NO_TARGET`);
      otherwise the active contestant is tagged `thief` (`STEAL`). */
  function ThiefTooth(g: GameState): (r: ItemOutcome)
    requires HasActive(g)
    ensures var a, ps := g.activePlayerIndex, r.updatedGame.players;
      && |ps| == |g.players|
      && (forall j :: 0 <= j < |ps| && j != a ==> ps[j] == g.players[j])
      && (!SomeoneElseHasItems(g) ==>
            ps[a] == g.players[a].(items := RemoveAll(g.players[a].items, THIEFS_TOOTH))
            && r.actionMessage.result == Some("FAILED_NO_TARGET"))
      && (SomeoneElseHasItems(g) ==>
            ps[a] == g.players[a].(statusEffects := g.players[a].statusEffects + [THIEF])
            && r.actionMessage.result == Some("STEAL"))
    ensures r.updatedGame.(players := g.players) == g
  {
    var p := g.players[g.activePlayerIndex];
    if !SomeoneElseHasItems(g) then
      ItemOutcome(WithActive(g, p.(items := RemoveAll(p.items, THIEFS_TOOTH))),
                  ArtifactUsed(THIEFS_TOOTH, p.id, None, "FAILED_NO_TARGET"))
    else
      ItemOutcome(WithActive(g, p.(statusEffects := p.statusEffects + [THIEF])),
                  ArtifactUsed(THIEFS_TOOTH, p.id, None, "STEAL"))
  }

  /** The game with the first copy of `item` taken out of the active inventory. */
  function ConsumeItem(g: GameState, item: ItemType): (r: GameState)
    requires HasActive(g) && item in g.players[g.activePlayerIndex].items
    ensures var a, items := g.activePlayerIndex, g.players[g.activePlayerIndex].items;
      var k := FindIndex(items, (x: ItemType) => x == item);
      && 0 <= k < |items| && items[k] == item && item !in items[..k]
      && |r.players| == |g.players|
      && r.players[a].items == items[..k] + items[k + 1..]
      && r.players[a].(items := items) == g.players[a]
    ensures forall j :: 0 <= j < |g.players| && j != g.activePlayerIndex ==> r.players[j] == g.players[j]
    ensures r.(players := g.players) == g
  {
    var p := g.players[g.activePlayerIndex];
    var k := FindIndex(p.items, (x: ItemType) => x == item);
    WithActive(g, p.(items := p.items[..k] + p.items[k + 1..]))
  }

  /** The dispatcher: checks the item is held, consumes one copy, then applies its effect.
      `pick` is the random choice Chronicle Ledger would make. */
  function Item(g: GameState, item: ItemType, targetId: Option<string>, pick: nat): (r: Result<ItemOutcome>)
    requires HasActive(g) && item == CHRONICLE_LEDGER && item in g.players[g.activePlayerIndex].items ==>
      var c := LedgerCandidates(ConsumeItem(g, item)); |c| == 0 || pick < |c|
    ensures r.Success? <==>
      && HasActive(g)
      && item in g.players[g.activePlayerIndex].items
      && item in KNOWN_ITEMS
      && (item == ROYAL_CHAIN_ORDER ==> targetId.Some? && targetId.value != "")
    ensures r.Success? ==>
      && r.value.actionMessage.kind == "artifact_used"
      && r.value.actionMessage.item == Some(item)
      && r.value.actionMessage.userId == Some(g.players[g.activePlayerIndex].id)
      && |r.value.updatedGame.players| == |g.players|
      && r.value.updatedGame.activePlayerIndex == g.activePlayerIndex
  {
    if !HasActive(g) then Failure("Cannot read properties of undefined (reading 'items')")
    else if item !in g.players[g.activePlayerIndex].items then
      Failure("Item " + item + " not available or already used this turn")
    else
      var used := ConsumeItem(g, item);
      if item == ROYAL_SCRUTINY_GLASS then Success(RoyalScrutinyGlass(used))
      else if item == VERDICT_AMPLIFIER then Success(VerdictAmplifier(used))
      else if item == CROWN_DISAVOWAL then Success(CrownDisavowal(used))
      else if item == ROYAL_CHAIN_ORDER then
        (if targetId.None? || targetId.value == "" then Failure("Target required for royal_chain_order")
         else Success(RoyalChainOrder(used, targetId.value)))
      else if item == SOVEREIGN_POTION then Success(SovereignPotion(used))
      else if item == CHRONICLE_LEDGER then Success(ChronicleLedger(used, pick))
      else if item == PARADOX_DIAL then Success(ParadoxDial(used))
      else if item == THIEFS_TOOTH then Success(ThiefTooth(used))
      else Failure("Unknown item: " + item)
  }

  /** What a successful item use does to the inventories: the first copy of the item leaves the
      active inventory, the rest keep their order, and nobody else's inventory changes; only a
      Thief's Tooth with nothing to steal also discards the remaining teeth. */
  lemma ItemInventories(g: GameState, item: ItemType, targetId: Option<string>, pick: nat)
    requires HasActive(g) && item == CHRONICLE_LEDGER && item in g.players[g.activePlayerIndex].items ==>
      var c := LedgerCandidates(ConsumeItem(g, item)); |c| == 0 || pick < |c|
    requires Item(g, item, targetId, pick).Success?
    ensures var a, items := g.activePlayerIndex, g.players[g.activePlayerIndex].items;
      var k := FindIndex(items, (x: ItemType) => x == item);
      var after := Item(g, item, targetId, pick).value.updatedGame.players;
      && 0 <= k < |items| && item !in items[..k]
      && (forall j :: 0 <= j < |g.players| && j != a ==> after[j].items == g.players[j].items)
      && (item == THIEFS_TOOTH && !SomeoneElseHasItems(g) ==>
            after[a].items == RemoveAll(items[..k] + items[k + 1..], THIEFS_TOOTH))
      && (item != THIEFS_TOOTH || SomeoneElseHasItems(g) ==> after[a].items == items[..k] + items[k + 1..])
  {
    var used := ConsumeItem(g, item);
    assert SomeoneElseHasItems(used) <==> SomeoneElseHasItems(g) by {
      forall i | 0 <= i < |g.players| && i != g.activePlayerIndex
        ensures used.players[i] == g.players[i] {}
    }
    if item != THIEFS_TOOTH {
      EffectKeepsInventories(g, item, targetId, pick);
    }
  }

  /** Every item other than Thief's Tooth leaves all inventories as consuming it left them. */
  lemma EffectKeepsInventories(g: GameState, item: ItemType, targetId: Option<string>, pick: nat)
    requires HasActive(g) && item == CHRONICLE_LEDGER && item in g.players[g.activePlayerIndex].items ==>
      var c := LedgerCandidates(ConsumeItem(g, item)); |c| == 0 || pick < |c|
    requires Item(g, item, targetId, pick).Success? && item != THIEFS_TOOTH
    ensures var used, after := ConsumeItem(g, item), Item(g, item, targetId, pick).value.updatedGame.players;
      forall j :: 0 <= j < |g.players| ==> after[j].items == used.players[j].items
  {
    var used := ConsumeItem(g, item);
    var out := Item(g, item, targetId, pick).value;
    if item == ROYAL_SCRUTINY_GLASS {
      assert out == RoyalScrutinyGlass(used);
    } else if item == VERDICT_AMPLIFIER {
      assert out == VerdictAmplifier(used);
    } else if item == CROWN_DISAVOWAL {
      assert out == CrownDisavowal(used);
    } else if item == ROYAL_CHAIN_ORDER {
      assert out == RoyalChainOrder(used, targetId.value);
    } else if item == SOVEREIGN_POTION {
      assert out == SovereignPotion(used);
    } else if item == CHRONICLE_LEDGER {
      assert out == ChronicleLedger(used, pick);
    } else {
      assert out == ParadoxDial(used);
    }
  }
}
