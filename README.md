# campo-honor server rules in Dafny

This project models the server-side rules of campo-honor, a two-player tactics
card game played over sockets. It covers five parts of the server:

- The **board constants**: a 7-column by 8-row rectangle, one tower cell and one
  spawn row per side.
- The **in-memory registry** of the server: the matchmaking queue, the pending
  matches and the active games.
- The **matchmaking handlers**:
  - `find_match` queues a player and pairs the two oldest entries;
  - `leave_queue` and `disconnect` remove the player's oldest queue entry;
  - `confirm_match` deals the hands and builds the opening 10x10 board with six
    towers once both sides have confirmed.
- The **turn handlers** `summon_unit`, `move_unit`, `attack_unit` and `end_turn`,
  with `switchTurn`. Each one checks its guards in order. Every accepted action
  ends the sender's turn. A tower brought to 0 hp ends the game.
- The **ability engine**:
  - target checks and target lists;
  - square areas of effect;
  - one ability applied to one occupant (friendly fire, damage with a structure
    bonus and defense, heal, buff, debuff, the move-flag reset);
  - active abilities: validate, pay, mark, resolve and apply;
  - passive abilities dispatched by trigger, where `onKill` fires only for the killer;
  - the buff/debuff ledger, ticked once per call, reversing expired entries and
    splicing them out back to front.
- The **AI planner**:
  - lists the possible attacks and sorts them: kills first, then towers, then
    damage descending, with a stable sort;
  - picks the strongest affordable card and an empty cell of its spawn row;
  - lists one-row forward steps;
  - chooses attack, then summon, then move, then end of turn.

A game record whose fields the handlers update in place is a `class Game`. The
registry is a `class Registry`. Each handler is a method proved against a function
on the `Table` snapshot: the two players, the board and the turn. The engine's
loops are methods proved equal to the functions of `AbilityEffects`,
`AbilityTargets` and `AbilityEngine`. The planner only reads the game, so it is
modelled as functions.

The model keeps the rules as the code implements them:

- `move_unit` checks only the Manhattan distance, never a path.
- `switchTurn` adds no energy, does not clear `abilityUsedThisTurn` and does not
  tick the ledger.
- The turn handlers never call the ability engine.
- An attack deals at least 1 damage, while the planner's estimate can be 0.
- The board built by `confirm_match` is 10x10, with towers on rows 0 and 9 at
  columns 1, 5 and 8. The engine and the planner scan only the 8x7 rectangle of
  the constants.
- The planner's move scan does not exclude towers.
- A tower carries only an owner and an hp. Reads of its missing fields follow
  JavaScript: a missing defense reads as 0, a missing range compares false, and
  healing a tower leaves its hp `NaN`.

`Scenarios.PlannerMovesTower` puts several of these together. On the opening
board, a planner playing player2 with no affordable card proposes to walk
player2's own tower from (0, 1) to (1, 1). `move_unit` refuses that move.

Randomness and clocks are parameters:

- the match id of `find_match`;
- the two shuffled decks given to `confirm_match`;
- `pick`, which stands for the planner's random choice among the empty spawn cells.

The card catalog is a further parameter of `confirm_match`, which files it on the
new game record; see "## Findings".

## Model

| member | source | states |
|---|---|---|
| GameConstants.TowerPosition | backend/src/constants/game.js:7-10 | each side's tower cell lies in the rectangle on the centre column, on the bottom row for player1 and the top row for player2 |
| GameConstants.SpawnRow | backend/src/constants/game.js:13-16 | each side's spawn row is in the rectangle and directly next to its own tower row |
| GameConstants.SpawnRowsApart | backend/src/constants/game.js:7-16 | the two spawn rows differ, no tower cell lies on a spawn row, and the two tower rows differ |
| Board.FindCard | backend/src/handlers/gameHandler.js:56 | a found card is in the catalog and has the requested id; nothing is found exactly when no catalog card has that id |
| Board.FindCardFirst | backend/src/handlers/gameHandler.js:56 | the found card is the first catalog card with the requested id: every earlier card has another id |
| GameState.Game.constructor | backend/src/handlers/matchmakingHandler.js:101-117 | a new game record is valid, holds the given players, catalog and board, has player1 to move and an empty ledger |
| GameState.Registry.constructor | backend/src/state/gameState.js:3-10 | the server starts with an empty queue, no pending matches and no active games |
| Matchmaking.FindMatch | backend/src/handlers/matchmakingHandler.js:10-50 | the seeker is queued, and the two oldest entries are seated as a pending match under the match id, the older as player1; it pairs exactly when someone was already waiting |
| Matchmaking.EnqueuePairs | backend/src/handlers/matchmakingHandler.js:14-44 | from a queue of at most one, a newcomer waits alone or is paired with the waiting seeker, leaving the queue empty; the queue never grows past one |
| Matchmaking.EnqueueConserves | backend/src/handlers/matchmakingHandler.js:14-44 | no seeker is lost or invented: the remaining queue plus the two seated seekers is the old queue plus the newcomer |
| Matchmaking.IndexOf | backend/src/handlers/matchmakingHandler.js:59 | the index found holds the id and no earlier entry does; no index means no entry holds the id |
| Matchmaking.LeaveQueue | backend/src/handlers/matchmakingHandler.js:52-63 | the queue loses the oldest entry of the leaving player, if there is one |
| Matchmaking.LeftFacts | backend/src/handlers/matchmakingHandler.js:164-170 | leaving removes exactly the oldest entry of that id, or nothing when there is none; every other player's entries keep their order |
| Matchmaking.ConfirmedFacts | backend/src/handlers/matchmakingHandler.js:69-73 | a stranger's confirmation changes nothing; confirmations commute and are idempotent; a match is ready exactly when each seat is confirmed or belongs to the sender |
| Matchmaking.Take | backend/src/handlers/matchmakingHandler.js:82-83 | the hand is the first five cards of the deck, or the whole deck if it is shorter |
| Matchmaking.Drop | backend/src/handlers/matchmakingHandler.js:106 | the remaining deck is everything after the first five cards |
| Matchmaking.DealtFacts | backend/src/handlers/matchmakingHandler.js:79-117 | dealing loses no card (hand then deck is the shuffled deck); the hand has min(5, deck size) cards; each player starts with 10 energy |
| Matchmaking.EmptyGrid | backend/src/handlers/matchmakingHandler.js:86-88 | the board starts as the requested number of rows of empty cells |
| Matchmaking.InitialBoardCells | backend/src/handlers/matchmakingHandler.js:85-99 | the opening board is a 10x10 grid (`IsGrid`) and holds the six towers of the layout and nothing else |
| Matchmaking.TowersPlaced | backend/src/handlers/matchmakingHandler.js:90-99 | the six tower placements on an empty 10x10 board give exactly that layout |
| Matchmaking.ConfirmMatch | backend/src/handlers/matchmakingHandler.js:65-162 | an unknown match changes nothing; otherwise the sender's seat is confirmed; once both are, the pending entry is replaced by a fresh game under the same id with the dealt players, the opening board and player1 to move |
| Matchmaking.MarkConfirmed | backend/src/handlers/matchmakingHandler.js:69-70 | the pending entry becomes the confirmed one |
| Matchmaking.StartGame | backend/src/handlers/matchmakingHandler.js:77-160 | a fresh game is filed under the match id and the pending entry is dropped |
| Matchmaking.LifecycleStarts | backend/src/handlers/matchmakingHandler.js:21-73 | a freshly paired match is not ready after one confirmation and is ready after both, in either order |
| Matchmaking.SelfPairing | backend/src/handlers/matchmakingHandler.js:14-44 | a player who queues twice is paired with themself, and a single confirmation starts that match |
| GameHandler.ClearedBoard | backend/src/handlers/gameHandler.js:23-33 | the flag reset keeps the board's shape |
| GameHandler.SwitchTurn | backend/src/handlers/gameHandler.js:23-37 | the outgoing player's unit flags are cleared over the whole board and the turn passes to the other player; nothing else changes |
| GameHandler.SwitchedCells | backend/src/handlers/gameHandler.js:25-33 | a switch clears only the outgoing player's units' move and attack flags; every other cell keeps its occupant |
| GameHandler.ClearedIdempotent | backend/src/handlers/gameHandler.js:25-33 | clearing the flags twice is clearing them once |
| GameHandler.ClearedCount | backend/src/handlers/gameHandler.js:25-33 | a switch neither empties nor fills any cell |
| GameHandler.TurnAlternates | backend/src/handlers/gameHandler.js:35-36 | between two distinct players the turn always moves to the other one, so two switches give it back |
| GameHandler.SummonUnit | backend/src/handlers/gameHandler.js:39-83 | a summon is accepted exactly when the guards pass (sender's turn, valid card index, own spawn row, empty cell, known card, affordable); then the card is paid and placed and the turn switches; a refusal changes nothing |
| GameHandler.SummonEffect | backend/src/handlers/gameHandler.js:62-81 | after a summon, energy drops by exactly the card's cost and stays non-negative, exactly that card leaves the hand, a fresh unit at full hp stands on the target, the opponent is untouched and the turn passes |
| GameHandler.MoveUnit | backend/src/handlers/gameHandler.js:85-106 | a move is accepted exactly when the guards pass (sender's turn, own unit not yet moved, empty destination within speed in Manhattan distance); then the unit is relocated and the turn switches; a refusal changes nothing |
| GameHandler.MoveEffect | backend/src/handlers/gameHandler.js:99-104 | an accepted move leaves the origin empty and the unit at the destination, with the same number of occupied cells |
| GameHandler.MoveFrame | backend/src/handlers/gameHandler.js:99-104 | cells other than origin and destination keep their occupant through a move |
| GameHandler.StrikeDamage | backend/src/handlers/gameHandler.js:124 | an attack deals max(1, attack - defense), so at least 1 |
| GameHandler.AttackUnit | backend/src/handlers/gameHandler.js:108-154 | an attack is refused unless the guards pass; otherwise the strike is applied; a fallen tower ends the game with no switch, and any other accepted attack switches the turn |
| GameHandler.Strike | backend/src/handlers/gameHandler.js:124-127 | the target is wounded, the attacker marked as having attacked, and a fallen target removed |
| GameHandler.AttackEffect | backend/src/handlers/gameHandler.js:124-152 | the target loses exactly the dealt damage; its cell empties exactly when its hp falls to 0 or below; the game ends exactly when that target is a tower; otherwise the turn passes |
| GameHandler.AttackerRefreshed | backend/src/handlers/gameHandler.js:127-152 | after an attack that does not end the game, the attacker's flags are already cleared again by the switch |
| GameHandler.EndTurn | backend/src/handlers/gameHandler.js:156-164 | `end_turn` switches the turn exactly when it is the sender's turn, and changes nothing otherwise |
| GameHandler.ActionsEndTurn | backend/src/handlers/gameHandler.js:39-164 | every accepted summon, move or attack hands the turn to the other player, except an attack that destroys a tower |
| GameHandler.OnSummonUnit | backend/src/handlers/gameHandler.js:40-45 | an unknown game id is ignored; otherwise the summon's verdict is that of its guards, and the game's new snapshot is the summoned table when accepted and the old one when refused |
| GameHandler.OnMoveUnit | backend/src/handlers/gameHandler.js:86-87 | an unknown game id is ignored; otherwise the move's verdict is that of its guards, and the game's new snapshot is the old one with the unit relocated and the turn passed when accepted, and the old one when refused |
| GameHandler.OnAttackUnit | backend/src/handlers/gameHandler.js:108-154 | an unknown game id is ignored; a destroyed tower deletes the game from the registry and nothing else does; the game's table after the call is the attack outcome's table, or the old one when refused |
| GameHandler.OnEndTurn | backend/src/handlers/gameHandler.js:156-164 | an unknown game id is ignored; otherwise the turn ends exactly when it is the sender's, and the new snapshot is the old one with the outgoing player's unit flags cleared and the turn handed over, or the old one when refused |
| AbilityTargets.ValidateTarget | backend/src/abilities/abilityEngine.js:316-350 | self and whole-side kinds always pass; other kinds need a position; a tile accepts any cell; otherwise the cell must be occupied, by the caster's side for an ally and by the other side for an enemy |
| AbilityTargets.TargetsListed | backend/src/abilities/abilityEngine.js:355-399 | every resolved target is an occupied cell of the grid, and none is listed twice |
| AbilityTargets.SideScanFacts | backend/src/abilities/abilityEngine.js:368-391 | the first k steps of the row-major scan pick exactly the matching occupants visited, in visiting order |
| AbilityTargets.WholeSideTargets | backend/src/abilities/abilityEngine.js:368-391 | whole-side targets are exactly the occupants of the rectangle owned (allies) or not owned (enemies) by the caster, each once, in row-major order |
| AbilityTargets.CheckedSingleTarget | backend/src/abilities/abilityEngine.js:316-366 | a target that passed the ally or enemy check is the one target the ability resolves to, and its owner is the side the kind demands |
| AbilityTargets.AffectedAreaSquare | backend/src/abilities/abilityEngine.js:404-415 | a size s covers exactly the (2*floor(s/2)+1)^2 cells within Chebyshev distance floor(s/2) of the centre, each once, in row-major order |
| AbilityTargets.AffectedAreaEmpty | backend/src/abilities/abilityEngine.js:404-415 | a negative or missing size covers no cell |
| AbilityTargets.InBoundsOnly | backend/src/abilities/abilityEngine.js:64-69 | the area filter keeps exactly the cells of the rectangle |
| AbilityEffects.RecordedUndoes | backend/src/abilities/abilityEngine.js:227-278 | a buff or debuff with a duration appends exactly one entry, for the target position with the effect's duration, and keeps the earlier entries; reverting the new entry on the changed unit gives back the unit before the change |
| AbilityEffects.EffectOnFacts | backend/src/abilities/abilityEngine.js:157-222 | one application changes only its target cell, whose occupant stays the same kind or is removed; the ledger only grows, by entries for that cell; a reported effect names the cell and lists at least one item |
| AbilityEffects.FriendlyFireRule | backend/src/abilities/abilityEngine.js:162-164 | a damaging ability without friendly fire leaves a target of the caster's own side untouched and reports nothing |
| AbilityEffects.DamageRule | backend/src/abilities/abilityEngine.js:167-194 | the dealt damage is base plus the structure bonus against a tower; unless defense is ignored or reads as 0, it is exactly max(0, that - defense); hp drops by exactly that; the report opens with it; the cell empties and a kill is reported exactly when hp falls to 0 or below |
| AbilityEffects.HealRule | backend/src/abilities/abilityEngine.js:197-201 | healing a unit sets hp to min(hp + heal, maxHp), never beyond maxHp; a non-negative heal of a unit at or below maxHp never lowers hp; the report is the amount actually healed |
| AbilityEffects.HealedTowerStands | backend/src/abilities/abilityEngine.js:197-201 | healing a tower leaves its hp NaN, and no later damage can then bring it down |
| AbilityEffects.LedgerRoundTrip | backend/src/abilities/abilityEngine.js:227-311 | reversing the ledger entry of a buff or debuff restores the unit's attack, defense and speed exactly |
| AbilityEffects.ApplyAllFacts | backend/src/abilities/abilityEngine.js:60-90 | applying an ability to a list of cells touches only listed cells, never places a new occupant, only appends to the ledger, and reports and records only listed cells |
| AbilityEffects.ApplyAllNoSpawn | backend/src/abilities/abilityEngine.js:60-90 | an empty cell stays empty whatever an ability does |
| AbilityEffects.KeepMember | backend/src/abilities/abilityEngine.js:305-310 | the surviving ledger holds exactly the entries that have not expired |
| AbilityEffects.RevertExpiredFrame | backend/src/abilities/abilityEngine.js:289-305 | the reversal of expired entries changes only cells that an expired entry targets |
| AbilityEffects.RevertExpiredStats | backend/src/abilities/abilityEngine.js:289-305 | the reversal keeps every occupant in place and changes only a unit's attack, defense and speed |
| AbilityEffects.TickAppend | backend/src/abilities/abilityEngine.js:283-311 | the tick treats entries independently, so a ledger ticks as its parts do, in order |
| AbilityEffects.EntryLifetime | backend/src/abilities/abilityEngine.js:289-310 | an entry recorded with duration n >= 1 survives n - 1 ticks with its counter counting down, and the n-th tick removes it |
| AbilityEffects.ExpiredRemoval | backend/src/abilities/abilityEngine.js:308-310 | splicing out the expired indices back to front leaves exactly the surviving entries, in order |
| AbilityEngine.ApplyBuff | backend/src/abilities/abilityEngine.js:227-250 | the target gains the buff's deltas and the ledger records the buff when it has a duration |
| AbilityEngine.ApplyDebuff | backend/src/abilities/abilityEngine.js:255-278 | the target loses the debuff's deltas and the ledger records the debuff when it has a duration |
| AbilityEngine.DamageStep | backend/src/abilities/abilityEngine.js:167-194 | the damage step wounds the target, reports the damage, and removes the target and reports a kill exactly when it falls |
| AbilityEngine.ApplyAbilityEffect | backend/src/abilities/abilityEngine.js:157-222 | one ability on one occupant changes the board, the ledger and the report exactly as the effect specification says |
| AbilityEngine.ApplyToAll | backend/src/abilities/abilityEngine.js:60-90 | applying to each listed cell in turn yields the board, ledger and reports of the list specification |
| AbilityEngine.ActiveRejection | backend/src/abilities/abilityEngine.js:22-49 | an active ability passes exactly when the player can pay, the caster has not used an ability this turn, a ranged target lies within range and the target check passes |
| AbilityEngine.ExecuteActiveAbility | backend/src/abilities/abilityEngine.js:16-98 | a refusal gives its reason and changes nothing; otherwise the player pays and the caster is marked; a missing position for an area or self ability faults after payment; otherwise the effects are those of the ability over the resolved cells |
| AbilityEngine.PayAndMark | backend/src/abilities/abilityEngine.js:52-55 | the player pays the cost, the caster is marked as having used its ability, and the other player is untouched |
| AbilityEngine.ResolveActive | backend/src/abilities/abilityEngine.js:58-97 | after payment, a missing target position faults and changes nothing more; otherwise the ability is applied to its area or target list |
| AbilityEngine.SecondUseRejected | backend/src/abilities/abilityEngine.js:27-29 | once an ability has been carried out, the same caster, if still on the board, is refused any further ability |
| AbilityEngine.RunUnitPassives | backend/src/abilities/abilityEngine.js:115-145 | one unit's abilities run in order, each firing one resolving and applying itself to its targets |
| AbilityEngine.TriggerPassiveAbilities | backend/src/abilities/abilityEngine.js:106-152 | the scan of the rectangle runs the passives of every unit, in row-major order, as the passive-scan specification says |
| AbilityEngine.HeldBackUnitPassives | backend/src/abilities/abilityEngine.js:121-124 | on an onKill event with a killer position, a unit that is not the killer fires nothing |
| AbilityEngine.OnKillOnlyKiller | backend/src/abilities/abilityEngine.js:106-152 | on an onKill event with a killer position, the whole scan does exactly what the killer's own passives do, and nothing when no unit stands there |
| AbilityEngine.TickLedger | backend/src/abilities/abilityEngine.js:289-305 | every counted entry is ticked, expired entries are reversed on their cells in ledger order, and exactly the expired indices are collected in ascending order |
| AbilityEngine.SpliceExpired | backend/src/abilities/abilityEngine.js:308-310 | the back-to-front splices remove exactly the listed indices |
| AbilityEngine.UpdateBuffDurations | backend/src/abilities/abilityEngine.js:283-311 | after the tick, the ledger holds exactly the surviving entries with their counters decremented, and the board is the old one with the expired entries reversed |
| AiEngine.Estimate | backend/src/ai/aiEngine.js:70 | the planner's damage estimate is max(0, attack - defense), never negative |
| AiEngine.ScanAttacksMember | backend/src/ai/aiEngine.js:59-85 | the scan lists exactly the candidate attacks: an own unit that has not attacked, a hostile occupant within its range |
| AiEngine.ScanAttacksOrdered | backend/src/ai/aiEngine.js:59-85 | the scan lists its entries in the order of the four nested loops (attacker row, attacker column, target row, target column), so none appears twice |
| AiEngine.CompareFacts | backend/src/ai/aiEngine.js:87-93 | the comparator is antisymmetric and transitive, ties exactly on equal (kill, tower, damage) keys, and ranks kills first, then towers, then higher damage |
| AiEngine.SortFacts | backend/src/ai/aiEngine.js:87-93 | the sort returns a sorted permutation of the attack list |
| AiEngine.SortStable | backend/src/ai/aiEngine.js:87-93 | the sort is stable: attacks with equal keys keep their scan order |
| AiEngine.PossibleAttacksFacts | backend/src/ai/aiEngine.js:55-94 | the attack list is sorted and holds exactly the candidates of the rectangle, each with its estimate and kill flag |
| AiEngine.SortedHead | backend/src/ai/aiEngine.js:87-93 | the head of the sorted list is outranked by no attack, and is the first in scan order among the attacks with its key |
| AiEngine.Strongest | backend/src/ai/aiEngine.js:129-141 | a chosen card is playable |
| AiEngine.StrongestFacts | backend/src/ai/aiEngine.js:129-141 | the chosen card is playable, no playable card costs more, every earlier playable card costs strictly less, and there is none exactly when nothing is playable |
| AiEngine.EmptySlots | backend/src/ai/aiEngine.js:144-147 | every listed slot is an empty cell of the spawn row |
| AiEngine.EmptySlotsComplete | backend/src/ai/aiEngine.js:144-147 | every empty cell of the spawn row is listed |
| AiEngine.BestSummonFacts | backend/src/ai/aiEngine.js:123-159 | a summon proposal names a playable card of the highest cost, the first such in the hand, on an empty cell of the spawn row; there is none exactly when no card is playable or the row is full |
| AiEngine.ScanMovesMember | backend/src/ai/aiEngine.js:103-119 | the move list holds exactly the one-row forward steps of AI-owned occupants that have not moved to in-bounds empty cells |
| AiEngine.ScanMovesOrdered | backend/src/ai/aiEngine.js:96-121 | the move list is in row-major order of the moving cell |
| AiEngine.MoveProposal | backend/src/ai/aiEngine.js:96-121 | a move proposal is a forward step, down for player2 and up otherwise, from an AI-owned occupant that has not moved (a tower included) to an in-bounds empty cell |
| AiEngine.PickIsHead | backend/src/ai/aiEngine.js:23-33 | on a sorted list the kill and tower filters pick the head |
| AiEngine.BestMoveAttacks | backend/src/ai/aiEngine.js:13-53 | the planner attacks exactly when an attack is possible, with the head of the sorted list |
| AiEngine.BestMoveKills | backend/src/ai/aiEngine.js:22-26 | whenever some candidate attack kills, the planner proposes a killing candidate attack |
| AiEngine.BestMoveFallback | backend/src/ai/aiEngine.js:36-52 | without an attack, the planner summons when it has at least 2 energy and a summon exists, else proposes the first forward step in scan order, and ends the turn only when neither exists |
| Scenarios.OpeningTowersInScan | backend/src/handlers/matchmakingHandler.js:85-99 | of the six opening towers only player2's at (0, 1) and (0, 5) lie in the rectangle the engine and planner scan |
| Scenarios.LayoutHasNoAttacks | backend/src/ai/aiEngine.js:55-94 | on the opening layout no attack exists, because towers have no range |
| Scenarios.LayoutFirstMove | backend/src/ai/aiEngine.js:96-121 | on the opening layout the first forward step for player2 walks its tower from (0, 1) to (1, 1) |
| GameHandler.SummonAsWritten | backend/src/handlers/gameHandler.js:40-57 | on a record without a catalog, `summon_unit` throws exactly when the guards before the lookup pass; with a catalog it succeeds exactly when the summon is allowed |
| Scenarios.OpeningSummonThrows | backend/src/handlers/gameHandler.js:40-57 | on the table `confirm_match` opens, player1 summoning its first card onto (6, 0) passes every guard before the lookup and so throws |
| Scenarios.OpeningSummonWithCatalog | backend/src/handlers/gameHandler.js:40-83 | with the catalog on the record and an affordable first card, that summon is allowed, places the new unit on (6, 0), charges its cost and passes the turn |
| AiEngine.BestMoveAsWritten | backend/src/ai/aiEngine.js:13-53 | on a record without a catalog, the planner throws exactly when it reaches the catalog lookup of `getBestSummon` (no attack, energy at least 2, a non-empty hand); with a catalog it plans as `BestMove` |
| AiEngine.PlanWithoutLookup | backend/src/ai/aiEngine.js:13-53 | when the planner does not reach the lookup, every catalog gives the same plan, and the record without one gives that plan too |
| Scenarios.OpeningPlannerThrows | backend/src/ai/aiEngine.js:123-134 | on the table `confirm_match` opens, the planner playing player1 finds no attack, has 10 energy and a card in hand, so it reaches the missing catalog and throws |
| Scenarios.OpeningPlannerSummons | backend/src/ai/aiEngine.js:13-159 | with the catalog on the record and an affordable first card, the planner playing player1 at the opening proposes a summon of a playable card onto its spawn row 6 |
| Scenarios.PlannerMovesTower | backend/src/ai/aiEngine.js:13-53 | on the opening board with no affordable card, the planner for player2 proposes moving its own tower, and `move_unit` refuses that move |

## Findings

| source | as written | input that shows it | evidently intended | confidence | as-written member | corrected member |
|---|---|---|---|---|---|---|
| backend/src/handlers/matchmakingHandler.js:101-117 | the game record is filed without `cardsData`, so `game.cardsData.find` throws in `summon_unit` (gameHandler.js:56) | on the opening table, player1 summons hand card 0 onto (6, 0) | the record carries the card catalog, and the summon goes through when the card is affordable | not executed | Scenarios.OpeningSummonThrows | Scenarios.OpeningSummonWithCatalog |
| backend/src/handlers/matchmakingHandler.js:101-117 | the same record makes the planner throw at `game.cardsData.find` (aiEngine.js:133) once it looks for a summon | on the opening table, the planner plays player1: no attack exists, it has 10 energy and a non-empty hand | the planner finds the catalog and proposes an affordable summon | not executed | Scenarios.OpeningPlannerThrows | Scenarios.OpeningPlannerSummons |

## Left out

- The frontend, `backend/index.js`, socket emits and logging are not modelled. They only display or transport state.
- Randomness and clocks are parameters. The match id replaces `Date.now()`/`Math.random()`. `deck1`/`deck2` replace `shuffleDeck(DECK_IDS)`. `pick % |slots|` replaces the planner's random spawn cell.
- The contents of the card catalog are not part of this model. `confirm_match` never sets `cardsData` on the game record, so `game.cardsData.find` throws a TypeError in `summon_unit` (gameHandler.js:56) and in the planner (aiEngine.js:133). `Matchmaking.ConfirmMatch` takes the catalog as a parameter and files it on the record instead (see Findings). `Scenarios.PlannerMovesTower` assumes that catalog.
- The planner's timers, and the code that applies its plan, are not modelled. They live outside the planner.
- The `use_ability` handler and the continuation prompt are not modelled. They are not among the handlers above.
- Energy regeneration and path movement are not modelled. The handlers never perform them.
- `WEIGHTS` and `TOWER_HP` are not modelled. Nothing in the modelled code reads them.
- Reads outside the grid are not modelled as JavaScript does them. An out-of-range row reads `undefined` and indexing it throws. An out-of-range column reads `undefined` without throwing, and `undefined !== null` holds.
  - For the handlers, every out-of-grid position is a guard that refuses the action. In `move_unit`, an out-of-range column already refuses in the source; an out-of-range row throws there.
  - `AbilityTargets.ValidateTarget` requires a given target position to lie on the grid. In the source, an off-grid row throws, and an off-grid column reads `undefined`: it is rejected as "no target", or accepted for a tile ability.
  - `AbilityEngine.ExecuteActiveAbility` requires the caster cell to hold a unit and a given target position to lie on the grid. In the source, an empty caster cell throws after the energy check. A tower as caster does not throw: `abilityUsedThisTurn` reads `undefined`, so the cast goes ahead and marks the tower. That case is not modelled.
  - A missing target position for an area or self ability is the `Fault` outcome, after payment.
- Object aliasing is not modelled. The engine's target objects are cell values written back into the board. So the steps after a kill, which in the source act on a detached object, act on a value that is never written back. Only their ledger entries remain, as in the source.
- Strings, Unicode and numeric formats are not modelled. `hp` and the stats are unbounded integers; a tower's hp is an integer or `NaN`. Floating-point values other than `NaN` are not modelled.
