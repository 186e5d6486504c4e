# DinoColosseo rules engine in Dafny

This project models the turn-based rules engine of DinoColosseo, a small Unity
tactics game. It keeps the game logic of the MonoBehaviours and drops the
engine calls:

- the tile grid and its bounds-checked lookup (GridManager);
- the breadth-first movement range and the A* path search (Pathfinding);
- units that take damage, move, attack and die (DinoUnit);
- the cards and their effects (Cards);
- the draw and discard piles with reshuffle-on-empty (DeckManager);
- the player's and the AI's hands (HandManager);
- per-unit equipment slots (EquipmentManager);
- the attack/reaction protocol (ReactionManager);
- the turn logic (GameManager).

Modules follow the program's structure:

| module | what it holds |
|---|---|
| `Wrappers`, `Lists` | `Option` and the list operations the C# code uses (`List.Remove`, `RemoveAt`) |
| `Grid` | positions, Manhattan distance, 4-adjacency, the `Board` (tiles and who stands on them), walks |
| `GridManager` | `class GridManager` over an `array2` of tiles |
| `Pathfinding` | `GetTilesInRange` and `FindPath` as methods with loops over a `Board` value, and their proofs |
| `Battlefield` | `class Tile`, `class DinoUnit` and `class GameManager` (they point at each other) |
| `Cards` | `CardType`, `EquipmentType`, `class Card` with both constructors, card kinds for counting |
| `Deck` | `class DeckManager` and the Fisher–Yates shuffle as a function on sequences |
| `Equipment` | `class EquipmentManager` over a `map<DinoUnit, seq<Card>>` |
| `Combat` | `Card.PlayCard` (as `Play`), `class HandManager` and `class ReactionManager`; they call one another |

Each manager's static `Instance` is an explicit parameter, and `null` stands
for a missing instance. A destroyed Unity object compares equal to `null`, so
`Destroy(gameObject)` sets a `destroyed` flag and every `unit == null` test on
a unit reads `Gone(unit)`. The randomness is supplied by the caller:

- `Random.value < 0.33` (Protection Gem) is the boolean `gemRoll`;
- `Random.value < 0.7` (AI defence) is the boolean `defendRoll`;
- `Random.Range(i, n)` in `ShuffleDeck` reads `rolls[i]`, and `i <= rolls[i] < n` is required;
- a hand's draws take their shuffle rolls from `shuffle(n)`, for a discard pile of n cards.

The reaction timer counts whole time units.

Card conservation is carried by `DeckManager.Valid()`. Three ghost multisets
record the cards the deck was built with, the cards drawn and the cards
discarded, and the piles hold exactly the initial cards, less those drawn,
plus those discarded. The hands state in their own contracts that drawing and
discarding move cards without losing or copying any.

## Model

| member | source | states |
|---|---|---|
| `GridManager.GridManager.GenerateGrid` | Assets/Scripts/GridManager.cs:26-60 | Without a tile prefab nothing changes. Otherwise a fresh width × height array is made, every cell (x, z) holds a tile whose coordinates are (x, z) (or none when the prefab lacks the Tile script), and the grid is marked generated. |
| `GridManager.GridManager.GetTile` | Assets/Scripts/GridManager.cs:62-70 | A tile is returned only after generation and only for 0 ≤ x < width and 0 ≤ z < height. |
| `GridManager.GetTileHasCoordinates` | Assets/Scripts/GridManager.cs:36-50 | On a generated grid, GetTile(x, z) is non-null exactly when (x, z) is inside the grid (and the prefab has the script), and then the tile's coordinates are (x, z). |
| `GridManager.GeneratedTilesAreDistinct` | Assets/Scripts/GridManager.cs:34-56 | Different cells of a generated grid hold different tiles. |
| `GridManager.NoTileBeforeGeneration` | Assets/Scripts/GridManager.cs:64-65 | Before generation every lookup returns null and IsGridReady is false. |
| `GridManager.LookupHitsOnlyWhenReady` | Assets/Scripts/GridManager.cs:62-75 | IsGridReady is what a lookup needs: GetTile finds a tile only on a ready grid, and on a ready, filled grid every in-bounds lookup finds the tile of that cell (when the prefab has the Tile script). |
| `Grid.ManhattanIsMetric` | Assets/Scripts/Pathfinding.cs:130-134 | The Manhattan distance is symmetric, zero exactly on equal positions, and obeys the triangle inequality. |
| `Grid.Neighbors` | Assets/Scripts/Pathfinding.cs:136-152 | The neighbours are exactly the cells of the grid one step up, down, left or right; there are no repeats and at most four. |
| `GridManager.BoardOf` | Assets/Scripts/Pathfinding.cs:136-152 | The board of a live grid: a cell is on it exactly when GetTile returns a tile there, and occupied exactly when that tile has a unit on it. |
| `GridManager.NeighborsAreTiles` | Assets/Scripts/Pathfinding.cs:136-152 | On the live grid, the neighbours of a cell are exactly the adjacent cells for which GetTile returns a tile. |
| `Grid.AdjacentCases` | Assets/Scripts/Pathfinding.cs:141-144 | 4-adjacency is exactly the four unit offsets. |
| `Grid.WalkDistanceBound` | Assets/Scripts/Pathfinding.cs:130-134 | Along a walk, the Manhattan distance between two stops never exceeds the number of steps between them. |
| `Pathfinding.Heuristic` | Assets/Scripts/Pathfinding.cs:130-134 | The heuristic is zero exactly when the two tiles coincide. |
| `Pathfinding.HeuristicIsAdmissible` | Assets/Scripts/Pathfinding.cs:130-134 | The heuristic never exceeds the number of steps of any walk between the tiles. |
| `Pathfinding.DiscoveredIsReachable` | Assets/Scripts/Pathfinding.cs:37-46 | A tile the flood fill recorded (other than the start, and unoccupied) is reachable in 1..range steps through unoccupied tiles. |
| `Pathfinding.FloodResult` | Assets/Scripts/Pathfinding.cs:24-50 | When the queue runs empty, the listed tiles are exactly the tiles other than the start that are reachable within range. |
| `Pathfinding.RecordNeighbor` | Assets/Scripts/Pathfinding.cs:37-47 | One neighbour is handled. A seen neighbour changes nothing: distances, queue and range list are kept. An unseen one gets distance current + 1; if nobody stands on it, it is appended to both the queue and the range list, and otherwise both are kept. The flood-fill invariant is kept. |
| `Pathfinding.RecordNeighbors` | Assets/Scripts/Pathfinding.cs:32-48 | After the foreach, every neighbour of the dequeued tile has a distance at most one above it, and the invariant holds. |
| `Pathfinding.GetTilesInRange` | Assets/Scripts/Pathfinding.cs:15-53 | No tile is listed twice. The start and occupied tiles are never listed. A tile is listed exactly when a walk of 1..range steps through unoccupied tiles reaches it. A range ≤ 0 gives an empty list. |
| `Pathfinding.LowestFScore` | Assets/Scripts/Pathfinding.cs:76 | The index of the first open tile of least f-score, with int.MaxValue for an unscored tile. |
| `Pathfinding.ReconstructPath` | Assets/Scripts/Pathfinding.cs:115-128 | The path ends at `current`, starts at a tile with no predecessor, follows cameFrom at every step, and has g-score difference + 1 tiles. |
| `Pathfinding.BackPathIsWalk` | Assets/Scripts/Pathfinding.cs:115-128 | The reconstructed path is a walk from the start through unoccupied, adjacent tiles. |
| `Pathfinding.PopIsOptimal` | Assets/Scripts/Pathfinding.cs:76 | The open tile of lowest f-score has a g-score no greater than the length of any walk to it. |
| `Pathfinding.RelaxNeighbor` | Assets/Scripts/Pathfinding.cs:88-108 | One relaxation (skip an occupied non-goal or closed tile; else open it or lower its g-score and set cameFrom and f-score) keeps the search invariant. |
| `Pathfinding.Improve` | Assets/Scripts/Pathfinding.cs:106-108 | The neighbour's g-score becomes the current tile's plus one and its cameFrom the current tile; the search invariant holds and the neighbour counts as handled. |
| `Pathfinding.RelaxNeighbors` | Assets/Scripts/Pathfinding.cs:86-109 | After the foreach over the neighbours of the closed tile, the search invariant holds again. |
| `Pathfinding.GoalPathIsShortest` | Assets/Scripts/Pathfinding.cs:78-80 | When the goal is popped, the reconstructed path is a shortest walk from the start to the goal. |
| `Pathfinding.Exhausted` | Assets/Scripts/Pathfinding.cs:112 | When the open set runs empty, no walk from the start reaches the goal. |
| `Pathfinding.FindPath` | Assets/Scripts/Pathfinding.cs:56-113 | A path is returned exactly when both tiles exist, nobody stands on the goal, and some walk connects them through unoccupied tiles. A returned path is a shortest such walk. |
| `Battlefield.ActualDamage` | Assets/Scripts/DinoUnit.cs:128 | max(1, damage − defense): at least one, at least damage − defense, and equal to one of the two. |
| `Battlefield.GetDistance` | Assets/Scripts/GameManager.cs:207-211 | int.MaxValue when either tile is missing; otherwise the Manhattan distance of their coordinates. |
| `Battlefield.GetDistanceIsMetric` | Assets/Scripts/GameManager.cs:207-211 | Between tiles GetDistance is a metric, and a missing tile gives int.MaxValue either way round. |
| `Battlefield.DinoUnit.constructor` | Assets/Scripts/DinoUnit.cs:28-30 | A unit starts at full health (currentHealth == maxHealth), on no tile, with no flag set. |
| `Battlefield.DinoUnit.TakeDamage` | Assets/Scripts/DinoUnit.cs:126-137 | Health drops by exactly ActualDamage(damage, defense), without a floor. The unit dies (its tile emptied, its selection dropped) exactly when health ends ≤ 0. |
| `Battlefield.DinoUnit.Attack` | Assets/Scripts/DinoUnit.cs:139-144 | The target is struck by attackPower, and the attacker has acted. |
| `Battlefield.DinoUnit.MoveTo` | Assets/Scripts/DinoUnit.cs:146-160 | The old tile is emptied. The unit stands on the new tile, that tile points back at it, and the unit has acted. |
| `Battlefield.MoveToKeepsPlaced` | Assets/Scripts/DinoUnit.cs:146-160 | A live unit moving onto an empty tile keeps every unit↔tile back-reference consistent. |
| `Battlefield.DinoUnit.Die` | Assets/Scripts/DinoUnit.cs:162-175 | The unit is destroyed, its tile emptied, and it is deselected if it was the selection (no other selection changes). |
| `Battlefield.DinoUnit.ResetTurn` | Assets/Scripts/DinoUnit.cs:177-180 | hasActedThisTurn is cleared and nothing else changes. |
| `Battlefield.DinoUnit.OnClick` | Assets/Scripts/DinoUnit.cs:67-99 | Nothing happens outside the player's turn. An unacted player unit becomes the selection and an acted one is ignored. Neither path changes any unit or tile, and the frame allows only the selection to be written, so the game state, unit lists and hooks stay as they were. An enemy unit goes through TryAttackUnit, whose frame it inherits. |
| `Battlefield.OnTeam` | Assets/Scripts/GameManager.cs:44-50 | The units of a team: only members of the list on that team, and every one of them. |
| `Battlefield.TeamsPartition` | Assets/Scripts/GameManager.cs:38-53 | The two team lists together hold every unit exactly once. |
| `Battlefield.GameManager.FindAllUnits` | Assets/Scripts/GameManager.cs:38-53 | The player and enemy lists are the found units of each team, in scene order. |
| `Battlefield.GameManager.ResetAll` | Assets/Scripts/GameManager.cs:60-64 | Every listed unit that still exists may act again; destroyed units keep their flag. |
| `Battlefield.GameManager.StartPlayerTurn` | Assets/Scripts/GameManager.cs:55-65 | The state is PlayerTurn, and every remaining player unit may act again. Units outside the player list are untouched. |
| `Battlefield.GameManager.EndPlayerTurn` | Assets/Scripts/GameManager.cs:67-86 | The state is EnemyTurn, nothing is selected, and every remaining enemy unit may act again. |
| `Battlefield.GameManager.ExecuteEnemyTurn` | Assets/Scripts/GameManager.cs:88-107 | Enemies only gain the acted flag; player units only lose health and none comes back from death. |
| `Battlefield.GameManager.TryAttackUnit` | Assets/Scripts/GameManager.cs:170-185 | Nothing happens for a missing unit or target, the same team, an out-of-range target or an acted unit. Otherwise the target is struck by the attacker's power, the attacker has acted and keeps its other fields, and the selection is dropped. Only the selection, the attacker's acted flag, the target's health and destroyed flag and its tile's occupant may change: defending flags, hasAttacked, heal logs and the target's acted flag keep their values. |
| `Battlefield.GameManager.OnTileClicked` | Assets/Scripts/GameManager.cs:109-145 | Without a selection nothing happens. An empty tile in Manhattan move range is moved to by an unacted unit, and an enemy tile in attack range is attacked; both drop the selection and leave the selected unit's health and destroyed flag alone. After an attack the tile is empty exactly when the target died on it. A move leaves any other unit's health alone. A friendly tile selects its unit. Only the fields in the frame change. |
| `Battlefield.GameManager.SelectUnit` | Assets/Scripts/GameManager.cs:147-161 | The given unit (or none) becomes the selection. |
| `Battlefield.GameManager.DeselectUnit` | Assets/Scripts/GameManager.cs:163-168 | Nothing is selected. |
| `Battlefield.GameManager.FindNearestTarget` | Assets/Scripts/GameManager.cs:187-205 | Null exactly when no target that exists and stands on a tile is nearer than int.MaxValue. Otherwise the result is such a target of least distance, the first in list order among ties. |
| `Battlefield.GameManager.OnReactionComplete` | Assets/Scripts/ReactionManager.cs:332-335 | The call is recorded as a hook. |
| `Battlefield.GameManager.SetCardMode` | Assets/Scripts/HandManager.cs:164-165 | The call is recorded as a hook. |
| `Battlefield.GameManager.ShowChargeRange` | Assets/Scripts/HandManager.cs:179-181 | The call is recorded as a hook. |
| `Battlefield.GameManager.ClearCardMode` | Assets/Scripts/HandManager.cs:230-231 | The call is recorded as a hook. |
| `Cards.Card.constructor` | Assets/Scripts/Cards.cs:33-56 | The per-type name and description (none for an Equipment card made this way); MekaLeg as the unset equipment type; 0 uses. |
| `Cards.Card.Gear` | Assets/Scripts/Cards.cs:59-79 | The equipment's name and description, and maxUses == currentUses == 0. |
| `Cards.KindsOfSize` | Assets/Scripts/DeckManager.cs:27-69 | Counting kinds counts every card once. |
| `Cards.KindsOfAppend` | Assets/Scripts/DeckManager.cs:27-69 | The kinds of two lists joined are the kinds of each, added. |
| `Cards.KindsOfPermutation` | Assets/Scripts/DeckManager.cs:72-83 | Lists holding the same cards hold the same kinds, so a shuffle keeps the deck's composition. |
| `Deck.SwapMoves` | Assets/Scripts/DeckManager.cs:76-79 | The temp swap exchanges positions i and j and leaves every other card in place. |
| `Deck.SwapIsPermutation` | Assets/Scripts/DeckManager.cs:76-79 | A swap keeps the cards. |
| `Deck.ShuffledFromIsPermutation` | Assets/Scripts/DeckManager.cs:74-80 | Every suffix of the Fisher–Yates pass is a permutation. |
| `Deck.ShuffledIsPermutation` | Assets/Scripts/DeckManager.cs:72-83 | ShuffleDeck keeps the cards and their number. |
| `Deck.EveryOrderIsReachable` | Assets/Scripts/DeckManager.cs:72-83 | Every permutation of the deck is the result of some valid sequence of Random.Range rolls. |
| `Deck.DeckManager.constructor` | Assets/Scripts/DeckManager.cs:21-25 | After Awake the piles conserve cards, the discard pile is empty, and the deck holds InitialKinds. |
| `Deck.DeckManager.InitializeDeck` | Assets/Scripts/DeckManager.cs:27-70 | The deck holds exactly the configured number of cards of each kind, InitialSize() in all. |
| `Deck.DeckManager.AddCards` | Assets/Scripts/DeckManager.cs:30-65 | One loop of InitializeDeck adds max(count, 0) cards, all of the given kind. |
| `Deck.DeckManager.NewCard` | Assets/Scripts/DeckManager.cs:34 | The card made for a kind has that kind. |
| `Deck.InitialKindsCount` | Assets/Scripts/DeckManager.cs:9-16 | Each kind occurs as often as its count field says (none for a negative count, none for a bare Equipment card). |
| `Deck.CopiesCount` | Assets/Scripts/DeckManager.cs:30-35 | A loop of count iterations adds its kind max(count, 0) times and nothing else. |
| `Deck.KindsOfUniform` | Assets/Scripts/DeckManager.cs:30-35 | A list of cards of one kind holds that kind once per card. |
| `Deck.DeckManager.ShuffleDeck` | Assets/Scripts/DeckManager.cs:72-83 | The deck becomes Shuffled(old deck, rolls), the Fisher–Yates pass with swaps at i and rolls[i] ∈ [i, count). |
| `Deck.DeckManager.DrawCard` | Assets/Scripts/DeckManager.cs:85-109 | A non-empty deck gives its old front card and keeps the rest. An empty deck with discards first shuffles the discards into the deck and empties the pile, then draws. Two empty piles give null and change nothing. Conservation is kept and the drawn card is tallied. |
| `Deck.DeckManager.DiscardCard` | Assets/Scripts/DeckManager.cs:111-118 | A card is appended to the discard pile and tallied; null is ignored. |
| `Deck.DeckManager.GetDeckCount` | Assets/Scripts/DeckManager.cs:120-123 | The number of cards in the draw pile. |
| `Deck.DeckManager.GetDiscardCount` | Assets/Scripts/DeckManager.cs:125-128 | The number of cards in the discard pile. |
| `Deck.CardCountIsConserved` | Assets/Scripts/DeckManager.cs:85-118 | Deck count + discard count + cards drawn − cards discarded equals the initial deck size. |
| `Equipment.AnyOfType` | Assets/Scripts/EquipementManager.cs:194-195 | True exactly when some card of the list has the equipment type. |
| `Equipment.EquippedStaysBounded` | Assets/Scripts/EquipementManager.cs:67-97 | Equipping never takes a unit past the slot limit, keeps a full list full, and leaves the new card equipped. |
| `Equipment.AIEquipmentIsFIFO` | Assets/Scripts/EquipementManager.cs:76-81 | At capacity an AI unit's list loses its front card, every other card moves up one slot, and the new card is last. |
| `Equipment.PlayerEquipmentReplacesFirst` | Assets/Scripts/EquipementManager.cs:69-73 | At capacity a player unit's slot 0 is replaced and every other slot kept. |
| `Equipment.EquipmentManager.EquipCard` | Assets/Scripts/EquipementManager.cs:56-98 | The unit's list becomes Equipped(list, card): appended below capacity, slot 0 replaced for a player, FIFO for the AI. Only the player's replaced card is discarded. Every unit stays within the slot limit if it was. |
| `Equipment.EquipKeepsBounded` | Assets/Scripts/EquipementManager.cs:56-98 | EquipCard keeps every unit within the slot limit. |
| `Equipment.EquipmentManager.ReplaceEquipment` | Assets/Scripts/EquipementManager.cs:100-133 | For a known unit and a slot inside its list, only that slot changes and the old card is discarded. Otherwise nothing changes. Every unit stays within the slot limit if it was. |
| `Equipment.ReplaceKeepsBounded` | Assets/Scripts/EquipementManager.cs:100-133 | A replacement keeps every unit within the slot limit. |
| `Equipment.EquipmentManager.ShowReplacementUI` | Assets/Scripts/EquipementManager.cs:182-188 | The replacement takes slot 0, and every unit stays within the slot limit if it was. |
| `Equipment.EquipmentManager.HasEquipment` | Assets/Scripts/EquipementManager.cs:191-196 | False for an unknown unit; otherwise true exactly when some equipped card has the type. |
| `Equipment.EquipmentManager.GetEquipment` | Assets/Scripts/EquipementManager.cs:199-205 | The unit's list as a value, or an empty list for an unknown unit. |
| `Equipment.EquipmentManager.ClearEquipment` | Assets/Scripts/EquipementManager.cs:208-214 | The unit's entry is gone, and HasEquipment is false for every type. |
| `Combat.PlayAttack` | Assets/Scripts/Cards.cs:85-100 | Against an existing enemy target the attack goes through the reaction manager when there is one, and the caster has not acted yet. Without one it is a plain attack: the target is struck and deselected, the caster has acted, and the caster's hasAttacked and the target's defending flag are kept. Against any other target nothing changes. The caster's heal log, its defending flag (unless it is the target), equipment and piles stay as they were. |
| `Combat.PlayOnCaster` | Assets/Scripts/Cards.cs:102-123 | Defend sets the caster defending, Medicine appends a heal of 10, Equipment equips the card on the caster and Charge changes nothing. The card the equip replaces in a player's slot 0 is the only one discarded. No other unit, manager or reaction state changes. |
| `Combat.Play` | Assets/Scripts/Cards.cs:81-125 | Attack on an existing enemy either initiates a reaction with caster.attackPower, leaving the caster un-acted, or, without a reaction manager, is a plain attack that keeps the caster's hasAttacked and the target's defending flag; any other target changes nothing, flags included. Defend sets isDefending, Medicine records Heal(10), Charge changes nothing, and Equipment equips the card on the caster, discarding only the card it replaces in a player's slot 0. The caster keeps its defending flag on every card but Defend, and a target other than the caster keeps its own on every non-attack card. |
| `Combat.OfType` | Assets/Scripts/ReactionManager.cs:164-165 | The cards of a type: only cards of the list of that type, and all of them. |
| `Combat.FirstOfType` | Assets/Scripts/ReactionManager.cs:258 | Null exactly when no card has the type; otherwise a card of the list, of that type, with none of that type before it. |
| `Combat.FirstOfTypeHeadsOfType` | Assets/Scripts/ReactionManager.cs:258 | FirstOrDefault of a type is the head of Where of that type. |
| `Combat.DrawFrom` | Assets/Scripts/HandManager.cs:85 | A card leaves the piles exactly when they are not both empty, and it is tallied as drawn. |
| `Combat.HandManager.Initialize` | Assets/Scripts/HandManager.cs:36-65 | Without a deck, UI prefab or container nothing changes. Otherwise the player, then the AI, get the cards 4 draws give them (bounded by the hand limit and the cards left). The old hands stay as prefixes, and the hands plus the piles hold the same cards. |
| `Combat.HandManager.DrawCards` | Assets/Scripts/HandManager.cs:67-103 | Before initialisation nothing changes. Otherwise the chosen hand gains Dealt(count, room, cards left) cards at its end: at most count, never past maxHandSize, fewer only when the piles run out. The other hand is unchanged, and the hand plus the piles hold the same cards. |
| `Combat.HandManager.DrawInto` | Assets/Scripts/HandManager.cs:77-100 | The loop appends the drawn cards to the hand; their number, the piles left and the drawn tally agree, and no card is lost or copied. |
| `Combat.DrawStep` | Assets/Scripts/HandManager.cs:85-89 | One pass of the loop: when the piles hold a card it is drawn, appended to the hand and tallied, and the piles shrink by one; otherwise nothing is added. |
| `Combat.DrawingKeepsHandBounded` | Assets/Scripts/HandManager.cs:77-84 | A hand within the limit stays within it, and a draw with room and cards for all gives exactly count. |
| `Combat.Regroup` | Assets/Scripts/HandManager.cs:60-64 | Two hands drawn one after the other from the same piles keep the total of cards. |
| `Combat.HandManager.OnCardClicked` | Assets/Scripts/HandManager.cs:128-190 | Nothing changes outside the player's turn, without a selected unit, or for an Attack card on a unit that has attacked and wears no Meka Leg; the reaction and equipment managers are kept then too. Otherwise Attack and Charge enter card mode (Charge also shows its range) and become the selected card. Defend, Medicine and Equipment take their full effect on the unit at once (Played), leave the hand, and the discard pile gains exactly the replaced equipment, if any, then the card. |
| `Combat.HandManager.PlayCard` | Assets/Scripts/HandManager.cs:192-232 | Without a selected card nothing changes, including the equipment and the target's tile. Otherwise the card takes its full effect (Played, with every unit flag stated), leaves the player's hand (first occurrence), and the discard pile gains exactly the replaced equipment, if any, then the card. The selection is cleared and card mode is reset. The AI's hand is untouched. |
| `Combat.HandManager.SelectTargeting` | Assets/Scripts/HandManager.cs:156-183 | An Attack or Charge card becomes the selected card; card mode is set to its type, and Charge also shows the unit's charge range. |
| `Combat.HandManager.PlayAtOnce` | Assets/Scripts/HandManager.cs:169-188 | Defend, Medicine and Equipment are played on the selected unit at once (Played, no target), leave the hand, and the discard pile gains exactly the replaced equipment, if any, then the card; the only hook is the card-mode reset. |
| `Combat.HandManager.PlaySelected` | Assets/Scripts/HandManager.cs:200-231 | The card takes its full effect (Played, with every unit flag stated) and leaves the player's hand; the discard pile gains exactly the replaced equipment, if any, then the card; the hooks are the card's own, then the card-mode reset. |
| `Combat.HandManager.Spend` | Assets/Scripts/HandManager.cs:211-231 | The card leaves the player's hand, is discarded, the selection is cleared and card mode is reset. |
| `Combat.HandManager.AIPlayCard` | Assets/Scripts/HandManager.cs:235-261 | A null card or one not in the AI's hand changes nothing, including the equipment and the target's tile. Otherwise the card takes its full effect (Played, with every unit flag stated), leaves the AI's hand (one card fewer), and the discard pile gains exactly the replaced equipment, if any, then the card. |
| `Combat.HandManager.PlayFromAIHand` | Assets/Scripts/HandManager.cs:243-258 | A card of the AI's hand takes its full effect (Played, with every unit flag stated) and leaves the hand (one card fewer); the discard pile gains exactly the replaced equipment, if any, then the card. |
| `Combat.HandManager.Discharge` | Assets/Scripts/HandManager.cs:254-258 | The card leaves the AI's hand and is discarded; the units and managers it acted on are untouched. |
| `Combat.HandManager.GetAIHand` | Assets/Scripts/HandManager.cs:263-266 | The AI's hand as a value. |
| `Combat.HandManager.GetPlayerHand` | Assets/Scripts/HandManager.cs:286-289 | The player's hand as a value. |
| `Combat.HandManager.GetSelectedCard` | Assets/Scripts/HandManager.cs:280-283 | The selected card. |
| `Combat.HandManager.ClearHand` | Assets/Scripts/HandManager.cs:268-278 | The player's hand is empty. |
| `Combat.HandManager.RemoveCardFromHand` | Assets/Scripts/HandManager.cs:291-317 | A card in the player's hand leaves it and is discarded when there is a deck; any other card changes nothing. |
| `Combat.RemoveThenDiscardKeepsCards` | Assets/Scripts/HandManager.cs:295-309 | Taking a card out of a hand and discarding it keeps the cards of hand and pile together. |
| `Combat.DefendFromHand` | Assets/Scripts/ReactionManager.cs:229-239 | The Defend card sets the defender defending and leaves the player's hand for the discard pile. |
| `Combat.DefendTwice` | Assets/Scripts/ReactionManager.cs:272-282 | The Defend card played twice leaves the defender defending, as once would. It leaves the AI's hand and is discarded once. |
| `Combat.ReactionManager.Update` | Assets/Scripts/ReactionManager.cs:48-67 | Idle, nothing changes: no reaction field, attacker, defender or tile. While waiting the timer runs down by deltaTime, and at ≤ 0 the attack is resolved unblocked. |
| `Combat.ReactionManager.InitiateAttack` | Assets/Scripts/ReactionManager.cs:70-140 | The attack is recorded. A triggered Protection Gem sets the defender defending and resolves as blocked without waiting, with the timer untouched. Otherwise a player defender waits with a full timer and is offered exactly the Defend cards of the player's hand, and an AI defender is left to AIReactionCoroutine. Only the reaction fields it writes change. |
| `Combat.ReactionManager.GemDefend` | Assets/Scripts/ReactionManager.cs:94-107 | A Protection Gem that triggers: the defender is defending and the attack resolves as blocked. |
| `Combat.ReactionManager.ShowReactionUI` | Assets/Scripts/ReactionManager.cs:142-183 | Waiting, with the timer at reactionTimeLimit, offering the player hand's Defend cards. |
| `Combat.ReactionManager.OnDefendCardClicked` | Assets/Scripts/ReactionManager.cs:225-243 | The defender is defending, the card leaves the player's hand and is discarded, and the attack resolves as blocked. The incoming damage, the timer and the equipment are untouched. The defender keeps its heal log and its acted flag, and its hasAttacked too unless it is also the attacker. |
| `Combat.ReactionManager.OnTakeDamageClicked` | Assets/Scripts/ReactionManager.cs:246-250 | The attack resolves unblocked. |
| `Combat.ReactionManager.AIBlock` | Assets/Scripts/ReactionManager.cs:268-285 | The defending branch of the AI reaction: the given Defend card leaves the AI's hand for the discard pile, the defender is defending, and the attack resolves as blocked. The defender keeps its heal log and its acted flag, and its hasAttacked too unless it is also the attacker. |
| `Combat.ReactionManager.AIReactionCoroutine` | Assets/Scripts/ReactionManager.cs:252-291 | The AI defends exactly when it holds a Defend card, the damage exceeds 15 and the roll succeeds. Then its first Defend card leaves its hand for the discard pile and the attack resolves as blocked. Otherwise hand and piles are untouched and the attack resolves unblocked. The incoming damage, the timer and the equipment are untouched. The defender keeps its heal log and its acted flag, and its hasAttacked too unless it is also the attacker. |
| `Combat.ReactionManager.ResolveAttack` | Assets/Scripts/ReactionManager.cs:293-336 | Waiting ends and nothing is offered. TakeDamage(incomingDamage) happens only when unblocked. The attacker has attacked unless it wears a Meka Leg. The game manager is notified. |
| `Combat.ReactionManager.IsWaitingForReaction` | Assets/Scripts/ReactionManager.cs:340-343 | Whether a reaction is pending; false after any resolution (ResolveAttack). |

## Left out

- Rendering, UI widgets and their lists are left out: highlights, colours, health bars, `CardUI`, `cardUIList`, `reactionCardUIs`, `LastCardDisplay`, `Debug.Log`. `defendOptions` stands for the offered Defend cards, whether or not a card button prefab is set.
- Unity lifecycle is left out (`Awake`, `Start`, `Invoke` delays and the retry of `HandManager.Initialize`, `WaitForSeconds`). The delayed `ExecuteEnemyTurn` and `StartPlayerTurn` and the coroutine `AIReactionCoroutine` are separate methods the caller runs next.
- `SnapToTile` and `FindNearestTile` are left out (float positions rounded to tiles), as are `InitializePlayerEquipmentUI`, `UpdatePlayerEquipmentUI`, `ApplyEquipmentEffect` and `RemoveEquipmentEffect` (log-only).
- The input scripts are left out; their result is a call to `OnClick`, `OnTileClicked`, `OnCardClicked`, `OnDefendCardClicked` or `OnTakeDamageClicked`.
- The probability distribution of `Random.value` and `Random.Range` is left out; the rolls are parameters. A boolean roll is passed even where the source draws no number (no Protection Gem), and it is then ignored.
- Time is counted in whole units instead of float seconds.
- C# `int` overflow is not modelled: health, damage and distances are unbounded integers. Only int.MaxValue as a sentinel is kept.
- `Heal`, `isDefending` and `hasAttacked` are not in DinoUnit.cs; they are plain fields, and `Heal` only records its amount. `OnReactionComplete`, `SetCardMode`, `ShowChargeRange` and `ClearCardMode` are not in GameManager.cs; they only record the call.
- `isDefending` is never read by `TakeDamage`, and a blocked attack skips `TakeDamage`, so the flag is never consumed. The model keeps this as written.
- `Destroy(gameObject)` takes effect at once (the `destroyed` flag), where Unity destroys the object at the end of the frame.
- `Battlefield.DinoUnit.TakeDamage`: no health floor, as written (health may go below zero).
- `Battlefield.GameManager.ExecuteEnemyTurn`: a player unit killed during the turn is destroyed at once, so `FindNearestTarget` (GameManager.cs:195) never picks it for a later enemy. In Unity the object stays non-null until the frame ends, and the next enemy may still choose it and strike the corpse. The contract states only what every enemy turn keeps (monotone health, acted flags and deaths); each attack is the `Attack` contract.
- `Battlefield.GameManager.OnTileClicked`: moves use the Manhattan move range, as written; pathfinding-driven and Charge moves are not in GameManager.cs.
- `Equipment.EquipmentManager.EquipCard`: an AI unit at capacity drops its front card, which goes to no pile, as written. `ClearEquipment` and `ClearHand` drop their cards the same way, so conservation holds for the piles and the hands only while these are not called.
- `Equipment.EquipmentManager.constructor` requires at least one slot; `Equipped` is stated for `maxEquipmentSlots >= 1` (a limit of 0 would index an empty list).
- `GridManager.GridManager.GenerateGrid` requires non-negative dimensions (a negative array size throws in C#).
- `Combat.Play`: an Equipment card played from the player's hand is equipped and also discarded by `HandManager.PlayCard`, as written.
- `Combat.ReactionManager.AIReactionCoroutine`: the AI's Defend card is played twice (once directly, once through `AIPlayCard`), as written. A Defend card only sets `isDefending`, so the second play changes nothing more; the managers passed to those plays are `null`, as a Defend card reads none of them.
- `Combat.HandManager.DrawCards`, `OnCardClicked`, `PlayCard`, `AIPlayCard`, `AIReactionCoroutine`, `OnDefendCardClicked`, `ResolveAttack` and `OnTakeDamageClicked` require the managers and units they dereference without a check: a deck wherever a card is drawn or discarded (HandManager.cs:85, 222, 258), `GameManager.Instance` in `OnCardClicked` and `PlayCard` (HandManager.cs:132, 231), a non-null hand manager in `OnDefendCardClicked` (ReactionManager.cs:239), and an attacker and defender in `ResolveAttack` and `OnTakeDamageClicked` (ReactionManager.cs:307-323). The NullReferenceException the source throws there is not modelled.
