# Temporal Paradox: the exploration and puzzle-gating engine

A Dafny model of the game logic of *Temporal Paradox*, a turn-based Java text
adventure:

- The player walks a 10x10 mansion grid holding ten fixed rooms.
- The player collects whitelisted items into a ten-slot inventory.
- Four rooms (indices 0, 3, 5 and 8) hold puzzles that must be solved in that
  order. The player cannot leave such a room while its puzzle is unsolved.
- Each puzzle needs two items. A correct answer swaps one item for a reward
  and adds ten points.
- The game is won when all four puzzles are solved and the four rewards are
  held.

The Java objects become immutable values:

- A `GameState` holds the position, the per-room visited and solved flags, the
  items held, the score and the running flag.
- Every handler is a pure function from a state (plus the typed argument and
  any reply to a prompt) to the next state and an outcome value.
- An outcome value stands for the message the game would print.

| file | module | models |
|---|---|---|
| `common.dfy` | `Common` | `Option`, the item type, a 0/1 tally |
| `text.dfy` | `Text` | `String.trim`, `toUpperCase` and `toLowerCase` |
| `grid.dfy` | `Grid` | `Position`, direction deltas, the bounds check |
| `catalog.dfy` | `Catalog` | the room and feature tables, room lookup, the collectible whitelist |
| `bag.dfy` | `Bag` | `Inventory.java`: array and size, with reference definitions on the item sequence |
| `scoring.dfy` | `Scoring` | `Score.java` |
| `puzzles.dfy` | `Puzzles` | the puzzle order, `canAttemptPuzzle`, the four puzzle definitions, answer normalisation |
| `game.dfy` | `Game` | the game state and the handlers: `handleMove`, `checkForPuzzle`, the four `present*Puzzle` methods, `checkWinCondition`, `handleLookAt`, `handleCollectItem`, the command split, `processCommand`, `gameLoop` |
| `invariant.dfy` | `GameInvariant` | what every reachable state keeps |
| `scenarios.dfy` | `Scenarios` | concrete plays: reaching the Library, the keycard puzzle, the winning sundial answer |

How the pieces fit:

- **Inventory.** `Bag.Inventory` keeps the Java representation: ten optional
  slots and `currentSize`.
  - `HasItem`, `RemoveItem` and `ShiftLeft` are loops over those slots.
  - Their contracts are stated against `Common.IndexOf`, `Bag.RemoveFirst` and
    `Bag.AddBounded`, three definitions on the sequence of held items.
  - The game state holds that sequence directly.
- **Puzzles.** The four `present*Puzzle` methods differ only in data, so one
  `Game.PresentPuzzle` runs over a `Puzzles.PuzzleDef` table. The one
  behavioural difference is kept as a flag: the keycard puzzle checks for a
  win only after a correct answer, while the other three check after any
  answer.

Source behaviours the model keeps as they are written:

- `handleMove` checks the exit lock before the bounds check.
- An unknown direction is refused with the message about the mansion's
  boundaries (`InvalidDirection`), while a real direction whose target is off
  the grid gets the plain refusal (`OutOfBounds`).
- The starting cell (3,5) holds no room, so the player starts in empty space.
  The Library pre-load of the research manual in `initialisePuzzles` can
  therefore never fire (`Catalog.StartIsEmptySpace`, `Game.NewGame`).
- Collecting never removes a feature from its room, so an item can be
  collected again.
- Collecting into a full inventory prints the inventory-full message and then
  still reports the item as collected, but stores nothing:
  `Collected(stored := false)`.
- A gated room entered before its turn in the chain (the Workshop, room 3,
  while the keycard puzzle is unsolved, say) traps the player: its exit stays
  locked until its puzzle is solved, and the chain check refuses every attempt
  at that puzzle, so no move and no look changes the state; only `quit` ends
  the session (`GameInvariant.OutOfTurnRoomTrapsPlayer`).
- A wrong answer to the circuit, recipe or sundial puzzle still runs the win
  check, and its result is kept in `WrongAnswer(won)`.
  `GameInvariant.WrongAnswerChangesNothing` proves that check can never
  succeed in a valid state.

## Model

| member | source | states |
|---|---|---|
| Common.IndexOf | TextBasedGame/src/Inventory.java:20-28 | the first index holding the item, or -1 exactly when it is absent; no earlier index holds it |
| Bag.RemoveFirst | TextBasedGame/src/Inventory.java:30-42 | an absent item leaves the sequence unchanged; a present one shortens it by exactly one |
| Bag.RemoveFirstSplice | TextBasedGame/src/Inventory.java:35-39 | removal cuts out exactly the first occurrence: the items before it, then the items after it |
| Bag.RemoveFirstMultiset | TextBasedGame/src/Inventory.java:30-39 | removal takes exactly one copy of the item out of the bag and nothing else |
| Bag.RemoveFirstKeepsOrder | TextBasedGame/src/Inventory.java:35-37 | the items before the removed one stay in place, and each later item moves one slot left |
| Bag.AddBoundedThenFind | TextBasedGame/src/Inventory.java:10-28 | adding below capacity puts exactly one more copy of the item in the bag; a lookup afterwards finds the earlier copy if there was one and otherwise the new tail slot; removing an item that was just added to a bag without it gives back the old contents |
| Bag.NewInventory | TextBasedGame/src/Inventory.java:6-9 | a new inventory satisfies the slot invariant and holds nothing |
| Bag.AddItem | TextBasedGame/src/Inventory.java:10-19 | the slot invariant is kept; below capacity the item lands in slot `currentSize`, the size grows by one and no other slot changes; a full inventory is returned unchanged; the held items are the reference append |
| Bag.HasItem | TextBasedGame/src/Inventory.java:20-29 | the scan returns the least slot holding the item, or -1 exactly when no slot holds it |
| Bag.RemoveItem | TextBasedGame/src/Inventory.java:30-42 | an absent item leaves the inventory unchanged; otherwise the size drops by one, the slot invariant holds (slots at and past the size are null), and the held items are the reference first-occurrence removal |
| Bag.ShiftLeft | TextBasedGame/src/Inventory.java:35-39 | slots before the removed position are untouched, later slots move one left, and every slot from the new size on is null |
| Bag.ShiftLeftRemoves | TextBasedGame/src/Inventory.java:35-39 | the shifted slots hold the old contents with the removed position spliced out |
| Scoring.NewScore | TextBasedGame/src/Score.java:7-12 | whatever starting score is passed, a new score reports 0 with no rooms or puzzles counted |
| Scoring.VisitRoom | TextBasedGame/src/Score.java:13-17 | one more room is counted and the reported score does not change |
| Scoring.SolvePuzzle | TextBasedGame/src/Score.java:19-22 | one more puzzle is counted and the reported score rises by exactly 10 |
| Scoring.ScoreIsPuzzleReward | TextBasedGame/src/Score.java:24-27 | the reported score is ten times the puzzles solved and never negative |
| Text.Trim | TextBasedGame/src/Game.java:271 | the result is a slice of the input that neither starts nor ends with a character up to U+0020, and everything cut off on both sides is such a character |
| Text.TrimPadded | TextBasedGame/src/Game.java:271 | trimming a text whose two ends are not blank, padded on both sides by blanks, gives back exactly that text |
| Text.TrimIdempotent | TextBasedGame/src/Game.java:50 | trimming an already trimmed line changes nothing |
| Text.ToUpper | TextBasedGame/src/Game.java:302 | same length, each letter a-z is replaced by its capital and every other character is kept, so no lower-case ASCII letter remains |
| Text.ToLower | TextBasedGame/src/Game.java:705 | same length, each letter A-Z is replaced by its small letter and every other character is kept, so no capital ASCII letter remains |
| Grid.CalculateNewPosition | TextBasedGame/src/Game.java:194-206 | north gives y-1, south y+1, east x+1, west x-1, with no bounds check; any other token gives no position |
| Grid.MoveIsOneStep | TextBasedGame/src/Game.java:196-200 | every direction moves exactly one cell along exactly one axis |
| Grid.MoveThenOpposite | TextBasedGame/src/Game.java:194-206 | a move followed by the opposite move returns to the starting cell |
| Catalog.RoomsDistinctAndInBounds | TextBasedGame/src/Game.java:211-221 | the ten rooms sit on pairwise distinct cells, all inside the 10x10 grid |
| Catalog.RoomAtPosition | TextBasedGame/src/Game.java:608-616 | a room is returned only if it stands on the cell; none is returned exactly when no room stands there |
| Catalog.RoomIndex | TextBasedGame/src/Game.java:618-625 | the index of the room in the table, or -1 exactly when it is not in the table |
| Catalog.RoomIndexAt | TextBasedGame/src/Game.java:125-127 | the room lookup followed by the index lookup gives the index of a room standing on the cell, or nothing exactly when the cell is empty |
| Catalog.RoomLookupUnique | TextBasedGame/src/Game.java:608-616 | the lookup on a cell gives room k if and only if room k stands on that cell |
| Catalog.StartIsEmptySpace | TextBasedGame/src/Game.java:6 | no room stands on the starting cell (3,5) |
| Puzzles.GatedRoomsAreTheChain | TextBasedGame/src/Game.java:378-380 | a room's exit is locked by a puzzle exactly when the room is in the puzzle order |
| Puzzles.ChainPosition | TextBasedGame/src/Game.java:384-391 | the room's position in the puzzle order, or -1 exactly when it is not in the order |
| Puzzles.EarlierSolvedFrom | TextBasedGame/src/Game.java:394-398 | the second loop succeeds exactly when every scanned chain entry is solved |
| Puzzles.CanAttemptPuzzle | TextBasedGame/src/Game.java:382-401 | holds exactly when the room is in the puzzle order and every earlier entry is solved |
| Puzzles.SolvingKeepsChainOrdered | TextBasedGame/src/Game.java:435-460 | a puzzle solved after the chain check leaves every solved entry with all earlier entries solved |
| Puzzles.PuzzleFor | TextBasedGame/src/Game.java:462-523 | exactly the four gated rooms have a puzzle, triggered by one of the room's features; it uses up one whitelisted item and produces a different whitelisted one |
| Puzzles.RewardsUnlockTheNextPuzzle | TextBasedGame/src/Game.java:464-523 | each puzzle's reward is the item the next puzzle in the order asks for first |
| Puzzles.KeypadAnswerIsTrimmed | TextBasedGame/src/Game.java:271-273 | for any blank padding before and after, the keypad accepts its code 1234 and rejects 12 34, since only the ends are trimmed |
| Puzzles.CircuitAnswerIgnoresCase | TextBasedGame/src/Game.java:302-304 | every spelling whose capitals are POWER is accepted, with any blank padding before and after |
| Puzzles.SundialAnswerIsExact | TextBasedGame/src/Game.java:362-364 | the sundial accepts 12:00 with any blank padding before and after, and rejects 12:00 followed by anything that holds a non-blank character |
| Game.CountOfChainFlags | TextBasedGame/src/Game.java:566-572 | when only gated rooms are flagged, the count of flags is the count of flagged chain rooms |
| Game.NewGame | TextBasedGame/src/Game.java:20-37 | a new game starts running at (3,5), with nothing visited or solved, score 0 and an empty inventory |
| Game.HandleMove | TextBasedGame/src/Game.java:113-160 | exactly one refusal each for an empty token, an unknown token, a locked exit (checked before the bounds) and a target off the grid, and then nothing changes; otherwise the player moves to the computed neighbour; entering a room flags it visited, counts a visit only the first time and reports a pending puzzle exactly for an unsolved gated room; no move changes flags, items or score |
| Game.ApplySolution | TextBasedGame/src/Game.java:273-278 | the room's flag is set, the consumed item is removed (its first occurrence) and the reward appended, so the inventory size is unchanged, and the score rises by 10 |
| Game.PresentPuzzle | TextBasedGame/src/Game.java:255-376 | without the consumed item it asks for that item, and then for the key item, changing nothing; solved exactly when both are held and the normalised answer matches; wrong exactly when both are held and the answer does not match; a solution applies the swap and stops the game exactly when the win condition then holds; a wrong answer changes nothing except that a win found by the after-answer check (never for the keypad) is reported and stops the game |
| Game.CheckForPuzzle | TextBasedGame/src/Game.java:426-524 | an already solved room changes nothing; a room the chain does not allow changes nothing and names the room's key item only when it is missing; in an allowed room any other feature is ignored, and the trigger asks for the key item, then for the consumed item, and only with both held presents the puzzle; only a solution changes flags, items or score, no solved flag is ever cleared, and the game stops exactly on a reported win |
| Game.CheckTrigger | TextBasedGame/src/Game.java:463-523 | for a room the chain allows, any feature but the room's trigger is ignored; the trigger asks for the key item, then the consumed item, and with both held presents the puzzle; only an answered puzzle can change the state, and the game stops exactly on a reported win |
| Game.HandleLook | TextBasedGame/src/Game.java:162-192 | an empty target describes the room and an empty cell has nothing to look at; a feature of the current room is described, and for a trigger feature the outcome and state are exactly those of the puzzle check, while any other feature changes nothing; a target that is not a feature is described as an item exactly when it is held, and is otherwise not seen; the game stops only on a puzzle win |
| Game.HandleCollectItem | TextBasedGame/src/Game.java:639-659 | only the inventory can change; an empty cell has nothing to collect; in a room, collection succeeds exactly when the item is a feature of the room and on the whitelist, and is otherwise refused; it is appended exactly when there is room, and otherwise nothing changes |
| Game.SplitCommand | TextBasedGame/src/Game.java:63-70 | the command word has no space; with a space in the input, word, space and argument rebuild the input; without one the argument is empty; an empty word means an empty input or a leading space |
| Game.SplitCommandRoundTrip | TextBasedGame/src/Game.java:63-70 | a space-free command word joined to an argument by one space splits back into the same two |
| Game.ReadCommand | TextBasedGame/src/Game.java:50-70 | the command word is empty exactly when the lower-cased, trimmed line is empty and never holds a space; when that line has a space, word, space and argument rebuild it, and otherwise the word is the whole line |
| Game.HandleQuit | TextBasedGame/src/Game.java:703-710 | the game stops exactly when the lower-cased, trimmed reply is `yes`, and nothing else changes |
| Game.ProcessCommand | TextBasedGame/src/Game.java:57-111 | an empty line asks for a command; each of the nine command words goes to its own handler with the argument, and any other word is unknown; only move, look, collect and quit can change the state; the game stops only on a confirmed quit or a puzzle win reported by look; no command clears a solved flag, lowers the score or restarts a stopped game; `score` reports the current score |
| GameInvariant.NewGameSatisfiesInvariant | TextBasedGame/src/Game.java:20-37 | a new game satisfies the invariant: on the grid, only gated rooms solved, chain order kept, both counts match the flags |
| GameInvariant.ScoreCountsSolvedPuzzles | TextBasedGame/src/Score.java:24-27 | in every valid state the score is ten per solved chain puzzle, between 0 and 40 |
| GameInvariant.WinConditionIff | TextBasedGame/src/Game.java:565-580 | the win check holds if and only if every puzzle in the order is solved and every terminal item is held |
| GameInvariant.ChainSolvedIff | TextBasedGame/src/Game.java:16 | rooms 0, 3, 5 and 8 all solved is the same as every entry of the puzzle order solved |
| GameInvariant.TerminalItemsHeldIff | TextBasedGame/src/Game.java:574-577 | the four `hasItem` checks succeed exactly when every terminal item is held |
| GameInvariant.UnsolvedPuzzleBlocksWin | TextBasedGame/src/Game.java:565-580 | with any chain puzzle unsolved the game is not won, whatever is held |
| GameInvariant.MovePreservesInvariant | TextBasedGame/src/Game.java:113-160 | every move keeps the invariant, in particular the visited count and the position on the grid |
| GameInvariant.PresentPuzzlePreservesInvariant | TextBasedGame/src/Game.java:255-376 | a puzzle presented in a room the chain allows keeps the invariant |
| GameInvariant.LookPreservesInvariant | TextBasedGame/src/Game.java:170-192 | looking at anything keeps the invariant |
| GameInvariant.StepPreservesInvariant | TextBasedGame/src/Game.java:57-111 | every command keeps the invariant |
| GameInvariant.RunPreservesInvariant | TextBasedGame/src/Game.java:48-52 | any sequence of commands keeps the invariant |
| GameInvariant.ReachableStatesKeepTheChain | TextBasedGame/src/Game.java:382-401 | in every state reachable from a new game, a solved chain puzzle has every earlier one solved, the score is ten per solved flag, at most ten items are held and the player is on the grid |
| GameInvariant.RunIsMonotone | TextBasedGame/src/Game.java:48-52 | over any sequence of commands no solved flag is cleared and the score never drops |
| GameInvariant.WrongAnswerChangesNothing | TextBasedGame/src/Game.java:304-315 | a wrong answer leaves the whole state unchanged and reports no win, since the win check that follows it cannot succeed |
| GameInvariant.MoveThenOppositeReturns | TextBasedGame/src/Game.java:113-160 | a move and the opposite move return to the starting cell, unless the room reached locks its exit |
| GameInvariant.OutOfTurnRoomTrapsPlayer | TextBasedGame/src/Game.java:125-131 | in a gated room whose puzzle is unsolved and not yet allowed by the chain, every move and every look leaves the state unchanged |
| Scenarios.FirstStepNorth | TextBasedGame/src/Game.java:134-156 | from the start, north reaches (3,4) with the game still running and nothing held |
| Scenarios.SecondStepNorth | TextBasedGame/src/Game.java:125-156 | from the First Bedroom, which has no puzzle, north reaches the Library cell (3,3) |
| Scenarios.CollectInLibrary | TextBasedGame/src/Game.java:639-654 | in the Library with nothing held, collecting the research manual stores exactly it |
| Scenarios.CollectManualInLibrary | TextBasedGame/src/Game.java:39-54 | north, north, collect research_manual from a new game leaves exactly the manual in the inventory |
| Scenarios.KeycardNeededFirst | TextBasedGame/src/Game.java:464-476 | in the laboratory with the manual but no keycard, looking at the keycard asks for the keycard and changes nothing |
| Scenarios.KeycardPuzzleSolved | TextBasedGame/src/Game.java:255-285 | with the manual and the keycard, the code 1234 solves the first puzzle without winning, swaps the broken keycard for the repaired one and adds 10 |
| Scenarios.SolutionKeepsOtherItems | TextBasedGame/src/Inventory.java:30-42 | a solution keeps every held item other than the consumed one and adds the reward |
| Scenarios.SundialSolutionMeetsWinCondition | TextBasedGame/src/Game.java:364-372 | with the other three puzzles solved and their rewards held, solving the sundial meets the win condition at 40 points |
| Scenarios.SundialUnlocked | TextBasedGame/src/Game.java:382-401 | with rooms 0, 3 and 5 solved the sundial may be attempted |
| Scenarios.SundialAnswerWins | TextBasedGame/src/Game.java:347-376 | in that situation the answer 12:00 solves the sundial and wins |
| Scenarios.SundialWinsTheGame | TextBasedGame/src/Game.java:582-606 | in the Garden in that situation, looking at the sundial and answering 12:00 wins, stops the game and leaves the score at 40 |

## Left out

- `Map.java`: the ASCII map and its legend are presentation only. The `map` command is an outcome with no state change.
- Console output: every printed message becomes an outcome value. This includes the "circuits remain dark" line, which the circuit puzzle prints even after a correct answer when the game is not yet won.
- Recipe wrong answer: a wrong answer to the recipe puzzle prints nothing in the source, yet the model reports it as a `WrongAnswer` outcome like the other wrong answers, so that every answered puzzle has an outcome.
- Console input: the line after a command (a puzzle answer or the quit confirmation) is the `reply` field of `Game.Command`. The game reads that line only when it asks, and the model reads the field only in the same cases.
- Narrative and static text: the intro, help, feature and item descriptions, room descriptions, the `displayInventory` layout, and the `presentRoomPuzzle` hints. The hint is the `puzzlePending` flag of a move into a room.
- `displayCurrentObjective`: the `hint` command prints advice and changes nothing, so it is an outcome with no state change and its prose is not modelled.
- Text.ToUpper, Text.ToLower: like `toUpperCase` and `toLowerCase` they convert the ASCII letters, but only those; the rest of Unicode's case mappings is not modelled. `trim` is modelled exactly.
- `getScore` returns a `double` in the source; it is always an integer and is modelled as `int`.
- Integer widths: every counter stays below 11 and every coordinate stays between -1 and 10, so Java's 32-bit arithmetic never wraps and unbounded integers model it exactly.
- The two inventory views: the game state holds the inventory as the sequence of held items. The array form and its loops are in `Bag`, and are linked to that sequence by the contracts of `Bag.AddItem`, `Bag.HasItem` and `Bag.RemoveItem`.
- Game.Run: a session is a finite list of commands, processed until the list ends or the game stops. The endless input of the console loop is not modelled, and the properties of a session are stated by `GameInvariant.RunPreservesInvariant`, `GameInvariant.ReachableStatesKeepTheChain` and `GameInvariant.RunIsMonotone`, not by `Run`'s own contract.
