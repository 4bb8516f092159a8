/**
 * The game session (Game.java): an immutable state threaded through one turn
 * at a time. Every handler returns the next state together with an outcome
 * value standing for the message the game would print.
 */
module Game {
  import opened Common
  import opened Text
  import opened Grid
  import opened Catalog
  import opened Puzzles
  import Bag
  import Scoring

  /** Position, the per-room `roomsVisited` and `solvedPuzzles` flags, the items
      held (the inventory's live slots), the score and `isRunning`. */
  datatype GameState = GameState(
    position: Position,
    visited: seq<bool>,
    solved: seq<bool>,
    inventory: seq<Item>,
    score: Scoring.Score,
    running: bool)

  /** The result of one handler: the next state and what happened. */
  datatype Turn<O> = Turn(state: GameState, outcome: O)

  /** The shape every state has: one flag per room, at most ten items, a valid score. */
  predicate WellFormed(s: GameState)
  {
    && |s.visited| == RoomCount
    && |s.solved| == RoomCount
    && |s.inventory| <= Bag.MaxItems
    && Scoring.Valid(s.score)
  }

  /** `inventory.hasItem(item) != -1`. */
  predicate Holds(s: GameState, item: Item)
  {
    IndexOf(s.inventory, item) != -1
  }

  // ---------------------------------------------------------------------
  // Counting flags
  // ---------------------------------------------------------------------

  /** How many of `flags[i..]` are set. */
  function CountTrueFrom(flags: seq<bool>, i: nat): nat
    requires i <= |flags|
    decreases |flags| - i
  {
    if i == |flags| then 0 else Tally(flags[i]) + CountTrueFrom(flags, i + 1)
  }

  function CountTrue(flags: seq<bool>): nat
  {
    CountTrueFrom(flags, 0)
  }

  lemma {:induction false} CountTrueFromSet(flags: seq<bool>, k: nat, i: nat)
    requires i <= |flags| && k < |flags|
    ensures CountTrueFrom(flags[k := true], i)
            == CountTrueFrom(flags, i) + (if i <= k && !flags[k] then 1 else 0)
    decreases |flags| - i
  {
    if i < |flags| {
      CountTrueFromSet(flags, k, i + 1);
    }
  }

  /** Setting a flag raises the count by one exactly when it was clear. */
  lemma CountTrueSet(flags: seq<bool>, k: nat)
    requires k < |flags|
    ensures CountTrue(flags[k := true]) == CountTrue(flags) + Tally(!flags[k])
  {
    CountTrueFromSet(flags, k, 0);
  }

  /** When only the chain's rooms can be flagged, the count is the number of
      chain rooms flagged. */
  lemma CountOfChainFlags(flags: seq<bool>)
    requires |flags| == RoomCount
    requires forall i :: 0 <= i < RoomCount && flags[i] ==> ShouldRequirePuzzle(i)
    ensures CountTrue(flags) == Tally(flags[0]) + Tally(flags[3]) + Tally(flags[5]) + Tally(flags[8])
  {
    assert CountTrueFrom(flags, 9) == Tally(flags[9]) + CountTrueFrom(flags, 10);
    assert CountTrueFrom(flags, 8) == Tally(flags[8]) + CountTrueFrom(flags, 9);
    assert CountTrueFrom(flags, 7) == Tally(flags[7]) + CountTrueFrom(flags, 8);
    assert CountTrueFrom(flags, 6) == Tally(flags[6]) + CountTrueFrom(flags, 7);
    assert CountTrueFrom(flags, 5) == Tally(flags[5]) + CountTrueFrom(flags, 6);
    assert CountTrueFrom(flags, 4) == Tally(flags[4]) + CountTrueFrom(flags, 5);
    assert CountTrueFrom(flags, 3) == Tally(flags[3]) + CountTrueFrom(flags, 4);
    assert CountTrueFrom(flags, 2) == Tally(flags[2]) + CountTrueFrom(flags, 3);
    assert CountTrueFrom(flags, 1) == Tally(flags[1]) + CountTrueFrom(flags, 2);
    assert CountTrueFrom(flags, 0) == Tally(flags[0]) + CountTrueFrom(flags, 1);
    assert !flags[1] && !flags[2] && !flags[4] && !flags[6] && !flags[7] && !flags[9];
  }

  // ---------------------------------------------------------------------
  // Start of a game and the win condition
  // ---------------------------------------------------------------------

  /** One clear flag per room. */
  const NoFlags: seq<bool> := [false, false, false, false, false, false, false, false, false, false]

  /** The items whose joint possession, with all four puzzles solved, wins. */
  const TerminalItems: seq<Item> := ["repaired_keycard", "power_module", "temporal_essence", "time_shard"]

  /** The constructor with `initialisePuzzles`: nothing visited or solved, score
      0, and the manual pre-loaded only if the start cell is the Library. */
  function NewGame(): (s: GameState)
    ensures WellFormed(s) && s.running
    ensures s.position == StartingPosition && IsValidPosition(s.position)
    ensures forall i :: 0 <= i < RoomCount ==> !s.visited[i] && !s.solved[i]
    ensures Scoring.GetScore(s.score) == 0
    ensures s.inventory == []
  {
    var base := GameState(StartingPosition, NoFlags, NoFlags, [], Scoring.NewScore(0), true);
    match RoomIndexAt(StartingPosition)
    case Some(1) => base.(inventory := Bag.AddBounded(base.inventory, "research_manual"))
    case _ => base
  }

  /** `checkWinCondition`: exactly four solved flags and all four terminal items held. */
  predicate CheckWinCondition(s: GameState)
    requires WellFormed(s)
  {
    && CountTrue(s.solved) == 4
    && Holds(s, "repaired_keycard")
    && Holds(s, "power_module")
    && Holds(s, "temporal_essence")
    && Holds(s, "time_shard")
  }

  // ---------------------------------------------------------------------
  // Movement
  // ---------------------------------------------------------------------

  datatype MoveOutcome =
    | NoDirection
    | InvalidDirection   // printed as "beyond the mansion's boundaries"
    | ExitBlocked
    | OutOfBounds
    | MovedToEmpty
    | MovedIntoRoom(room: nat, firstVisit: bool, puzzlePending: bool)
  {
    predicate Moved() { MovedToEmpty? || MovedIntoRoom? }
  }

  /** The player stands in a gated room whose puzzle is unsolved. */
  predicate ExitLocked(s: GameState)
    requires WellFormed(s)
  {
    match RoomIndexAt(s.position)
    case None => false
    case Some(i) => ShouldRequirePuzzle(i) && !s.solved[i]
  }

  /** `handleMove`. The checks run in the source's order: empty token, unknown
      token, exit lock, and only then the bounds. */
  function HandleMove(s: GameState, direction: string): (r: Turn<MoveOutcome>)
    requires WellFormed(s)
    ensures WellFormed(r.state)
    ensures r.state.solved == s.solved && r.state.inventory == s.inventory
    ensures r.state.running == s.running && r.state.score.puzzlesSolved == s.score.puzzlesSolved
    ensures Scoring.GetScore(r.state.score) == Scoring.GetScore(s.score)
    ensures r.outcome == NoDirection <==> direction == ""
    ensures r.outcome == InvalidDirection <==> direction != "" && !IsDirection(direction)
    ensures r.outcome == ExitBlocked <==> IsDirection(direction) && ExitLocked(s)
    ensures r.outcome == OutOfBounds <==>
              IsDirection(direction) && !ExitLocked(s)
              && !IsValidPosition(CalculateNewPosition(s.position, direction).value)
    ensures !r.outcome.Moved() ==> r.state == s
    ensures r.outcome.Moved() ==>
              && Some(r.state.position) == CalculateNewPosition(s.position, direction)
              && IsValidPosition(r.state.position)
    ensures r.outcome.MovedToEmpty? ==>
              RoomIndexAt(r.state.position) == None && r.state.visited == s.visited
              && r.state.score == s.score
    ensures r.outcome.MovedIntoRoom? ==>
              && RoomIndexAt(r.state.position) == Some(r.outcome.room)
              && r.state.visited == s.visited[r.outcome.room := true]
              && r.outcome.firstVisit == !s.visited[r.outcome.room]
              && r.state.score.roomsVisited == s.score.roomsVisited + Tally(r.outcome.firstVisit)
              && r.outcome.puzzlePending == (ShouldRequirePuzzle(r.outcome.room) && !s.solved[r.outcome.room])
  {
    if direction == "" then Turn(s, NoDirection)
    else
      match CalculateNewPosition(s.position, direction)
      case None => Turn(s, InvalidDirection)
      case Some(next) =>
        if ExitLocked(s) then Turn(s, ExitBlocked)
        else if !IsValidPosition(next) then Turn(s, OutOfBounds)
        else
          match RoomIndexAt(next)
          case None => Turn(s.(position := next), MovedToEmpty)
          case Some(i) =>
            var first := !s.visited[i];
            var score := if first then Scoring.VisitRoom(s.score) else s.score;
            Turn(s.(position := next, visited := s.visited[i := true], score := score),
                 MovedIntoRoom(i, first, ShouldRequirePuzzle(i) && !s.solved[i]))
  }

  // ---------------------------------------------------------------------
  // Puzzles
  // ---------------------------------------------------------------------

  /** What the puzzle check reports. `won` says whether the win check that
      follows an answer fired (and `handleWin` stopped the game). */
  datatype PuzzleOutcome =
    | AlreadySolved
    | ChainLocked(missing: Option<Item>)
    | NoPuzzle
    | NeedItem(item: Item)
    | PuzzleSolved(won: bool)
    | WrongAnswer(won: bool)
  {
    /** An answer was checked, right or wrong. */
    predicate Answered() { PuzzleSolved? || WrongAnswer? }

    /** The answer was followed by a successful win check. */
    predicate Won() { Answered() && won }
  }

  /** The state after a correct answer: flag set, consumed item swapped for the
      reward, ten points added. */
  function ApplySolution(s: GameState, d: PuzzleDef): (r: GameState)
    requires WellFormed(s) && PuzzleFor(d.room) == Some(d)
    requires Holds(s, d.consumed)
    ensures WellFormed(r)
    ensures r.solved == s.solved[d.room := true]
    ensures |r.inventory| == |s.inventory|
    ensures multiset(r.inventory) == multiset(s.inventory) - multiset{d.consumed} + multiset{d.produced}
    ensures r.inventory[..|r.inventory| - 1] == Bag.RemoveFirst(s.inventory, d.consumed)
    ensures r.inventory[|r.inventory| - 1] == d.produced
    ensures r.score.puzzlesSolved == s.score.puzzlesSolved + 1
    ensures Scoring.GetScore(r.score) == Scoring.GetScore(s.score) + Scoring.PuzzleValue
    ensures r.position == s.position && r.visited == s.visited && r.running == s.running
    ensures r.score.roomsVisited == s.score.roomsVisited
  {
    var rest := Bag.RemoveFirst(s.inventory, d.consumed);
    Bag.RemoveFirstMultiset(s.inventory, d.consumed);
    var items := Bag.AddBounded(rest, d.produced);
    assert items[..|items| - 1] == rest;
    s.(solved := s.solved[d.room := true], inventory := items, score := Scoring.SolvePuzzle(s.score))
  }

  /** The four `present*Puzzle` methods: ask for the consumed item, then the
      key item, compare the normalised answer, and on success apply the
      solution and check for a win. Three of the four also check for a win
      after a wrong answer. */
  function PresentPuzzle(s: GameState, d: PuzzleDef, answer: string): (r: Turn<PuzzleOutcome>)
    requires WellFormed(s) && PuzzleFor(d.room) == Some(d)
    ensures WellFormed(r.state)
    ensures r.outcome.NeedItem? || r.outcome.Answered()
    ensures !Holds(s, d.consumed) ==> r == Turn(s, NeedItem(d.consumed))
    ensures Holds(s, d.consumed) && !Holds(s, d.key) ==> r == Turn(s, NeedItem(d.key))
    ensures r.outcome.PuzzleSolved? <==> Holds(s, d.consumed) && Holds(s, d.key) && AnswerMatches(d, answer)
    ensures r.outcome.WrongAnswer? <==> Holds(s, d.consumed) && Holds(s, d.key) && !AnswerMatches(d, answer)
    ensures r.outcome.PuzzleSolved? ==>
              && r.state == ApplySolution(s, d).(running := s.running && !r.outcome.won)
              && r.outcome.won == CheckWinCondition(ApplySolution(s, d))
    ensures r.outcome.WrongAnswer? ==>
              && r.state == s.(running := s.running && !r.outcome.won)
              && r.outcome.won == (d.winCheckOnFailure && CheckWinCondition(s))
  {
    if !Holds(s, d.consumed) then Turn(s, NeedItem(d.consumed))
    else if !Holds(s, d.key) then Turn(s, NeedItem(d.key))
    else if AnswerMatches(d, answer) then
      var next := ApplySolution(s, d);
      var won := CheckWinCondition(next);
      Turn(if won then next.(running := false) else next, PuzzleSolved(won))
    else
      var won := d.winCheckOnFailure && CheckWinCondition(s);
      Turn(if won then s.(running := false) else s, WrongAnswer(won))
  }

  /** One case of the `switch (roomIndex)` in `checkForPuzzle`, for a room the
      chain allows: only the room's trigger matters, and it asks for the key
      item, then the consumed item, before presenting the puzzle. */
  function CheckTrigger(s: GameState, d: PuzzleDef, feature: string, answer: string): (r: Turn<PuzzleOutcome>)
    requires WellFormed(s) && PuzzleFor(d.room) == Some(d)
    ensures WellFormed(r.state)
    ensures feature != d.trigger ==> r == Turn(s, NoPuzzle)
    ensures feature == d.trigger && !Holds(s, d.key) ==> r == Turn(s, NeedItem(d.key))
    ensures feature == d.trigger && Holds(s, d.key) && !Holds(s, d.consumed) ==> r == Turn(s, NeedItem(d.consumed))
    ensures feature == d.trigger && Holds(s, d.key) && Holds(s, d.consumed) ==> r == PresentPuzzle(s, d, answer)
    ensures r.outcome.Answered() ==> feature == d.trigger && r == PresentPuzzle(s, d, answer)
    ensures !r.outcome.Answered() ==> r.state == s
    ensures r.state.running == (s.running && !r.outcome.Won())
  {
    if feature != d.trigger then Turn(s, NoPuzzle)
    else if !Holds(s, d.key) then Turn(s, NeedItem(d.key))
    else if !Holds(s, d.consumed) then Turn(s, NeedItem(d.consumed))
    else PresentPuzzle(s, d, answer)
  }

  /** `checkForPuzzle`: an already solved room does nothing; a room the chain
      does not yet allow reports its key item if that is missing; otherwise the
      room's trigger asks for its key item, then its consumed item, then
      presents the puzzle. Any other feature does nothing. */
  function CheckForPuzzle(s: GameState, room: nat, feature: string, answer: string): (r: Turn<PuzzleOutcome>)
    requires WellFormed(s) && room < RoomCount
    ensures WellFormed(r.state)
    ensures s.solved[room] ==> r == Turn(s, AlreadySolved)
    ensures !s.solved[room] && !CanAttemptPuzzle(s.solved, room) ==>
              r == Turn(s, ChainLocked(
                     if PuzzleFor(room).Some? && !Holds(s, PuzzleFor(room).value.key)
                     then Some(PuzzleFor(room).value.key) else None))
    ensures !s.solved[room] && CanAttemptPuzzle(s.solved, room)
            && (PuzzleFor(room).None? || feature != PuzzleFor(room).value.trigger) ==>
              r == Turn(s, NoPuzzle)
    ensures !s.solved[room] && CanAttemptPuzzle(s.solved, room)
            && PuzzleFor(room).Some? && feature == PuzzleFor(room).value.trigger ==>
              var d := PuzzleFor(room).value;
              && (!Holds(s, d.key) ==> r == Turn(s, NeedItem(d.key)))
              && (Holds(s, d.key) && !Holds(s, d.consumed) ==> r == Turn(s, NeedItem(d.consumed)))
              && (Holds(s, d.key) && Holds(s, d.consumed) ==> r == PresentPuzzle(s, d, answer))
    ensures r.outcome.Answered() ==>
              && CanAttemptPuzzle(s.solved, room) && !s.solved[room]
              && PuzzleFor(room).Some? && feature == PuzzleFor(room).value.trigger
              && r == PresentPuzzle(s, PuzzleFor(room).value, answer)
    ensures !r.outcome.Answered() ==> r.state == s
    ensures !r.outcome.PuzzleSolved? ==>
              r.state.solved == s.solved && r.state.inventory == s.inventory && r.state.score == s.score
    ensures forall i :: 0 <= i < RoomCount && s.solved[i] ==> r.state.solved[i]
    ensures r.state.running == (s.running && !r.outcome.Won())
  {
    if s.solved[room] then Turn(s, AlreadySolved)
    else if !CanAttemptPuzzle(s.solved, room) then
      var missing :=
        match PuzzleFor(room)
        case None => None
        case Some(d) => if Holds(s, d.key) then None else Some(d.key);
      Turn(s, ChainLocked(missing))
    else
      match PuzzleFor(room)
      case None => Turn(s, NoPuzzle)
      case Some(d) => CheckTrigger(s, d, feature, answer)
  }

  // ---------------------------------------------------------------------
  // Looking and collecting
  // ---------------------------------------------------------------------

  datatype LookOutcome =
    | RoomDescribed
    | NothingHere
    | FeatureDescribed(puzzle: Option<PuzzleOutcome>)
    | ItemDescribed
    | NotSeen

  /** `handleLook` / `handleLookAt`: only a trigger feature of the current room
      can change the state, through the puzzle check. */
  function HandleLook(s: GameState, target: string, answer: string): (r: Turn<LookOutcome>)
    requires WellFormed(s)
    ensures WellFormed(r.state)
    ensures r.state != s ==>
              && RoomIndexAt(s.position).Some?
              && HasFeature(RoomIndexAt(s.position).value, target) && IsTrigger(target)
              && r.outcome == FeatureDescribed(Some(CheckForPuzzle(s, RoomIndexAt(s.position).value, target, answer).outcome))
              && r.state == CheckForPuzzle(s, RoomIndexAt(s.position).value, target, answer).state
    ensures r.outcome == ItemDescribed ==> target in s.inventory
    ensures target == "" ==> r == Turn(s, RoomDescribed)
    ensures target != "" && RoomIndexAt(s.position).None? ==> r == Turn(s, NothingHere)
    ensures RoomIndexAt(s.position).Some? && HasFeature(RoomIndexAt(s.position).value, target) && IsTrigger(target) ==>
              var t := CheckForPuzzle(s, RoomIndexAt(s.position).value, target, answer);
              r == Turn(t.state, FeatureDescribed(Some(t.outcome)))
    ensures target != "" && RoomIndexAt(s.position).Some? && HasFeature(RoomIndexAt(s.position).value, target) && !IsTrigger(target) ==>
              r == Turn(s, FeatureDescribed(None))
    ensures target != "" && RoomIndexAt(s.position).Some? && !HasFeature(RoomIndexAt(s.position).value, target) ==>
              r == Turn(s, if Holds(s, target) then ItemDescribed else NotSeen)
    ensures s.running && !r.state.running ==>
              r.outcome.FeatureDescribed? && r.outcome.puzzle.Some? && r.outcome.puzzle.value.Won()
  {
    if target == "" then Turn(s, RoomDescribed)
    else
      match RoomIndexAt(s.position)
      case None => Turn(s, NothingHere)
      case Some(i) =>
        if HasFeature(i, target) then
          if IsTrigger(target) then
            var t := CheckForPuzzle(s, i, target, answer);
            Turn(t.state, FeatureDescribed(Some(t.outcome)))
          else Turn(s, FeatureDescribed(None))
        else if Holds(s, target) then Turn(s, ItemDescribed)
        else Turn(s, NotSeen)
  }

  datatype CollectOutcome = NothingToCollect | Collected(stored: bool) | CannotCollect

  /** `handleCollectItem`: an item is added only when it is a feature of the
      current room and on the whitelist. The room keeps the feature, and a full
      inventory silently drops the item. */
  function HandleCollectItem(s: GameState, item: Item): (r: Turn<CollectOutcome>)
    requires WellFormed(s)
    ensures WellFormed(r.state)
    ensures r.state == s.(inventory := r.state.inventory)
    ensures r.outcome.Collected? <==>
              RoomIndexAt(s.position).Some? && HasFeature(RoomIndexAt(s.position).value, item) && IsCollectible(item)
    ensures r.outcome.Collected? ==> r.outcome.stored == (|s.inventory| < Bag.MaxItems)
    ensures r.outcome.Collected? && r.outcome.stored ==> r.state.inventory == s.inventory + [item]
    ensures !(r.outcome.Collected? && r.outcome.stored) ==> r.state == s
    ensures RoomIndexAt(s.position).None? ==> r == Turn(s, NothingToCollect)
    ensures RoomIndexAt(s.position).Some? && !r.outcome.Collected? ==> r.outcome == CannotCollect
  {
    match RoomIndexAt(s.position)
    case None => Turn(s, NothingToCollect)
    case Some(i) =>
      if HasFeature(i, item) && IsCollectible(item) then
        Turn(s.(inventory := Bag.AddBounded(s.inventory, item)), Collected(|s.inventory| < Bag.MaxItems))
      else Turn(s, CannotCollect)
  }

  // ---------------------------------------------------------------------
  // One turn and a whole session
  // ---------------------------------------------------------------------

  /** One line of input, already split into command and argument, together with
      the reply to any follow-up prompt (a puzzle answer or the quit confirmation). */
  datatype Command = Command(verb: string, argument: string, reply: string)

  /** `input.split(" ", 2)`: the text before the first space and everything
      after it, or the whole input and an empty argument when there is no space. */
  function SplitCommand(input: string): (r: (string, string))
    ensures ' ' !in r.0
    ensures ' ' in input ==> input == r.0 + " " + r.1
    ensures ' ' !in input ==> r == (input, "")
    ensures r.0 == "" ==> input == "" || input[0] == ' '
  {
    var k := IndexOf(input, ' ');
    if k == -1 then (input, "")
    else
      assert input == input[..k] + [input[k]] + input[k + 1..];
      (input[..k], input[k + 1..])
  }

  /** A command word followed by one space and an argument splits back into
      the two. */
  lemma SplitCommandRoundTrip(verb: string, argument: string)
    requires ' ' !in verb
    ensures SplitCommand(verb + " " + argument) == (verb, argument)
  {
    var input := verb + " " + argument;
    assert input[|verb|] == ' ';
    var k := IndexOf(input, ' ');
    assert forall j :: 0 <= j < |verb| ==> input[j] == verb[j];
    assert k == |verb|;
    assert input[..k] == verb;
    assert input[k + 1..] == argument;
  }

  /** `gameLoop` reads a line, lower-cases and trims it, and `processCommand`
      splits it; `reply` is the next line, read only by a puzzle or by quit. */
  function ReadCommand(line: string, reply: string): (c: Command)
    ensures c.verb == "" <==> Trim(ToLower(line)) == ""
    ensures ' ' !in c.verb
    ensures ' ' in Trim(ToLower(line)) ==> Trim(ToLower(line)) == c.verb + " " + c.argument
    ensures ' ' !in Trim(ToLower(line)) ==> c.verb == Trim(ToLower(line)) && c.argument == ""
    ensures c.reply == reply
  {
    var parts := SplitCommand(Trim(ToLower(line)));
    Command(parts.0, parts.1, reply)
  }

  datatype CommandOutcome =
    | EmptyInput
    | Moved(move: MoveOutcome)
    | Looked(look: LookOutcome)
    | ShowInventory(items: seq<Item>)
    | ShowHint
    | ShowScore(points: int)
    | Picked(collect: CollectOutcome)
    | ShowMap
    | ShowHelp
    | QuitAsked(confirmed: bool)
    | UnknownCommand

  /** `handleQuit`: the game stops exactly when the lower-cased, trimmed reply
      is "yes"; nothing else changes. */
  function HandleQuit(s: GameState, reply: string): (r: Turn<CommandOutcome>)
    ensures r.outcome.QuitAsked?
    ensures r.outcome.confirmed <==> Trim(ToLower(reply)) == "yes"
    ensures r.state == s.(running := s.running && !r.outcome.confirmed)
  {
    var yes := Trim(ToLower(reply)) == "yes";
    Turn(if yes then s.(running := false) else s, QuitAsked(yes))
  }

  /** The command words `processCommand` knows. */
  const Verbs: set<string> := {"move", "look", "inventory", "hint", "score", "collect", "map", "help", "quit"}

  /** `processCommand` (with `handleQuit`): dispatch on the command word. */
  function ProcessCommand(s: GameState, c: Command): (r: Turn<CommandOutcome>)
    requires WellFormed(s)
    ensures WellFormed(r.state)
    ensures c.verb == "" ==> r == Turn(s, EmptyInput)
    ensures c.verb == "move" ==>
              r == Turn(HandleMove(s, c.argument).state, Moved(HandleMove(s, c.argument).outcome))
    ensures c.verb == "look" ==>
              r == Turn(HandleLook(s, c.argument, c.reply).state, Looked(HandleLook(s, c.argument, c.reply).outcome))
    ensures c.verb == "collect" ==>
              r == Turn(HandleCollectItem(s, c.argument).state, Picked(HandleCollectItem(s, c.argument).outcome))
    ensures c.verb == "quit" ==> r == HandleQuit(s, c.reply)
    ensures c.verb == "inventory" ==> r == Turn(s, ShowInventory(s.inventory))
    ensures c.verb == "score" ==> r == Turn(s, ShowScore(Scoring.GetScore(s.score)))
    ensures c.verb == "hint" ==> r == Turn(s, ShowHint)
    ensures c.verb == "map" ==> r == Turn(s, ShowMap)
    ensures c.verb == "help" ==> r == Turn(s, ShowHelp)
    ensures c.verb != "" && c.verb !in Verbs ==> r == Turn(s, UnknownCommand)
    ensures s.running && !r.state.running ==>
              || (c.verb == "quit" && Trim(ToLower(c.reply)) == "yes")
              || (c.verb == "look" && r.outcome.look.FeatureDescribed? && r.outcome.look.puzzle.Some?
                  && r.outcome.look.puzzle.value.Won())
    ensures forall i :: 0 <= i < RoomCount && s.solved[i] ==> r.state.solved[i]
    ensures Scoring.GetScore(r.state.score) >= Scoring.GetScore(s.score)
    ensures r.state.running ==> s.running
    ensures !(r.outcome.Moved? || r.outcome.Looked? || r.outcome.Picked? || r.outcome.QuitAsked?) ==> r.state == s
  {
    if c.verb == "" then Turn(s, EmptyInput)
    else
      match c.verb
      case "move" =>
        var t := HandleMove(s, c.argument);
        Turn(t.state, Moved(t.outcome))
      case "look" =>
        var t := HandleLook(s, c.argument, c.reply);
        Turn(t.state, Looked(t.outcome))
      case "inventory" => Turn(s, ShowInventory(s.inventory))
      case "hint" => Turn(s, ShowHint)
      case "score" => Turn(s, ShowScore(Scoring.GetScore(s.score)))
      case "collect" =>
        var t := HandleCollectItem(s, c.argument);
        Turn(t.state, Picked(t.outcome))
      case "map" => Turn(s, ShowMap)
      case "help" => Turn(s, ShowHelp)
      case "quit" => HandleQuit(s, c.reply)
      case _ => Turn(s, UnknownCommand)
  }

  /** `gameLoop`: process commands while the game is running. */
  function Run(s: GameState, commands: seq<Command>): (r: GameState)
    requires WellFormed(s)
    ensures WellFormed(r)
    decreases |commands|
  {
    if commands == [] || !s.running then s
    else Run(ProcessCommand(s, commands[0]).state, commands[1..])
  }
}
