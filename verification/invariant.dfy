/**
 * What holds of every state a session can reach: the puzzle flags respect the
 * chain order and only gated rooms are ever solved, the score is ten points per
 * solved puzzle, the room-visit count matches the visited flags, and the player
 * never leaves the grid. Also: flags and score never go backwards, and the win
 * check means exactly "all four puzzles solved and all four terminal items held".
 */
module GameInvariant {
  import opened Common
  import opened Grid
  import opened Catalog
  import opened Puzzles
  import opened Game
  import Bag
  import Scoring

  predicate Invariant(s: GameState)
  {
    && WellFormed(s)
    && IsValidPosition(s.position)
    && (forall i :: 0 <= i < RoomCount && s.solved[i] ==> ShouldRequirePuzzle(i))
    && ChainOrdered(s.solved)
    && s.score.puzzlesSolved == CountTrue(s.solved)
    && s.score.roomsVisited == CountTrue(s.visited)
  }

  lemma NewGameSatisfiesInvariant()
    ensures Invariant(NewGame())
  {
    var s := NewGame();
    CountOfChainFlags(s.solved);
    CountOfChainFlags(s.visited);
  }

  /** The score is ten points per solved chain puzzle; room visits add nothing. */
  lemma ScoreCountsSolvedPuzzles(s: GameState)
    requires Invariant(s)
    ensures Scoring.GetScore(s.score)
            == Scoring.PuzzleValue * (Tally(s.solved[0]) + Tally(s.solved[3]) + Tally(s.solved[5]) + Tally(s.solved[8]))
    ensures 0 <= Scoring.GetScore(s.score) <= 4 * Scoring.PuzzleValue
  {
    CountOfChainFlags(s.solved);
  }

  /** `checkWinCondition` holds exactly when every chain puzzle is solved and
      every terminal item is held. */
  lemma WinConditionIff(s: GameState)
    requires Invariant(s)
    ensures CheckWinCondition(s) <==>
              (forall k :: 0 <= k < |PuzzleOrder| ==> s.solved[PuzzleOrder[k]])
              && (forall t :: t in TerminalItems ==> t in s.inventory)
  {
    CountOfChainFlags(s.solved);
    ChainSolvedIff(s.solved);
    TerminalItemsHeldIff(s);
  }

  /** Four solved chain flags are the same as every chain puzzle solved. */
  lemma ChainSolvedIff(solved: seq<bool>)
    requires |solved| == RoomCount
    ensures (solved[0] && solved[3] && solved[5] && solved[8])
            <==> forall k :: 0 <= k < |PuzzleOrder| ==> solved[PuzzleOrder[k]]
  {
    assert PuzzleOrder == [0, 3, 5, 8];
    if solved[0] && solved[3] && solved[5] && solved[8] {
      forall k | 0 <= k < |PuzzleOrder| ensures solved[PuzzleOrder[k]] {
        assert PuzzleOrder[k] in {0, 3, 5, 8};
      }
    } else {
      assert !solved[PuzzleOrder[0]] || !solved[PuzzleOrder[1]]
             || !solved[PuzzleOrder[2]] || !solved[PuzzleOrder[3]];
    }
  }

  /** The four `hasItem` checks of the win condition are membership of every
      terminal item. */
  lemma TerminalItemsHeldIff(s: GameState)
    ensures (forall t :: t in TerminalItems ==> t in s.inventory) <==>
            Holds(s, "repaired_keycard") && Holds(s, "power_module")
            && Holds(s, "temporal_essence") && Holds(s, "time_shard")
  {
    if !forall t :: t in TerminalItems ==> t in s.inventory {
      var t :| t in TerminalItems && t !in s.inventory;
      assert t == TerminalItems[0] || t == TerminalItems[1] || t == TerminalItems[2] || t == TerminalItems[3];
    }
  }

  /** With any chain puzzle unsolved the game is not won, whatever is held. */
  lemma UnsolvedPuzzleBlocksWin(s: GameState, k: nat)
    requires Invariant(s)
    requires k < |PuzzleOrder| && !s.solved[PuzzleOrder[k]]
    ensures !CheckWinCondition(s)
  {
    WinConditionIff(s);
  }

  lemma MovePreservesInvariant(s: GameState, direction: string)
    requires Invariant(s)
    ensures Invariant(HandleMove(s, direction).state)
  {
    var r := HandleMove(s, direction);
    if r.outcome.MovedIntoRoom? {
      CountTrueSet(s.visited, r.outcome.room);
    }
  }

  /** A puzzle presented in a room the chain allows keeps the invariant: the new
      flag is for a gated room whose predecessors are all solved, and the score
      rises together with the count of flags. */
  lemma PresentPuzzlePreservesInvariant(s: GameState, d: PuzzleDef, answer: string)
    requires Invariant(s) && PuzzleFor(d.room) == Some(d)
    requires CanAttemptPuzzle(s.solved, d.room) && !s.solved[d.room]
    ensures Invariant(PresentPuzzle(s, d, answer).state)
  {
    var r := PresentPuzzle(s, d, answer);
    if r.outcome.PuzzleSolved? {
      SolvingKeepsChainOrdered(s.solved, d.room);
      CountTrueSet(s.solved, d.room);
    }
  }

  lemma LookPreservesInvariant(s: GameState, target: string, answer: string)
    requires Invariant(s)
    ensures Invariant(HandleLook(s, target, answer).state)
  {
    var r := HandleLook(s, target, answer);
    if r.state != s {
      var room := RoomIndexAt(s.position).value;
      var t := CheckForPuzzle(s, room, target, answer);
      if t.outcome.Answered() {
        PresentPuzzlePreservesInvariant(s, PuzzleFor(room).value, answer);
      }
    }
  }

  lemma StepPreservesInvariant(s: GameState, c: Command)
    requires Invariant(s)
    ensures Invariant(ProcessCommand(s, c).state)
  {
    if c.verb == "move" {
      MovePreservesInvariant(s, c.argument);
    } else if c.verb == "look" {
      LookPreservesInvariant(s, c.argument, c.reply);
    }
  }

  lemma {:induction false} RunPreservesInvariant(s: GameState, commands: seq<Command>)
    requires Invariant(s)
    ensures Invariant(Run(s, commands))
    decreases |commands|
  {
    if commands != [] && s.running {
      StepPreservesInvariant(s, commands[0]);
      RunPreservesInvariant(ProcessCommand(s, commands[0]).state, commands[1..]);
    }
  }

  /** In every reachable state a solved chain puzzle has all earlier chain
      puzzles solved, and the score is ten times the number of solved puzzles. */
  lemma ReachableStatesKeepTheChain(commands: seq<Command>)
    ensures var s := Run(NewGame(), commands);
            && (forall k :: 0 <= k < |PuzzleOrder| && s.solved[PuzzleOrder[k]] ==>
                  forall j :: 0 <= j < k ==> s.solved[PuzzleOrder[j]])
            && Scoring.GetScore(s.score) == Scoring.PuzzleValue * CountTrue(s.solved)
            && |s.inventory| <= Bag.MaxItems
            && IsValidPosition(s.position)
  {
    NewGameSatisfiesInvariant();
    RunPreservesInvariant(NewGame(), commands);
  }

  /** Solved flags are never cleared and the score never drops, over any run. */
  lemma {:induction false} RunIsMonotone(s: GameState, commands: seq<Command>)
    requires WellFormed(s)
    ensures forall i :: 0 <= i < RoomCount && s.solved[i] ==> Run(s, commands).solved[i]
    ensures Scoring.GetScore(Run(s, commands).score) >= Scoring.GetScore(s.score)
    decreases |commands|
  {
    if commands != [] && s.running {
      RunIsMonotone(ProcessCommand(s, commands[0]).state, commands[1..]);
    }
  }

  /** A wrong answer changes nothing at all: the win check that three puzzles run
      after a wrong answer can never fire, since the puzzle being answered is
      itself unsolved. */
  lemma WrongAnswerChangesNothing(s: GameState, room: nat, feature: string, answer: string)
    requires Invariant(s) && room < RoomCount
    requires CheckForPuzzle(s, room, feature, answer).outcome.WrongAnswer?
    ensures !CheckForPuzzle(s, room, feature, answer).outcome.won
    ensures CheckForPuzzle(s, room, feature, answer).state == s
  {
    var k := ChainPosition(room);
    UnsolvedPuzzleBlocksWin(s, k);
  }

  /** Moving and then moving back returns to the original cell, unless the room
      reached locks its exit. */
  /** A gated room entered before its turn in the chain is a trap: its exit
      stays locked, and its puzzle check refuses every attempt, so neither a
      move nor looking at anything changes the state. */
  lemma OutOfTurnRoomTrapsPlayer(s: GameState, room: nat, direction: string, target: string, answer: string)
    requires WellFormed(s) && RoomIndexAt(s.position) == Some(room)
    requires ShouldRequirePuzzle(room) && !s.solved[room] && !CanAttemptPuzzle(s.solved, room)
    ensures HandleMove(s, direction).state == s
    ensures HandleLook(s, target, answer).state == s
  {
    assert ExitLocked(s);
  }

  lemma MoveThenOppositeReturns(s: GameState, direction: string)
    requires Invariant(s) && IsDirection(direction)
    requires HandleMove(s, direction).outcome.Moved()
    requires !ExitLocked(HandleMove(s, direction).state)
    ensures HandleMove(HandleMove(s, direction).state, Opposite(direction)).outcome.Moved()
    ensures HandleMove(HandleMove(s, direction).state, Opposite(direction)).state.position == s.position
  {
    MoveThenOpposite(s.position, direction);
  }
}
