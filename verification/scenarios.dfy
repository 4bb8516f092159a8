/**
 * Concrete sessions and situations from the game's intended play: collecting
 * the manual in the Library, the keycard puzzle refusing to start without the
 * keycard, and the keycard puzzle being solved.
 */
module Scenarios {
  import opened Common
  import opened Grid
  import opened Catalog
  import opened Puzzles
  import opened Game
  import opened GameInvariant
  import Bag
  import Scoring

  function Move(direction: string): Command { Command("move", direction, "") }
  function Collect(item: Item): Command { Command("collect", item, "") }
  function Look(target: string, reply: string): Command { Command("look", target, reply) }

  /** The first step north from the start lands on the First Bedroom's cell. */
  lemma FirstStepNorth()
    ensures ProcessCommand(NewGame(), Move("north")).state.position == Position(3, 4)
    ensures ProcessCommand(NewGame(), Move("north")).state.inventory == []
    ensures ProcessCommand(NewGame(), Move("north")).state.running
  {
    var s := NewGame();
    assert !ExitLocked(s) by { StartIsEmptySpace(); }
    assert HandleMove(s, "north").outcome.Moved();
  }

  /** The second step north, from the First Bedroom, enters the Library. */
  lemma SecondStepNorth(s1: GameState)
    requires WellFormed(s1) && s1.running
    requires s1.position == Position(3, 4) && s1.inventory == []
    ensures ProcessCommand(s1, Move("north")).state.position == Position(3, 3)
    ensures ProcessCommand(s1, Move("north")).state.inventory == []
    ensures ProcessCommand(s1, Move("north")).state.running
  {
    assert RoomIndexAt(s1.position) == Some(9) by { RoomLookupUnique(s1.position, 9); }
    assert !ExitLocked(s1);
    assert HandleMove(s1, "north").outcome.Moved();
  }

  /** In the Library with an empty inventory, collecting the manual stores it. */
  lemma CollectInLibrary(s2: GameState)
    requires WellFormed(s2)
    requires s2.position == Position(3, 3) && s2.inventory == []
    ensures ProcessCommand(s2, Collect("research_manual")).state.inventory == ["research_manual"]
  {
    assert RoomIndexAt(s2.position) == Some(1) by { RoomLookupUnique(s2.position, 1); }
    assert HasFeature(1, "research_manual") && IsCollectible("research_manual");
    assert HandleCollectItem(s2, "research_manual").outcome == Collected(true);
    assert Collect("research_manual").verb == "collect";
  }

  /** From the start cell two steps north reach the Library, where the manual
      can be collected; the inventory then holds exactly the manual. */
  lemma CollectManualInLibrary()
    ensures Run(NewGame(), [Move("north"), Move("north"), Collect("research_manual")]).inventory == ["research_manual"]
  {
    var cmds := [Move("north"), Move("north"), Collect("research_manual")];
    var s0 := NewGame();
    FirstStepNorth();
    var s1 := ProcessCommand(s0, cmds[0]).state;
    SecondStepNorth(s1);
    var s2 := ProcessCommand(s1, cmds[1]).state;
    CollectInLibrary(s2);
    var s3 := ProcessCommand(s2, cmds[2]).state;
    assert Run(s0, cmds) == Run(s1, cmds[1..]);
    assert Run(s1, cmds[1..]) == Run(s2, cmds[2..]);
    assert Run(s2, cmds[2..]) == Run(s3, cmds[3..]);
  }

  /** In the Main Laboratory with the manual but without the keycard, examining
      the keycard asks for the keycard and changes nothing. */
  lemma KeycardNeededFirst(s: GameState, answer: string)
    requires Invariant(s)
    requires s.position == Rooms[0].position
    requires "research_manual" in s.inventory && "broken_keycard" !in s.inventory
    requires !s.solved[0]
    ensures HandleLook(s, "broken_keycard", answer) == Turn(s, FeatureDescribed(Some(NeedItem("broken_keycard"))))
  {
    RoomLookupUnique(s.position, 0);
  }

  /** With the manual and the keycard, the code 1234 solves the first puzzle: the
      broken keycard is swapped for the repaired one and ten points are added. */
  lemma KeycardPuzzleSolved(s: GameState)
    requires Invariant(s)
    requires s.position == Rooms[0].position
    requires "research_manual" in s.inventory && "broken_keycard" in s.inventory
    requires !s.solved[0]
    ensures var r := HandleLook(s, "broken_keycard", "1234");
            && r.outcome.FeatureDescribed? && r.outcome.puzzle == Some(PuzzleSolved(false))
            && r.state.solved == s.solved[0 := true]
            && multiset(r.state.inventory)
               == multiset(s.inventory) - multiset{"broken_keycard"} + multiset{"repaired_keycard"}
            && Scoring.GetScore(r.state.score) == Scoring.GetScore(s.score) + 10
  {
    RoomLookupUnique(s.position, 0);
    assert AnswerMatches(Keypad, "1234");
    assert CanAttemptPuzzle(s.solved, 0) by {
      assert PuzzleOrder[0] == 0;
    }
    assert Holds(s, "research_manual") && Holds(s, "broken_keycard");
    var t := CheckForPuzzle(s, 0, "broken_keycard", "1234");
    assert t == PresentPuzzle(s, Keypad, "1234");
    UnsolvedPuzzleBlocksWin(ApplySolution(s, Keypad), 1) by {
      PresentPuzzlePreservesInvariant(s, Keypad, "1234");
    }
    assert t.outcome == PuzzleSolved(false);
  }

  /** A solution keeps every item other than the consumed one and adds the reward. */
  lemma SolutionKeepsOtherItems(s: GameState, d: PuzzleDef, x: Item)
    requires WellFormed(s) && PuzzleFor(d.room) == Some(d) && Holds(s, d.consumed)
    requires x in s.inventory && x != d.consumed
    ensures x in ApplySolution(s, d).inventory
    ensures d.produced in ApplySolution(s, d).inventory
  {
    var after := multiset(ApplySolution(s, d).inventory);
    assert after == multiset(s.inventory) - multiset{d.consumed} + multiset{d.produced};
    assert x in multiset(s.inventory);
    assert x in after;
  }

  /** Solving the sundial with the other three puzzles solved and the other
      rewards held leaves a state that meets the win condition, worth 40 points. */
  lemma SundialSolutionMeetsWinCondition(s: GameState)
    requires Invariant(s)
    requires s.solved[0] && s.solved[3] && s.solved[5] && !s.solved[8]
    requires "strange_flower" in s.inventory && "temporal_essence" in s.inventory
    requires "repaired_keycard" in s.inventory && "power_module" in s.inventory
    requires CanAttemptPuzzle(s.solved, 8)
    ensures CheckWinCondition(ApplySolution(s, Sundial))
    ensures Scoring.GetScore(ApplySolution(s, Sundial).score) == 4 * Scoring.PuzzleValue
  {
    var next := ApplySolution(s, Sundial);
    assert Holds(s, "strange_flower");
    SolutionKeepsOtherItems(s, Sundial, "repaired_keycard");
    SolutionKeepsOtherItems(s, Sundial, "power_module");
    SolutionKeepsOtherItems(s, Sundial, "temporal_essence");
    assert AnswerMatches(Sundial, "12:00");
    PresentPuzzlePreservesInvariant(s, Sundial, "12:00");
    assert Invariant(next);
    assert forall t :: t in TerminalItems ==> t in next.inventory;
    WinConditionIff(next);
    ScoreCountsSolvedPuzzles(next);
  }

  /** With the first three chain puzzles solved the sundial may be attempted. */
  lemma SundialUnlocked(solved: seq<bool>)
    requires |solved| == RoomCount
    requires solved[0] && solved[3] && solved[5]
    ensures CanAttemptPuzzle(solved, 8)
  {
    assert PuzzleOrder[3] == 8;
    assert forall j :: 0 <= j < 3 ==> solved[PuzzleOrder[j]];
  }

  /** Presenting the sundial in that situation with the answer 12:00 wins. */
  lemma SundialAnswerWins(s: GameState)
    requires Invariant(s)
    requires s.solved[0] && s.solved[3] && s.solved[5] && !s.solved[8]
    requires "strange_flower" in s.inventory && "temporal_essence" in s.inventory
    requires "repaired_keycard" in s.inventory && "power_module" in s.inventory
    ensures PresentPuzzle(s, Sundial, "12:00")
            == Turn(ApplySolution(s, Sundial).(running := false), PuzzleSolved(true))
  {
    SundialUnlocked(s.solved);
    SundialSolutionMeetsWinCondition(s);
    assert AnswerMatches(Sundial, "12:00");
    assert Holds(s, "strange_flower") && Holds(s, "temporal_essence");
  }

  /** The last puzzle: in the Garden with the first three puzzles solved, the
      flower, the essence and the other two rewards held, the answer 12:00 wins
      the game, stops the session and leaves the score at 40. */
  lemma SundialWinsTheGame(s: GameState)
    requires Invariant(s)
    requires s.position == Rooms[8].position
    requires s.solved[0] && s.solved[3] && s.solved[5] && !s.solved[8]
    requires "strange_flower" in s.inventory && "temporal_essence" in s.inventory
    requires "repaired_keycard" in s.inventory && "power_module" in s.inventory
    ensures var r := HandleLook(s, "sundial", "12:00");
            && r.outcome == FeatureDescribed(Some(PuzzleSolved(true)))
            && !r.state.running
            && Scoring.GetScore(r.state.score) == 4 * Scoring.PuzzleValue
  {
    RoomLookupUnique(s.position, 8);
    SundialUnlocked(s.solved);
    SundialAnswerWins(s);
    SundialSolutionMeetsWinCondition(s);
    assert Holds(s, "strange_flower") && Holds(s, "temporal_essence");
  }
}
