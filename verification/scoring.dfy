/**
 * The score keeper (Score.java): counts of rooms visited and puzzles solved,
 * and a score that is ten points per solved puzzle. The constructor ignores
 * its argument and always starts from zero; room visits are counted but never
 * enter the score.
 */
module Scoring {

  const PuzzleValue: int := 10

  datatype Score = Score(startingScore: int, roomsVisited: int, puzzlesSolved: int)

  /** What every Score built by the constructor and updated by its methods keeps. */
  predicate Valid(s: Score)
  {
    s.startingScore == 0 && s.roomsVisited >= 0 && s.puzzlesSolved >= 0
  }

  /** `getScore` (a `double` in the source, always an integral value). */
  function GetScore(s: Score): int
  {
    s.startingScore + s.puzzlesSolved * PuzzleValue
  }

  /** The constructor: whatever starting score is passed, the score is 0. */
  function NewScore(startingScore: int): (s: Score)
    ensures Valid(s)
    ensures GetScore(s) == 0
    ensures s.roomsVisited == 0 && s.puzzlesSolved == 0
  {
    Score(0, 0, 0)
  }

  /** `visitRoom`: one more room visited; the score does not move. */
  function VisitRoom(s: Score): (r: Score)
    requires Valid(s)
    ensures Valid(r)
    ensures r.roomsVisited == s.roomsVisited + 1
    ensures r.puzzlesSolved == s.puzzlesSolved
    ensures GetScore(r) == GetScore(s)
  {
    s.(roomsVisited := s.roomsVisited + 1)
  }

  /** `solvePuzzle`: one more puzzle solved; the score rises by exactly the puzzle value. */
  function SolvePuzzle(s: Score): (r: Score)
    requires Valid(s)
    ensures Valid(r)
    ensures r.puzzlesSolved == s.puzzlesSolved + 1
    ensures r.roomsVisited == s.roomsVisited
    ensures GetScore(r) == GetScore(s) + PuzzleValue
  {
    s.(puzzlesSolved := s.puzzlesSolved + 1)
  }

  /** Because the starting score is forced to 0, the score is always ten times the
      number of solved puzzles and never negative. */
  lemma ScoreIsPuzzleReward(s: Score)
    requires Valid(s)
    ensures GetScore(s) == PuzzleValue * s.puzzlesSolved
    ensures GetScore(s) >= 0
  {
  }
}
