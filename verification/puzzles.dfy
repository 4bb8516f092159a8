/**
 * The puzzle chain: four puzzles bound to rooms 0, 3, 5 and 8 that must be
 * solved in that order. Each puzzle is guarded by two items, checks a typed
 * answer under its own normalisation, and on success swaps one item for another.
 */
module Puzzles {
  import opened Common
  import opened Text
  import opened Catalog

  /** `puzzleOrder`: the rooms whose puzzles form the chain, in solving order. */
  const PuzzleOrder: seq<nat> := [0, 3, 5, 8]

  /** `shouldRequirePuzzle`: the rooms whose exit is locked until their puzzle is solved. */
  predicate ShouldRequirePuzzle(room: int)
  {
    room == 0 || room == 3 || room == 5 || room == 8
  }

  /** The gated rooms are exactly the rooms of the chain. */
  lemma GatedRoomsAreTheChain(room: int)
    ensures ShouldRequirePuzzle(room) <==> room in PuzzleOrder
  {
  }

  /** The first loop of `canAttemptPuzzle`: where `room` sits in the chain,
      scanning from entry `i`, or -1. */
  function ChainPositionFrom(room: int, i: nat): (k: int)
    requires i <= |PuzzleOrder|
    ensures k == -1 || i <= k < |PuzzleOrder|
    ensures k == -1 <==> forall j :: i <= j < |PuzzleOrder| ==> PuzzleOrder[j] != room
    ensures k >= 0 ==> PuzzleOrder[k] == room
    decreases |PuzzleOrder| - i
  {
    if i == |PuzzleOrder| then -1
    else if PuzzleOrder[i] == room then i
    else ChainPositionFrom(room, i + 1)
  }

  /** The chain position of `room`, or -1 when the room has no puzzle. */
  function ChainPosition(room: int): (k: int)
    ensures -1 <= k < |PuzzleOrder|
    ensures k == -1 <==> room !in PuzzleOrder
    ensures k >= 0 ==> PuzzleOrder[k] == room
  {
    ChainPositionFrom(room, 0)
  }

  /** The second loop of `canAttemptPuzzle`: chain entries `i` up to (not
      including) `k` are all solved. */
  function EarlierSolvedFrom(solved: seq<bool>, k: nat, i: nat): (r: bool)
    requires |solved| == RoomCount
    requires i <= k <= |PuzzleOrder|
    ensures r <==> forall j :: i <= j < k ==> solved[PuzzleOrder[j]]
    decreases k - i
  {
    if i == k then true
    else if !solved[PuzzleOrder[i]] then false
    else EarlierSolvedFrom(solved, k, i + 1)
  }

  /** `canAttemptPuzzle`: `room` is in the chain and every chain entry before it is solved. */
  function CanAttemptPuzzle(solved: seq<bool>, room: int): (r: bool)
    requires |solved| == RoomCount
    ensures r <==> exists k :: 0 <= k < |PuzzleOrder| && PuzzleOrder[k] == room
                     && forall j :: 0 <= j < k ==> solved[PuzzleOrder[j]]
  {
    var k := ChainPosition(room);
    k != -1 && EarlierSolvedFrom(solved, k, 0)
  }

  /** The chain property a game state keeps: a solved entry has all earlier entries solved. */
  predicate ChainOrdered(solved: seq<bool>)
    requires |solved| == RoomCount
  {
    forall k :: 0 <= k < |PuzzleOrder| && solved[PuzzleOrder[k]] ==>
      forall j :: 0 <= j < k ==> solved[PuzzleOrder[j]]
  }

  /** Marking a room solved when it may be attempted keeps the chain ordered. */
  lemma {:induction false} SolvingKeepsChainOrdered(solved: seq<bool>, room: nat)
    requires |solved| == RoomCount && room < RoomCount
    requires ChainOrdered(solved)
    requires CanAttemptPuzzle(solved, room)
    ensures ChainOrdered(solved[room := true])
  {
    var after := solved[room := true];
    var p :| 0 <= p < |PuzzleOrder| && PuzzleOrder[p] == room
             && forall j :: 0 <= j < p ==> solved[PuzzleOrder[j]];
    forall k | 0 <= k < |PuzzleOrder| && after[PuzzleOrder[k]]
      ensures forall j :: 0 <= j < k ==> after[PuzzleOrder[j]]
    {
      if PuzzleOrder[k] != room {
        assert solved[PuzzleOrder[k]];
      }
    }
  }

  /** How a typed answer is compared: trimmed, and for two puzzles also upper-cased. */
  datatype Normalization = Exact | UpperCase

  /**
   * One `present*Puzzle`. `key` is the item `checkForPuzzle` asks for first (the
   * reward of the previous puzzle, or the manual), `consumed` the item it asks
   * for second and the puzzle uses up, `produced` the reward. Only the keycard
   * puzzle checks for a win solely after a correct answer; the other three
   * check after any answer.
   */
  datatype PuzzleDef = PuzzleDef(
    room: nat,
    trigger: string,
    key: Item,
    consumed: Item,
    produced: Item,
    expected: string,
    normalization: Normalization,
    winCheckOnFailure: bool)

  const Keypad: PuzzleDef :=
    PuzzleDef(0, "broken_keycard", "research_manual", "broken_keycard", "repaired_keycard", "1234", Exact, false)
  const Circuit: PuzzleDef :=
    PuzzleDef(3, "circuits", "repaired_keycard", "power_core", "power_module", "POWER", UpperCase, true)
  const Recipe: PuzzleDef :=
    PuzzleDef(5, "recipe_book", "power_module", "crystal_vial", "temporal_essence", "THYME", UpperCase, true)
  const Sundial: PuzzleDef :=
    PuzzleDef(8, "sundial", "temporal_essence", "strange_flower", "time_shard", "12:00", Exact, true)

  /** The puzzle of a room, by the `switch (roomIndex)` of `checkForPuzzle`. */
  function PuzzleFor(room: int): (r: Option<PuzzleDef>)
    ensures r.Some? <==> ShouldRequirePuzzle(room)
    ensures r.Some? ==> r.value.room == room && r.value.room < RoomCount
    ensures r.Some? ==> IsTrigger(r.value.trigger) && HasFeature(room, r.value.trigger)
    ensures r.Some? ==> IsCollectible(r.value.consumed) && IsCollectible(r.value.produced)
    ensures r.Some? ==> r.value.consumed != r.value.produced && r.value.key != r.value.consumed
  {
    if room == 0 then Some(Keypad)
    else if room == 3 then Some(Circuit)
    else if room == 5 then Some(Recipe)
    else if room == 8 then Some(Sundial)
    else None
  }

  /** Each puzzle's reward is the next puzzle's key: the items chain the puzzles
      in the same order as `PuzzleOrder`. */
  lemma RewardsUnlockTheNextPuzzle(k: nat)
    requires k + 1 < |PuzzleOrder|
    ensures PuzzleFor(PuzzleOrder[k]).value.produced == PuzzleFor(PuzzleOrder[k + 1]).value.key
  {
  }

  /** The typed answer after the puzzle's normalisation. */
  function Normalize(normalization: Normalization, answer: string): string
  {
    match normalization
    case Exact => Trim(answer)
    case UpperCase => ToUpper(Trim(answer))
  }

  predicate AnswerMatches(d: PuzzleDef, answer: string)
  {
    Normalize(d.normalization, answer) == d.expected
  }

  /** Surrounding blanks never matter to the keycard: its answer is compared
      exactly after trimming, so a blank inside the code is not removed. */
  lemma KeypadAnswerIsTrimmed(pre: string, post: string)
    requires Blank(pre) && Blank(post)
    ensures AnswerMatches(Keypad, pre + "1234" + post)
    ensures !AnswerMatches(Keypad, pre + "12 34" + post)
  {
    TrimPadded(pre, "1234", post);
    TrimPadded(pre, "12 34", post);
  }

  /** The circuit answer is upper-cased after trimming, so any spelling whose
      capitals are POWER is accepted, whatever blanks surround it. */
  lemma CircuitAnswerIgnoresCase(pre: string, w: string, post: string)
    requires Blank(pre) && Blank(post)
    requires ToUpper(w) == "POWER"
    ensures AnswerMatches(Circuit, pre + w + post)
  {
    assert UpperChar(w[0]) == 'P' && UpperChar(w[4]) == 'R';
    TrimPadded(pre, w, post);
  }

  /** The sundial answer is compared exactly after trimming: blanks around the
      time are accepted, but anything non-blank after it is not. */
  lemma SundialAnswerIsExact(pre: string, post: string, w: string)
    requires Blank(pre) && Blank(post)
    requires exists k :: 0 <= k < |w| && !IsTrimmable(w[k])
    ensures AnswerMatches(Sundial, pre + "12:00" + post)
    ensures !AnswerMatches(Sundial, "12:00" + w)
  {
    TrimPadded(pre, "12:00", post);
    var s := "12:00" + w;
    var k :| 0 <= k < |w| && !IsTrimmable(w[k]);
    var r := Trim(s);
    var i :| CutAt(s, r, i);
    assert s[0] == '1' && s[5 + k] == w[k];
    KeptInsideCut(s, r, i, 0);
    KeptInsideCut(s, r, i, 5 + k);
  }
}
