/**
 * The mansion's 10x10 grid: positions, the four movement directions and the
 * bounds check. Rooms sit on some cells; every other cell is empty space that
 * the player may still walk onto.
 */
module Grid {
  import opened Common

  const MapSize: int := 10

  /** `Position` is a plain integer pair; y grows southwards. */
  datatype Position = Position(x: int, y: int)

  /** Where a new game puts the player. */
  const StartingPosition: Position := Position(3, 5)

  /** `isValidPosition`: inside the grid, no wrap-around. */
  predicate IsValidPosition(p: Position)
  {
    0 <= p.x < MapSize && 0 <= p.y < MapSize
  }

  /** The four direction tokens `calculateNewPosition` understands. */
  predicate IsDirection(direction: string)
  {
    direction == "north" || direction == "south" || direction == "east" || direction == "west"
  }

  /** `calculateNewPosition`: the neighbouring cell in the given direction, with no
      bounds check, or `None` for any other token. */
  function CalculateNewPosition(p: Position, direction: string): (r: Option<Position>)
    ensures r.Some? <==> IsDirection(direction)
    ensures direction == "north" ==> r == Some(Position(p.x, p.y - 1))
    ensures direction == "south" ==> r == Some(Position(p.x, p.y + 1))
    ensures direction == "east" ==> r == Some(Position(p.x + 1, p.y))
    ensures direction == "west" ==> r == Some(Position(p.x - 1, p.y))
  {
    match direction
    case "north" => Some(Position(p.x, p.y - 1))
    case "south" => Some(Position(p.x, p.y + 1))
    case "east" => Some(Position(p.x + 1, p.y))
    case "west" => Some(Position(p.x - 1, p.y))
    case _ => None
  }

  function Opposite(direction: string): (r: string)
    requires IsDirection(direction)
    ensures IsDirection(r) && r != direction
  {
    match direction
    case "north" => "south"
    case "south" => "north"
    case "east" => "west"
    case _ => "east"
  }

  /** Every direction moves exactly one step along exactly one axis. */
  lemma MoveIsOneStep(p: Position, direction: string)
    requires IsDirection(direction)
    ensures var q := CalculateNewPosition(p, direction).value;
            (q.x == p.x && (q.y == p.y - 1 || q.y == p.y + 1))
            || (q.y == p.y && (q.x == p.x - 1 || q.x == p.x + 1))
  {
  }

  /** A move followed by the opposite move returns to the starting cell. */
  lemma MoveThenOpposite(p: Position, direction: string)
    requires IsDirection(direction)
    ensures CalculateNewPosition(CalculateNewPosition(p, direction).value, Opposite(direction)) == Some(p)
  {
  }
}
