/**
 * The room catalog: the ten fixed rooms with their grid cells, the features
 * visible in each, which tokens can be collected and which features trigger a
 * puzzle. All of it is constant; collecting an item never edits a room's
 * feature list.
 */
module Catalog {
  import opened Common
  import opened Grid

  const RoomCount: int := 10

  /** A room's identity, map glyph and cell (its description text is not modelled). */
  datatype Room = Room(name: string, symbol: char, position: Position)

  const Rooms: seq<Room> := [
    Room("Main Laboratory", 'M', Position(5, 5)),
    Room("Library", 'L', Position(3, 3)),
    Room("Conservatory", 'C', Position(2, 2)),
    Room("Workshop", 'W', Position(8, 8)),
    Room("Study", 'S', Position(5, 7)),
    Room("Kitchen", 'K', Position(5, 3)),
    Room("Basement Laboratory", 'B', Position(2, 8)),
    Room("Attic", 'A', Position(8, 2)),
    Room("Garden", 'G', Position(7, 6)),
    Room("First Bedroom", 'F', Position(3, 4))
  ]

  /** The features of each room, indexed like `Rooms`. */
  const RoomFeatures: seq<seq<string>> := [
    ["chronosphere", "equipment", "research_manual", "broken_keycard"],
    ["research_manual", "desk", "quantum_equations", "old_diary"],
    ["plants", "fountain", "strange_flower", "garden_tools"],
    ["tools", "workbench", "power_core", "circuits"],
    ["papers", "chair", "blackboard", "time_calculations"],
    ["stove", "ingredients", "recipe_book", "crystal_vial"],
    ["experiments", "tubes", "failed_prototypes", "lab_journal"],
    ["boxes", "window", "old_photographs", "dusty_machine"],
    ["strange_flower", "pond", "sundial", "temporal_anomaly"],
    ["bed", "mirror", "personal_diary", "family_photo"]
  ]

  /** The ten rooms sit on pairwise distinct cells, all inside the grid. */
  lemma RoomsDistinctAndInBounds()
    ensures |Rooms| == RoomCount && |RoomFeatures| == RoomCount
    ensures forall i :: 0 <= i < RoomCount ==> IsValidPosition(Rooms[i].position)
    ensures forall i, j :: 0 <= i < RoomCount && 0 <= j < RoomCount && i != j ==>
              Rooms[i].position != Rooms[j].position
  {
  }

  /** The linear scan of `getRoomAtPosition`, from index `i` onwards. */
  function RoomAtFrom(p: Position, i: nat): (r: Option<Room>)
    requires i <= |Rooms|
    ensures r.Some? ==> exists k :: i <= k < |Rooms| && Rooms[k] == r.value && r.value.position == p
    ensures r.None? <==> forall k :: i <= k < |Rooms| ==> Rooms[k].position != p
    decreases |Rooms| - i
  {
    if i == |Rooms| then None
    else if Rooms[i].position == p then Some(Rooms[i])
    else RoomAtFrom(p, i + 1)
  }

  /** `getRoomAtPosition`: the room on cell `p`, or `None` for empty space. */
  function RoomAtPosition(p: Position): (r: Option<Room>)
    ensures r.Some? ==> r.value in Rooms && r.value.position == p
    ensures r.None? <==> forall k :: 0 <= k < |Rooms| ==> Rooms[k].position != p
  {
    RoomAtFrom(p, 0)
  }

  /** The scan of `getRoomIndex`, from index `i` onwards. */
  function RoomIndexFrom(room: Room, i: nat): (r: int)
    requires i <= |Rooms|
    ensures r == -1 || i <= r < |Rooms|
    ensures r == -1 <==> forall k :: i <= k < |Rooms| ==> Rooms[k] != room
    ensures r >= 0 ==> Rooms[r] == room && forall k :: i <= k < r ==> Rooms[k] != room
    decreases |Rooms| - i
  {
    if i == |Rooms| then -1
    else if Rooms[i] == room then i
    else RoomIndexFrom(room, i + 1)
  }

  /** `getRoomIndex`: the first index holding `room`, or -1. */
  function RoomIndex(room: Room): (r: int)
    ensures -1 <= r < |Rooms|
    ensures r == -1 <==> room !in Rooms
    ensures r >= 0 ==> Rooms[r] == room
  {
    RoomIndexFrom(room, 0)
  }

  /** The two lookups composed, as every caller in the game uses them: the index
      of the room on cell `p`, or `None` for empty space. */
  function RoomIndexAt(p: Position): (r: Option<nat>)
    ensures r.Some? ==> r.value < RoomCount && Rooms[r.value].position == p
    ensures r.None? <==> forall k :: 0 <= k < RoomCount ==> Rooms[k].position != p
  {
    match RoomAtPosition(p)
    case None => None
    case Some(room) => Some(RoomIndex(room))
  }

  /** The lookup finds exactly the room standing on the cell: since cells are
      distinct, room `k` is found on its own cell and on no other. */
  lemma RoomLookupUnique(p: Position, k: nat)
    requires k < RoomCount
    ensures RoomIndexAt(p) == Some(k) <==> Rooms[k].position == p
    ensures Rooms[k].position == p ==> RoomAtPosition(p) == Some(Rooms[k])
  {
    RoomsDistinctAndInBounds();
  }

  /** The player starts in empty space: no room stands on the starting cell. */
  lemma StartIsEmptySpace()
    ensures RoomAtPosition(StartingPosition) == None
    ensures RoomIndexAt(StartingPosition) == None
  {
  }

  /** `hasFeature`: the room's feature list mentions `feature`. */
  predicate HasFeature(room: nat, feature: string)
    requires room < RoomCount
  {
    feature in RoomFeatures[room]
  }

  /** `isCollectible`: the whitelist of tokens that may go into the inventory. */
  predicate IsCollectible(item: Item)
  {
    item in {"research_manual", "broken_keycard", "repaired_keycard", "power_module",
             "temporal_essence", "time_shard", "power_core", "crystal_vial", "strange_flower"}
  }

  /** The feature tokens whose examination runs the puzzle check. */
  predicate IsTrigger(feature: string)
  {
    feature in {"broken_keycard", "circuits", "recipe_book", "sundial"}
  }
}
