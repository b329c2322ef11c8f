/**
 The services the tile explorer consumes but does not own: the hex map, the
 object system, the player entity and the speech channel. Each is reduced to
 the values the explorer reads from it, so that the explorer's own logic can
 be stated over every possible behaviour of its collaborators.
 */
module Collaborators {

  /** A C `int`: tile numbers, directions, distances and rotations are all of this width. */
  type Int32 = x: int | -0x8000_0000 <= x < 0x8000_0000

  datatype Option<+T> = None | Some(value: T)

  /** A C string's contents: the bytes before its terminating NUL, one `char` per byte. */
  type CString = s: string | '\0' !in s

  /**
   The map/tile service. Each field stands for one external function of the
   map code, left uninterpreted: the explorer proves its properties for any
   geometry whatsoever.
   */
  datatype Geometry = Geometry(
    tileInDirection: (Int32, Int32, Int32) -> Int32,   // tileGetTileInDirection(tile, rotation, steps)
    isValid: Int32 -> bool,                            // tileIsValid
    isEdge: Int32 -> bool,                             // tileIsEdge
    distanceBetween: (Int32, Int32) -> Int32,          // tileDistanceBetween
    rotationTo: (Int32, Int32) -> Int32                // tileGetRotationTo
  )

  /**
   One object found at a location, as far as the announcement looks at it:
   whether its hidden flag is set, whether its art type is a floor tile, and
   the display name (`None` for a null name pointer).
   */
  datatype Obj = Obj(hidden: bool, isTile: bool, name: Option<CString>)

  /**
   The world state the explorer reads: the player's tile when a player entity
   exists, the current elevation, and the objects at each (elevation, tile)
   in the order the object system enumerates them.
   */
  datatype World = World(
    dude: Option<Int32>,
    elevation: Int32,
    objectsAt: (Int32, Int32) -> seq<Obj>
  )

  /** One call of the speech channel: the text handed over and whether it interrupts current speech. */
  datatype Utterance = Utterance(text: string, interrupt: bool)
}
