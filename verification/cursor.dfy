/**
 The exploration cursor of the tile explorer: a tile number that is either
 `NoTile` (-1, "track the player") or a tile the cursor has been placed on,
 and the transitions `init`, `resetToPlayer` and `move` between those states.
 The cursor is a value here; each operation returns the next one.
 */
module TileExplorer {
  import opened Collaborators

  /** The sentinel stored in the cursor while it tracks the player, and returned when there is no position. */
  const NoTile: Int32 := -1

  /** ROTATION_COUNT: the six hex directions NE, E, SE, SW, W, NW are 0 through 5. */
  const RotationCount: Int32 := 6

  datatype Explorer = Explorer(cursorTile: Int32)

  /** The tile an operation acts on: the cursor when it is set, else the player's tile, else `NoTile`. */
  function EffectiveTile(s: Explorer, w: World): (t: Int32)
    ensures s.cursorTile != NoTile ==> t == s.cursorTile
    ensures s.cursorTile == NoTile && w.dude.Some? ==> t == w.dude.value
    ensures t == NoTile <==> s.cursorTile == NoTile && (w.dude.None? || w.dude.value == NoTile)
  {
    if s.cursorTile != NoTile then s.cursorTile
    else if w.dude.Some? then w.dude.value
    else NoTile
  }

  /**
   The raw cursor, not the effective tile: `NoTile` exactly while the explorer
   follows whatever the player's tile is, otherwise the one tile every
   operation acts on, whoever the player is and wherever they stand.
   */
  function GetCursorTile(s: Explorer): (t: Int32)
    ensures t == NoTile ==> forall w: World :: EffectiveTile(s, w) == (if w.dude.Some? then w.dude.value else NoTile)
    ensures t != NoTile ==> forall w: World :: EffectiveTile(s, w) == t
  {
    s.cursorTile
  }

  /** `init` forgets any placement: the cursor tracks the player again, whatever it held. */
  function Init(): (r: Explorer)
    ensures GetCursorTile(r) == NoTile
  {
    Explorer(NoTile)
  }

  /** `resetToPlayer` snaps the cursor to the player's tile; with no player it changes nothing. */
  function ResetToPlayer(s: Explorer, w: World): (r: Explorer)
    ensures w.dude.Some? ==> GetCursorTile(r) == w.dude.value
    ensures w.dude.None? ==> r == s
  {
    if w.dude.Some? then Explorer(w.dude.value) else s
  }

  datatype MoveResult = MoveResult(moved: bool, explorer: Explorer)

  /** The tile one step from `tile` in `direction`, as the map computes it. */
  function Neighbour(g: Geometry, tile: Int32, direction: Int32): (t: Int32) {
    g.tileInDirection(tile, direction, 1)
  }

  /**
   `move` commits a one-step hex move from the effective tile, but only when the
   direction is one of the six, there is an effective tile, and the map reports
   the target as valid and not on the edge; otherwise it fails and the cursor
   stays exactly as it was.
   */
  function Move(s: Explorer, w: World, g: Geometry, direction: Int32): (r: MoveResult)
    ensures !r.moved ==> r.explorer == s
    ensures r.moved <==>
      && 0 <= direction < RotationCount
      && EffectiveTile(s, w) != NoTile
      && g.isValid(Neighbour(g, EffectiveTile(s, w), direction))
      && !g.isEdge(Neighbour(g, EffectiveTile(s, w), direction))
    ensures r.moved ==> GetCursorTile(r.explorer) == Neighbour(g, EffectiveTile(s, w), direction)
    ensures r.moved ==> g.isValid(GetCursorTile(r.explorer)) && !g.isEdge(GetCursorTile(r.explorer))
  {
    if direction < 0 || direction >= RotationCount then MoveResult(false, s)
    else
      var current := EffectiveTile(s, w);
      if current == NoTile then MoveResult(false, s)
      else
        var next := Neighbour(g, current, direction);
        if !g.isValid(next) || g.isEdge(next) then MoveResult(false, s)
        else MoveResult(true, Explorer(next))
  }

  /** One call into the explorer, with the world as it is at the time of the call. */
  datatype Command =
    | InitCmd
    | ResetCmd(w: World)
    | MoveCmd(w: World, direction: Int32)

  function Step(s: Explorer, g: Geometry, c: Command): (r: Explorer) {
    match c
    case InitCmd => Init()
    case ResetCmd(w) => ResetToPlayer(s, w)
    case MoveCmd(w, d) => Move(s, w, g, d).explorer
  }

  /** The cursor after running `cmds` in order from `s`. */
  function Run(s: Explorer, g: Geometry, cmds: seq<Command>): (r: Explorer)
    decreases |cmds|
  {
    if |cmds| == 0 then s else Step(Run(s, g, cmds[..|cmds| - 1]), g, cmds[|cmds| - 1])
  }

  /**
   Where a cursor may rest: tracking the player, on a tile the map calls valid
   and not an edge, or on a tile that was the player's when some reset in
   `cmds` ran (a reset copies the player's tile without consulting the map).
   */
  ghost predicate Placed(t: Int32, g: Geometry, cmds: seq<Command>) {
    || t == NoTile
    || (g.isValid(t) && !g.isEdge(t))
    || exists i :: 0 <= i < |cmds| && cmds[i].ResetCmd? && cmds[i].w.dude == Some(t)
  }

  /**
   From `init`, no sequence of calls leaves the cursor anywhere but on the
   player, on a valid non-edge tile, or on a tile a reset copied from the player.
   */
  lemma {:induction false} RunKeepsCursorPlaced(g: Geometry, cmds: seq<Command>)
    ensures Placed(GetCursorTile(Run(Init(), g, cmds)), g, cmds)
    decreases |cmds|
  {
    if |cmds| > 0 {
      var prefix := cmds[..|cmds| - 1];
      var last := cmds[|cmds| - 1];
      RunKeepsCursorPlaced(g, prefix);
      var before := Run(Init(), g, prefix);
      var t := GetCursorTile(before);
      assert Placed(t, g, prefix);
      if exists i :: 0 <= i < |prefix| && prefix[i].ResetCmd? && prefix[i].w.dude == Some(t) {
        var i :| 0 <= i < |prefix| && prefix[i].ResetCmd? && prefix[i].w.dude == Some(t);
        assert cmds[i] == prefix[i];
      }
      match last
      case InitCmd =>
      case ResetCmd(w) =>
        if w.dude.Some? {
          assert cmds[|cmds| - 1].ResetCmd? && cmds[|cmds| - 1].w.dude == Some(w.dude.value);
        }
      case MoveCmd(w, d) =>
    }
  }

  /**
   Once a move succeeds the explorer acts on the new tile, wherever the player
   goes afterwards, provided the map never calls the sentinel -1 a valid tile.
   */
  lemma MoveDisplacesCursor(s: Explorer, w: World, g: Geometry, direction: Int32, later: World)
    requires !g.isValid(NoTile)
    requires Move(s, w, g, direction).moved
    ensures EffectiveTile(Move(s, w, g, direction).explorer, later)
         == Neighbour(g, EffectiveTile(s, w), direction)
  {
  }

  /** `init` forgets everything: two cursors become equal after it, and a second `init` changes nothing. */
  lemma InitForgetsCursor(s: Explorer, g: Geometry)
    ensures Step(s, g, InitCmd) == Init()
    ensures Step(Step(s, g, InitCmd), g, InitCmd) == Step(s, g, InitCmd)
  {
  }

  /** After `init` the explorer follows the player: it acts on the player's tile, or on nothing without a player. */
  lemma InitTracksPlayer(w: World)
    ensures w.dude.Some? ==> EffectiveTile(Init(), w) == w.dude.value
    ensures w.dude.None? ==> EffectiveTile(Init(), w) == NoTile
  {
  }

  /**
   The accessor reports the raw cursor, not the effective tile: while the
   explorer tracks a player standing on a real tile it reports -1, although
   operations act on the player's tile.
   */
  lemma GetCursorTileIsRaw(w: World)
    requires w.dude.Some? && w.dude.value != NoTile
    ensures GetCursorTile(Init()) == NoTile
    ensures EffectiveTile(Init(), w) == w.dude.value != GetCursorTile(Init())
  {
  }

  /**
   A reset does not consult the map: a player standing on an edge tile takes
   the cursor onto that edge tile, which no move could have done.
   */
  lemma ResetCanLandOnEdge(w: World, g: Geometry)
    requires w.dude.Some? && g.isEdge(w.dude.value)
    ensures g.isEdge(GetCursorTile(Run(Init(), g, [ResetCmd(w)])))
  {
  }

  /**
   When every reset copies a tile the map accepts (or the sentinel), the cursor
   is only ever tracking the player or on a valid tile that is not an edge.
   */
  lemma RunKeepsCursorOnMap(g: Geometry, cmds: seq<Command>)
    requires forall i :: 0 <= i < |cmds| && cmds[i].ResetCmd? && cmds[i].w.dude.Some? ==>
               var t := cmds[i].w.dude.value; t == NoTile || (g.isValid(t) && !g.isEdge(t))
    ensures var t := GetCursorTile(Run(Init(), g, cmds)); t == NoTile || (g.isValid(t) && !g.isEdge(t))
  {
  }
}
