# Tile explorer: a Dafny model

This project models the tile explorer of the Fallout 2 Community Edition
accessibility layer. A non-visual player moves an exploration cursor over the
hex map and hears what lies on the cursor's tile and how far the cursor is
from the player.

The model has three parts, each backed by proofs:

- **The exploration cursor** (`cursor.dfy`, module `TileExplorer`). The cursor
  is a C `int` in which -1 means "track the player". It has three operations:
  - `Init` makes the cursor track the player again.
  - `ResetToPlayer` snaps the cursor to the player's tile.
  - `Move` takes one hex step from the effective tile. The step is committed
    only if the map reports the target as valid and not an edge tile.

  Operations are pure transitions on an `Explorer` value. `Run` folds a
  sequence of calls over that value.
- **The tile-contents announcement** (`tile_contents.dfy`, module
  `TileContents`). It scans the objects at the effective tile and passes over
  hidden objects, floor tiles, and missing or empty names. It joins the other
  names with ", " inside a 1024-byte buffer that keeps a 15-byte reserve. It
  stops after ten names and then appends ", and more". The model states this
  twice:
  - `Select` gives the admitted names as a list.
  - `AnnounceCurrentTileByScan` repeats the code's byte-level loop, with a
    position counter, `snprintf` and `break`. It is proved to produce the
    list's message.
- **The distance announcement** (`distance.dfy`, module `Distance`). It
  builds "1 tile <direction>" or "<N> tiles <direction>" and guards the
  direction index. A parser reads the phrase back, which proves that the
  phrase is unambiguous.

The modules are supported by `collaborators.dfy` and `ctext.dfy`:

- `collaborators.dfy` holds the services the explorer consumes: the map, the
  objects and player of the world, and the speech call.
- `ctext.dfy` holds the C library behaviour the messages rely on: `snprintf`
  into a bounded buffer and `%d` formatting, with the formatter proved
  invertible.

Collaborators are passed in as values, not read from globals:

- The map functions (`tileGetTileInDirection`, `tileIsValid`, `tileIsEdge`,
  `tileDistanceBetween`, `tileGetRotationTo`) are fields of a `Geometry`
  record. They are uninterpreted function values, so every property holds
  for any map.
- `gDude` and `gElevation` become fields of a `World` value.
- The object iterator becomes a function from (elevation, tile) to the
  sequence of objects found there.
- Speech becomes the returned `Utterance(text, interrupt)`.

The model follows the code in these less obvious points:

- `resetToPlayer` without a player leaves the cursor unchanged. It does not
  clear it.
- ", and more" is appended as soon as the tenth name is admitted, even when no
  further object exists (`ManyNamesSayAndMore`).
- The ten-name cap is reached only by names that fit the budget. When more
  than ten objects qualify but their names are long, no ", and more" appears.
  Over-long names are passed over, not counted.
- A reset copies the player's tile into the cursor without asking the map.
  So the cursor is "valid and not an edge" only for positions reached by
  `Move`. `ResetCanLandOnEdge` shows a reset placing it on an edge tile.
  `RunKeepsCursorPlaced` states the invariant that does hold, and
  `RunKeepsCursorOnMap` the stronger one when every reset copies a tile
  the map accepts.

## Model

| member | source | states |
|---|---|---|
| `TileExplorer.EffectiveTile` | src/tile_explorer.cc:32-41 | The effective tile is the cursor when it is set, else the player's tile. It is -1 exactly when the cursor is unset and there is no player, or the player's tile is -1. |
| `TileExplorer.GetCursorTile` | src/tile_explorer.cc:167-170 | The accessor returns the raw cursor. When it is -1 the effective tile follows the player in every world. Otherwise the effective tile is that value in every world. |
| `TileExplorer.Init` | src/tile_explorer.cc:43-46 | After `init` the raw cursor is -1 (tracking the player), whatever it held before. |
| `TileExplorer.InitForgetsCursor` | src/tile_explorer.cc:43-46 | `init` maps every cursor to the same state, and a second `init` changes nothing (idempotence). |
| `TileExplorer.InitTracksPlayer` | src/tile_explorer.cc:32-46 | After `init` the effective tile is the player's tile, or -1 without a player. |
| `TileExplorer.GetCursorTileIsRaw` | src/tile_explorer.cc:167-170 | The accessor reports the raw cursor. While tracking a player on a real tile it returns -1, which differs from the effective tile. |
| `TileExplorer.ResetToPlayer` | src/tile_explorer.cc:48-53 | With a player the cursor becomes the player's tile. Without one the explorer is returned unchanged. |
| `TileExplorer.Move` | src/tile_explorer.cc:55-79 | A move succeeds iff the direction is in 0..5, an effective tile exists, and the one-step target is valid and not an edge. On failure the explorer is unchanged. On success the cursor is exactly that target, which is valid and not an edge. |
| `TileExplorer.MoveDisplacesCursor` | src/tile_explorer.cc:32-41 | After a successful move the effective tile is the moved-to tile, however the player moves later (given the map never calls -1 valid). |
| `TileExplorer.RunKeepsCursorPlaced` | src/tile_explorer.cc:43-79 | From `init`, after any sequence of init/reset/move calls the cursor tracks the player, is on a valid non-edge tile, or is a player tile that some reset copied. |
| `TileExplorer.ResetCanLandOnEdge` | src/tile_explorer.cc:48-53 | A reset while the player stands on an edge tile puts the cursor on that edge tile. |
| `TileExplorer.RunKeepsCursorOnMap` | src/tile_explorer.cc:43-79 | If every reset copies -1 or a valid non-edge tile, then after any sequence of calls from `init` the cursor is -1 or on a valid non-edge tile. |
| `CText.Snprintf` | src/tile_explorer.cc:109-111 | Writing into the buffer returns the full length of the string. It keeps room for the NUL and only extends the text. It writes the whole string iff the string fits before the NUL. |
| `CText.IntToDecimalRoundTrip` | src/tile_explorer.cc:161 | Parsing the `%d` rendering of any integer gives the integer back. |
| `CText.IntToDecimalLength` | src/tile_explorer.cc:157-161 | `%d` of a C `int` is 1 to 11 bytes long. |
| `TileContents.JoinStartsWithFirst` | src/tile_explorer.cc:108-111 | The joined names begin with the first name: there is no leading separator. |
| `TileContents.JoinAppend` | src/tile_explorer.cc:108-111 | Joining two non-empty name lists puts exactly one ", " between them. |
| `TileContents.FitsMeansJoinFits` | src/tile_explorer.cc:103-107 | The admission test `pos + nameLen + sep + 15 < 1024` holds iff the message with the name added still leaves the 15-byte reserve. |
| `TileContents.SelectWithinLimits` | src/tile_explorer.cc:103-119 | The scan admits at most ten names. All are non-empty, and their joined text leaves the reserve free. |
| `TileContents.SelectKeepsOrder` | src/tile_explorer.cc:95-111 | The scan only appends. What it appends is a subsequence of the qualifying names: no hidden object, floor tile, or null or empty name, and iteration order kept. |
| `TileContents.CapStopsScan` | src/tile_explorer.cc:115-119 | Once ten names are admitted, no object enumerated afterwards can change the result. |
| `TileContents.SelectTakesAllThatFit` | src/tile_explorer.cc:103-113 | If the first qualifying names up to the cap fit the budget together, exactly those are announced. |
| `TileContents.SelectSnoc` | src/tile_explorer.cc:95-124 | The names admitted from a list of objects plus one more are those admitted from the list, then one scan step over the last object. That step appends its name iff it qualifies, fewer than ten are in, and it fits. |
| `TileContents.SelectExtendsPrefix` | src/tile_explorer.cc:95-124 | The names admitted from a prefix of the objects are a prefix of the names admitted from all of them. |
| `TileContents.NameDroppedOnlyWhenFullOrTooLong` | src/tile_explorer.cc:103-119 | A qualifying object's name is announced after the earlier admitted names when fewer than ten are in and it fits. Otherwise the object changes nothing and the scan goes on. |
| `TileContents.EmptyIffNoNameFits` | src/tile_explorer.cc:103-127 | No name is admitted (so "Empty" is spoken) exactly when no qualifying object's name fits the empty buffer with the reserve. |
| `TileContents.NoQualifyingObjectIsEmpty` | src/tile_explorer.cc:126-127 | A tile with no qualifying object is announced as "Empty". |
| `TileContents.MessageProperties` | src/tile_explorer.cc:89-130 | For any objects, the message lists at most ten qualifying names in order. It is non-empty, and with ", and more" and the NUL it fits the 1024-byte buffer. |
| `TileContents.ManyNamesSayAndMore` | src/tile_explorer.cc:115-119 | With ten or more short qualifying objects, the first ten names are announced followed by ", and more". This includes the case of exactly ten objects. |
| `TileContents.AnnounceCurrentTile` | src/tile_explorer.cc:81-131 | The tile announcement always interrupts. It is "No position" without an effective tile. Otherwise it is "Empty" when no name was admitted, the admitted names joined with ", " when one to nine were, and those names plus ", and more" when ten were. It is never empty and is shorter than 1024 bytes. |
| `TileContents.AnnounceCurrentTileByScan` | src/tile_explorer.cc:89-130 | The loop with `pos`, `objectCount`, `snprintf` and `break` speaks exactly the list-level announcement. So no `snprintf` truncates, and `pos` always equals the text length. |
| `Distance.DirectionIndex` | src/tile_explorer.cc:152-155 | An in-range rotation indexes its own name. Any other rotation falls back to "northeast". |
| `Distance.DistancePhrase` | src/tile_explorer.cc:157-162 | The distance phrase, NUL included, always fits the 256-byte buffer. |
| `Distance.AnnounceDistanceFromPlayer` | src/tile_explorer.cc:133-165 | The distance announcement always interrupts. It is "No player position" without a player, and "At player position" when the cursor is -1 or on the player's tile. Otherwise it is the untruncated phrase for the map's distance and rotation from player to cursor. |
| `Distance.DirectionNamesDistinct` | src/tile_explorer.cc:22-29 | The six direction names are distinct: each is found at its own index. |
| `Distance.PhraseRoundTrip` | src/tile_explorer.cc:157-162 | The phrase parses back to the reported distance and the guarded direction index. Its wording is "tile" exactly when the distance is 1. |
| `Distance.NothingToAnnounce` | src/tile_explorer.cc:81-137 | With the cursor unset and no player, the tile announcement is "No position" and the distance announcement is "No player position". |
| `Distance.MoveSouthEastThenAnnounce` | src/tile_explorer.cc:133-165 | Take a player on tile T with the cursor unset, and a south-east neighbour the map reports as valid, one tile away and south-east. Then `move(SE)` succeeds, the effective tile is that neighbour, and the distance announcement is "1 tile southeast". |

## Left out

- The speech service (`src/tolk.cc`) is not part of this model. That covers
  library loading, entry-point lookup, UTF-8 to UTF-16 conversion and the
  platform stubs, all of which are foreign calls. A speech call is
  represented by the `Utterance` an announcement returns.
- Hex geometry is not modelled. Adjacency, validity, edges, distance and
  rotation are uninterpreted `Geometry` fields, so no property depends on how
  the map computes them.
- The object iterator's hidden global state is replaced by the sequence of
  objects at a location. `objectGetName`, `FID_TYPE` and the `OBJECT_HIDDEN`
  bit test become the fields `name`, `isTile` and `hidden` of `Obj`.
- `CText.Snprintf` models only a write at the end of the current text
  (`pos == |text|`), the only way the explorer calls it. Writes at other
  offsets are not modelled.
- Strings are sequences of bytes, one `char` each. A name is the content
  before its NUL terminator, so names containing NUL are excluded by type.
- `TileExplorer.MoveDisplacesCursor` and `Distance.MoveSouthEastThenAnnounce`
  assume that the map never reports the sentinel -1 as a valid tile. The map
  code is not part of this model.
- The C `int` counters `pos` and `objectCount` are unbounded in the model. The
  proofs show that they stay at most 1024 and at most 10, far from overflow.
