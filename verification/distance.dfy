/**
 The distance announcement: how far, and in which hex direction, the cursor
 lies from the player, phrased "1 tile <direction>" or "<N> tiles <direction>".
 `ParsePhrase` reads a phrase back; the round trip shows the phrase carries
 the distance, the wording that agrees with it, and the direction, unambiguously.
 */
module Distance {
  import opened Collaborators
  import opened CText
  import opened TileExplorer
  import TileContents

  /** kDirectionNames, indexed by ROTATION_NE .. ROTATION_NW. */
  const DirectionNames: seq<string> := ["northeast", "east", "southeast", "southwest", "west", "northwest"]

  /** sizeof(announcement) in the distance announcement. */
  const PhraseBufferSize: nat := 256

  /** ROTATION_SE */
  const SouthEast: Int32 := 2

  /**
   The table index used for a rotation the map reports: the rotation itself
   when it is one of the six, otherwise the guard's fallback 0 (northeast).
   */
  function DirectionIndex(rotation: Int32): (i: nat)
    ensures i < |DirectionNames|
    ensures 0 <= rotation < RotationCount ==> i == rotation
    ensures !(0 <= rotation < RotationCount) ==> DirectionNames[i] == "northeast"
  {
    if 0 <= rotation < RotationCount then rotation as nat else 0
  }

  /**
   "1 tile <direction>" for a distance of exactly one, "<N> tiles <direction>"
   with N in `%d` form for every other distance. It always fits, with its NUL,
   in the 256-byte buffer it is printed into.
   */
  function DistancePhrase(distance: Int32, rotation: Int32): (r: string)
    ensures |r| < PhraseBufferSize
  {
    IntToDecimalLength(distance);
    var name := DirectionNames[DirectionIndex(rotation)];
    if distance == 1 then "1 tile " + name else IntToDecimal(distance) + " tiles " + name
  }

  /**
   What `announceDistanceFromPlayer` speaks, always interrupting: "No player
   position" without a player; "At player position" when the cursor tracks the
   player or sits on the player's tile; otherwise the phrase for the map's
   distance and rotation from the player to the cursor, untruncated.
   */
  function AnnounceDistanceFromPlayer(s: Explorer, w: World, g: Geometry): (u: Utterance)
    ensures u.interrupt
    ensures w.dude.None? ==> u.text == "No player position"
    ensures w.dude.Some? && (GetCursorTile(s) == NoTile || GetCursorTile(s) == w.dude.value) ==>
              u.text == "At player position"
    ensures w.dude.Some? && GetCursorTile(s) != NoTile && GetCursorTile(s) != w.dude.value ==>
              u.text == DistancePhrase(g.distanceBetween(w.dude.value, GetCursorTile(s)),
                                       g.rotationTo(w.dude.value, GetCursorTile(s)))
  {
    if w.dude.None? then Utterance("No player position", true)
    else
      var player := w.dude.value;
      var cursor := s.cursorTile;
      if cursor == NoTile || cursor == player then Utterance("At player position", true)
      else
        var phrase := DistancePhrase(g.distanceBetween(player, cursor), g.rotationTo(player, cursor));
        Utterance(Snprintf("", 0, PhraseBufferSize, phrase).0, true)
  }

  // ---------------------------------------------------------------------------
  // Reading a phrase back

  /** The text before the first space, and the text after it ("" when there is no space). */
  function SplitAtSpace(s: string): (r: (string, string))
    decreases |s|
  {
    if |s| == 0 then ("", "")
    else if s[0] == ' ' then ("", s[1..])
    else var (word, rest) := SplitAtSpace(s[1..]); ([s[0]] + word, rest)
  }

  /** The first index at or after `from` where `table` holds `name`. */
  function IndexOf(table: seq<string>, name: string, from: nat): (r: Option<nat>)
    decreases |table| - from
  {
    if from >= |table| then None
    else if table[from] == name then Some(from)
    else IndexOf(table, name, from + 1)
  }

  datatype Reading = Reading(distance: int, direction: nat)

  /**
   Reads "<N> tile(s) <direction>": the number, a wording that must agree with
   it ("tile" for one, "tiles" otherwise), and a direction name from the table.
   */
  function ParsePhrase(s: string): (r: Option<Reading>) {
    var (number, rest) := SplitAtSpace(s);
    var (word, name) := SplitAtSpace(rest);
    match (ParseInt(number), IndexOf(DirectionNames, name, 0))
    case (Some(d), Some(k)) =>
      if (word == "tile" && d == 1) || (word == "tiles" && d != 1) then Some(Reading(d, k)) else None
    case _ => None
  }

  /** The second word of a phrase: its wording. */
  function Wording(s: string): (r: string) {
    SplitAtSpace(SplitAtSpace(s).1).0
  }

  lemma {:induction false} SplitAfterWord(word: string, rest: string)
    requires ' ' !in word
    ensures SplitAtSpace(word + " " + rest) == (word, rest)
    decreases |word|
  {
    if |word| == 0 {
      assert word + " " + rest == [' '] + rest;
    } else {
      assert (word + " " + rest)[1..] == word[1..] + " " + rest;
      SplitAfterWord(word[1..], rest);
      assert [word[0]] + word[1..] == word;
    }
  }

  /** Each of the six names is found at its own index: the names are distinct. */
  lemma DirectionNamesDistinct(i: nat)
    requires i < |DirectionNames|
    ensures IndexOf(DirectionNames, DirectionNames[i], 0) == Some(i)
  {
  }

  /** A phrase assembled from a number, a wording and a name, none with a space in the first two, splits back into them. */
  lemma SplitPhrase(number: string, word: string, name: string)
    requires ' ' !in number && ' ' !in word
    ensures SplitAtSpace(number + " " + word + " " + name) == (number, word + " " + name)
    ensures SplitAtSpace(word + " " + name) == (word, name)
  {
    assert number + " " + word + " " + name == number + " " + (word + " " + name);
    SplitAfterWord(number, word + " " + name);
    SplitAfterWord(word, name);
  }

  /**
   The phrase reads back as the distance the map reported and the direction
   index the guard chose, and its wording is "tile" exactly when the distance
   is one.
   */
  lemma PhraseRoundTrip(distance: Int32, rotation: Int32)
    ensures ParsePhrase(DistancePhrase(distance, rotation)) == Some(Reading(distance, DirectionIndex(rotation)))
    ensures Wording(DistancePhrase(distance, rotation)) == if distance == 1 then "tile" else "tiles"
  {
    var k := DirectionIndex(rotation);
    var name := DirectionNames[k];
    var word := if distance == 1 then "tile" else "tiles";
    var number := IntToDecimal(distance);
    assert IntToDecimal(1) == "1";
    assert DistancePhrase(distance, rotation) == number + " " + word + " " + name;
    DecimalHasNoSpace(distance);
    SplitPhrase(number, word, name);
    IntToDecimalRoundTrip(distance);
    DirectionNamesDistinct(k);
  }

  // ---------------------------------------------------------------------------
  // Scenarios

  /** With no cursor and no player there is no position to describe and no player to measure from. */
  lemma NothingToAnnounce(w: World, g: Geometry)
    requires w.dude.None?
    ensures TileContents.AnnounceCurrentTile(Init(), w) == Utterance("No position", true)
    ensures AnnounceDistanceFromPlayer(Init(), w, g) == Utterance("No player position", true)
  {
  }

  /**
   A player on a tile T (not the sentinel -1), the cursor tracking them, and a move south-east onto a
   neighbour the map reports one tile away in that direction: the move
   succeeds, the explorer now acts on that neighbour, and the distance
   announcement is "1 tile southeast".
   */
  lemma MoveSouthEastThenAnnounce(w: World, g: Geometry)
    requires w.dude.Some? && w.dude.value != NoTile
    requires !g.isValid(NoTile)
    requires var n := Neighbour(g, w.dude.value, SouthEast);
             && g.isValid(n) && !g.isEdge(n) && n != w.dude.value
             && g.distanceBetween(w.dude.value, n) == 1
             && g.rotationTo(w.dude.value, n) == SouthEast
    ensures Move(Init(), w, g, SouthEast).moved
    ensures EffectiveTile(Move(Init(), w, g, SouthEast).explorer, w) == Neighbour(g, w.dude.value, SouthEast)
    ensures AnnounceDistanceFromPlayer(Move(Init(), w, g, SouthEast).explorer, w, g).text == "1 tile southeast"
  {
  }
}
