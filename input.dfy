/** The keyboard handler's mapping from a (lower-cased) key name to a move. */
module Input {
  import opened Maze

  datatype Option<T> = None | Some(value: T)

  /** The key names, after lower-casing, that the handler reacts to. */
  const MOVEMENT_KEYS: set<string> :=
    {"arrowup", "w", "arrowdown", "s", "arrowleft", "a", "arrowright", "d"}

  /** Arrow keys and WASD select one of the four unit directions; any other
      key selects no move. */
  function KeyDelta(key: string): (r: Option<Delta>)
    ensures r.Some? <==> key in MOVEMENT_KEYS
    ensures r.Some? ==> r.value in DIRECTIONS
  {
    if key == "arrowup" || key == "w" then Some(UP)
    else if key == "arrowdown" || key == "s" then Some(DOWN)
    else if key == "arrowleft" || key == "a" then Some(LEFT)
    else if key == "arrowright" || key == "d" then Some(RIGHT)
    else None
  }

  /** Each key selects the direction its name says, and each letter is an
      alias of its arrow. */
  lemma KeyDirections()
    ensures KeyDelta("arrowup") == KeyDelta("w") == Some(Delta(0, -1))
    ensures KeyDelta("arrowdown") == KeyDelta("s") == Some(Delta(0, 1))
    ensures KeyDelta("arrowleft") == KeyDelta("a") == Some(Delta(-1, 0))
    ensures KeyDelta("arrowright") == KeyDelta("d") == Some(Delta(1, 0))
  {
  }

  /** A movement key moves to an orthogonal neighbour, never further. */
  lemma KeyMovesOneStep(key: string, c: Cell)
    requires KeyDelta(key).Some?
    ensures Adjacent(c, Shift(c, KeyDelta(key).value))
  {
  }
}
