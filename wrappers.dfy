/** An optional value, for the places where the game produces nothing (an unmapped key, an ignored swipe,
    a run of random draws that never hit a free cell). */
module Wrappers {

  datatype Option<+T> = None | Some(value: T) {

    /** The value held, or `default` when there is none. */
    function GetOr(default: T): T {
      match this
      case Some(v) => v
      case None => default
    }
  }
}
