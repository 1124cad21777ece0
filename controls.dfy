/** Direction input (script.js:195-207): the arrow keys and the four
    on-screen buttons write the heading directly, except that a request for
    the exact reverse of the current heading is ignored. */
module Controls {
  import opened Grid

  /** A key press: one of the four arrow keys ("ArrowLeft", ...), or any
      other key, which the handler ignores. */
  datatype Key = Arrow(toward: Direction) | OtherKey

  /** The heading after a key press while the game runs: the `if ... else
      if` chain of script.js:197-200. */
  function Steer(d: Direction, key: Key): (r: Direction)
    ensures key.Arrow? && key.toward != Opposite(d) ==> r == key.toward
    ensures !(key.Arrow? && key.toward != Opposite(d)) ==> r == d
    ensures r != Opposite(d)
  {
    if key == Arrow(Left) && d != Right then Left
    else if key == Arrow(Up) && d != Down then Up
    else if key == Arrow(Right) && d != Left then Right
    else if key == Arrow(Down) && d != Up then Down
    else d
  }

  /** Pressing the key of the current heading changes nothing. */
  lemma SteerSameWay(d: Direction)
    ensures Steer(d, Arrow(d)) == d
  {
  }

  /** A perpendicular key always turns. */
  lemma SteerPerpendicular(d: Direction, t: Direction)
    requires t != d && t != Opposite(d)
    ensures Steer(d, Arrow(t)) == t
  {
  }

  /** Steering is idempotent: pressing the same key twice is pressing it
      once, since the handlers keep no pending direction. */
  lemma SteerTwice(d: Direction, key: Key)
    ensures Steer(Steer(d, key), key) == Steer(d, key)
  {
  }

  /** Although one key cannot reverse the snake, two quick presses between
      ticks can, whatever the heading: there is no buffer, so the second is
      judged against the first. */
  lemma TwoPressesReverse(d: Direction)
    ensures exists t ::
              t != d && t != Opposite(d) && Steer(Steer(d, Arrow(t)), Arrow(Opposite(d))) == Opposite(d)
  {
    var t := if d == Left || d == Right then Up else Left;
    assert Steer(Steer(d, Arrow(t)), Arrow(Opposite(d))) == Opposite(d);
  }
}
