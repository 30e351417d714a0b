/** How the page turns a mouse drag, a touch swipe or an arrow key into the direction of
    a move (`handleMouseUp`, `handleSwipe`, `handleKeyDown`). */
module Input {
  import opened Tiles

  /** The shortest drag or swipe, in pixels, that counts as a move. */
  const MinDistance: int := 30

  function Abs(x: int): int {
    if x < 0 then -x else x
  }

  /** The direction of a drag or swipe of `dx` pixels rightward and `dy` pixels downward:
      none when both are shorter than the threshold; otherwise the horizontal direction
      given by the sign of `dx` when `|dx| > |dy|`, and the vertical direction given by
      the sign of `dy` when `|dx| <= |dy|`. */
  function GestureDirection(dx: int, dy: int): Option<Direction> {
    var absX, absY := Abs(dx), Abs(dy);
    if (if absX < absY then absY else absX) < MinDistance then None
    else if absX > absY then Some(if dx > 0 then Right else Left)
    else Some(if dy > 0 then Down else Up)
  }

  /** How far the gesture goes in direction `d` (screen rows grow downward). */
  function Projection(d: Direction, dx: int, dy: int): int {
    match d
    case Up => -dy
    case Down => dy
    case Left => -dx
    case Right => dx
  }

  predicate Vertical(d: Direction) {
    d == Up || d == Down
  }

  /** `d` is the direction the gesture goes furthest in; a horizontal direction must beat
      both vertical ones outright. */
  predicate Dominant(d: Direction, dx: int, dy: int) {
    && (forall e :: Projection(e, dx, dy) <= Projection(d, dx, dy))
    && (!Vertical(d) ==> forall e :: Vertical(e) ==> Projection(e, dx, dy) < Projection(d, dx, dy))
  }

  /** A gesture gives no move exactly when it is shorter than the threshold along both
      axes; otherwise it gives exactly the dominant direction, ties going to the vertical
      axis. */
  lemma GestureIsDominant(dx: int, dy: int)
    ensures GestureDirection(dx, dy).None? <==> Abs(dx) < MinDistance && Abs(dy) < MinDistance
    ensures forall d :: GestureDirection(dx, dy) == Some(d) <==>
      (Abs(dx) >= MinDistance || Abs(dy) >= MinDistance) && Dominant(d, dx, dy)
  {
    forall d | (Abs(dx) >= MinDistance || Abs(dy) >= MinDistance) && Dominant(d, dx, dy)
      ensures GestureDirection(dx, dy) == Some(d)
    {
      assert Projection(Up, dx, dy) <= Projection(d, dx, dy);
      assert Projection(Down, dx, dy) <= Projection(d, dx, dy);
      assert Projection(Left, dx, dy) <= Projection(d, dx, dy);
      assert Projection(Right, dx, dy) <= Projection(d, dx, dy);
    }
  }

  /** Swapping the sign of both offsets reverses the direction. */
  function Opposite(d: Direction): Direction {
    match d
    case Up => Down
    case Down => Up
    case Left => Right
    case Right => Left
  }

  lemma GestureReversed(dx: int, dy: int)
    ensures GestureDirection(-dx, -dy) ==
      match GestureDirection(dx, dy)
      case None => None
      case Some(d) => Some(Opposite(d))
  {
  }

  /** The direction named by a key, for the four arrow keys; none for any other key. */
  function KeyDirection(key: string): Option<Direction> {
    if key == "ArrowUp" then Some(Up)
    else if key == "ArrowDown" then Some(Down)
    else if key == "ArrowLeft" then Some(Left)
    else if key == "ArrowRight" then Some(Right)
    else None
  }

  /** The arrow key of a direction. */
  function KeyName(d: Direction): string {
    match d
    case Up => "ArrowUp"
    case Down => "ArrowDown"
    case Left => "ArrowLeft"
    case Right => "ArrowRight"
  }

  /** The four arrow keys map one-to-one onto the four directions, and every other key
      gives no direction. */
  lemma KeysOneToOne(key: string)
    ensures forall d :: KeyDirection(KeyName(d)) == Some(d)
    ensures forall d :: KeyDirection(key) == Some(d) <==> key == KeyName(d)
    ensures KeyDirection(key).None? <==> forall d :: key != KeyName(d)
  {
    assert KeyName(Up) == "ArrowUp";
    assert KeyName(Down) == "ArrowDown";
    assert KeyName(Left) == "ArrowLeft";
    assert KeyName(Right) == "ArrowRight";
  }
}
