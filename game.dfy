/** Board dimensions and the first draft of the item traits (game.rs). */
module Game {
  import opened Ints
  import opened Geometry

  /** Columns and rows of the board. */
  const MAX_X: nat := 15
  const MAX_Y: nat := 10

  /** `in_bound`. Coordinates are `usize` in the firmware; a step below zero wraps to a huge
      value there and is a negative number here, and both fail the test. */
  predicate InBound(x: int, y: int) {
    0 <= x < MAX_X && 0 <= y < MAX_Y
  }

  /** The default `Tick::tick`: nothing happened. */
  function DefaultTick(time: u128): (changed: bool)
    ensures !changed
  {
    false
  }

  /** The draft `Coord::set_x`/`set_y` assign the argument into the temporary copy that
      `coords()` returns by value; the copy is dropped, so the stored point comes back
      unchanged and the argument has no effect. */
  function DraftSetX(stored: Point, x: int): (r: Point)
    ensures r == stored
  {
    stored
  }

  function DraftSetY(stored: Point, y: int): (r: Point)
    ensures r == stored
  {
    stored
  }

  /** The evidently intended `move_if_in_bound`: the setters write the stored point, so an
      on-board target becomes the new position and an off-board one is ignored. */
  function IntendedMoveIfInBound(stored: Point, x: int, y: int): (r: Point)
    ensures InBound(x, y) ==> r == Point(x, y)
    ensures !InBound(x, y) ==> r == stored
  {
    if InBound(x, y) then stored.(x := x).(y := y) else stored
  }

  /** With the intended setters an on-board item stays on the board whatever it is asked,
      and a step up followed by a step down brings it back where it was. */
  lemma IntendedStepsMove(p: Point, x: int, y: int)
    requires InBound(p.x, p.y)
    ensures var r := IntendedMoveIfInBound(p, x, y); InBound(r.x, r.y)
    ensures InBound(p.x, p.y + 1) ==>
      var up := IntendedMoveIfInBound(p, DraftUpTarget(p).x, DraftUpTarget(p).y);
      up != p && IntendedMoveIfInBound(up, DraftDownTarget(up).x, DraftDownTarget(up).y) == p
  {
  }

  /** `move_if_in_bound`: writes through the setters only when the target is on the board. */
  function MoveIfInBound(stored: Point, x: int, y: int): (r: Point)
    ensures r == stored
  {
    if InBound(x, y) then DraftSetY(DraftSetX(stored, x), y) else stored
  }

  /** The draft's step targets: in this trait up is y + 1 and down is y - 1, the opposite of
      the engine's convention. */
  function DraftUpTarget(p: Point): (t: Point)
    ensures t.x == p.x && t.y == p.y + 1
  {
    Point(p.x, p.y + 1)
  }

  function DraftDownTarget(p: Point): (t: Point)
    ensures t.x == p.x && t.y == p.y - 1
  {
    Point(p.x, p.y - 1)
  }

  function DraftRightTarget(p: Point): (t: Point)
    ensures t.x == p.x + 1 && t.y == p.y
  {
    Point(p.x + 1, p.y)
  }

  function DraftLeftTarget(p: Point): (t: Point)
    ensures t.x == p.x - 1 && t.y == p.y
  {
    Point(p.x - 1, p.y)
  }

  function DraftMoveUp(stored: Point): Point { MoveIfInBound(stored, DraftUpTarget(stored).x, DraftUpTarget(stored).y) }
  function DraftMoveDown(stored: Point): Point { MoveIfInBound(stored, DraftDownTarget(stored).x, DraftDownTarget(stored).y) }
  function DraftMoveRight(stored: Point): Point { MoveIfInBound(stored, DraftRightTarget(stored).x, DraftRightTarget(stored).y) }
  function DraftMoveLeft(stored: Point): Point { MoveIfInBound(stored, DraftLeftTarget(stored).x, DraftLeftTarget(stored).y) }

  /** None of the draft step functions moves anything, in bounds or not: an item at (0, 0)
      asked to step to the free on-board square (0, 1) stays at (0, 0). */
  lemma DraftStepsAreInert(p: Point)
    ensures DraftMoveUp(p) == p && DraftMoveDown(p) == p
    ensures DraftMoveRight(p) == p && DraftMoveLeft(p) == p
    ensures InBound(0, 1) && DraftMoveUp(Point(0, 0)) == Point(0, 0)
    ensures IntendedMoveIfInBound(Point(0, 0), 0, 1) == Point(0, 1)
  {
  }
}
