/**
 * The action/reaction vocabulary exchanged between items and the grid resolver
 * (level/actions.rs, in the form grid.rs and the item files use it).
 */
module Actions {
  /** A slot of the board: column `x`, row `y`, depth layer `z`. Rows and columns are
      `usize` in the firmware; a step below zero is kept here as a negative number,
      which every bounds check rejects exactly as it rejects the wrapped-around value. */
  datatype Target = Target(x: int, y: int, z: nat)

  /** `MoveDestination`. */
  datatype Direction = Up | Down | Left | Right

  /** The kind of actor that requested a move. */
  datatype Who = Wizard

  /** The sub-tile pixel shift of an animated redraw. The firmware computes it in
      floating point from the elapsed ticks along the direction of travel; the model
      keeps which direction and which elapsed time it was computed from. */
  datatype AnimShift = NoShift | Slide(dir: Direction, elapsed: nat)

  /** `Actions`. */
  datatype ActionKind =
    | Move(dest: Direction, who: Who)
    | Redraw
    | RedrawAnim(shift: AnimShift, previous: Target)
    | InitSpell(dest: Direction)
    | Block(on: bool)
    | Win

  datatype Action = Action(target: Target, kind: ActionKind)

  datatype RedrawRequest = RedrawRequest(target: Target, shift: AnimShift)

  function Opposite(d: Direction): (o: Direction)
    ensures o != d
  {
    match d
    case Up => Down
    case Down => Up
    case Left => Right
    case Right => Left
  }

  /** Column and row offsets of one step: Up decrements y, Down increments y,
      Left decrements x, Right increments x. */
  function Dx(d: Direction): int { match d case Left => -1 case Right => 1 case _ => 0 }
  function Dy(d: Direction): int { match d case Up => -1 case Down => 1 case _ => 0 }

  /** The neighbouring slot in direction `d`, same layer. */
  function Neighbour(t: Target, d: Direction): (n: Target)
    ensures n.z == t.z
    ensures (d == Up || d == Down) ==> n.x == t.x && n.y == t.y + (if d == Up then -1 else 1)
    ensures (d == Left || d == Right) ==> n.y == t.y && n.x == t.x + (if d == Left then -1 else 1)
  {
    Target(t.x + Dx(d), t.y + Dy(d), t.z)
  }

  lemma NeighbourOpposite(t: Target, d: Direction)
    ensures Neighbour(Neighbour(t, d), Opposite(d)) == t
  {
  }
}
