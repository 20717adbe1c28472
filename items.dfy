/** The shared item record `Item<I>` and the `Coord` step functions (level/items.rs). */
module Items {
  import opened Ints
  import opened Geometry
  import opened Actions
  import Events

  /** Capacity of the action list one item may emit for one event. */
  const MAX_ACTIONS_PER_EVENT: nat := 3

  /** Named sprites. Their numeric ids are generated from a tile table that is not part
      of this model, so the model keeps the name; layout sprites keep their number. */
  datatype TileName =
    | WizardIdle1 | WizardIdle2
    | WizardUp1 | WizardUp2 | WizardDown1 | WizardDown2
    | WizardLeft1 | WizardLeft2 | WizardRight1 | WizardRight2
    | ExitOpen

  datatype TileRef = Numbered(id: nat) | Named(name: TileName)

  /** `Kinds`: the variant tag every occupant reports. */
  datatype Kinds = WizardKind | ExitKind | SpriteKind | SpellKind

  /** `Item<I>`: the fields shared by the static sprite, the wizard and the exit. */
  datatype Item = Item(zOrder: nat, coords: Point, imgId: TileRef, state: u8,
                       startAnimation: u128, time: u128, isWin: bool)
  {
    /** The slot the item believes it occupies: its coordinates and its own layer. */
    function Target(): (t: Target)
      ensures t.x == coords.x && t.y == coords.y && t.z == zOrder
    {
      Actions.Target(coords.x, coords.y, zOrder)
    }

    function ZLevel(): nat { zOrder }

    function TileId(): TileRef { imgId }
  }

  /** `Item::new`: the given layer, position and sprite; every counter at zero. */
  function NewItem(coords: Point, zOrder: nat, imgId: TileRef): (it: Item)
    ensures it.ZLevel() == zOrder && it.TileId() == imgId
    ensures it.Target() == Actions.Target(coords.x, coords.y, zOrder)
    ensures it.state == 0 && it.startAnimation == 0 && it.time == 0 && !it.isWin
  {
    Item(zOrder, coords, imgId, 0, 0, 0, false)
  }

  /** The default `on_event`: no actions. */
  function DefaultOnEvent(e: Events.Event): (r: seq<Action>)
    ensures |r| == 0
  {
    []
  }

  /** `set_x`: only the column changes. */
  function SetX(p: Point, x: int): (r: Point)
    ensures r.x == x && r.y == p.y
  {
    p.(x := x)
  }

  /** `set_y`: only the row changes. */
  function SetY(p: Point, y: int): (r: Point)
    ensures r.y == y && r.x == p.x
  {
    p.(y := y)
  }

  /** `_move`: both coordinates. */
  function MoveTo(p: Point, x: int, y: int): (r: Point)
    ensures r == Point(x, y)
  {
    SetY(SetX(p, x), y)
  }

  function MoveUp(p: Point): Point { MoveTo(p, p.x, p.y - 1) }
  function MoveDown(p: Point): Point { MoveTo(p, p.x, p.y + 1) }
  function MoveLeft(p: Point): Point { MoveTo(p, p.x - 1, p.y) }
  function MoveRight(p: Point): Point { MoveTo(p, p.x + 1, p.y) }

  /** The step an item takes for a confirmed move in direction `d`. */
  function Step(p: Point, d: Direction): (r: Point)
    ensures Target(r.x, r.y, 0) == Neighbour(Target(p.x, p.y, 0), d)
  {
    match d
    case Up => MoveUp(p)
    case Down => MoveDown(p)
    case Left => MoveLeft(p)
    case Right => MoveRight(p)
  }

  /** Stepping one way and then the other way returns to the start. */
  lemma StepOpposite(p: Point, d: Direction)
    ensures Step(Step(p, d), Opposite(d)) == p
  {
  }

  /** An item's own step and the grid's neighbour computation agree. */
  lemma StepMatchesNeighbour(it: Item, d: Direction)
    ensures it.(coords := Step(it.coords, d)).Target() == Neighbour(it.Target(), d)
  {
  }
}
