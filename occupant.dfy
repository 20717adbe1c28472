/**
 * What a cell slot holds: a boxed `dyn ItemTrait`. The firmware dispatches through the
 * trait object; the model dispatches on which item it is (level/items.rs and the item files).
 */
module Occupants {
  import opened Ints
  import opened Geometry
  import opened Actions
  import opened Items
  import Events
  import Wiz = Wizard
  import Exit
  import Sprite
  import SpellItem

  datatype Occupant =
    | StaticSprite(item: Item)
    | WizardItem(item: Item)
    | ExitItem(item: Item)
    | SpellCast(spell: SpellItem.Spell)

  /** `kind()`. */
  function Kind(o: Occupant): (k: Kinds)
    ensures k == WizardKind <==> o.WizardItem?
    ensures k == ExitKind <==> o.ExitItem?
    ensures k == SpriteKind <==> o.StaticSprite?
    ensures k == SpellKind <==> o.SpellCast?
  {
    match o
    case StaticSprite(_) => SpriteKind
    case WizardItem(_) => WizardKind
    case ExitItem(_) => ExitKind
    case SpellCast(_) => SpellKind
  }

  /** `z_level()`: the layer the occupant belongs to. */
  function ZLevel(o: Occupant): nat {
    if o.SpellCast? then o.spell.ZLevel() else o.item.ZLevel()
  }

  function Coords(o: Occupant): Point {
    if o.SpellCast? then o.spell.coords else o.item.coords
  }

  /** `target()`: the occupant's own coordinates on its own layer. */
  function TargetOf(o: Occupant): (t: Target)
    ensures t == Actions.Target(Coords(o).x, Coords(o).y, ZLevel(o))
  {
    if o.SpellCast? then o.spell.Target() else o.item.Target()
  }

  /** `tile_id()`. */
  function TileOf(o: Occupant): TileRef {
    if o.SpellCast? then o.spell.TileId() else o.item.TileId()
  }

  /** The same occupant placed at other coordinates. */
  function WithCoords(o: Occupant, p: Point): (r: Occupant)
    ensures Coords(r) == p && Kind(r) == Kind(o) && ZLevel(r) == ZLevel(o) && TileOf(r) == TileOf(o)
  {
    match o
    case SpellCast(s) => SpellCast(s.(coords := p))
    case StaticSprite(it) => StaticSprite(it.(coords := p))
    case WizardItem(it) => WizardItem(it.(coords := p))
    case ExitItem(it) => ExitItem(it.(coords := p))
  }

  /** `set_x` through the trait object. */
  function SetX(o: Occupant, x: int): (r: Occupant)
    ensures Coords(r) == Point(x, Coords(o).y) && Kind(r) == Kind(o) && ZLevel(r) == ZLevel(o)
  {
    WithCoords(o, Items.SetX(Coords(o), x))
  }

  /** `set_y` through the trait object. */
  function SetY(o: Occupant, y: int): (r: Occupant)
    ensures Coords(r) == Point(Coords(o).x, y) && Kind(r) == Kind(o) && ZLevel(r) == ZLevel(o)
  {
    WithCoords(o, Items.SetY(Coords(o), y))
  }

  /** `set_z` through the trait object: only the layer changes. The `Item<I>` version is
      not among the modelled files; it is taken to write `z_order` as the spell's does. */
  function SetZ(o: Occupant, z: nat): (r: Occupant)
    ensures ZLevel(r) == z && Coords(r) == Coords(o) && Kind(r) == Kind(o) && TileOf(r) == TileOf(o)
  {
    match o
    case SpellCast(s) => SpellCast(s.SetZ(z))
    case StaticSprite(it) => StaticSprite(it.(zOrder := z))
    case WizardItem(it) => WizardItem(it.(zOrder := z))
    case ExitItem(it) => ExitItem(it.(zOrder := z))
  }

  /** An occupant whose `on_event` does not panic: an uninitialised spell needs its first
      command. */
  predicate Ready(o: Occupant) {
    o.SpellCast? && o.spell.state == SpellItem.UNINITIALIZED ==> |o.spell.commands| > 0
  }

  /** `on_event` through the trait object: the updated occupant and its actions. */
  function OnEvent(o: Occupant, e: Events.Event): (r: (Occupant, seq<Action>))
    requires Ready(o)
    ensures |r.1| <= MAX_ACTIONS_PER_EVENT
    ensures Kind(r.0) == Kind(o) && TargetOf(r.0) == TargetOf(o) && ZLevel(r.0) == ZLevel(o)
    ensures Ready(r.0)
  {
    match o
    case StaticSprite(it) => (o, Sprite.OnEvent(it, e))
    case WizardItem(it) => var (w, acts) := Wiz.OnEvent(it, e); (WizardItem(w), acts)
    case ExitItem(it) => (o, Exit.OnEvent(it, e))
    case SpellCast(s) => var (s1, acts) := SpellItem.OnEvent(s, e).value; (SpellCast(s1), acts)
  }

  /** `on_reaction` through the trait object. */
  function OnReaction(o: Occupant, a: Action): (r: Occupant)
    ensures Kind(r) == Kind(o) && ZLevel(r) == ZLevel(o) && (Ready(o) ==> Ready(r))
    ensures !o.WizardItem? ==> TargetOf(r) == TargetOf(o)
  {
    match o
    case StaticSprite(it) => StaticSprite(Sprite.OnReaction(it, a))
    case WizardItem(it) => WizardItem(Wiz.OnReaction(it, a))
    case ExitItem(it) => ExitItem(Exit.OnReaction(it, a))
    case SpellCast(s) => SpellCast(SpellItem.OnReaction(s, a))
  }
}
