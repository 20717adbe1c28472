/**
 * The first draft of the engine (game/cell.rs, game/items.rs, game/items/wizard.rs and
 * game/items/sprite.rs): three-layer cells whose occupants are driven by a `Tick` trait
 * instead of events and actions.
 */
module Draft {
  import opened Ints
  import opened Geometry
  import opened Actions
  import opened Game
  import Items

  /** Depth slots per cell in the draft. */
  const DRAFT_LAYERS: nat := 3

  /** Sprite ids of the draft: layout ids, and the wizard's two idle frames, whose numeric
      ids come from a tile table that is not part of this model. */
  datatype DraftTile = Layout(id: nat) | Wizard1Tile | Wizard2Tile

  /** The draft `Item<I>`: layer, position, sprite and animation state. */
  datatype DraftItem = DraftItem(zOrder: nat, coords: Point, imgId: DraftTile, state: u8)

  /** The draft's boxed `dyn ItemTrait`. */
  datatype DraftOccupant = SpriteOccupant(item: DraftItem) | WizardOccupant(item: DraftItem)

  /** `Item::new`: the given layer, position and sprite, state 0. The accessors `coords`,
      `z_level` and `tile_id` read these fields back unchanged. */
  function NewDraftItem(coords: Point, zOrder: nat, imgId: DraftTile): (it: DraftItem)
    ensures it.zOrder == zOrder && it.coords == coords && it.imgId == imgId && it.state == 0
  {
    DraftItem(zOrder, coords, imgId, 0)
  }

  /** `swith_state`: 0 becomes 1, anything else becomes 0. */
  function SwithState(s: u8): (r: u8)
    ensures r <= 1
    ensures r == 1 <==> s == 0
  {
    if s == 0 then 1 else 0
  }

  /** `Item<Wizard>::tick`: on a multiple of five the state toggles, the sprite follows the
      new state, and the tick reports a change; otherwise nothing changes. */
  function WizardTick(w: DraftItem, time: u128): (r: (DraftItem, bool))
    ensures r.1 <==> time % 5 == 0
    ensures !r.1 ==> r.0 == w
    ensures r.1 ==> r.0.zOrder == w.zOrder && r.0.coords == w.coords
    ensures r.1 ==> r.0.state <= 1 && (w.state <= 1 ==> r.0.state == 1 - w.state)
    ensures r.1 ==> r.0.imgId == (if r.0.state == 1 then Wizard2Tile else Wizard1Tile)
  {
    if time % 5 == 0 then
      var s := SwithState(w.state);
      var img := match s case 1 => Wizard2Tile case 0 => Wizard1Tile case _ => w.imgId;
      (w.(state := s, imgId := img), true)
    else
      (w, false)
  }

  /** Two toggling ticks bring a wizard in an idle state back to its state and sprite. */
  lemma WizardTickTwice(w: DraftItem, t1: u128, t2: u128)
    requires w.state <= 1 && w.imgId == (if w.state == 1 then Wizard2Tile else Wizard1Tile)
    requires t1 % 5 == 0 && t2 % 5 == 0
    ensures WizardTick(WizardTick(w, t1).0, t2).0 == w
  {
  }

  /** `Item<StaticSprite>::tick`: never a change, whatever the time. */
  function SpriteTick(it: DraftItem, time: u128): (r: (DraftItem, bool))
    ensures r == (it, false)
  {
    (it, DefaultTick(time))
  }

  /** `tick` through the trait object. */
  function OccupantTick(o: DraftOccupant, time: u128): (r: (DraftOccupant, bool))
    ensures !r.1 ==> r.0 == o
    ensures r.1 <==> o.WizardOccupant? && time % 5 == 0
    ensures ZLevel(r.0) == ZLevel(o)
  {
    match o
    case SpriteOccupant(it) => var (it2, c) := SpriteTick(it, time); (SpriteOccupant(it2), c)
    case WizardOccupant(it) => var (it2, c) := WizardTick(it, time); (WizardOccupant(it2), c)
  }

  function ZLevel(o: DraftOccupant): nat { o.item.zOrder }

  function TileOf(o: DraftOccupant): DraftTile { o.item.imgId }

  /** The draft `Cell`: its own position and `DRAFT_LAYERS` slots. */
  datatype DraftCell = DraftCell(coords: Point, items: seq<Option<DraftOccupant>>)

  /** `Cell::new`: three empty layers. */
  function NewDraftCell(coords: Point): (c: DraftCell)
    ensures c.coords == coords && |c.items| == DRAFT_LAYERS
    ensures forall z :: 0 <= z < |c.items| ==> c.items[z].None?
  {
    DraftCell(coords, [None, None, None])
  }

  /** `Cell::new_static_sprite`: a layer-0 sprite with the given id at the cell's position;
      layers 1 and 2 empty. */
  function NewDraftSprite(coords: Point, imgId: nat): (c: DraftCell)
    ensures c.coords == coords && |c.items| == DRAFT_LAYERS
    ensures c.items[0] == Some(SpriteOccupant(NewDraftItem(coords, 0, Layout(imgId))))
    ensures c.items[1].None? && c.items[2].None?
  {
    DraftCell(coords, [Some(SpriteOccupant(NewDraftItem(coords, 0, Layout(imgId)))), None, None])
  }

  /** `Cell::set_item`: the occupant replaces whatever is in the slot of its layer; a layer
      past the last slot is an index panic. */
  function SetDraftItem(c: DraftCell, o: DraftOccupant): (r: DraftCell)
    requires ZLevel(o) < |c.items|
    ensures r.coords == c.coords && |r.items| == |c.items|
    ensures r.items[ZLevel(o)] == Some(o)
    ensures forall z :: 0 <= z < |c.items| && z != ZLevel(o) ==> r.items[z] == c.items[z]
  {
    c.(items := c.items[ZLevel(o) := Some(o)])
  }

  /** Whether the occupant's tick would report a change. */
  predicate Ticks(o: DraftOccupant, time: u128) {
    OccupantTick(o, time).1
  }

  /** The lowest slot whose occupant's tick reports a change. */
  function FirstTicking(items: seq<Option<DraftOccupant>>, time: u128): (r: Option<nat>)
    ensures r.Some? ==> r.value < |items| && items[r.value].Some? && Ticks(items[r.value].value, time)
    ensures r.Some? ==> forall j :: 0 <= j < r.value && items[j].Some? ==> !Ticks(items[j].value, time)
    ensures r.None? <==> forall j :: 0 <= j < |items| && items[j].Some? ==> !Ticks(items[j].value, time)
    decreases |items|
  {
    if |items| == 0 then None
    else if items[0].Some? && Ticks(items[0].value, time) then Some(0)
    else match FirstTicking(items[1..], time)
      case None => None
      case Some(i) => Some(i + 1)
  }

  /** `Cell::tick`: the occupants are ticked in layer order until one reports a change,
      and the cell reports whether one did. The iterator is lazy and `any` stops at the
      first `true`, so occupants above that one are not ticked at all. */
  method Tick(c: DraftCell, time: u128) returns (r: DraftCell, changed: bool)
    ensures r.coords == c.coords && |r.items| == |c.items|
    ensures changed <==> FirstTicking(c.items, time).Some?
    ensures !changed ==> r == c
    ensures changed ==>
      var k := FirstTicking(c.items, time).value;
      r.items == c.items[k := Some(OccupantTick(c.items[k].value, time).0)]
  {
    r := c;
    var z := 0;
    while z < |r.items|
      invariant 0 <= z <= |r.items| && r == c
      invariant forall j :: 0 <= j < z && c.items[j].Some? ==> !Ticks(c.items[j].value, time)
    {
      if r.items[z].Some? {
        var (o, ticked) := OccupantTick(r.items[z].value, time);
        r := r.(items := r.items[z := Some(o)]);
        if ticked {
          assert FirstTicking(c.items, time) == Some(z);
          return r, true;
        }
      }
      z := z + 1;
    }
    return r, false;
  }

  /** The highest occupied slot. */
  function TopSlot(items: seq<Option<DraftOccupant>>): (r: Option<nat>)
    ensures r.Some? ==> r.value < |items| && items[r.value].Some?
    ensures r.Some? ==> forall z :: r.value < z < |items| ==> items[z].None?
    ensures r.None? <==> forall z :: 0 <= z < |items| ==> items[z].None?
    decreases |items|
  {
    if |items| == 0 then None
    else if items[|items| - 1].Some? then Some(|items| - 1)
    else TopSlot(items[..|items| - 1])
  }

  /** `Cell::tile_id`: the sprite of the highest occupied layer, searching from the top;
      `None` stands for the `unreachable!()` an empty cell reaches. */
  function DraftTileId(c: DraftCell): (r: Option<DraftTile>)
    ensures r.None? <==> forall z :: 0 <= z < |c.items| ==> c.items[z].None?
    ensures forall z :: 0 <= z < |c.items| && c.items[z].Some? && (forall j :: z < j < |c.items| ==> c.items[j].None?) ==>
              r == Some(TileOf(c.items[z].value))
  {
    match TopSlot(c.items)
    case None => None
    case Some(t) =>
      assert forall z :: 0 <= z < |c.items| && c.items[z].Some? && (forall j :: z < j < |c.items| ==> c.items[j].None?) ==> z == t by {
        forall z | 0 <= z < |c.items| && c.items[z].Some? && (forall j :: z < j < |c.items| ==> c.items[j].None?)
          ensures z == t
        {
          assert c.items[t].Some? && c.items[z].Some?;
        }
      }
      Some(TileOf(c.items[t].value))
  }

  /** A cell built from a layout id shows that id. */
  lemma SpriteCellShowsLayout(coords: Point, imgId: nat)
    ensures DraftTileId(NewDraftSprite(coords, imgId)) == Some(Layout(imgId))
  {
    var c := NewDraftSprite(coords, imgId);
    assert forall j :: 0 < j < |c.items| ==> c.items[j].None?;
  }

  /** The draft's `move_up` aims one row down on the board, the engine's `Down` step, and
      its `move_down` aims at the engine's `Up` step. */
  lemma DraftVerticalInverted(p: Point)
    ensures DraftUpTarget(p) == Items.Step(p, Down)
    ensures DraftDownTarget(p) == Items.Step(p, Up)
    ensures DraftLeftTarget(p) == Items.Step(p, Left) && DraftRightTarget(p) == Items.Step(p, Right)
  {
  }

  /** The draft `Grid`: `MAX_Y` rows of `MAX_X` cells, `cells[y, x]`. */
  class DraftGrid {
    const cells: array2<DraftCell>

    /** `From<[[usize; MAX_X]; MAX_Y]>`: a default grid, then, column by column, every cell
        replaced by a layer-0 sprite with the layout's id at that cell's position. */
    constructor From(layout: seq<seq<nat>>)
      requires |layout| == MAX_Y && forall y :: 0 <= y < MAX_Y ==> |layout[y]| == MAX_X
      ensures fresh(cells) && cells.Length0 == MAX_Y && cells.Length1 == MAX_X
      ensures forall y, x :: 0 <= y < MAX_Y && 0 <= x < MAX_X ==>
                cells[y, x] == NewDraftSprite(Point(x, y), layout[y][x])
    {
      var a := new DraftCell[MAX_Y, MAX_X]((_, _) => NewDraftCell(Point(0, 0)));
      for x := 0 to MAX_X
        invariant forall y2, x2 :: 0 <= y2 < MAX_Y && 0 <= x2 < x ==>
                    a[y2, x2] == NewDraftSprite(Point(x2, y2), layout[y2][x2])
      {
        for y := 0 to MAX_Y
          invariant forall y2, x2 :: 0 <= y2 < MAX_Y && 0 <= x2 < MAX_X && (x2 < x || (x2 == x && y2 < y)) ==>
                      a[y2, x2] == NewDraftSprite(Point(x2, y2), layout[y2][x2])
        {
          a[y, x] := NewDraftSprite(Point(x, y), layout[y][x]);
        }
      }
      cells := a;
    }
  }
}
