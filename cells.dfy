/** One board cell: `LAYERS` depth slots, each empty or holding one occupant (level/grid.rs). */
module Cells {
  import opened Geometry
  import opened Actions
  import opened Items
  import opened Occupants
  import Events

  /** Depth slots per cell. */
  const LAYERS: nat := 2

  /** Capacity of the action lists the grid collects. */
  const MAX_EVENTS: nat := 128

  datatype Cell = Cell(items: seq<Option<Occupant>>)

  /** A cell of the right depth whose every occupant sits in the slot of its own layer. */
  predicate Layered(c: Cell) {
    |c.items| == LAYERS &&
    forall z :: 0 <= z < |c.items| && c.items[z].Some? ==> ZLevel(c.items[z].value) == z
  }

  /** Every occupant of the cell can take an event. */
  predicate CellReady(c: Cell) {
    forall z :: 0 <= z < |c.items| && c.items[z].Some? ==> Ready(c.items[z].value)
  }

  /** `Cell::new`: every slot empty. */
  function NewCell(): (c: Cell)
    ensures Layered(c) && CellReady(c)
    ensures forall z :: 0 <= z < |c.items| ==> c.items[z].None?
  {
    Cell(seq(LAYERS, _ => None))
  }

  /** `Cell::new_static_sprite`: one scenery sprite, in layer 0 when its order is 0 and in
      layer 1 otherwise; every other slot empty. */
  function NewStaticSprite(coords: Point, imgId: nat, zOrder: nat): (c: Cell)
    ensures |c.items| == LAYERS && CellReady(c)
    ensures c.items[if zOrder == 0 then 0 else 1] == Some(StaticSprite(NewItem(coords, zOrder, Numbered(imgId))))
    ensures c.items[if zOrder == 0 then 1 else 0] == None
    ensures zOrder < LAYERS ==> Layered(c)
  {
    var sprite := Some(StaticSprite(NewItem(coords, zOrder, Numbered(imgId))));
    var rest: seq<Option<Occupant>> := seq(LAYERS - 2, _ => None);
    if zOrder == 0 then Cell([sprite, None] + rest) else Cell([None, sprite] + rest)
  }

  /** `set_item`: the occupant goes into the slot of its own layer, replacing whatever was
      there; the slot index must exist. */
  function SetItem(c: Cell, o: Occupant): (r: Cell)
    requires ZLevel(o) < |c.items|
    ensures |r.items| == |c.items| && r.items[ZLevel(o)] == Some(o)
    ensures forall z :: 0 <= z < |c.items| && z != ZLevel(o) ==> r.items[z] == c.items[z]
    ensures Layered(c) ==> Layered(r)
    ensures CellReady(c) && Ready(o) ==> CellReady(r)
  {
    Cell(c.items[ZLevel(o) := Some(o)])
  }

  /** `take_item`: the slot's content, and the cell with that slot emptied. */
  function TakeItem(c: Cell, z: nat): (r: (Cell, Option<Occupant>))
    requires z < |c.items|
    ensures r.1 == c.items[z]
    ensures |r.0.items| == |c.items| && r.0.items[z] == None
    ensures forall j :: 0 <= j < |c.items| && j != z ==> r.0.items[j] == c.items[j]
    ensures Layered(c) ==> Layered(r.0)
    ensures CellReady(c) ==> CellReady(r.0)
  {
    (Cell(c.items[z := None]), c.items[z])
  }

  /** `has_item`. */
  predicate HasItem(c: Cell, z: nat)
    requires z < |c.items|
  {
    c.items[z].Some?
  }

  /** Putting back what was taken restores the cell: the rollback of a failed move. */
  lemma TakeThenSetRestores(c: Cell, z: nat)
    requires Layered(c) && z < LAYERS && c.items[z].Some?
    ensures SetItem(TakeItem(c, z).0, c.items[z].value) == c
  {
  }

  /** The lowest slot holding an occupant of kind `k`. */
  function FirstOfKind(items: seq<Option<Occupant>>, k: Kinds): (r: Option<nat>)
    ensures r.Some? ==> r.value < |items| && items[r.value].Some? && Kind(items[r.value].value) == k
    ensures r.Some? ==> forall j :: 0 <= j < r.value && items[j].Some? ==> Kind(items[j].value) != k
    ensures r.None? ==> forall j :: 0 <= j < |items| && items[j].Some? ==> Kind(items[j].value) != k
    decreases |items|
  {
    if |items| == 0 then None
    else if items[0].Some? && Kind(items[0].value) == k then Some(0)
    else match FirstOfKind(items[1..], k)
      case None => None
      case Some(i) => Some(i + 1)
  }

  /** Slot `z` holds an occupant of kind `k`, and no lower slot does. */
  predicate FirstKindSlot(items: seq<Option<Occupant>>, k: Kinds, z: nat) {
    && z < |items| && items[z].Some? && Kind(items[z].value) == k
    && forall j :: 0 <= j < z && items[j].Some? ==> Kind(items[j].value) != k
  }

  /** `Cell::find_kind`: the target of the first occupant of kind `k` in layer order. */
  function FindKind(c: Cell, k: Kinds): (r: Option<Target>)
    ensures r.None? <==> forall j :: 0 <= j < |c.items| && c.items[j].Some? ==> Kind(c.items[j].value) != k
    ensures r.Some? ==> Layered(c) ==> r.value.z < LAYERS
  {
    match FirstOfKind(c.items, k)
    case None => None
    case Some(i) => Some(TargetOf(c.items[i].value))
  }

  /** The actions one slot contributes to the cell's event pass: its occupant's, or none
      for an empty slot. */
  function SlotActions(slot: Option<Occupant>, e: Events.Event): (r: seq<Action>)
    requires slot.Some? ==> Ready(slot.value)
    ensures slot.None? ==> r == []
    ensures slot.Some? ==> r == Occupants.OnEvent(slot.value, e).1
  {
    if slot.Some? then Occupants.OnEvent(slot.value, e).1 else []
  }

  /** The lists of `lists` joined in order. */
  function Flatten(lists: seq<seq<Action>>): (r: seq<Action>)
    ensures |lists| == 1 ==> r == lists[0]
    decreases |lists|
  {
    if |lists| == 0 then [] else lists[0] + Flatten(lists[1..])
  }

  /** `find_kind` returns the target of the lowest occupant of kind `k`. */
  lemma FindKindFirst(c: Cell, k: Kinds)
    ensures FindKind(c, k).Some? ==>
      exists z: nat :: FirstKindSlot(c.items, k, z) && FindKind(c, k).value == TargetOf(c.items[z].value)
  {
    if FindKind(c, k).Some? {
      var z := FirstOfKind(c.items, k).value;
      assert FirstKindSlot(c.items, k, z);
    }
  }

  /** Every slot's occupant after `on_event`, and the actions in layer order. */
  function SlotsOnEvent(items: seq<Option<Occupant>>, e: Events.Event): (r: (seq<Option<Occupant>>, seq<Action>))
    requires forall z :: 0 <= z < |items| && items[z].Some? ==> Ready(items[z].value)
    ensures |r.0| == |items| && |r.1| <= MAX_ACTIONS_PER_EVENT * |items|
    ensures forall z :: 0 <= z < |items| ==> (r.0[z].Some? <==> items[z].Some?)
    ensures forall z :: 0 <= z < |items| && items[z].Some? ==> r.0[z] == Some(Occupants.OnEvent(items[z].value, e).0)
    ensures forall z :: 0 <= z < |items| && items[z].Some? ==>
      && Kind(r.0[z].value) == Kind(items[z].value)
      && ZLevel(r.0[z].value) == ZLevel(items[z].value)
      && TargetOf(r.0[z].value) == TargetOf(items[z].value)
      && Ready(r.0[z].value)
    decreases |items|
  {
    if |items| == 0 then ([], [])
    else
      var (first, acts) := if items[0].Some? then var (o, a) := Occupants.OnEvent(items[0].value, e); (Some(o), a) else (None, []);
      var (rest, more) := SlotsOnEvent(items[1..], e);
      assert forall z :: 1 <= z < |items| ==> ([first] + rest)[z] == rest[z - 1] && items[z] == items[1..][z - 1];
      ([first] + rest, acts + more)
  }

  /** `Cell::on_event`: each layer's occupant handles the event, lower layer first, and
      their actions are concatenated. Occupants keep their kind, layer and position. */
  function OnEvent(c: Cell, e: Events.Event): (r: (Cell, seq<Action>))
    requires CellReady(c)
    ensures |r.1| <= MAX_ACTIONS_PER_EVENT * |c.items|
    ensures Layered(c) ==> Layered(r.0)
    ensures CellReady(r.0) && SameShape(c, r.0)
    ensures forall z :: 0 <= z < |c.items| && c.items[z].Some? ==> r.0.items[z] == Some(Occupants.OnEvent(c.items[z].value, e).0)
  {
    var (items, acts) := SlotsOnEvent(c.items, e);
    (Cell(items), acts)
  }

  /** The actions of the slots' event pass are each slot's own actions, joined from the
      lowest slot up; an empty slot contributes none. */
  lemma {:induction false} SlotsOnEventActions(items: seq<Option<Occupant>>, e: Events.Event)
    requires forall z :: 0 <= z < |items| && items[z].Some? ==> Ready(items[z].value)
    ensures SlotsOnEvent(items, e).1 == Flatten(seq(|items|, z requires 0 <= z < |items| => SlotActions(items[z], e)))
    decreases |items|
  {
    if |items| > 0 {
      var all := seq(|items|, z requires 0 <= z < |items| => SlotActions(items[z], e));
      SlotsOnEventActions(items[1..], e);
      assert all[1..] == seq(|items[1..]|, z requires 0 <= z < |items[1..]| => SlotActions(items[1..][z], e));
    }
  }

  /** A cell's event actions are layer 0's actions followed by layer 1's. */
  lemma CellActionsInLayerOrder(c: Cell, e: Events.Event)
    requires CellReady(c) && |c.items| == LAYERS
    ensures OnEvent(c, e).1 == SlotActions(c.items[0], e) + SlotActions(c.items[1], e)
  {
    var all := seq(|c.items|, z requires 0 <= z < |c.items| => SlotActions(c.items[z], e));
    SlotsOnEventActions(c.items, e);
    assert Flatten(all) == all[0] + Flatten(all[1..]);
  }

  /** Two cells with the same occupied slots, holding occupants of the same kinds, layers
      and positions. */
  predicate SameShape(c: Cell, d: Cell) {
    |c.items| == |d.items| &&
    forall z :: 0 <= z < |c.items| ==>
      (c.items[z].Some? <==> d.items[z].Some?) &&
      (c.items[z].Some? ==> Kind(c.items[z].value) == Kind(d.items[z].value)
                            && ZLevel(c.items[z].value) == ZLevel(d.items[z].value)
                            && TargetOf(c.items[z].value) == TargetOf(d.items[z].value))
  }

  /** An empty cell, or one holding only scenery, neither acts nor changes on an event. */
  lemma {:induction false} InertCellSilent(items: seq<Option<Occupant>>, e: Events.Event)
    requires forall z :: 0 <= z < |items| && items[z].Some? ==> items[z].value.StaticSprite?
    ensures SlotsOnEvent(items, e) == (items, [])
    decreases |items|
  {
    if |items| > 0 {
      InertCellSilent(items[1..], e);
      assert [items[0]] + items[1..] == items;
    }
  }

  /** `Cell::on_reactions`: the reaction goes to the occupant of slot `target.z` only; an
      empty slot ignores it. */
  function OnReaction(c: Cell, a: Action): (r: Cell)
    requires a.target.z < |c.items|
    ensures |r.items| == |c.items|
    ensures forall z :: 0 <= z < |c.items| && z != a.target.z ==> r.items[z] == c.items[z]
    ensures c.items[a.target.z].None? ==> r == c
    ensures c.items[a.target.z].Some? ==> r.items[a.target.z] == Some(Occupants.OnReaction(c.items[a.target.z].value, a))
    ensures Layered(c) ==> Layered(r)
    ensures CellReady(c) ==> CellReady(r)
  {
    match c.items[a.target.z]
    case None => c
    case Some(o) => Cell(c.items[a.target.z := Some(Occupants.OnReaction(o, a))])
  }

  /** The highest occupied slot. */
  function TopOccupied(items: seq<Option<Occupant>>): (r: Option<nat>)
    ensures r.Some? ==> r.value < |items| && items[r.value].Some?
    ensures r.Some? ==> forall z :: r.value < z < |items| ==> items[z].None?
    ensures r.None? ==> forall z :: 0 <= z < |items| ==> items[z].None?
    decreases |items|
  {
    if |items| == 0 then None
    else if items[|items| - 1].Some? then Some(|items| - 1)
    else TopOccupied(items[..|items| - 1])
  }

  /** `Cell::tile_id`: the tile of the highest occupied layer; `None` stands for the
      `unreachable!()` an empty cell reaches. */
  function TileId(c: Cell): (r: Option<TileRef>)
    ensures r.None? <==> forall z :: 0 <= z < |c.items| ==> c.items[z].None?
    ensures forall z :: 0 <= z < |c.items| && c.items[z].Some? && (forall j :: z < j < |c.items| ==> c.items[j].None?) ==>
              r == Some(TileOf(c.items[z].value))
  {
    match TopOccupied(c.items)
    case None => None
    case Some(t) =>
      assert forall z :: 0 <= z < |c.items| && c.items[z].Some? && (forall j :: z < j < |c.items| ==> c.items[j].None?) ==> z == t by {
        forall z | 0 <= z < |c.items| && c.items[z].Some? && (forall j :: z < j < |c.items| ==> c.items[j].None?)
          ensures z == t
        {
          assert c.items[t].Some? && c.items[z].Some?;
        }
      }
      Some(TileOf(c.items[t].value))
  }
}
