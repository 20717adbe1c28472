# koldun — a Dafny model of the tile-grid game engine and its panel code

koldun is a small tile game for an RP2040 board with a parallel-bus TFT panel. This
project models its core in Dafny and proves properties of the model:

- **The level engine** (`level/grid.rs` and `level/items/*`). A 15 x 10 grid of cells
  holds two depth layers each. Every occupant (static scenery, the wizard, the exit, a
  spell) answers an event with a short list of actions. The grid resolves those actions:
  moves, redraw requests, the input block, spell placement and the win flag. The cells
  that receive a move then get a reaction.
  - Items are values. A handler returns the updated item with its actions.
  - The grid is a class over a two-dimensional array of cells. Its methods are proved
    against board functions (`Boards`) read through the ghost view `Grid.Contents()`.
- **The screens and the state machine** (`states/level/level1.rs`, `states/spell.rs`,
  `states/start_menu.rs`, `states/initial.rs`, `state_mashine.rs`). Each screen is a class.
  An event handler either keeps control or returns the successor screen.
- **The first draft of the engine** (`game.rs`, `game/cell.rs`, `game/items*.rs`): three-layer
  cells driven by a `Tick` trait.
- **The panel drivers' pure parts** (`ili9486.rs`, `ili9431.rs`): colour bytes, the memory
  access control flag byte, address arguments, the `draw_iter` pixel filter and the tile
  origins of `draw_solid_area`. Each bus transfer is returned as a value.
- **The bit-banged bring-up in `main.rs`**: the RGB565 encoder, the fan-out of a word onto
  the sixteen data pins, and the address words sent that way.
- **The tile compressor** (`tga_compressor/compressor.py`): one bit per pixel, packed eight
  to a byte, least significant bit first, written under the file's stem.
- **The `render_tiles` proc-macro** (`koldun_macro_derive/src/lib.rs`): argument parsing,
  the generated method list, tile ids and the bitmap slice.

Paths below are relative to the repository root. `L/` is short for
`koldun/src/game/state_mashine/states/level/` in the prose only; table cells spell the
path out.

## Model

| member | source | states |
|---|---|---|
| Ints.WrappingSub | koldun/src/game/state_mashine/states/level/items/wizard.rs:32 | the elapsed time `time - start_animation` on `u128`: the plain difference when it is non-negative, otherwise the difference plus 2^128 |
| Geometry.BottomRight | koldun/src/ili9486.rs:195 | `bottom_right` is absent exactly for a zero-width or zero-height rectangle; otherwise it is the inclusive far corner |
| Geometry.Intersection | koldun/src/ili9486.rs:300 | a point lies in the intersection iff it lies in both rectangles |
| Actions.Neighbour | koldun/src/game/state_mashine/states/level/grid.rs:270-291 | the destination of a move: Up is row - 1, Down row + 1, Left column - 1, Right column + 1, on the same layer |
| Actions.NeighbourOpposite | koldun/src/game/state_mashine/states/level/grid.rs:270-291 | a step followed by the opposite step returns to the starting slot |
| Items.Item.Target | koldun/src/game/state_mashine/states/level/items.rs:97-99 | an item's target is its own coordinates on its own layer |
| Items.NewItem | koldun/src/game/state_mashine/states/level/items.rs:115-126 | a new item has the given layer, position and sprite, state 0, both clocks 0 and no win |
| Items.DefaultOnEvent | koldun/src/game/state_mashine/states/level/items.rs:17-21 | the default `on_event` emits no action: the list is empty |
| Items.SetX | koldun/src/game/state_mashine/states/level/items.rs:66-68 | `set_x` changes the column and keeps the row |
| Items.SetY | koldun/src/game/state_mashine/states/level/items.rs:70-72 | `set_y` changes the row and keeps the column |
| Items.MoveTo | koldun/src/game/state_mashine/states/level/items.rs:61-64 | `_move` puts the item at exactly (x, y) |
| Items.Step | koldun/src/game/state_mashine/states/level/items.rs:45-59 | an item's own `move_up`/`move_down`/`move_left`/`move_right` goes to the same square as the grid's move in that direction |
| Items.StepOpposite | koldun/src/game/state_mashine/states/level/items.rs:45-59 | stepping one way and then back returns the item to where it was |
| Items.StepMatchesNeighbour | koldun/src/game/state_mashine/states/level/items.rs:45-64 | after its own step an item's target is the grid's neighbour of its old target |
| Exit.OnEvent | koldun/src/game/state_mashine/states/level/items/exit.rs:13-18 | a reached exit emits exactly one `Win` at its own slot on every event; an unreached one emits nothing |
| Exit.OnReaction | koldun/src/game/state_mashine/states/level/items/exit.rs:22-34 | the win flag is set afterwards iff it was set before or the reaction is a move made by the wizard; nothing else changes |
| Exit.WinLatches | koldun/src/game/state_mashine/states/level/items/exit.rs:13-34 | once reached, the exit stays reached whatever reaction follows and keeps signalling the win |
| Sprite.OnEvent | koldun/src/game/state_mashine/states/level/items/sprite.rs:10-13 | scenery emits no action |
| Sprite.OnReaction | koldun/src/game/state_mashine/states/level/items/sprite.rs:16-18 | scenery ignores every reaction |
| SpellItem.Spell.Target | koldun/src/game/state_mashine/states/level/items/spell.rs:42-44 | a spell's target is its own coordinates on its own layer |
| SpellItem.Spell.SetZ | koldun/src/game/state_mashine/states/level/items/spell.rs:46-48 | `set_z` changes the layer and nothing else |
| SpellItem.NewSpell | koldun/src/game/state_mashine/states/level/items/spell.rs:70-85 | a new spell is uninitialised, carries the given commands, position, layer and sprite, and has zero clocks |
| SpellItem.CommandDirection | koldun/src/game/state_mashine/states/level/items/spell.rs:95-101 | a command gives a direction iff it is one of the four arrows |
| SpellItem.OnEvent | koldun/src/game/state_mashine/states/level/items/spell.rs:91-113 | the handler panics iff the spell is uninitialised and has no command; otherwise the first event initialises the spell (state 1), and it emits one `InitSpell` at the spell's slot iff the spell was uninitialised and its first command is a direction, and then in that direction |
| SpellItem.OnReaction | koldun/src/game/state_mashine/states/level/items/spell.rs:117 | a spell ignores reactions |
| SpellItem.LaunchesOnce | koldun/src/game/state_mashine/states/level/items/spell.rs:91-113 | a spell launches at most once: after a first event that does not panic, the spell is initialised, and a second event neither panics nor emits |
| Wizard.MoveStates | koldun/src/game/state_mashine/states/level/items/wizard.rs:10-19 | each direction has two distinct, known, non-idle animation states |
| Wizard.Moving | koldun/src/game/state_mashine/states/level/items/wizard.rs:10-19 | a state belongs to a move iff it is known and not idle, and then it is one of that direction's two frames |
| Wizard.SwithState | koldun/src/game/state_mashine/states/level/items/wizard.rs:288-290 | the result is one of the two states, and it is the second exactly when the current state is the first |
| Wizard.OnEvent | koldun/src/game/state_mashine/states/level/items/wizard.rs:28-248 | at most three actions; a tick records its time; a button changes nothing; position, layer, start time and win flag are kept; a known state stays known; every move request comes from a button and names the wizard's own slot |
| Wizard.OnReaction | koldun/src/game/state_mashine/states/level/items/wizard.rs:252-284 | a confirmed move starts that direction's first frame, restarts the animation clock and moves the wizard to the grid's neighbour slot; any other reaction changes nothing |
| Wizard.IdleTick | koldun/src/game/state_mashine/states/level/items/wizard.rs:36-52 | idle: every fifth tick toggles IDLE1/IDLE2, swaps the sprite and asks for one redraw of the wizard's slot; other ticks only record the time |
| Wizard.IdleToggleTwice | koldun/src/game/state_mashine/states/level/items/wizard.rs:36-52 | two idle toggles restore the idle state |
| Wizard.MoveFinished | koldun/src/game/state_mashine/states/level/items/wizard.rs:55-68 | when a move's time is up the wizard returns to IDLE1, redraws the vacated slot and its own, and releases the input block at the vacated slot |
| Wizard.MoveAnimating | koldun/src/game/state_mashine/states/level/items/wizard.rs:70-89 | during a move, even ticks flip between that direction's two frames and emit one animated redraw whose previous slot is the vacated one; odd ticks emit nothing |
| Wizard.MoveStaysInPair | koldun/src/game/state_mashine/states/level/items/wizard.rs:55-200 | a moving wizard leaves its direction's frame pair only for IDLE1 |
| Wizard.UnknownStateSilent | koldun/src/game/state_mashine/states/level/items/wizard.rs:203-206 | a tick in an unknown state only records the time |
| Wizard.ButtonRequests | koldun/src/game/state_mashine/states/level/items/wizard.rs:210-246 | a pressed arrow requests exactly one move that way from the wizard's slot; releases and Reset request nothing; no button changes the wizard |
| Wizard.FinishClearsStart | koldun/src/game/state_mashine/states/level/items/wizard.rs:55-68 | after a confirmed move, the finishing animation redraws and unblocks the slot the wizard started from |
| Occupants.Kind | koldun/src/game/state_mashine/states/level/items/exit.rs:37-40 | each occupant reports its own kind, and the kind tells the occupant apart (four iffs) |
| Occupants.TargetOf | koldun/src/game/state_mashine/states/level/items.rs:97-99 | `target()` through the trait object is the occupant's coordinates on its layer |
| Occupants.WithCoords | koldun/src/game/state_mashine/states/level/items.rs:93-95 | writing the coordinates keeps kind, layer and sprite |
| Occupants.SetX | koldun/src/game/state_mashine/states/level/items.rs:66-68 | `set_x` through the trait object changes only the column |
| Occupants.SetY | koldun/src/game/state_mashine/states/level/items.rs:70-72 | `set_y` through the trait object changes only the row |
| Occupants.SetZ | koldun/src/game/state_mashine/states/level/items/spell.rs:46-48 | `set_z` changes only the layer |
| Occupants.OnEvent | koldun/src/game/state_mashine/states/level/items.rs:17-21 | any occupant emits at most three actions and keeps its kind, target and layer |
| Occupants.OnReaction | koldun/src/game/state_mashine/states/level/items.rs:24 | a reaction keeps kind and layer, and only the wizard changes its target |
| Cells.NewCell | koldun/src/game/state_mashine/states/level/grid.rs:25-33 | a new cell has every slot empty |
| Cells.NewStaticSprite | koldun/src/game/state_mashine/states/level/grid.rs:35-56 | a scenery cell holds one new sprite, in layer 0 when its order is 0 and in layer 1 otherwise, and the other slot is empty |
| Cells.SetItem | koldun/src/game/state_mashine/states/level/grid.rs:58-61 | the occupant lands in its own layer's slot, replacing what was there; every other slot is kept |
| Cells.TakeItem | koldun/src/game/state_mashine/states/level/grid.rs:63-65 | returns the slot's content and leaves that slot empty and every other slot as it was |
| Cells.TakeThenSetRestores | koldun/src/game/state_mashine/states/level/grid.rs:301-302 | putting back what was taken restores the cell, so a failed move's rollback is exact |
| Cells.FirstOfKind | koldun/src/game/state_mashine/states/level/grid.rs:77-86 | the lowest slot holding that kind; none lower holds it; absent iff no slot holds it |
| Cells.FindKind | koldun/src/game/state_mashine/states/level/grid.rs:77-86 | `find_kind` is absent iff no occupant of the cell has that kind, and a found target is on a layer |
| Cells.FindKindFirst | koldun/src/game/state_mashine/states/level/grid.rs:77-86 | a found target is that of the lowest occupant of the kind, in layer order |
| Cells.SlotsOnEvent | koldun/src/game/state_mashine/states/level/grid.rs:88-99 | each occupied slot holds what its occupant's own handler returns, of the same kind, layer and target; empty slots stay empty |
| Cells.SlotsOnEventActions | koldun/src/game/state_mashine/states/level/grid.rs:88-99 | the actions are each slot's own handler's actions, joined from the lowest slot up; an empty slot contributes none |
| Cells.OnEvent | koldun/src/game/state_mashine/states/level/grid.rs:88-99 | a cell emits at most three actions per layer; each occupant is replaced by its own handler's result, keeping kind, layer and position |
| Cells.CellActionsInLayerOrder | koldun/src/game/state_mashine/states/level/grid.rs:88-99 | a cell's actions are layer 0's followed by layer 1's |
| Cells.InertCellSilent | koldun/src/game/state_mashine/states/level/grid.rs:88-99 | a cell holding only scenery neither acts nor changes on an event |
| Cells.OnReaction | koldun/src/game/state_mashine/states/level/grid.rs:101-105 | the reaction reaches the occupant of slot `target.z` only; an empty slot ignores it |
| Cells.TopOccupied | koldun/src/game/state_mashine/states/level/grid.rs:115-120 | the highest occupied slot, absent iff every slot is empty |
| Cells.TileId | koldun/src/game/state_mashine/states/level/grid.rs:115-120 | the cell shows the tile of its highest occupied layer; an empty cell (the `unreachable!()`) is `None` |
| Game.DefaultTick | koldun/src/game.rs:14-18 | the default `tick` reports no change |
| Game.DraftSetX | koldun/src/game.rs:58-60 | the draft `set_x` as written leaves the stored point unchanged |
| Game.DraftSetY | koldun/src/game.rs:62-64 | the draft `set_y` as written leaves the stored point unchanged |
| Game.MoveIfInBound | koldun/src/game.rs:51-56 | the draft `move_if_in_bound` as written leaves the stored point unchanged |
| Game.IntendedMoveIfInBound | koldun/src/game.rs:51-64 | with setters that write the stored point, an on-board target becomes the position and an off-board one is ignored |
| Game.IntendedStepsMove | koldun/src/game.rs:35-64 | with those setters an on-board item stays on the board, and a step up followed by a step down returns it |
| Game.DraftUpTarget | koldun/src/game.rs:35-37 | the draft's `move_up` aims at row + 1 |
| Game.DraftDownTarget | koldun/src/game.rs:39-41 | the draft's `move_down` aims at row - 1 |
| Game.DraftRightTarget | koldun/src/game.rs:43-45 | the draft's `move_right` aims at column + 1 |
| Game.DraftLeftTarget | koldun/src/game.rs:47-49 | the draft's `move_left` aims at column - 1 |
| Game.DraftStepsAreInert | koldun/src/game.rs:35-64 | no draft step moves anything: an item at (0, 0) asked to go to the on-board square (0, 1) stays put |
| Boards.WithCell | koldun/src/game/state_mashine/states/level/grid.rs:313-318 | writing one cell keeps every other cell |
| Boards.Put | koldun/src/game/state_mashine/states/level/grid.rs:58-61 | writing one slot changes that slot only |
| Boards.EmptyBoard | koldun/src/game/state_mashine/states/level/grid.rs:126-129 | `Grid::new` has every slot of every cell empty |
| Boards.SetItemAt | koldun/src/game/state_mashine/states/level/grid.rs:258-262 | on the board the occupant goes into its layer's slot of cell (x, y); off the board nothing changes |
| Boards.LayoutLayer | koldun/src/game/state_mashine/states/level/grid.rs:373 | layout ids up to 32 are floor (layer 0); the others go to layer 1 |
| Boards.FromLayout | koldun/src/game/state_mashine/states/level/grid.rs:367-379 | every cell holds one new sprite with its layout id, at its own coordinates, in the layer the id picks; the other slot is empty |
| Boards.MoveItem | koldun/src/game/state_mashine/states/level/grid.rs:264-307 | a move succeeds iff the source slot is on the board and full and the neighbour slot is on the board and free; then the occupant moves there and the new target is reported; otherwise the board is unchanged |
| Boards.SlotsBagUpdate | koldun/src/game/state_mashine/states/level/grid.rs:58-65 | replacing a slot removes its old occupant from the cell's bag and adds the new one |
| Boards.RowBagUpdate | koldun/src/game/state_mashine/states/level/grid.rs:58-65 | replacing a cell removes its old occupants from the row's bag and adds the new ones |
| Boards.BoardBagUpdate | koldun/src/game/state_mashine/states/level/grid.rs:58-65 | replacing a row removes its old occupants from the board's bag and adds the new ones |
| Boards.PutBag | koldun/src/game/state_mashine/states/level/grid.rs:58-65 | replacing one slot removes its old occupant from the board's bag and adds the new one |
| Boards.MoveConserves | koldun/src/game/state_mashine/states/level/grid.rs:264-307 | a move neither loses nor duplicates an occupant, whether it succeeds or rolls back |
| Boards.FirstCellWith | koldun/src/game/state_mashine/states/level/grid.rs:337-347 | the first cell of the column-major scan holding the kind; no earlier cell holds it; absent iff none does |
| Boards.FirstCellWithAt | koldun/src/game/state_mashine/states/level/grid.rs:337-347 | the scan stops at the first cell holding the kind |
| Boards.FindKind | koldun/src/game/state_mashine/states/level/grid.rs:337-347 | `Grid::find_kind` is absent iff no cell holds the kind, and a found target is on a layer |
| Boards.FindKindScanOrder | koldun/src/game/state_mashine/states/level/grid.rs:337-347 | a found target is that of the lowest occupant of the kind in the first cell holding one, columns left to right and each column top to bottom |
| Boards.AddToRedraw | koldun/src/game/state_mashine/states/level/grid.rs:185 | under the insert-if-absent reading of the macro: the batch afterwards requests exactly the old targets plus the new one; it only grows by appending; a batch without duplicates stays without |
| Boards.MoveReactions | koldun/src/game/state_mashine/states/level/grid.rs:167-172 | a confirmed move reacts once per layer of the destination cell, carrying the direction and the mover |
| Boards.InitSpellArm | koldun/src/game/state_mashine/states/level/grid.rs:202-230 | the arm panics iff the wizard is on the board and the staging slot (0, 0, 0) is empty; reactions, block and win are kept; at most one redraw request is added |
| Boards.PlaceStaged | koldun/src/game/state_mashine/states/level/grid.rs:215-228 | the staged item goes into the free on-board slot beside the wizard, with a redraw of that slot requested, and is dropped otherwise; only that slot can change |
| Boards.Apply | koldun/src/game/state_mashine/states/level/grid.rs:158-243 | one action: only Move and InitSpell can panic; the resolver invariant is kept; the win flag is set by `Win`; `Block` sets the block flag; otherwise only a successful move changes it, to blocked; the other arms leave the board; `Redraw` and `RedrawAnim` only extend the redraw batch, and `Move`, `Block` and `Win` leave it (which slots are added is `BoardProperties.ApplyRedraw`) |
| Boards.Run | koldun/src/game/state_mashine/states/level/grid.rs:158-244 | running the actions in order keeps the board well formed and the resolver invariant |
| Boards.PanicSticks | koldun/src/game/state_mashine/states/level/grid.rs:158-244 | once a prefix of the actions panics, the whole run panics |
| Boards.EventUpTo | koldun/src/game/state_mashine/states/level/grid.rs:131-142 | the scan up to any position keeps the board well formed and every occupant ready for events |
| Boards.EventActionsBounded | koldun/src/game/state_mashine/states/level/grid.rs:131-142 | each scanned cell adds at most one batch of three actions per layer |
| Boards.OnEvent | koldun/src/game/state_mashine/states/level/grid.rs:131-142 | `Grid::on_event` emits at most 150 x 2 x 3 actions and keeps the board well formed and ready |
| Boards.React | koldun/src/game/state_mashine/states/level/grid.rs:101-105 | one reaction changes only the occupant of the slot it names, and an empty slot ignores it |
| Boards.Deliver | koldun/src/game/state_mashine/states/level/grid.rs:248-252 | delivering reactions keeps the board well formed and ready |
| Boards.DeliverTwo | koldun/src/game/state_mashine/states/level/grid.rs:248-252 | reactions are delivered in order: the first, then the second |
| BoardProperties.MoveArm | koldun/src/game/state_mashine/states/level/grid.rs:161-177 | a failed move changes nothing; a successful one moves the board, adds one reaction per layer and blocks input |
| BoardProperties.RunWin | koldun/src/game/state_mashine/states/level/grid.rs:239-242 | the win flag ends set iff it started set or some action was `Win` |
| BoardProperties.ApplyRedraw | koldun/src/game/state_mashine/states/level/grid.rs:180-198 | one action other than `InitSpell` adds to the redraw batch exactly the slots it asks for: a `Redraw` its target, a `RedrawAnim` its previous slot and its target |
| BoardProperties.RunRedraw | koldun/src/game/state_mashine/states/level/grid.rs:158-244 | without `InitSpell`, a slot ends in the redraw batch iff it started there or some `Redraw` or `RedrawAnim` asked for it |
| BoardProperties.LastBlockWins | koldun/src/game/state_mashine/states/level/grid.rs:233-236 | the last `Block` decides the flag unless a later action moves something |
| BoardProperties.BlockUntouched | koldun/src/game/state_mashine/states/level/grid.rs:155 | with no `Block` and no move, the flag stays what it started as |
| BoardProperties.ApplyConserves | koldun/src/game/state_mashine/states/level/grid.rs:158-243 | every arm except `InitSpell` keeps every occupant on the board |
| BoardProperties.RunConserves | koldun/src/game/state_mashine/states/level/grid.rs:158-244 | a run without `InitSpell` neither loses nor duplicates an occupant |
| BoardProperties.RunFromStartConsistent | koldun/src/game/state_mashine/states/level/grid.rs:144-246 | from empty outputs, the reactions are deliverable and the redraw batch names each target once |
| BoardProperties.InitSpellDrops | koldun/src/game/state_mashine/states/level/grid.rs:215-228 | with the slot beside the wizard off the board or taken, the staged occupant is taken out and lost, and nothing else changes |
| BoardProperties.InitSpellPlaces | koldun/src/game/state_mashine/states/level/grid.rs:215-228 | with that slot on the board and free, the staged occupant moves there with its coordinates and layer rewritten, and a redraw of the slot is requested |
| BoardProperties.MoveThenReactRelocates | koldun/src/game/state_mashine/states/level/grid.rs:161-177 | after a confirmed move and its reactions, the wizard's own target is its new slot |
| BoardProperties.WizardReachingExitWins | koldun/src/game/state_mashine/states/level/items/exit.rs:22-34 | the wizard stepping onto the exit's cell latches the exit, which then announces the win |
| BoardProperties.EventHandlesEachCellOnce | koldun/src/game/state_mashine/states/level/grid.rs:134-140 | the event scan handles every cell exactly once, and each cell sees the state it had before the pass |
| BoardProperties.EventScansInOrder | koldun/src/game/state_mashine/states/level/grid.rs:134-140 | the action list is the cells' own lists in column-major order; within a cell, lower layer first is `Cells.CellActionsInLayerOrder` |
| Grids.SameBoard | koldun/src/game/state_mashine/states/level/grid.rs:123 | two grids that agree cell by cell are equal |
| Grids.Transplant | koldun/src/game/state_mashine/states/level/grid.rs:356-360 | moving a cell's layers into an empty cell leaves the source empty and the destination equal to the source |
| Grids.Grid.Contents | koldun/src/game/state_mashine/states/level/grid.rs:123 | the board value is the array's cells, row by row |
| Grids.Grid.Store | koldun/src/game/state_mashine/states/level/grid.rs:313-318 | writing one cell in place is the board with that cell replaced |
| Grids.Grid.New | koldun/src/game/state_mashine/states/level/grid.rs:126-129 | a new grid is the empty board |
| Grids.Grid.FromLayout | koldun/src/game/state_mashine/states/level/grid.rs:367-379 | the grid built from a layout is the scenery board of that layout |
| Grids.Grid.NewFrom | koldun/src/game/state_mashine/states/level/grid.rs:349-364 | the new grid holds exactly what `other` held, and `other` is left empty |
| Grids.Grid.SetItem | koldun/src/game/state_mashine/states/level/grid.rs:258-262 | in place, the board is as `set_item` specifies |
| Grids.Grid.TileId | koldun/src/game/state_mashine/states/level/grid.rs:254-256 | the tile the cell shows; absent iff the cell is empty |
| Grids.Grid.MoveItem | koldun/src/game/state_mashine/states/level/grid.rs:264-307 | in place, the board and the result are as the move specifies |
| Grids.Grid.FindKind | koldun/src/game/state_mashine/states/level/grid.rs:337-347 | the nested loop returns what `Boards.FindKind` does: the first match of the column-major scan, absent iff no cell holds the kind |
| Grids.Grid.CellEvent | koldun/src/game/state_mashine/states/level/grid.rs:136-138 | one scan step: the cell handles the event in place and its actions are appended |
| Grids.Grid.ColumnEvent | koldun/src/game/state_mashine/states/level/grid.rs:135-139 | one column of the scan, top to bottom |
| Grids.Grid.OnEvent | koldun/src/game/state_mashine/states/level/grid.rs:131-142 | in place, the board and the actions are as the event pass specifies |
| Grids.Grid.InitSpell | koldun/src/game/state_mashine/states/level/grid.rs:202-230 | in place, panics exactly where the arm does, and otherwise leaves the board and outputs the arm specifies |
| Grids.Grid.PlaceStaged | koldun/src/game/state_mashine/states/level/grid.rs:215-228 | in place, the board and the redraw batch are as the placement step specifies |
| Grids.Grid.Resolve | koldun/src/game/state_mashine/states/level/grid.rs:158-243 | one action in place, including the per-layer reaction pushes and their capacity panic |
| Grids.Grid.ResolveMove | koldun/src/game/state_mashine/states/level/grid.rs:161-177 | in place, the `Move` arm: panics exactly where the firmware does, otherwise the board and outputs the arm specifies |
| Grids.Grid.OnActions | koldun/src/game/state_mashine/states/level/grid.rs:144-246 | reports a panic iff the run panics, and otherwise leaves the board and outputs of the run |
| Grids.Grid.OnReactions | koldun/src/game/state_mashine/states/level/grid.rs:248-252 | in place, the board is the reactions delivered in order |
| States.Level1Board | koldun/src/game/state_mashine/states/level/level1.rs:23-49 | the first level: the wizard at (10, 5, 1), the exit at (10, 7, 0) with nothing above it, every other cell as its layout |
| States.Level1Placement | koldun/src/game/state_mashine/states/level/level1.rs:40-48 | the wizard keeps the floor under it, while the exit replaces the floor sprite of its cell |
| States.SceneryHasNoWizard | koldun/src/game/state_mashine/states/level/level1.rs:24-40 | no scenery cell of the first level holds a wizard |
| States.Level1WizardFound | koldun/src/game/state_mashine/states/level/level1.rs:42-44 | `find_kind(Wizard)` on the first level finds the wizard placed at (10, 5, 1) |
| States.Level.New | koldun/src/game/state_mashine/states/level/level1.rs:23-57 | the level's grid is the first level's board, with an empty tile cache and no block |
| States.Level.FromGrid | koldun/src/game/state_mashine/states/level/level1.rs:59-69 | the level's grid takes over every occupant of `other`, which is left empty |
| States.Level.OnEvent | koldun/src/game/state_mashine/states/level/level1.rs:78-94 | a win clears the cache and starts the first level afresh; otherwise a spell request hands the grid to a spell screen; otherwise the level keeps control |
| States.Spell.FromGrid | koldun/src/game/state_mashine/states/spell.rs:26-29 | the spell screen's grid takes over every occupant of `other`, which is left empty |
| States.Spell.OnEvent | koldun/src/game/state_mashine/states/spell.rs:38-47 | a pressed Reset rebuilds the level from this screen's grid; every other event keeps the spell screen and its grid |
| States.NextCommand | koldun/src/game/state_mashine/states/start_menu.rs:38-41 | `on_up` moves to the next entry, modulo the three entries |
| States.PrevCommand | koldun/src/game/state_mashine/states/start_menu.rs:52-55 | `on_down` moves to the previous entry, modulo the three entries |
| States.UpDownInverse | koldun/src/game/state_mashine/states/start_menu.rs:33-59 | up then down, or down then up, returns to the same entry |
| States.ThreePressesCycle | koldun/src/game/state_mashine/states/start_menu.rs:33-59 | three presses in one direction go once round the menu |
| States.StartMenu.New | koldun/src/game/state_mashine/states/start_menu.rs:29-31 | the menu starts on the first entry |
| States.StartMenu.OnUp | koldun/src/game/state_mashine/states/start_menu.rs:33-45 | the highlight moves to the next entry and the menu keeps control |
| States.StartMenu.OnDown | koldun/src/game/state_mashine/states/start_menu.rs:47-59 | the highlight moves to the previous entry and the menu keeps control |
| States.StartMenu.OnSelect | koldun/src/game/state_mashine/states/start_menu.rs:61-70 | the first entry starts the first level; the others do nothing |
| States.StartMenu.OnEvent | koldun/src/game/state_mashine/states/start_menu.rs:128-135 | pressed Up, Down and Right go to the three handlers; any other event changes nothing |
| States.Initial.OnControl | koldun/src/game/state_mashine/states/initial.rs:27-34 | any event hands over to a new start menu on its first entry |
| Machine.StateMachine.New | koldun/src/game/state_mashine.rs:25-33 | the machine starts on the initial screen with the given display and flash |
| Machine.StateMachine.OnControl | koldun/src/game/state_mashine.rs:35-40 | the current screen handles the event; a returned successor becomes current, and otherwise the screen stays |
| Machine.StateMachine.FromInitial | koldun/src/game/state_mashine.rs:35-40 | on the initial screen any event makes a new start menu current |
| Machine.StateMachine.FromMenu | koldun/src/game/state_mashine.rs:35-40 | on the menu, pressing Right on the first entry makes a new first level current; otherwise the menu stays |
| Machine.StateMachine.FromLevel | koldun/src/game/state_mashine.rs:35-40 | on a level, a win makes a new first level current and a spell request a spell screen holding the level's board; otherwise the level stays |
| Machine.StateMachine.FromSpell | koldun/src/game/state_mashine.rs:35-40 | on the spell screen, a pressed Reset makes a level holding the spell screen's board current; otherwise the spell screen stays |
| Draft.NewDraftItem | koldun/src/game/items.rs:38-46 | a draft item has the given layer, position and sprite and state 0 |
| Draft.SwithState | koldun/src/game/items/wizard.rs:27-29 | the draft wizard's state toggles 0 to 1 and anything else to 0 |
| Draft.WizardTick | koldun/src/game/items/wizard.rs:11-23 | a tick changes the wizard iff the time is a multiple of five; then the state toggles and the sprite follows it |
| Draft.WizardTickTwice | koldun/src/game/items/wizard.rs:11-23 | two toggling ticks restore the wizard |
| Draft.SpriteTick | koldun/src/game/items/sprite.rs:7-11 | scenery never changes on a tick |
| Draft.OccupantTick | koldun/src/game/items.rs:9 | through the trait object, only a wizard on a multiple of five changes, and it keeps its layer |
| Draft.NewDraftCell | koldun/src/game/cell.rs:18-26 | a new draft cell has its position and three empty layers |
| Draft.NewDraftSprite | koldun/src/game/cell.rs:28-40 | a draft scenery cell holds a layer-0 sprite with the layout id at its position; layers 1 and 2 are empty |
| Draft.SetDraftItem | koldun/src/game/cell.rs:42-45 | the occupant replaces the slot of its layer; every other slot is kept |
| Draft.FirstTicking | koldun/src/game/cell.rs:49-54 | the lowest slot whose tick reports a change; absent iff none does |
| Draft.Tick | koldun/src/game/cell.rs:48-55 | the cell reports a change iff some occupant does; only the first such occupant is ticked, since `any` stops there |
| Draft.TopSlot | koldun/src/game/cell.rs:64-71 | the highest occupied slot, absent iff every slot is empty |
| Draft.DraftTileId | koldun/src/game/cell.rs:63-72 | the draft cell shows the tile of its highest occupied layer; an empty cell is `None` |
| Draft.SpriteCellShowsLayout | koldun/src/game/cell.rs:28-40 | a scenery cell shows its layout id |
| Draft.DraftVerticalInverted | koldun/src/game.rs:35-49 | the draft's up and down are the engine's down and up |
| Draft.DraftGrid.From | koldun/src/game/cell.rs:76-87 | every cell of the draft grid is the scenery cell of its layout id at its own position |
| Panel.Raw | koldun/src/ili9486.rs:96-99 | the raw colour word holds red in bits 11-15, green in 5-10 and blue in 0-4 |
| Panel.ColorOfRaw | koldun/src/ili9486.rs:96-99 | reading a raw word as a colour and storing it again gives the word |
| Panel.RawRoundTrip | koldun/src/ili9486.rs:96-99 | storing a colour and reading it back gives the colour |
| Panel.NeBytes | koldun/src/ili9486.rs:97 | `to_ne_bytes` on the little-endian target: the low byte first |
| Panel.FlagBit | koldun/src/ili9486.rs:246-276 | a flag adds its bit when it is `Reverse` and nothing when it is `Forward` |
| Panel.PixelFormatCode | koldun/src/ili9486.rs:21-24 | both nibbles of the code are equal; 5 selects 16 bits, 6 selects 18 |
| Panel.AsU16 | koldun/src/ili9486.rs:196-197 | `as u16` keeps every coordinate that fits in 16 bits |
| Panel.AddressBytes | koldun/src/ili9486.rs:324-346 | the four argument bytes join back, big-endian, into the start and the end address |
| Panel.AddressBytesInjective | koldun/src/ili9486.rs:324-346 | different address pairs give different arguments |
| Ili9486.ColorToData | koldun/src/ili9486.rs:96-99 | the two colour bytes, high byte first, join back into the raw colour word |
| Ili9486.ColorToDataInjective | koldun/src/ili9486.rs:96-99 | different colours are sent as different byte pairs |
| Ili9486.MemoryAccessControlByte | koldun/src/ili9486.rs:237-281 | the panel decodes the flag byte back into exactly the six flags given, and bits 0 and 1 stay clear |
| Ili9486.SetPixelFormat | koldun/src/ili9486.rs:201-205 | one `InterfacePixelFormat` byte, whose nibble is 5 iff the format is 16 bits |
| Ili9486.SetActiveArea | koldun/src/ili9486.rs:193-199 | nothing for an empty area; otherwise a column then a page address set whose ends are the area's first and last column and row, truncated to 16 bits |
| Ili9486.ActiveAreaOnScreen | koldun/src/ili9486.rs:193-199 | for an on-screen area the address window is exactly its columns and rows |
| Ili9486.Drawn | koldun/src/ili9486.rs:128-134 | every write is the write of an accepted input pixel, every on-screen pixel is written with its own colour, and there are no more writes than pixels |
| Ili9486.DrawIter | koldun/src/ili9486.rs:124-136 | the loop makes exactly the writes `Drawn` specifies, in order |
| Ili9486.OnStepPastEnd | koldun/src/ili9486.rs:302-303 | a stepped range that overshoots its end by less than one step holds the same values as the range up to the end |
| Ili9486.SolidTileOrigins | koldun/src/ili9486.rs:299-308 | every tile origin lies inside the clipped area |
| Ili9486.FillColumn | koldun/src/ili9486.rs:303-305 | the inner loop fills exactly the stepped origins of one column, strictly top to bottom |
| Ili9486.DrawSolidArea | koldun/src/ili9486.rs:299-308 | the nested stepped loops fill a tile at exactly the origins of the clipped area stepped by 32 up to its bottom-right corner, column by column and top to bottom within a column |
| Ili9486.SolidAreaMissesEdge | koldun/src/ili9486.rs:302-303 | a one-pixel on-screen area gets no tile at all |
| Ili9486.CoveringTileOrigins | koldun/src/ili9486.rs:299-308 | with the inclusive range every tile origin still lies in the clipped area |
| Ili9486.CoveringTilesCoverArea | koldun/src/ili9486.rs:299-308 | with the inclusive range every on-screen pixel of the area lies in a filled tile |
| Ili9431.Rgb656ToU16 | koldun/src/ili9431.rs:60-63 | the colour word is the raw colour word |
| Ili9431.Rgb656ToU16Injective | koldun/src/ili9431.rs:60-63 | different colours are sent as different words |
| Ili9431.MemoryAccessControlWord | koldun/src/ili9431.rs:168-212 | the flag word fits in a byte, decodes back into exactly the six flags given, and bits 0 and 1 stay clear |
| Ili9431.PixelFormatWord | koldun/src/ili9431.rs:132-136 | one argument word below 256 whose nibble is 5 iff the format is 16 bits |
| Ili9431.AddressWords | koldun/src/ili9431.rs:227-249 | four words, each below 256, that join back into the start and end address |
| Ili9431.AddressWordsMatchBytes | koldun/src/ili9431.rs:227-249 | the 16-bit driver sends the same four values the 8-bit driver sends |
| Ili9431.DrawnAsWritten | koldun/src/ili9431.rs:86-92 | every write is the write of an input pixel that passed the filter as written, every such pixel is written with its colour, and there are no more writes than pixels |
| Ili9431.DrawIter | koldun/src/ili9431.rs:82-94 | the loop makes exactly the writes `DrawnAsWritten` specifies, in order |
| Ili9431.DrawIterFilterMismatch | koldun/src/ili9431.rs:86-92 | the filter drops the on-screen pixel (300, 10) and sends the off-screen pixel (10, 300) |
| Ili9431.Drawn | koldun/src/ili9431.rs:67-69 | with the bounding box as filter, every write is the write of an on-screen input pixel, every on-screen pixel is written, and there are no more writes than pixels |
| Bringup.EncodeRgb565AsWritten | koldun/src/main.rs:44-48 | the word as written never sets bit 15 |
| Bringup.WhiteAsWritten | koldun/src/main.rs:338 | white encodes to 0x7FFF |
| Bringup.EncodeAsWrittenCollides | koldun/src/main.rs:44-48 | green 1 and blue 16 give the same word, 16 |
| Bringup.EncodeRgb565 | koldun/src/main.rs:44-48 | each masked component reads back from its own RGB565 field |
| Bringup.EncodeRgb565Injective | koldun/src/main.rs:44-48 | equal words mean equal masked components |
| Bringup.WhiteEncoded | koldun/src/main.rs:338 | white encodes to 0xFFFF |
| Bringup.PinLevels | koldun/src/main.rs:23-41 | sixteen pin levels |
| Bringup.PinBitIsMask | koldun/src/main.rs:25-40 | pin k contributes bit k of the word and nothing else |
| Bringup.WordOfMasks | koldun/src/main.rs:25-40 | a word is the union of its sixteen one-bit masks |
| Bringup.PinsRoundTrip | koldun/src/main.rs:23-41 | the panel samples back exactly the word the pins were set from |
| Bringup.Write2Bytes | koldun/src/main.rs:23-41 | pin k is high iff bit k of the word is set |
| Bringup.WriteWords | koldun/src/main.rs:271-278 | the panel latches each word's pin levels, in order |
| Bringup.AddressData | koldun/src/main.rs:260-267 | four words, each below 256, that join back into the start and end address |
| Bringup.SendAddress | koldun/src/main.rs:260-278 | the start and end addresses join back from what the panel samples |
| Compressor.Lit | tga_compressor/tga_compressor/compressor.py:12 | a pixel is lit iff some channel is non-zero |
| Compressor.Bits | tga_compressor/tga_compressor/compressor.py:12 | one bit per pixel, in order, each the pixel's `any` |
| Compressor.ByteValue | tga_compressor/tga_compressor/compressor.py:14 | a chunk's byte is below 2 to the chunk's length |
| Compressor.ByteValueBits | tga_compressor/tga_compressor/compressor.py:14 | bit k of a chunk's byte is the chunk's k-th bit, and every bit past the chunk is 0 |
| Compressor.PackBits | tga_compressor/tga_compressor/compressor.py:14 | `packbits` yields ceil(n / 8) bytes |
| Compressor.PackBitsRoundTrip | tga_compressor/tga_compressor/compressor.py:14 | bit i of the packed bytes, least significant first, is input bit i, and padding bits are 0 |
| Compressor.Compress | tga_compressor/tga_compressor/compressor.py:9-14 | one byte per eight pixels, rounded up |
| Compressor.CompressedPixel | tga_compressor/tga_compressor/compressor.py:9-14 | a pixel reads back lit from the compressed stream iff some channel of it is non-zero |
| Compressor.LastDot | tga_compressor/tga_compressor/compressor.py:25 | the last dot of a name, absent iff there is none |
| Compressor.Stem | tga_compressor/tga_compressor/compressor.py:25 | `Path.stem` is a prefix of the name; when shorter, it stops at the last dot, which neither opens nor ends the name |
| Compressor.StemDropsExtension | tga_compressor/tga_compressor/compressor.py:25 | the stem of `base.ext` is `base` |
| Compressor.OutputNameInjective | tga_compressor/tga_compressor/compressor.py:25 | two sources get the same output path iff their stems are equal |
| Compressor.CompressImage | tga_compressor/tga_compressor/compressor.py:9-14 | `_compress` raises iff the entry is not an image, is a single-channel image, or has no pixel; otherwise it gives the packed pixels, at least one byte |
| Compressor.FirstFailure | tga_compressor/tga_compressor/compressor.py:23-26 | the first entry whose compression raises: every earlier entry compresses; absent iff every entry does |
| Compressor.Converted | tga_compressor/tga_compressor/compressor.py:23-27 | for sources that all compress, every existing file and every source's output path is present afterwards |
| Compressor.ConvertedStep | tga_compressor/tga_compressor/compressor.py:24-26 | one more compressing entry writes its packed pixels under its output name on top of the files before it |
| Compressor.ConvertedHolds | tga_compressor/tga_compressor/compressor.py:23-27 | a source whose stem no later source shares ends up with its own packed pixels |
| Compressor.ConvertedKeepsOthers | tga_compressor/tga_compressor/compressor.py:23-27 | a file no source maps to is left alone |
| Compressor.FileStore.constructor | tga_compressor/tga_compressor/compressor.py:23 | the store starts with the given files |
| Compressor.FileStore.CompressFile | tga_compressor/tga_compressor/compressor.py:17-20 | it fails iff `_compress` raises, and then writes nothing; otherwise the destination file holds the packed pixels, replacing any file there |
| Compressor.FileStore.CompressAll | tga_compressor/tga_compressor/compressor.py:23-27 | it fails iff some entry raises; the store then holds exactly the outputs of the entries before the first one that raised, and otherwise those of all entries, as `Converted` specifies |
| TileMacro.ParseArgs | koldun_macro_derive/src/lib.rs:12-18 | the parser yields no more identifiers than tokens |
| TileMacro.ParseRenderArgs | koldun_macro_derive/src/lib.rs:12-18 | parsing a comma-separated list, with or without a trailing comma, gives its identifiers back |
| TileMacro.ParseArgsAccepts | koldun_macro_derive/src/lib.rs:12-18 | the parser accepts only comma-separated identifier lists |
| TileMacro.Lower | koldun_macro_derive/src/lib.rs:30-31 | a lowered letter is not a capital, and a capital moves to its lower-case letter |
| TileMacro.SnakeCase | koldun_macro_derive/src/lib.rs:30-31 | the snake-case name is no shorter than the name and has no capital |
| TileMacro.SnakeCaseLength | koldun_macro_derive/src/lib.rs:30-31 | snake case adds exactly one character per capital past the first character |
| TileMacro.SnakeCaseLetters | koldun_macro_derive/src/lib.rs:30-31 | with the underscores removed, the snake-case name is the name lowered letter by letter, with nothing dropped or reordered |
| TileMacro.AllMethods | koldun_macro_derive/src/lib.rs:29-47 | two methods per variant, in variant order: the bitmap method, then the `_id` method |
| TileMacro.RenderTiles | koldun_macro_derive/src/lib.rs:29-47 | the loop emits exactly those methods |
| TileMacro.TileIdRoundTrip | koldun_macro_derive/src/lib.rs:42-44 | for an index within a sheet, the id gives back both the sheet and the index |
| TileMacro.TileIdInjective | koldun_macro_derive/src/lib.rs:42-44 | ids of in-sheet tiles are equal iff the tiles are |
| TileMacro.TileIdAliases | koldun_macro_derive/src/lib.rs:42-44 | an index past the sheet aliases the first tile of the next sheet |
| TileMacro.TileBitmap | koldun_macro_derive/src/lib.rs:34-40 | the index panic happens iff the sheet or the 128-byte range is out of bounds; otherwise the result is those 128 bytes |
| TileMacro.Sheet | koldun_macro_derive/src/lib.rs:35-38 | a sheet of packed tiles is 128 bytes per tile |
| TileMacro.SheetTile | koldun_macro_derive/src/lib.rs:35-38 | on such a sheet the generated method reads back exactly tile `index` |

## Left out

- Items are values here. The firmware updates boxed trait objects in place; the model does not capture that aliasing.
- The capacity of the `heapless` vectors is not enforced: 3 actions per item, 32 redraw requests, 128 actions from `on_event`. The 128-entry `reactions` push in `on_actions` is enforced, and overflowing it is the modelled panic.
- Board coordinates are `usize`. A step below zero is a negative number here, and the bounds check rejects it as it rejects the wrapped value. A debug build would panic instead.
- The animated redraw's pixel shift is computed in `f32`. The model keeps the direction and the elapsed ticks it is computed from.
- Named sprite ids come from the generated tile table, which is not part of this model. Named tiles stay names.
- The level's own event pass (`_on_event`, with its drawing) is not part of the modelled files. `States.Level.OnEvent` and `Machine.StateMachine.OnControl` take what it reports (a win, a spell request) as parameters.
- `on_init`, `redraw`, `redraw_all`, `draw`, `draw_text` and the tile cache's fill only draw; they are display I/O.
- `Boards.AddToRedraw`: the `add_to_redraw!` macro's body is not in the modelled files (`grid.rs` only imports it). The model assumes it inserts a request only when no request for that target is already in the batch, so the first request for a target is kept. Under that reading, a later animated request for a target already in the batch loses its shift, and `BoardProperties.RunFromStartConsistent`'s "each target once" depends on it.
- `h_vec![N;]`, whose body is not in the modelled files either, is read as an empty bounded list. This gives the no-actions case of an empty slot in `Cells.SlotActions` and a non-winning `Exit.OnEvent`.
- `set_z` for `Item<I>` is not in the modelled files. `Occupants.SetZ` takes it to write the layer, as the spell's `set_z` does.
- The files disagree on versions:
  - `actions.rs` has no `who` field and no `Win`; `grid.rs` and `exit.rs` use both, so the model follows them.
  - `state_mashine.rs` calls `on_control`, while the screens implement `on_event`; the model routes each event to the screen's handler.
- Debug helpers are left out: `get_items_len`, `get_cell_items_len`, the `Index`/`IndexMut` impls and the `Display` impl of `CellError`.
- The drivers' `fill_solid`, `fill_contiguous`, `clear`, `draw_tile`, `draw_solid`, `tga_to_data`, `draw_text` and the PIO bus transfers are left out. They hand data to embedded-graphics, tinytga or the hardware.
- `Ili9486.DrawSolidArea` returns the tile origins; painting each 32 x 32 tile is display I/O.
- `Panel.NeBytes` assumes the little-endian RP2040.
- `main.rs`: the GPIO and timer sequencing (CS, DC, WR, RD, the delays) and the command phases are left out. Only the data words and the pin levels are modelled.
- Compressor:
  - Image decoding and directory listing are parameters. Each entry is given as its name and what decoding gives: multi-channel pixels, the integers of a single-channel image, or a failure to open.
  - Only the failures of `_compress` are modelled: `Image.open` on an entry that is not an image, `any` on an integer pixel, and `np.packbits` on an empty list, which numpy reads as floats. A failure to open or write the destination file is not modelled.
  - The log line is left out.
- `TileMacro.SnakeCase`: only the capital-letter rule of `to_snake_case` is modelled. Digits, acronyms and existing underscores are not.
- `Occupants.OnEvent`: the grid's event pass (`Cells`, `Boards` and `Grids.Grid.OnEvent`) requires every uninitialised spell on the board to carry a command. `SpellItem.OnEvent` models the panic of a spell without one, but that panic is not carried through the grid's event pass.
- `TileMacro.TileBitmap`: the layout of `TILEMAPS` is not part of the modelled files, and `render` is not either. The method returns the copied 128 bytes, not the rendered bitmap.
- `TileMacro.ParseArgs`: its own contract is only a length bound. Its meaning is proved by `TileMacro.ParseRenderArgs` and `TileMacro.ParseArgsAccepts`.

## Findings

| source | as written | input that shows it | evidently intended | confidence | as-written member | corrected member |
|---|---|---|---|---|---|---|
| koldun/src/main.rs:44-48 | red is shifted by 10 and green by 4, so green overlaps blue and bit 15 is never set | (0, 1, 0) and (0, 0, 16) both give 16; white gives 0x7FFF | shifts 11 and 5, the RGB565 layout | high, not executed | Bringup.EncodeAsWrittenCollides | Bringup.EncodeRgb565Injective |
| koldun/src/ili9431.rs:86-92 | `draw_iter` accepts x in 0..=239 and y in 0..=319, the portrait bounds, while the bounding box is 320 x 240 | (300, 10) is dropped; (10, 300) is sent | x in 0..=319 and y in 0..=239 | high, not executed | Ili9431.DrawIterFilterMismatch | Ili9431.Drawn |
| koldun/src/ili9486.rs:299-308 | the stepped ranges stop before the inclusive bottom-right corner | a 1 x 1 area at (0, 0) gets no tile | inclusive ranges (`..=`), so every pixel of the area is covered | medium, not executed | Ili9486.SolidAreaMissesEdge | Ili9486.CoveringTilesCoverArea |
| koldun/src/game.rs:58-64 | the draft `set_x`/`set_y` assign into the copy `coords()` returns, so no step moves anything | an item at (0, 0) asked to move to (0, 1) stays at (0, 0) | write the stored point, as `level/items.rs` later does through `coords_mut` | high, not executed | Game.DraftStepsAreInert | Game.IntendedStepsMove |
