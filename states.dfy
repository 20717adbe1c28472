/**
 * The game screens (state_mashine/states): the first screen, the start menu, the level and
 * the spell screen. Each screen's event handler either keeps control (`None`) or returns
 * the screen that takes over. Drawing (`on_init`, `redraw`) is left to the display and is
 * not modelled.
 */
module States {
  import opened Ints
  import opened Geometry
  import opened Actions
  import opened Items
  import opened Occupants
  import opened Cells
  import opened Game
  import opened Boards
  import opened Grids
  import Events

  /** A screen that takes over: what `Box<dyn State>` holds. */
  datatype Screen =
    | InitialScreen(i: Initial)
    | MenuScreen(m: StartMenu)
    | LevelScreen(l: Level)
    | SpellScreen(p: Spell)

  /** The objects a screen owns. */
  ghost function Objects(s: Screen): set<object> {
    match s
    case InitialScreen(i) => {i}
    case MenuScreen(m) => {m}
    case LevelScreen(l) => {l, l.grid.cells}
    case SpellScreen(p) => {p.grid.cells}
  }

  /** The invariant of whichever screen is current. */
  ghost predicate ScreenValid(s: Screen)
    reads Objects(s)
  {
    match s
    case InitialScreen(_) => true
    case MenuScreen(m) => m.Valid()
    case LevelScreen(l) => l.Valid()
    case SpellScreen(p) => p.Valid()
  }

  // ----- level1.rs -----

  /** The levels a spell screen can return to. */
  datatype Levels = Level1

  /** The first level's scenery: `MAX_Y` rows of `MAX_X` tile ids. */
  const LEVEL1: seq<seq<nat>> := [
    [0, 0, 0, 0, 36, 0, 0, 0, 0, 38, 0, 0, 0, 0, 0],
    [0, 0, 0, 0, 37, 0, 0, 0, 0, 36, 0, 0, 0, 0, 0],
    [0, 0, 0, 0, 38, 0, 0, 0, 0, 36, 0, 0, 0, 0, 0],
    [42, 0, 0, 0, 36, 0, 0, 0, 0, 37, 0, 0, 0, 0, 0],
    [0, 0, 0, 0, 37, 0, 0, 0, 0, 38, 0, 0, 0, 0, 0],
    [0, 43, 0, 0, 38, 37, 4, 36, 37, 36, 0, 0, 0, 0, 0],
    [0, 42, 0, 0, 0, 0, 3, 0, 0, 0, 0, 0, 0, 7, 6],
    [0, 3, 41, 0, 3, 3, 2, 0, 0, 0, 0, 7, 6, 51, 50],
    [2, 3, 2, 3, 2, 3, 0, 0, 0, 0, 0, 6, 51, 50, 51],
    [42, 43, 0, 2, 0, 0, 0, 0, 0, 0, 0, 0, 50, 51, 50]
  ]

  /** The wizard the first level starts with: column 10, row 5, layer 1, idle. */
  const WIZARD: Occupant := WizardItem(NewItem(Point(10, 5), 1, Named(WizardIdle1)))

  /** The open exit of the first level: column 10, row 7, layer 0. */
  const EXIT: Occupant := ExitItem(NewItem(Point(10, 7), 0, Named(ExitOpen)))

  /** The board `Level<Level1>::new` builds: the scenery of `LEVEL1`, then the wizard set
      into its cell, then the exit set into its cell. */
  function Level1Board(): (b: Board)
    ensures WellFormed(b) && BoardReady(b)
    ensures Slot(b, Target(10, 5, 1)) == Some(WIZARD)
    ensures Slot(b, Target(10, 7, 0)) == Some(EXIT) && Slot(b, Target(10, 7, 1)) == None
    ensures forall y, x :: 0 <= y < MAX_Y && 0 <= x < MAX_X && !(x == 10 && (y == 5 || y == 7)) ==>
              b[y][x] == Boards.FromLayout(LEVEL1)[y][x]
    ensures b[5][10].items[0] == Boards.FromLayout(LEVEL1)[5][10].items[0]
  {
    assert LayoutShape(LEVEL1);
    SetItemAt(SetItemAt(Boards.FromLayout(LEVEL1), 10, 5, WIZARD), 10, 7, EXIT)
  }

  /** The wizard keeps the scenery under it, while the exit replaces the floor sprite of
      its cell: layout id 0 sits in layer 0, the exit's own layer. */
  lemma Level1Placement()
    ensures Boards.FromLayout(LEVEL1)[5][10].items[1] == None
    ensures Boards.FromLayout(LEVEL1)[7][10].items[0] == Some(StaticSprite(NewItem(Point(10, 7), 0, Numbered(0))))
    ensures Level1Board()[5][10].items[0] == Some(StaticSprite(NewItem(Point(10, 5), 0, Numbered(0))))
  {
    assert LayoutShape(LEVEL1);
    assert LEVEL1[5][10] == 0 && LEVEL1[7][10] == 0;
  }

  /** A scenery cell of the first level holds no wizard. */
  lemma SceneryHasNoWizard(x: int, y: int)
    requires 0 <= y < MAX_Y && 0 <= x < MAX_X && !(x == 10 && (y == 5 || y == 7))
    ensures Cells.FindKind(Level1Board()[y][x], WizardKind).None?
  {
    assert LayoutShape(LEVEL1);
    var c := Boards.FromLayout(LEVEL1)[y][x];
    assert Level1Board()[y][x] == c;
    assert forall z :: 0 <= z < |c.items| && c.items[z].Some? ==> c.items[z].value.StaticSprite?;
  }

  /** The first level has its wizard where `InitSpell` looks for it: the first wizard in
      column-major order is the one placed at (10, 5, 1). */
  lemma {:induction false} Level1WizardFound()
    ensures Boards.FindKind(Level1Board(), WizardKind) == Some(Target(10, 5, 1))
  {
    var b := Level1Board();
    var j := 10 * MAX_Y + 5;
    assert CellAt(b, j) == b[5][10];
    forall l | 0 <= l < j
      ensures Cells.FindKind(CellAt(b, l), WizardKind).None?
    {
      SceneryHasNoWizard(l / MAX_Y, l % MAX_Y);
    }
    FirstCellWithAt(b, WizardKind, 0, j);
  }

  /** `Level<Level1>`: the grid the level plays on, the cache of tile bitmaps its drawing
      fills, and the blocked flag. */
  class Level {
    const grid: Grid
    var tiles: map<TileRef, seq<u8>>
    var block: Option<bool>

    ghost predicate Valid()
      reads grid.cells
    {
      grid.Valid()
    }

    /** `Level<Level1>::new`: the grid of `LEVEL1` with the wizard and the exit set into
        their cells; the tile cache empty. */
    constructor New()
      ensures Valid() && fresh(grid) && fresh(grid.cells)
      ensures grid.Contents() == Level1Board()
      ensures tiles == map[] && block == None
    {
      assert LayoutShape(LEVEL1);
      var g := new Grid.FromLayout(LEVEL1);
      g.Store(10, 5, Cells.SetItem(g.cells[5, 10], WIZARD));
      g.Store(10, 7, Cells.SetItem(g.cells[7, 10], EXIT));
      grid := g;
      tiles := map[];
      block := None;
    }

    /** `Level<Level1>::from_grid`: a level over a fresh grid that took over every occupant
        of `other`, which is left empty; the tile cache empty. */
    constructor FromGrid(other: Grid)
      requires other.Valid()
      modifies other.cells
      ensures Valid() && fresh(grid) && fresh(grid.cells)
      ensures grid.Contents() == old(other.Contents())
      ensures other.Valid() && other.Contents() == EmptyBoard()
      ensures tiles == map[] && block == None
    {
      grid := new Grid.NewFrom(other);
      tiles := map[];
      block := None;
    }

    /** `on_event`, given what the level's own event pass reported. A win clears the tile
        cache and restarts the level from scratch; otherwise a spell request hands the
        grid over to a spell screen; otherwise the level keeps control. */
    method OnEvent(isWin: bool, isSpell: bool) returns (next: Option<Screen>)
      requires Valid()
      modifies this, grid.cells
      ensures Valid() && block == old(block)
      ensures isWin ==>
        && next.Some? && next.value.LevelScreen?
        && fresh(next.value.l) && fresh(next.value.l.grid.cells) && next.value.l.Valid()
        && next.value.l.grid.Contents() == Level1Board() && next.value.l.tiles == map[]
        && tiles == map[] && unchanged(grid.cells)
      ensures !isWin && isSpell ==>
        && next.Some? && next.value.SpellScreen?
        && fresh(next.value.p.grid.cells) && next.value.p.Valid() && next.value.p.level == Level1
        && next.value.p.grid.Contents() == old(grid.Contents())
        && grid.Contents() == EmptyBoard() && tiles == old(tiles)
      ensures !isWin && !isSpell ==> next.None? && tiles == old(tiles) && unchanged(grid.cells)
    {
      if isWin {
        tiles := map[];
        var l := new Level.New();
        return Some(LevelScreen(l));
      }
      if isSpell {
        var p := new Spell.FromGrid(grid, Level1);
        return Some(SpellScreen(p));
      }
      return None;
    }
  }

  // ----- spell.rs -----

  /** The spell screen: the grid it took over from the level, and which level to go back to. */
  class Spell {
    const grid: Grid
    const level: Levels

    ghost predicate Valid()
      reads grid.cells
    {
      grid.Valid()
    }

    /** `Spell::from_grid`: a fresh grid takes over every occupant of `other`, which is
        left empty. */
    constructor FromGrid(other: Grid, level: Levels)
      requires other.Valid()
      modifies other.cells
      ensures Valid() && fresh(grid) && fresh(grid.cells) && this.level == level
      ensures grid.Contents() == old(other.Contents())
      ensures other.Valid() && other.Contents() == EmptyBoard()
    {
      grid := new Grid.NewFrom(other);
      this.level := level;
    }

    /** `on_event`: a pressed Reset button rebuilds the stored level from this screen's
        grid, which is left empty; every other event keeps the spell screen and its grid. */
    method OnEvent(e: Events.Event) returns (next: Option<Screen>)
      requires Valid()
      modifies grid.cells
      ensures Valid()
      ensures e == Events.Button(Events.Reset, Events.Pressed) ==>
        && next.Some? && next.value.LevelScreen?
        && fresh(next.value.l) && fresh(next.value.l.grid.cells) && next.value.l.Valid()
        && next.value.l.grid.Contents() == old(grid.Contents()) && next.value.l.tiles == map[]
        && grid.Contents() == EmptyBoard()
      ensures e != Events.Button(Events.Reset, Events.Pressed) ==> next.None? && unchanged(grid.cells)
    {
      if e == Events.Button(Events.Reset, Events.Pressed) {
        // `Level1` is the only level there is to rebuild.
        var l := new Level.FromGrid(grid);
        return Some(LevelScreen(l));
      }
      return None;
    }
  }

  // ----- start_menu.rs -----

  /** Number of menu entries. */
  const MAX_COMMANDS: u16 := 3

  /** `on_up`'s new command: the next entry, from the last back to the first. */
  function NextCommand(c: u16): (r: u16)
    ensures r < MAX_COMMANDS
    ensures c < MAX_COMMANDS ==> r as int == (c as int + 1) % MAX_COMMANDS as int
  {
    if c < MAX_COMMANDS - 1 then c + 1 else 0
  }

  /** `on_down`'s new command: the previous entry, from the first round to the last. */
  function PrevCommand(c: u16): (r: u16)
    ensures c < MAX_COMMANDS ==> r < MAX_COMMANDS
    ensures c < MAX_COMMANDS ==> r as int == (c as int + MAX_COMMANDS as int - 1) % MAX_COMMANDS as int
  {
    if c > 0 then c - 1 else MAX_COMMANDS - 1
  }

  /** Up then down, or down then up, lands on the entry it started from. */
  lemma UpDownInverse(c: u16)
    requires c < MAX_COMMANDS
    ensures PrevCommand(NextCommand(c)) == c
    ensures NextCommand(PrevCommand(c)) == c
  {
  }

  /** Three presses in the same direction go once round the menu. */
  lemma ThreePressesCycle(c: u16)
    requires c < MAX_COMMANDS
    ensures NextCommand(NextCommand(NextCommand(c))) == c
    ensures PrevCommand(PrevCommand(PrevCommand(c))) == c
  {
  }

  /** `StartMenu`: the highlighted entry (0 new game, 1 continue, 2 options). */
  class StartMenu {
    var command: u16

    ghost predicate Valid()
      reads this
    {
      command < MAX_COMMANDS
    }

    /** `StartMenu::new`: the first entry highlighted. */
    constructor New()
      ensures Valid() && command == 0
    {
      command := 0;
    }

    /** `on_up`: highlight the next entry. */
    method OnUp() returns (next: Option<Screen>)
      modifies this
      ensures command == NextCommand(old(command)) && Valid()
      ensures next.None?
    {
      command := if command < MAX_COMMANDS - 1 then command + 1 else 0;
      return None;
    }

    /** `on_down`: highlight the previous entry. */
    method OnDown() returns (next: Option<Screen>)
      requires Valid()
      modifies this
      ensures command == PrevCommand(old(command)) && Valid()
      ensures next.None?
    {
      command := if command > 0 then command - 1 else MAX_COMMANDS - 1;
      return None;
    }

    /** `on_select`: the first entry starts the first level; the others do nothing yet. */
    method OnSelect() returns (next: Option<Screen>)
      ensures command == 0 ==>
        && next.Some? && next.value.LevelScreen?
        && fresh(next.value.l) && fresh(next.value.l.grid.cells) && next.value.l.Valid()
        && next.value.l.grid.Contents() == Level1Board() && next.value.l.tiles == map[]
      ensures command != 0 ==> next.None?
    {
      if command == 0 {
        var l := new Level.New();
        return Some(LevelScreen(l));
      }
      return None;
    }

    /** `on_event`: pressing Up, Down or Right moves the highlight or selects; every other
        event is ignored. */
    method OnEvent(e: Events.Event) returns (next: Option<Screen>)
      requires Valid()
      modifies this
      ensures Valid()
      ensures e == Events.Button(Events.Up, Events.Pressed) ==> command == NextCommand(old(command)) && next.None?
      ensures e == Events.Button(Events.Down, Events.Pressed) ==> command == PrevCommand(old(command)) && next.None?
      ensures e == Events.Button(Events.Right, Events.Pressed) ==>
        && command == old(command) && (next.Some? <==> command == 0)
        && (next.Some? ==>
             && next.value.LevelScreen? && fresh(next.value.l) && fresh(next.value.l.grid.cells)
             && next.value.l.Valid() && next.value.l.grid.Contents() == Level1Board())
      ensures !Pressed(e, Events.Up) && !Pressed(e, Events.Down) && !Pressed(e, Events.Right) ==>
                command == old(command) && next.None?
    {
      if Pressed(e, Events.Up) {
        next := OnUp();
      } else if Pressed(e, Events.Down) {
        next := OnDown();
      } else if Pressed(e, Events.Right) {
        next := OnSelect();
      } else {
        next := None;
      }
    }
  }

  /** `e` is the press of button `id`. */
  predicate Pressed(e: Events.Event, id: Events.ButtonId) {
    e == Events.Button(id, Events.Pressed)
  }

  // ----- initial.rs -----

  /** `Initial`: the screen the machine starts on; it has no state. */
  class Initial {
    constructor New()
    {
    }

    /** `on_control`: whatever the event, the start menu takes over. */
    method OnControl(e: Events.Event) returns (next: Option<Screen>)
      ensures next.Some? && next.value.MenuScreen?
      ensures fresh(next.value.m) && next.value.m.Valid() && next.value.m.command == 0
    {
      var m := new StartMenu.New();
      return Some(MenuScreen(m));
    }
  }
}
