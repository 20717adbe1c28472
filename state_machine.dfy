/**
 * `StateMachine` (state_mashine.rs): the current screen plus the display and flash handles
 * every screen draws through. A control event goes to the current screen; when that screen
 * returns a successor, the successor is initialised on the display and becomes current.
 */
module Machine {
  import opened Geometry
  import opened Boards
  import opened States
  import Events

  class StateMachine<D, F> {
    var state: Screen
    const display: D
    const flash: F

    ghost predicate Valid()
      reads this, Objects(state)
    {
      ScreenValid(state)
    }

    /** `StateMachine::new`: the initial screen, with the given display and flash. */
    constructor New(display: D, flash: F)
      ensures Valid() && state.InitialScreen? && fresh(state.i)
      ensures this.display == display && this.flash == flash
    {
      var i := new Initial.New();
      state := InitialScreen(i);
      this.display := display;
      this.flash := flash;
    }

    /** `on_control`. The level's own event pass is not part of this model: what it
        reported (a win, a spell request) comes in as `isWin` and `isSpell`. The
        successor's `on_init` only draws, so it changes nothing the model keeps. */
    method OnControl(e: Events.Event, isWin: bool, isSpell: bool)
      requires Valid()
      modifies this, Objects(state)
      ensures Valid()
      ensures old(state).InitialScreen? ==>
        state.MenuScreen? && fresh(state.m) && state.m.command == 0
      ensures old(state).MenuScreen? ==>
        if Pressed(e, Events.Right) && old(state.m.command) == 0 then
          state.LevelScreen? && fresh(state.l) && state.l.grid.Contents() == Level1Board()
        else
          state == old(state)
      ensures old(state).LevelScreen? ==>
        if isWin then
          state.LevelScreen? && fresh(state.l) && state.l.grid.Contents() == Level1Board()
        else if isSpell then
          state.SpellScreen? && state.p.grid.Contents() == old(state.l.grid.Contents())
        else
          state == old(state)
      ensures old(state).SpellScreen? ==>
        if Pressed(e, Events.Reset) then
          state.LevelScreen? && fresh(state.l) && state.l.grid.Contents() == old(state.p.grid.Contents())
        else
          state == old(state)
    {
      match state {
        case InitialScreen(_) => FromInitial(e);
        case MenuScreen(_) => FromMenu(e);
        case LevelScreen(_) => FromLevel(isWin, isSpell);
        case SpellScreen(_) => FromSpell(e);
      }
    }

    /** `on_control` on the initial screen: any event opens the start menu. */
    method FromInitial(e: Events.Event)
      requires Valid() && state.InitialScreen?
      modifies this
      ensures Valid() && state.MenuScreen? && fresh(state.m) && state.m.command == 0
    {
      var next := state.i.OnControl(e);
      state := next.value;
    }

    /** `on_control` on the start menu. */
    method FromMenu(e: Events.Event)
      requires Valid() && state.MenuScreen?
      modifies this, state.m
      ensures Valid()
      ensures if Pressed(e, Events.Right) && old(state.m.command) == 0 then
          state.LevelScreen? && fresh(state.l) && state.l.grid.Contents() == Level1Board()
        else
          state == old(state)
    {
      var next := state.m.OnEvent(e);
      if next.Some? {
        state := next.value;
      }
    }

    /** `on_control` on a level. */
    method FromLevel(isWin: bool, isSpell: bool)
      requires Valid() && state.LevelScreen?
      modifies this, state.l, state.l.grid.cells
      ensures Valid()
      ensures if isWin then
          state.LevelScreen? && fresh(state.l) && state.l.grid.Contents() == Level1Board()
        else if isSpell then
          state.SpellScreen? && state.p.grid.Contents() == old(state.l.grid.Contents())
        else
          state == old(state)
    {
      var next := state.l.OnEvent(isWin, isSpell);
      if next.Some? {
        state := next.value;
      }
    }

    /** `on_control` on the spell screen. */
    method FromSpell(e: Events.Event)
      requires Valid() && state.SpellScreen?
      modifies this, state.p.grid.cells
      ensures Valid()
      ensures if Pressed(e, Events.Reset) then
          state.LevelScreen? && fresh(state.l) && state.l.grid.Contents() == old(state.p.grid.Contents())
        else
          state == old(state)
    {
      var next := state.p.OnEvent(e);
      if next.Some? {
        state := next.value;
      }
    }
  }
}
