/** The player actor `Item<Wizard>` and its animation state machine (level/items/wizard.rs). */
module Wizard {
  import opened Ints
  import opened Actions
  import opened Items
  import opened Geometry
  import Events

  const IDLE1: u8 := 0
  const IDLE2: u8 := 1
  const MOVE_UP1: u8 := 2
  const MOVE_UP2: u8 := 3
  const MOVE_DOWN1: u8 := 4
  const MOVE_DOWN2: u8 := 5
  const MOVE_LEFT1: u8 := 6
  const MOVE_LEFT2: u8 := 7
  const MOVE_RIGHT1: u8 := 8
  const MOVE_RIGHT2: u8 := 9

  /** Ticks a move animation lasts. */
  const MOVE_ANIM_TIME: u128 := 10

  /** One of the ten animation states. */
  predicate KnownState(s: u8) { s <= MOVE_RIGHT2 }

  predicate Idle(s: u8) { s == IDLE1 || s == IDLE2 }

  /** The two animation frames of a move in direction `d`. */
  function MoveStates(d: Direction): (p: (u8, u8))
    ensures KnownState(p.0) && KnownState(p.1) && !Idle(p.0) && !Idle(p.1) && p.0 != p.1
  {
    match d
    case Up => (MOVE_UP1, MOVE_UP2)
    case Down => (MOVE_DOWN1, MOVE_DOWN2)
    case Left => (MOVE_LEFT1, MOVE_LEFT2)
    case Right => (MOVE_RIGHT1, MOVE_RIGHT2)
  }

  /** The direction whose move frames contain `s`, if any. */
  function Moving(s: u8): (r: Option<Direction>)
    ensures r.Some? <==> KnownState(s) && !Idle(s)
    ensures r.Some? ==> s == MoveStates(r.value).0 || s == MoveStates(r.value).1
  {
    if s == MOVE_UP1 || s == MOVE_UP2 then Some(Actions.Up)
    else if s == MOVE_DOWN1 || s == MOVE_DOWN2 then Some(Actions.Down)
    else if s == MOVE_LEFT1 || s == MOVE_LEFT2 then Some(Actions.Left)
    else if s == MOVE_RIGHT1 || s == MOVE_RIGHT2 then Some(Actions.Right)
    else None
  }

  /** The sprite of frame 1 or frame 2 of a move in direction `d`. */
  function FrameTile(d: Direction, second: bool): TileName {
    match d
    case Up => if second then WizardUp2 else WizardUp1
    case Down => if second then WizardDown2 else WizardDown1
    case Left => if second then WizardLeft2 else WizardLeft1
    case Right => if second then WizardRight2 else WizardRight1
  }

  /** `swith_state(a, b)`: `b` when the state is `a`, otherwise `a`. */
  function SwithState(state: u8, a: u8, b: u8): (r: u8)
    requires a != b
    ensures r == a || r == b
    ensures (r == b) == (state == a)
  {
    if state == a then b else a
  }

  /** The cell one step back against the direction of travel: the one the wizard left. */
  function Vacated(w: Item, d: Direction): Target {
    Neighbour(w.Target(), Opposite(d))
  }

  /** `on_event`: the tick-driven animation and the button-driven move requests. */
  function OnEvent(w: Item, e: Events.Event): (r: (Item, seq<Action>))
    ensures |r.1| <= MAX_ACTIONS_PER_EVENT
    ensures e.Tick? ==> r.0.time == e.time
    ensures !e.Tick? ==> r.0 == w
    ensures r.0.coords == w.coords && r.0.zOrder == w.zOrder && r.0.startAnimation == w.startAnimation
    ensures r.0.isWin == w.isWin
    ensures KnownState(w.state) ==> KnownState(r.0.state)
    ensures forall a :: a in r.1 ==> a.kind.Move? ==> e.Button? && a.target == w.Target()
  {
    match e
    case Tick(t) =>
      var w1 := w.(time := t);
      var deltat := WrappingSub(t, w.startAnimation);
      if Idle(w.state) then
        if t % 5 == 0 then
          var s := SwithState(w.state, IDLE1, IDLE2);
          var w2 := w1.(state := s, imgId := Named(if s == IDLE1 then WizardIdle2 else WizardIdle1));
          (w2, [Action(w2.Target(), Redraw)])
        else
          (w1, [])
      else
        (match Moving(w.state)
         case None => (w1, [])
         case Some(d) =>
          if deltat > MOVE_ANIM_TIME then
            var w2 := w1.(state := IDLE1);
            var back := Vacated(w2, d);
            (w2, [Action(back, Redraw), Action(w2.Target(), Redraw), Action(back, Block(false))])
          else if t % 2 == 0 then
            var s := SwithState(w.state, MoveStates(d).0, MoveStates(d).1);
            var w2 := w1.(state := s, imgId := Named(FrameTile(d, s == MoveStates(d).0)));
            (w2, [Action(w2.Target(), RedrawAnim(Slide(d, deltat as nat), Vacated(w2, d)))])
          else
            (w1, []))
    case Button(id, st) =>
      if st == Events.Released then (w, [])
      else (match id
       case Up => (w, [Action(w.Target(), Move(Actions.Up, Actions.Wizard))])
       case Down => (w, [Action(w.Target(), Move(Actions.Down, Actions.Wizard))])
       case Left => (w, [Action(w.Target(), Move(Actions.Left, Actions.Wizard))])
       case Right => (w, [Action(w.Target(), Move(Actions.Right, Actions.Wizard))])
       case Reset => (w, []))
  }

  /** `on_reaction`: a confirmed move starts the move animation and moves the wizard. */
  function OnReaction(w: Item, a: Action): (r: Item)
    ensures r.zOrder == w.zOrder && r.time == w.time && r.imgId == w.imgId && r.isWin == w.isWin
    ensures a.kind.Move? ==> r.state == MoveStates(a.kind.dest).0 && r.startAnimation == w.time
    ensures a.kind.Move? ==> r.Target() == Neighbour(w.Target(), a.kind.dest)
    ensures !a.kind.Move? ==> r == w
  {
    match a.kind
    case Move(d, _) => w.(state := MoveStates(d).0, startAnimation := w.time, coords := Step(w.coords, d))
    case _ => w
  }

  /** Idle breathing: every fifth tick toggles IDLE1/IDLE2 and asks for one redraw of the
      wizard's own slot; other ticks only record the time. */
  lemma IdleTick(w: Item, t: u128)
    requires Idle(w.state)
    ensures var r := OnEvent(w, Events.Tick(t));
      if t % 5 == 0 then
        && r.0.state == (if w.state == IDLE1 then IDLE2 else IDLE1)
        && r.0.imgId == Named(if w.state == IDLE1 then WizardIdle1 else WizardIdle2)
        && r.1 == [Action(w.Target(), Redraw)]
      else
        r.0 == w.(time := t) && r.1 == []
  {
  }

  /** Two idle toggles restore the state and the sprite. */
  lemma IdleToggleTwice(w: Item, t1: u128, t2: u128)
    requires Idle(w.state) && t1 % 5 == 0 && t2 % 5 == 0
    ensures var w2 := OnEvent(OnEvent(w, Events.Tick(t1)).0, Events.Tick(t2)).0;
      w2.state == w.state && w2.time == t2
  {
  }

  /** A finished move: back to IDLE1, the vacated and the current slot redrawn, input released. */
  lemma MoveFinished(w: Item, t: u128, d: Direction)
    requires w.state == MoveStates(d).0 || w.state == MoveStates(d).1
    requires WrappingSub(t, w.startAnimation) > MOVE_ANIM_TIME
    ensures var r := OnEvent(w, Events.Tick(t));
      && r.0.state == IDLE1
      && r.1 == [Action(Vacated(w, d), Redraw), Action(w.Target(), Redraw), Action(Vacated(w, d), Block(false))]
      && Vacated(w, d) == Neighbour(w.Target(), Opposite(d))
  {
  }

  /** An unfinished move: even ticks flip between the two frames of the same direction and
      emit one animated redraw whose previous slot is the vacated one; odd ticks emit nothing. */
  lemma MoveAnimating(w: Item, t: u128, d: Direction)
    requires w.state == MoveStates(d).0 || w.state == MoveStates(d).1
    requires WrappingSub(t, w.startAnimation) <= MOVE_ANIM_TIME
    ensures var r := OnEvent(w, Events.Tick(t));
      if t % 2 == 0 then
        && (r.0.state == MoveStates(d).0 || r.0.state == MoveStates(d).1)
        && r.0.state != w.state
        && |r.1| == 1 && r.1[0].target == w.Target()
        && r.1[0].kind == RedrawAnim(Slide(d, WrappingSub(t, w.startAnimation) as nat), Vacated(w, d))
      else
        r.0 == w.(time := t) && r.1 == []
  {
  }

  /** A move state leaves its own direction's pair only for IDLE1. */
  lemma MoveStaysInPair(w: Item, e: Events.Event, d: Direction)
    requires w.state == MoveStates(d).0 || w.state == MoveStates(d).1
    ensures var s := OnEvent(w, e).0.state;
      s == MoveStates(d).0 || s == MoveStates(d).1 || s == IDLE1
  {
  }

  /** A tick in a state outside the ten known ones emits nothing. */
  lemma UnknownStateSilent(w: Item, t: u128)
    requires !KnownState(w.state)
    ensures OnEvent(w, Events.Tick(t)) == (w.(time := t), [])
  {
  }

  /** A pressed arrow requests exactly one move in that direction from the wizard's own slot;
      released buttons and Reset request nothing; no button changes the wizard. */
  lemma ButtonRequests(w: Item, id: Events.ButtonId, st: Events.ButtonState)
    ensures var r := OnEvent(w, Events.Button(id, st));
      && r.0 == w
      && (if st == Events.Pressed && id != Events.Reset
          then r.1 == [Action(w.Target(), Move(ButtonDirection(id), Actions.Wizard))]
          else r.1 == [])
  {
  }

  function ButtonDirection(id: Events.ButtonId): Direction
    requires id != Events.Reset
  {
    match id
    case Up => Actions.Up
    case Down => Actions.Down
    case Left => Actions.Left
    case Right => Actions.Right
  }

  /** Request, confirmation and completion fit together: once the wizard has reacted to its
      confirmed move, the slot its finishing animation clears is the slot it started from. */
  lemma FinishClearsStart(w: Item, d: Direction, t: u128)
    requires WrappingSub(t, w.time) > MOVE_ANIM_TIME
    ensures var moved := OnReaction(w, Action(Neighbour(w.Target(), d), Move(d, Actions.Wizard)));
      var r := OnEvent(moved, Events.Tick(t));
      r.0.state == IDLE1 && r.1[0] == Action(w.Target(), Redraw) && r.1[1].target == Neighbour(w.Target(), d)
  {
    var moved := OnReaction(w, Action(Neighbour(w.Target(), d), Move(d, Actions.Wizard)));
    NeighbourOpposite(w.Target(), d);
    MoveFinished(moved, t, d);
  }
}
