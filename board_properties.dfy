/** What the grid operations promise when several of them, or several actions, combine
    (level/grid.rs together with the item handlers). */
module BoardProperties {
  import opened Geometry
  import opened Actions
  import opened Items
  import opened Occupants
  import opened Cells
  import opened Game
  import opened Boards
  import Events
  import Wiz = Wizard
  import Exit

  /** A move that cannot happen changes nothing, reacts to nothing and leaves the block flag;
      one that happens moves the board, adds one reaction per layer of the destination
      and blocks input. */
  lemma MoveArm(s: Resolution, a: Action)
    requires WellFormed(s.board) && a.kind.Move?
    requires InBound(a.target.x, a.target.y) ==> a.target.z < LAYERS
    ensures var m := MoveItem(s.board, a.target, a.kind.dest);
      && (m.1.MoveError? ==> Apply(s, a) == Some(s))
      && (m.1.Moved? && |s.reactions| + LAYERS <= MAX_EVENTS ==>
            Apply(s, a) == Some(s.(board := m.0, reactions := s.reactions + MoveReactions(m.1.to, a.kind.dest, a.kind.who),
                                   block := Some(true))))
  {
  }

  /** Some action of `acts` is `Win`. */
  predicate AnyWin(acts: seq<Action>) {
    exists i :: 0 <= i < |acts| && acts[i].kind.Win?
  }

  lemma AnyWinSnoc(acts: seq<Action>)
    requires |acts| > 0
    ensures AnyWin(acts) <==> AnyWin(acts[..|acts| - 1]) || acts[|acts| - 1].kind.Win?
  {
    var p := acts[..|acts| - 1];
    if AnyWin(acts) {
      var i :| 0 <= i < |acts| && acts[i].kind.Win?;
      if i < |p| { assert p[i] == acts[i]; }
    }
    if AnyWin(p) {
      var i :| 0 <= i < |p| && p[i].kind.Win?;
      assert acts[i] == p[i];
    }
  }

  /** The win flag ends up set exactly when it started set or some action was `Win`. */
  lemma {:induction false} RunWin(s: Resolution, acts: seq<Action>)
    requires WellFormed(s.board) && Run(s, acts).Some?
    ensures Run(s, acts).value.isWin <==> s.isWin || AnyWin(acts)
    decreases |acts|
  {
    if |acts| > 0 {
      var n := |acts| - 1;
      var p := acts[..n];
      assert Run(s, acts) == Apply(Run(s, p).value, acts[n]);
      RunWin(s, p);
      AnyWinSnoc(acts);
    }
  }

  /** Action `a` asks for a redraw of slot `u`: a `Redraw` of `u`, or a `RedrawAnim` to or
      from `u`. */
  predicate RedrawsAt(a: Action, u: Target) {
    (a.kind.Redraw? && a.target == u) || (a.kind.RedrawAnim? && (a.target == u || a.kind.previous == u))
  }

  /** Some action of `acts` asks for a redraw of slot `u`. */
  predicate AnyRedrawsAt(acts: seq<Action>, u: Target) {
    exists i :: 0 <= i < |acts| && RedrawsAt(acts[i], u)
  }

  lemma AnyRedrawsAtSnoc(acts: seq<Action>, u: Target)
    requires |acts| > 0
    ensures AnyRedrawsAt(acts, u) <==> AnyRedrawsAt(acts[..|acts| - 1], u) || RedrawsAt(acts[|acts| - 1], u)
  {
    var p := acts[..|acts| - 1];
    if AnyRedrawsAt(acts, u) {
      var i :| 0 <= i < |acts| && RedrawsAt(acts[i], u);
      if i < |p| { assert p[i] == acts[i]; }
    }
    if AnyRedrawsAt(p, u) {
      var i :| 0 <= i < |p| && RedrawsAt(p[i], u);
      assert acts[i] == p[i];
    }
  }

  /** One action other than `InitSpell` adds to the redraw batch exactly the slots it asks
      for: a `Redraw` its target, a `RedrawAnim` its previous slot and its target. */
  lemma ApplyRedraw(s: Resolution, a: Action, u: Target)
    requires WellFormed(s.board) && Apply(s, a).Some? && !a.kind.InitSpell?
    ensures Requested(Apply(s, a).value.redraw, u) <==> Requested(s.redraw, u) || RedrawsAt(a, u)
  {
    match a.kind
    case Redraw =>
      assert Apply(s, a).value.redraw == AddToRedraw(s.redraw, RedrawRequest(a.target, NoShift));
    case RedrawAnim(shift, previous) =>
      var mid := AddToRedraw(s.redraw, RedrawRequest(previous, NoShift));
      assert Apply(s, a).value.redraw == AddToRedraw(mid, RedrawRequest(a.target, shift));
    case _ =>
  }

  /** Without `InitSpell`, a slot ends up in the redraw batch exactly when it was already
      there or some action asked for it. */
  lemma {:induction false} RunRedraw(s: Resolution, acts: seq<Action>, u: Target)
    requires WellFormed(s.board) && Run(s, acts).Some?
    requires forall j :: 0 <= j < |acts| ==> !acts[j].kind.InitSpell?
    ensures Requested(Run(s, acts).value.redraw, u) <==> Requested(s.redraw, u) || AnyRedrawsAt(acts, u)
    decreases |acts|
  {
    if |acts| > 0 {
      var n := |acts| - 1;
      var p := acts[..n];
      assert Run(s, acts) == Apply(Run(s, p).value, acts[n]);
      assert forall i :: 0 <= i < n ==> p[i] == acts[i];
      RunRedraw(s, p, u);
      ApplyRedraw(Run(s, p).value, acts[n], u);
      AnyRedrawsAtSnoc(acts, u);
    }
  }

  /** The last `Block` wins unless a later move succeeds. */
  lemma {:induction false} LastBlockWins(s: Resolution, acts: seq<Action>, i: nat)
    requires WellFormed(s.board) && Run(s, acts).Some?
    requires i < |acts| && acts[i].kind.Block?
    requires forall j :: i < j < |acts| ==> !acts[j].kind.Block? && !acts[j].kind.Move?
    ensures Run(s, acts).value.block == Some(acts[i].kind.on)
    decreases |acts|
  {
    var n := |acts| - 1;
    var s1 := Run(s, acts[..n]).value;
    assert Run(s, acts) == Apply(s1, acts[n]);
    if i < n {
      assert s1.block == Some(acts[i].kind.on) by {
        assert acts[..n][i] == acts[i];
        assert forall j :: i < j < n ==> acts[..n][j] == acts[j];
        LastBlockWins(s, acts[..n], i);
      }
      assert !acts[n].kind.Block? && !acts[n].kind.Move?;
    }
  }

  /** Without any `Block` or `Move`, the block flag is the one the run started with. */
  lemma {:induction false} BlockUntouched(s: Resolution, acts: seq<Action>)
    requires WellFormed(s.board) && Run(s, acts).Some?
    requires forall j :: 0 <= j < |acts| ==> !acts[j].kind.Block? && !acts[j].kind.Move?
    ensures Run(s, acts).value.block == s.block
    decreases |acts|
  {
    if |acts| > 0 {
      var n := |acts| - 1;
      assert forall j :: 0 <= j < n ==> acts[..n][j] == acts[j];
      BlockUntouched(s, acts[..n]);
    }
  }

  /** Every arm except `InitSpell` keeps every occupant on the board. */
  lemma ApplyConserves(s: Resolution, a: Action)
    requires WellFormed(s.board) && !a.kind.InitSpell? && Apply(s, a).Some?
    ensures BoardBag(Apply(s, a).value.board) == BoardBag(s.board)
  {
    if a.kind.Move? {
      MoveConserves(s.board, a.target, a.kind.dest);
    }
  }

  /** A run without `InitSpell` neither loses nor duplicates an occupant. */
  lemma {:induction false} RunConserves(s: Resolution, acts: seq<Action>)
    requires WellFormed(s.board) && Run(s, acts).Some?
    requires forall j :: 0 <= j < |acts| ==> !acts[j].kind.InitSpell?
    ensures BoardBag(Run(s, acts).value.board) == BoardBag(s.board)
    decreases |acts|
  {
    if |acts| > 0 {
      var n := |acts| - 1;
      assert forall j :: 0 <= j < n ==> acts[..n][j] == acts[j];
      RunConserves(s, acts[..n]);
      assert Run(s, acts) == Apply(Run(s, acts[..n]).value, acts[n]);
      ApplyConserves(Run(s, acts[..n]).value, acts[n]);
    }
  }

  /** A run from the initial state leaves reactions `on_reactions` can deliver and a redraw
      batch without two requests for one target. */
  lemma RunFromStartConsistent(b: Board, acts: seq<Action>)
    requires WellFormed(b) && OnActions(b, acts).Some?
    ensures Consistent(OnActions(b, acts).value)
  {
  }

  /** The `InitSpell` arm when the wizard is found, the staging slot (0, 0, 0) is full, and
      the slot beside the wizard is off the board or taken: the staged occupant is taken out
      and dropped, and nothing else changes. */
  lemma InitSpellDrops(s: Resolution, d: Direction)
    requires WellFormed(s.board)
    requires Boards.FindKind(s.board, WizardKind).Some? && s.board[0][0].items[0].Some?
    requires var t := Neighbour(Boards.FindKind(s.board, WizardKind).value, d);
      !(ValidTarget(t) && Slot(Put(s.board, Target(0, 0, 0), None), t).None?)
    ensures InitSpellArm(s, d) == Some(s.(board := Put(s.board, Target(0, 0, 0), None)))
    ensures BoardBag(InitSpellArm(s, d).value.board) + multiset{s.board[0][0].items[0].value} == BoardBag(s.board)
  {
    var b := s.board;
    var emptied := Put(b, Target(0, 0, 0), None);
    assert WithCell(b, 0, 0, TakeItem(b[0][0], 0).0) == emptied;
    PutBag(b, Target(0, 0, 0), None);
  }

  /** The `InitSpell` arm when the wizard is found, the staging slot is full and the slot
      beside the wizard is on the board and free: the staged occupant moves there, with its
      coordinates and layer rewritten to that slot, and a redraw of the slot is requested. */
  lemma InitSpellPlaces(s: Resolution, d: Direction)
    requires WellFormed(s.board)
    requires Boards.FindKind(s.board, WizardKind).Some? && s.board[0][0].items[0].Some?
    requires var t := Neighbour(Boards.FindKind(s.board, WizardKind).value, d);
      ValidTarget(t) && Slot(Put(s.board, Target(0, 0, 0), None), t).None?
    ensures var t := Neighbour(Boards.FindKind(s.board, WizardKind).value, d);
      var staged := s.board[0][0].items[0].value;
      var placed := Occupants.SetZ(Occupants.SetY(Occupants.SetX(staged, t.x), t.y), t.z);
      var r := InitSpellArm(s, d).value;
      && TargetOf(placed) == t && Kind(placed) == Kind(staged) && TileOf(placed) == TileOf(staged)
      && r.board == Put(Put(s.board, Target(0, 0, 0), None), t, Some(placed))
      && Requested(r.redraw, t)
      && BoardBag(r.board) + multiset{staged} == BoardBag(s.board) + multiset{placed}
  {
    var b := s.board;
    var t := Neighbour(Boards.FindKind(b, WizardKind).value, d);
    var staged := b[0][0].items[0].value;
    var placed := Occupants.SetZ(Occupants.SetY(Occupants.SetX(staged, t.x), t.y), t.z);
    var emptied := Put(b, Target(0, 0, 0), None);
    var r := InitSpellArm(s, d).value;
    assert r.board == Put(emptied, t, Some(placed)) by {
      assert WithCell(b, 0, 0, TakeItem(b[0][0], 0).0) == emptied;
      assert WithCell(emptied, t.x, t.y, SetItem(emptied[t.y][t.x], placed)) == Put(emptied, t, Some(placed));
    }
    assert BoardBag(emptied) + multiset{staged} == BoardBag(b) by {
      PutBag(b, Target(0, 0, 0), None);
    }
    assert BoardBag(r.board) == BoardBag(emptied) + multiset{placed} by {
      PutBag(emptied, t, Some(placed));
    }
    BagLast(BoardBag(r.board), BoardBag(b), BoardBag(emptied), multiset{staged}, multiset{placed});
  }

  /** Request, resolution and reaction fit together: when the grid moves an occupant that
      knows its own slot, the reaction delivered to its new slot leaves the wizard knowing
      its new slot too. */
  lemma MoveThenReactRelocates(b: Board, src: Target, d: Direction)
    requires WellFormed(b) && ValidTarget(src)
    requires Slot(b, src).Some? && Slot(b, src).value.WizardItem? && TargetOf(Slot(b, src).value) == src
    requires MoveItem(b, src, d).1.Moved?
    ensures var n := Neighbour(src, d);
      var after := Deliver(MoveItem(b, src, d).0, MoveReactions(n, d, Actions.Wizard));
      Slot(after, n).Some? && Slot(after, n).value.WizardItem? && TargetOf(Slot(after, n).value) == n
  {
    var n := Neighbour(src, d);
    var moved := MoveItem(b, src, d).0;
    var rs := MoveReactions(n, d, Actions.Wizard);
    var wiz := Slot(b, src).value;
    assert Slot(moved, n) == Some(wiz);
    assert rs == [rs[0], rs[1]];
    DeliverTwo(moved, rs[0], rs[1]);
    var b1 := React(moved, rs[0]);
    assert Slot(b1, n) == if src.z == 0 then Some(Occupants.OnReaction(wiz, rs[0])) else Some(wiz);
    var b2 := React(b1, rs[1]);
    assert Slot(b2, n) == if src.z == 1 then Some(Occupants.OnReaction(wiz, rs[1])) else Slot(b1, n);
    StepMatchesNeighbour(wiz.item, d);
  }

  /** The wizard stepping onto the exit's cell wins: the exit below it receives the move
      reaction, latches, and announces the win on the next event. */
  lemma WizardReachingExitWins(b: Board, src: Target, d: Direction, e: Events.Event)
    requires WellFormed(b) && ValidTarget(src) && src.z == 1
    requires Slot(b, src).Some? && Slot(b, src).value.WizardItem?
    requires MoveItem(b, src, d).1.Moved?
    requires var n := Neighbour(src, d); Slot(b, Target(n.x, n.y, 0)).Some? && Slot(b, Target(n.x, n.y, 0)).value.ExitItem?
    ensures var n := Neighbour(src, d);
      var after := Deliver(MoveItem(b, src, d).0, MoveReactions(n, d, Actions.Wizard));
      var exit := Slot(after, Target(n.x, n.y, 0));
      exit.Some? && exit.value.ExitItem? && exit.value.item.isWin
      && Exit.OnEvent(exit.value.item, e) == [Action(exit.value.item.Target(), Win)]
  {
    var n := Neighbour(src, d);
    var moved := MoveItem(b, src, d).0;
    var rs := MoveReactions(n, d, Actions.Wizard);
    var ex := Slot(b, Target(n.x, n.y, 0)).value;
    assert Slot(moved, Target(n.x, n.y, 0)) == Some(ex);
    assert rs == [rs[0], rs[1]];
    DeliverTwo(moved, rs[0], rs[1]);
    var b1 := React(moved, rs[0]);
    assert Slot(b1, Target(n.x, n.y, 0)) == Some(Occupants.OnReaction(ex, rs[0]));
    var b2 := React(b1, rs[1]);
    assert Slot(b2, Target(n.x, n.y, 0)) == Slot(b1, Target(n.x, n.y, 0));
  }

  /** Each cell's actions in scan order, every cell taken as it was before the pass. */
  function ScanActions(b: Board, e: Events.Event, x: nat, y: nat): seq<Action>
    requires WellFormed(b) && BoardReady(b) && ScanPoint(x, y)
    decreases x, y
  {
    if y == 0 then
      if x == 0 then [] else ScanActions(b, e, x - 1, MAX_Y)
    else ScanActions(b, e, x, y - 1) + Cells.OnEvent(b[y - 1][x], e).1
  }

  /** Cell (x2, y2) comes before scan position (x, y). */
  predicate Scanned(x2: int, y2: int, x: nat, y: nat) {
    x2 < x || (x2 == x && y2 < y)
  }

  /** `Grid::on_event` handles every cell exactly once, untouched by the cells before it:
      a cell already scanned holds what its own `on_event` made of it, and a cell not yet
      scanned is as it was. */
  lemma {:induction false} EventHandlesEachCellOnce(b: Board, e: Events.Event, x: nat, y: nat, x2: nat, y2: nat)
    requires WellFormed(b) && BoardReady(b) && ScanPoint(x, y) && x2 < MAX_X && y2 < MAX_Y
    ensures EventUpTo(b, e, x, y).0[y2][x2] ==
              if Scanned(x2, y2, x, y) then Cells.OnEvent(b[y2][x2], e).0 else b[y2][x2]
    decreases x, y
  {
    if y == 0 {
      if x > 0 {
        EventHandlesEachCellOnce(b, e, x - 1, MAX_Y, x2, y2);
      }
    } else {
      EventHandlesEachCellOnce(b, e, x, y - 1, x2, y2);
      EventHandlesEachCellOnce(b, e, x, y - 1, x, y - 1);
    }
  }

  /** The action list of `Grid::on_event` is the cells' own lists concatenated column by
      column, each column top to bottom, each cell lower layer first. */
  lemma {:induction false} EventScansInOrder(b: Board, e: Events.Event, x: nat, y: nat)
    requires WellFormed(b) && BoardReady(b) && ScanPoint(x, y)
    ensures EventUpTo(b, e, x, y).1 == ScanActions(b, e, x, y)
    decreases x, y
  {
    if y == 0 {
      if x > 0 {
        EventScansInOrder(b, e, x - 1, MAX_Y);
      }
    } else {
      EventScansInOrder(b, e, x, y - 1);
      EventHandlesEachCellOnce(b, e, x, y - 1, x, y - 1);
      var prev := EventUpTo(b, e, x, y - 1);
      assert !Scanned(x, y - 1, x, y - 1);
      assert EventUpTo(b, e, x, y).1 == prev.1 + Cells.OnEvent(b[y - 1][x], e).1;
    }
  }
}
