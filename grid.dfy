/**
 * `Grid` (level/grid.rs): the `MAX_Y` x `MAX_X` array of cells the level owns and updates
 * in place. Every method is stated against the board functions of `Boards`, read through
 * the ghost view `Contents()`.
 */
module Grids {
  import opened Geometry
  import opened Actions
  import opened Items
  import opened Occupants
  import opened Cells
  import opened Game
  import opened Boards
  import Events

  /** The four outputs of `on_actions`: reactions, redraw batch, block flag, win flag. */
  datatype Report = Report(reactions: seq<Action>, redraw: seq<RedrawRequest>, block: Option<bool>, isWin: bool)

  /** A report together with a board: the resolver state it corresponds to. */
  function With(b: Board, p: Report): Resolution {
    Resolution(b, p.reactions, p.redraw, p.block, p.isWin)
  }

  /** Two boards of the grid's shape that agree cell by cell are equal. */
  lemma SameBoard(b: Board, c: Board)
    requires |b| == MAX_Y && |c| == MAX_Y
    requires forall y :: 0 <= y < MAX_Y ==> |b[y]| == MAX_X && |c[y]| == MAX_X
    requires forall y, x :: 0 <= y < MAX_Y && 0 <= x < MAX_X ==> b[y][x] == c[y][x]
    ensures b == c
  {
    forall y | 0 <= y < MAX_Y
      ensures b[y] == c[y]
    {
      assert forall x :: 0 <= x < MAX_X ==> b[y][x] == c[y][x];
    }
  }

  /** The `new_from` move of one cell's contents: every layer's occupant is taken out of
      `src` and set into `dst`. The source ends empty and the destination holds exactly
      what the source held. */
  method Transplant(src: Cell, dst: Cell) returns (s: Cell, d: Cell)
    requires Layered(src) && dst == NewCell()
    ensures s == NewCell() && d == src
  {
    s, d := src, dst;
    for z := 0 to LAYERS
      invariant |s.items| == LAYERS && |d.items| == LAYERS
      invariant forall j :: 0 <= j < LAYERS ==> s.items[j] == (if j < z then None else src.items[j])
      invariant forall j :: 0 <= j < LAYERS ==> d.items[j] == (if j < z then src.items[j] else None)
    {
      var taken := TakeItem(s, z);
      s := taken.0;
      if taken.1.Some? {
        d := Cells.SetItem(d, taken.1.value);
      }
    }
    assert s.items == NewCell().items;
    assert d.items == src.items;
  }

  class Grid {
    /** `cells[y, x]` is the cell in row `y`, column `x`. */
    const cells: array2<Cell>

    ghost predicate Shaped() {
      cells.Length0 == MAX_Y && cells.Length1 == MAX_X
    }

    /** The grid as a board value. */
    ghost function Contents(): (b: Board)
      reads cells
      requires Shaped()
      ensures |b| == MAX_Y
      ensures forall y :: 0 <= y < MAX_Y ==> |b[y]| == MAX_X
      ensures forall y, x :: 0 <= y < MAX_Y && 0 <= x < MAX_X ==> b[y][x] == cells[y, x]
    {
      seq(MAX_Y, y requires 0 <= y < MAX_Y reads cells =>
        seq(MAX_X, x requires 0 <= x < MAX_X reads cells => cells[y, x]))
    }

    ghost predicate Valid()
      reads cells
    {
      Shaped() && WellFormed(Contents())
    }

    /** Writes one cell. */
    method Store(x: int, y: int, c: Cell)
      requires Valid() && InBound(x, y) && Layered(c)
      modifies cells
      ensures Valid()
      ensures Contents() == WithCell(old(Contents()), x, y, c)
    {
      ghost var b0 := Contents();
      cells[y, x] := c;
      SameBoard(Contents(), WithCell(b0, x, y, c));
    }

    /** `Grid::new`: every cell empty. */
    constructor New()
      ensures Valid() && fresh(cells)
      ensures Contents() == EmptyBoard()
    {
      cells := new Cell[MAX_Y, MAX_X]((_, _) => NewCell());
      new;
      SameBoard(Contents(), EmptyBoard());
    }

    /** `Grid::from`: one scenery sprite per cell, built column by column. */
    constructor FromLayout(layout: seq<seq<nat>>)
      requires LayoutShape(layout)
      ensures Valid() && fresh(cells)
      ensures Contents() == Boards.FromLayout(layout)
    {
      ghost var spec := Boards.FromLayout(layout);
      var a := new Cell[MAX_Y, MAX_X]((_, _) => NewCell());
      for x := 0 to MAX_X
        invariant forall y2, x2 :: 0 <= y2 < MAX_Y && 0 <= x2 < x ==> a[y2, x2] == spec[y2][x2]
      {
        for y := 0 to MAX_Y
          invariant forall y2, x2 :: 0 <= y2 < MAX_Y && 0 <= x2 < MAX_X && (x2 < x || (x2 == x && y2 < y)) ==>
                      a[y2, x2] == spec[y2][x2]
        {
          var id := layout[y][x];
          a[y, x] := NewStaticSprite(Point(x, y), id, LayoutLayer(id));
        }
      }
      cells := a;
      new;
      SameBoard(Contents(), spec);
    }

    /** `Grid::new_from`: a fresh grid takes over every occupant of `other`, cell by cell
        and layer by layer, and leaves `other` empty. */
    constructor NewFrom(other: Grid)
      requires other.Valid()
      modifies other.cells
      ensures Valid() && fresh(cells)
      ensures Contents() == old(other.Contents())
      ensures other.Valid() && other.Contents() == EmptyBoard()
    {
      ghost var b0 := other.Contents();
      var a := new Cell[MAX_Y, MAX_X]((_, _) => NewCell());
      for x := 0 to MAX_X
        invariant forall y2, x2 :: 0 <= y2 < MAX_Y && 0 <= x2 < MAX_X ==>
                    if x2 < x then a[y2, x2] == b0[y2][x2] && other.cells[y2, x2] == NewCell()
                    else a[y2, x2] == NewCell() && other.cells[y2, x2] == b0[y2][x2]
      {
        for y := 0 to MAX_Y
          invariant forall y2, x2 :: 0 <= y2 < MAX_Y && 0 <= x2 < MAX_X ==>
                      if x2 < x || (x2 == x && y2 < y) then a[y2, x2] == b0[y2][x2] && other.cells[y2, x2] == NewCell()
                      else a[y2, x2] == NewCell() && other.cells[y2, x2] == b0[y2][x2]
        {
          var s, d := Transplant(other.cells[y, x], a[y, x]);
          other.cells[y, x] := s;
          a[y, x] := d;
        }
      }
      cells := a;
      new;
      SameBoard(Contents(), b0);
      SameBoard(other.Contents(), EmptyBoard());
    }

    /** `Grid::set_item`: an on-board cell takes the occupant in its layer's slot; an
        off-board position is ignored. */
    method SetItem(x: int, y: int, o: Occupant)
      requires Valid() && ZLevel(o) < LAYERS
      modifies cells
      ensures Valid()
      ensures Contents() == SetItemAt(old(Contents()), x, y, o)
    {
      if InBound(x, y) {
        Store(x, y, Cells.SetItem(cells[y, x], o));
      }
    }

    /** `Grid::tile_id`: the tile the cell shows; `None` is the `unreachable!()` of an
        empty cell. */
    method TileId(x: int, y: int) returns (r: Option<TileRef>)
      requires Valid() && InBound(x, y)
      ensures r == Cells.TileId(Contents()[y][x])
      ensures r.None? <==> forall z :: 0 <= z < LAYERS ==> Contents()[y][x].items[z].None?
    {
      r := Cells.TileId(cells[y, x]);
    }

    /** `Grid::move_item`, step by step: take, look at the neighbour, set or roll back. */
    method MoveItem(src: Target, d: Direction) returns (res: MoveResult)
      requires Valid() && (InBound(src.x, src.y) ==> src.z < LAYERS)
      modifies cells
      ensures Valid()
      ensures (Contents(), res) == Boards.MoveItem(old(Contents()), src, d)
    {
      if !InBound(src.x, src.y) {
        return MoveError;
      }
      var taken := TakeItem(cells[src.y, src.x], src.z);
      Store(src.x, src.y, taken.0);
      if taken.1.None? {
        return MoveError;
      }
      var o := taken.1.value;
      var n := Neighbour(src, d);
      if InBound(n.x, n.y) && !HasItem(cells[n.y, n.x], ZLevel(o)) {
        Store(n.x, n.y, Cells.SetItem(cells[n.y, n.x], o));
        return Moved(Target(n.x, n.y, src.z));
      }
      Store(src.x, src.y, Cells.SetItem(cells[src.y, src.x], o));
      return MoveError;
    }

    /** `Grid::find_kind`: columns left to right, each top to bottom, stopping at the first
        cell that holds an occupant of kind `k`. */
    method FindKind(k: Kinds) returns (r: Option<Target>)
      requires Valid()
      ensures r == Boards.FindKind(Contents(), k)
      ensures r.None? <==> forall j :: 0 <= j < CELLS ==> Cells.FindKind(CellAt(Contents(), j), k).None?
    {
      ghost var b := Contents();
      for x := 0 to MAX_X
        invariant forall j :: 0 <= j < x * MAX_Y ==> Cells.FindKind(CellAt(b, j), k).None?
      {
        for y := 0 to MAX_Y
          invariant forall j :: 0 <= j < x * MAX_Y + y ==> Cells.FindKind(CellAt(b, j), k).None?
        {
          ghost var j := x * MAX_Y + y;
          assert j / MAX_Y == x && j % MAX_Y == y;
          var found := Cells.FindKind(cells[y, x], k);
          if found.Some? {
            FirstCellWithAt(b, k, 0, j);
            return found;
          }
        }
      }
      return None;
    }

    /** `Cell::on_event` on cell (x, y), in place, its actions appended to the list: the
        scan's next step. */
    method CellEvent(x: nat, y: nat, e: Events.Event, ghost b0: Board, actions: seq<Action>)
      returns (extended: seq<Action>)
      requires Valid() && WellFormed(b0) && BoardReady(b0) && x < MAX_X && y < MAX_Y
      requires (Contents(), actions) == EventUpTo(b0, e, x, y)
      modifies cells
      ensures Valid()
      ensures (Contents(), extended) == EventUpTo(b0, e, x, y + 1)
    {
      ghost var before := Contents();
      assert CellReady(before[y][x]);
      var handled := Cells.OnEvent(cells[y, x], e);
      Store(x, y, handled.0);
      extended := actions + handled.1;
    }

    /** One column of the `Grid::on_event` scan: the cells of column `x`, top to bottom. */
    method ColumnEvent(x: nat, e: Events.Event, ghost b0: Board, actions: seq<Action>)
      returns (extended: seq<Action>)
      requires Valid() && WellFormed(b0) && BoardReady(b0) && x < MAX_X
      requires (Contents(), actions) == EventUpTo(b0, e, x, 0)
      modifies cells
      ensures Valid()
      ensures (Contents(), extended) == EventUpTo(b0, e, x + 1, 0)
    {
      extended := actions;
      for y := 0 to MAX_Y
        invariant Valid() && (Contents(), extended) == EventUpTo(b0, e, x, y)
      {
        extended := CellEvent(x, y, e, b0, extended);
      }
    }

    /** `Grid::on_event`: every cell, column by column, handles the event; their actions
        are appended in scan order. */
    method OnEvent(e: Events.Event) returns (actions: seq<Action>)
      requires Valid() && BoardReady(Contents())
      modifies cells
      ensures Valid() && BoardReady(Contents())
      ensures (Contents(), actions) == Boards.OnEvent(old(Contents()), e)
    {
      ghost var b0 := Contents();
      actions := [];
      for x := 0 to MAX_X
        invariant Valid() && (Contents(), actions) == EventUpTo(b0, e, x, 0)
      {
        actions := ColumnEvent(x, e, b0, actions);
      }
    }

    /** The `InitSpell` arm, in place: find the wizard, take the staged item out of slot 0 of
        cell (0, 0), and set it beside the wizard when that slot is on the board and free. */
    method InitSpell(d: Direction, p: Report) returns (ok: bool, r: Report)
      requires Valid()
      modifies cells
      ensures Valid()
      ensures ok <==> InitSpellArm(With(old(Contents()), p), d).Some?
      ensures ok ==> InitSpellArm(With(old(Contents()), p), d) == Some(With(Contents(), r))
    {
      ghost var b := Contents();
      var wizard := FindKind(WizardKind);
      if wizard.None? {
        return true, p;
      }
      var dest := Neighbour(wizard.value, d);
      var staged := TakeItem(cells[0, 0], 0);
      assert staged == Cells.TakeItem(b[0][0], 0);
      Store(0, 0, staged.0);
      if staged.1.None? {
        // `take_item(0).unwrap()` on an empty staging slot
        return false, p;
      }
      r := PlaceStaged(staged.1.value, dest, p);
      ok := true;
    }

    /** The end of the `InitSpell` arm, in place: the staged item set beside the wizard when
        that slot is on the board and free. */
    method PlaceStaged(spell: Occupant, t: Target, p: Report) returns (r: Report)
      requires Valid() && t.z < LAYERS
      modifies cells
      ensures Valid()
      ensures With(Contents(), r) == Boards.PlaceStaged(With(old(Contents()), p), spell, t)
    {
      if InBound(t.x, t.y) && !HasItem(cells[t.y, t.x], t.z) {
        var placed := Occupants.SetZ(Occupants.SetY(Occupants.SetX(spell, t.x), t.y), t.z);
        Store(t.x, t.y, Cells.SetItem(cells[t.y, t.x], placed));
        return p.(redraw := AddToRedraw(p.redraw, RedrawRequest(t, NoShift)));
      }
      return p;
    }

    /** One arm of the `on_actions` loop, done in place. `ok` is false exactly where the
        firmware panics. */
    method Resolve(a: Action, p: Report) returns (ok: bool, r: Report)
      requires Valid()
      modifies cells
      ensures Valid()
      ensures ok <==> Apply(With(old(Contents()), p), a).Some?
      ensures ok ==> Apply(With(old(Contents()), p), a) == Some(With(Contents(), r))
    {
      var t := a.target;
      match a.kind
      case Move(_, _) =>
        ok, r := ResolveMove(a, p);
      case Redraw =>
        return true, p.(redraw := AddToRedraw(p.redraw, RedrawRequest(t, NoShift)));
      case RedrawAnim(shift, previous) =>
        var batch := AddToRedraw(p.redraw, RedrawRequest(previous, NoShift));
        return true, p.(redraw := AddToRedraw(batch, RedrawRequest(t, shift)));
      case InitSpell(d) =>
        ok, r := InitSpell(d, p);
      case Block(on) =>
        return true, p.(block := Some(on));
      case Win =>
        return true, p.(isWin := true);
    }

    /** The `Move` arm of the `on_actions` loop, in place: the move, then one reaction per
        layer of the destination pushed onto `reactions`. */
    method ResolveMove(a: Action, p: Report) returns (ok: bool, r: Report)
      requires Valid() && a.kind.Move?
      modifies cells
      ensures Valid()
      ensures ok <==> Apply(With(old(Contents()), p), a).Some?
      ensures ok ==> Apply(With(old(Contents()), p), a) == Some(With(Contents(), r))
    {
      var t, d, who := a.target, a.kind.dest, a.kind.who;
      if InBound(t.x, t.y) && t.z >= LAYERS {
        // `take_item` indexes past the cell's slots
        return false, p;
      }
      var res := MoveItem(t, d);
      if res.MoveError? {
        return true, p;
      }
      var to := res.to;
      var rs := p.reactions;
      for z := 0 to LAYERS
        invariant |rs| == |p.reactions| + z
        invariant z > 0 ==> |p.reactions| + z <= MAX_EVENTS
        invariant rs == p.reactions + MoveReactions(to, d, who)[..z]
      {
        if |rs| >= MAX_EVENTS {
          // `reactions.push(..).unwrap()` on a full list
          return false, p;
        }
        rs := rs + [Action(Target(to.x, to.y, z), Move(d, who))];
      }
      assert MoveReactions(to, d, who)[..LAYERS] == MoveReactions(to, d, who);
      return true, p.(reactions := rs, block := Some(true));
    }

    /** `Grid::on_actions`: the actions in order; `panicked` reports the firmware panics. */
    method OnActions(acts: seq<Action>) returns (panicked: bool, out: Report)
      requires Valid()
      modifies cells
      ensures Valid()
      ensures panicked <==> Boards.OnActions(old(Contents()), acts).None?
      ensures !panicked ==> Boards.OnActions(old(Contents()), acts) == Some(With(Contents(), out))
    {
      ghost var b0 := Contents();
      out := Report([], [], None, false);
      var i := 0;
      while i < |acts|
        invariant 0 <= i <= |acts| && Valid()
        invariant Run(Start(b0), acts[..i]) == Some(With(Contents(), out))
      {
        var ok;
        ok, out := Resolve(acts[i], out);
        assert acts[..i + 1][..i] == acts[..i];
        if !ok {
          PanicSticks(Start(b0), acts, i + 1);
          return true, out;
        }
        i := i + 1;
      }
      assert acts[..i] == acts;
      return false, out;
    }

    /** `Grid::on_reactions`: each reaction, in order, goes to the slot it names. */
    method OnReactions(rs: seq<Action>)
      requires Valid() && forall i :: 0 <= i < |rs| ==> ValidTarget(rs[i].target)
      modifies cells
      ensures Valid()
      ensures Contents() == Deliver(old(Contents()), rs)
    {
      ghost var b0 := Contents();
      for i := 0 to |rs|
        invariant Valid() && Contents() == Deliver(b0, rs[..i])
      {
        var a := rs[i];
        Store(a.target.x, a.target.y, Cells.OnReaction(cells[a.target.y, a.target.x], a));
        assert rs[..i + 1][..i] == rs[..i];
      }
      assert rs[..|rs|] == rs;
    }
  }
}
