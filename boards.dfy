/**
 * The whole board as a value, and the specification of every `Grid` operation on it
 * (level/grid.rs). The `Grid` class states its methods in terms of these functions.
 */
module Boards {
  import opened Geometry
  import opened Actions
  import opened Items
  import opened Occupants
  import opened Cells
  import opened Game
  import Events

  /** Rows of cells, indexed `[y][x]` as the firmware's `[[Cell; MAX_X]; MAX_Y]`. */
  type Board = seq<seq<Cell>>

  /** Number of cells. */
  const CELLS: nat := MAX_X * MAX_Y

  /** The board's shape, with at most one occupant per (x, y, z), each in its own layer. */
  predicate WellFormed(b: Board) {
    |b| == MAX_Y &&
    forall y :: 0 <= y < |b| ==> |b[y]| == MAX_X && forall x :: 0 <= x < |b[y]| ==> Layered(b[y][x])
  }

  /** Every occupant of the board can take an event. */
  predicate BoardReady(b: Board)
    requires WellFormed(b)
  {
    forall y, x :: 0 <= y < MAX_Y && 0 <= x < MAX_X ==> CellReady(b[y][x])
  }

  /** A slot index that exists. */
  predicate ValidTarget(t: Target) {
    InBound(t.x, t.y) && t.z < LAYERS
  }

  function Slot(b: Board, t: Target): Option<Occupant>
    requires WellFormed(b) && ValidTarget(t)
  {
    b[t.y][t.x].items[t.z]
  }

  /** The board with cell (x, y) replaced. */
  function WithCell(b: Board, x: int, y: int, c: Cell): (r: Board)
    requires WellFormed(b) && InBound(x, y) && Layered(c)
    ensures WellFormed(r)
    ensures r[y][x] == c
    ensures forall y2, x2 :: 0 <= y2 < MAX_Y && 0 <= x2 < MAX_X && (y2 != y || x2 != x) ==> r[y2][x2] == b[y2][x2]
  {
    b[y := b[y][x := c]]
  }

  /** The board with one slot replaced. */
  function Put(b: Board, t: Target, v: Option<Occupant>): (r: Board)
    requires WellFormed(b) && ValidTarget(t) && (v.Some? ==> ZLevel(v.value) == t.z)
    ensures WellFormed(r)
    ensures forall u :: ValidTarget(u) ==> Slot(r, u) == if u == t then v else Slot(b, u)
  {
    WithCell(b, t.x, t.y, Cell(b[t.y][t.x].items[t.z := v]))
  }

  /** `Grid::new`: every slot of every cell empty. */
  function EmptyBoard(): (b: Board)
    ensures WellFormed(b) && BoardReady(b)
    ensures forall t :: ValidTarget(t) ==> Slot(b, t).None?
  {
    seq(MAX_Y, _ => seq(MAX_X, _ => NewCell()))
  }

  /** `Grid::set_item`: in bounds, the occupant goes to the slot of its own layer of cell
      (x, y); out of bounds, nothing happens. */
  function SetItemAt(b: Board, x: int, y: int, o: Occupant): (r: Board)
    requires WellFormed(b) && ZLevel(o) < LAYERS
    ensures WellFormed(r)
    ensures InBound(x, y) ==> r == Put(b, Target(x, y, ZLevel(o)), Some(o))
    ensures !InBound(x, y) ==> r == b
  {
    if InBound(x, y) then WithCell(b, x, y, SetItem(b[y][x], o)) else b
  }

  /** The layer `From` gives a layout sprite: the low ids are floor, the others sit above. */
  function LayoutLayer(id: nat): (z: nat)
    ensures z < LAYERS && (z == 0 <==> id <= 32)
  {
    if id <= 32 then 0 else 1
  }

  /** A layout of tile ids: `MAX_Y` rows of `MAX_X` ids. */
  predicate LayoutShape(layout: seq<seq<nat>>) {
    |layout| == MAX_Y && forall y :: 0 <= y < MAX_Y ==> |layout[y]| == MAX_X
  }

  /** `Grid::from`: every cell holds exactly one scenery sprite with the layout's id, at its
      own coordinates, in the layer `LayoutLayer` picks; the other slot is empty. */
  function FromLayout(layout: seq<seq<nat>>): (b: Board)
    requires LayoutShape(layout)
    ensures WellFormed(b) && BoardReady(b)
    ensures forall y, x :: 0 <= y < MAX_Y && 0 <= x < MAX_X ==>
      && b[y][x].items[LayoutLayer(layout[y][x])]
           == Some(StaticSprite(NewItem(Point(x, y), LayoutLayer(layout[y][x]), Numbered(layout[y][x]))))
      && b[y][x].items[1 - LayoutLayer(layout[y][x])] == None
  {
    seq(MAX_Y, y requires 0 <= y < MAX_Y =>
      seq(MAX_X, x requires 0 <= x < MAX_X =>
        NewStaticSprite(Point(x, y), layout[y][x], LayoutLayer(layout[y][x]))))
  }

  // ----- move_item -----

  datatype MoveResult = Moved(to: Target) | MoveError

  /** `move_item`: take the occupant out of `src`; if the neighbouring cell in direction `d`
      is on the board and free at the occupant's layer, put it there and report the new
      target (on the source layer); otherwise put it back. An off-board or empty source
      fails with nothing taken. The occupant's own coordinates are not touched. */
  function MoveItem(b: Board, src: Target, d: Direction): (r: (Board, MoveResult))
    requires WellFormed(b)
    requires InBound(src.x, src.y) ==> src.z < LAYERS
    ensures WellFormed(r.0)
    ensures r.1.Moved? <==>
      ValidTarget(src) && Slot(b, src).Some? && ValidTarget(Neighbour(src, d)) && Slot(b, Neighbour(src, d)).None?
    ensures r.1.Moved? ==> r.1.to == Neighbour(src, d)
    ensures r.1.Moved? ==> r.0 == Put(Put(b, src, None), Neighbour(src, d), Slot(b, src))
    ensures r.1.MoveError? ==> r.0 == b
  {
    if !InBound(src.x, src.y) then (b, MoveError)
    else
      var (emptied, taken) := TakeItem(b[src.y][src.x], src.z);
      match taken
      case None =>
        assert emptied == b[src.y][src.x];
        assert b[src.y][src.x := emptied] == b[src.y];
        assert b[src.y := b[src.y]] == b;
        (WithCell(b, src.x, src.y, emptied), MoveError)
      case Some(o) =>
        var b1 := WithCell(b, src.x, src.y, emptied);
        var n := Neighbour(src, d);
        if InBound(n.x, n.y) && !HasItem(b1[n.y][n.x], ZLevel(o)) then
          (WithCell(b1, n.x, n.y, SetItem(b1[n.y][n.x], o)), Moved(Target(n.x, n.y, src.z)))
        else
          TakeThenSetRestores(b[src.y][src.x], src.z);
          assert SetItem(b1[src.y][src.x], o) == b[src.y][src.x];
          assert b1[src.y][src.x := b[src.y][src.x]] == b[src.y];
          assert b1[src.y := b[src.y]] == b;
          (WithCell(b1, src.x, src.y, SetItem(b1[src.y][src.x], o)), MoveError)
  }

  // ----- occupant bookkeeping -----

  function SlotBag(v: Option<Occupant>): multiset<Occupant> {
    if v.Some? then multiset{v.value} else multiset{}
  }

  function SlotsBag(items: seq<Option<Occupant>>): multiset<Occupant>
    decreases |items|
  {
    if |items| == 0 then multiset{} else SlotsBag(items[..|items| - 1]) + SlotBag(items[|items| - 1])
  }

  function RowBag(row: seq<Cell>): multiset<Occupant>
    decreases |row|
  {
    if |row| == 0 then multiset{} else RowBag(row[..|row| - 1]) + SlotsBag(row[|row| - 1].items)
  }

  /** Every occupant of the board, counted with multiplicity. */
  function BoardBag(b: seq<seq<Cell>>): multiset<Occupant>
    decreases |b|
  {
    if |b| == 0 then multiset{} else BoardBag(b[..|b| - 1]) + RowBag(b[|b| - 1])
  }

  /** The inductive step of the update lemmas: the last element is common to both sides. */
  lemma BagStep(u: multiset<Occupant>, s: multiset<Occupant>, p: multiset<Occupant>, q: multiset<Occupant>,
                last: multiset<Occupant>, taken: multiset<Occupant>, put: multiset<Occupant>)
    requires u == p + last && s == q + last && p + taken == q + put
    ensures u + taken == s + put
  {
    forall o ensures (u + taken)[o] == (s + put)[o] {
      assert (p + taken)[o] == (q + put)[o];
    }
  }

  /** The base step of the update lemmas: the replaced element is the last one. */
  lemma BagLast(u: multiset<Occupant>, s: multiset<Occupant>, q: multiset<Occupant>,
                taken: multiset<Occupant>, put: multiset<Occupant>)
    requires u == q + put && s == q + taken
    ensures u + taken == s + put
  {
    forall o ensures (u + taken)[o] == (s + put)[o] { }
  }

  lemma {:induction false} SlotsBagUpdate(items: seq<Option<Occupant>>, i: nat, v: Option<Occupant>)
    requires i < |items|
    ensures SlotsBag(items[i := v]) + SlotBag(items[i]) == SlotsBag(items) + SlotBag(v)
    decreases |items|
  {
    var n := |items| - 1;
    var updated := items[i := v];
    if i == n {
      assert updated[..n] == items[..n];
      BagLast(SlotsBag(updated), SlotsBag(items), SlotsBag(items[..n]), SlotBag(items[i]), SlotBag(v));
    } else {
      assert updated[..n] == items[..n][i := v];
      assert updated[n] == items[n] && items[..n][i] == items[i];
      SlotsBagUpdate(items[..n], i, v);
      BagStep(SlotsBag(updated), SlotsBag(items), SlotsBag(items[..n][i := v]), SlotsBag(items[..n]),
              SlotBag(items[n]), SlotBag(items[i]), SlotBag(v));
    }
  }

  lemma {:induction false} RowBagUpdate(row: seq<Cell>, x: nat, c: Cell)
    requires x < |row|
    ensures RowBag(row[x := c]) + SlotsBag(row[x].items) == RowBag(row) + SlotsBag(c.items)
    decreases |row|
  {
    var n := |row| - 1;
    var updated := row[x := c];
    if x == n {
      assert updated[..n] == row[..n];
      BagLast(RowBag(updated), RowBag(row), RowBag(row[..n]), SlotsBag(row[x].items), SlotsBag(c.items));
    } else {
      assert updated[..n] == row[..n][x := c];
      assert updated[n] == row[n] && row[..n][x] == row[x];
      RowBagUpdate(row[..n], x, c);
      BagStep(RowBag(updated), RowBag(row), RowBag(row[..n][x := c]), RowBag(row[..n]),
              SlotsBag(row[n].items), SlotsBag(row[x].items), SlotsBag(c.items));
    }
  }

  lemma {:induction false} BoardBagUpdate(b: seq<seq<Cell>>, y: nat, row: seq<Cell>)
    requires y < |b|
    ensures BoardBag(b[y := row]) + RowBag(b[y]) == BoardBag(b) + RowBag(row)
    decreases |b|
  {
    var n := |b| - 1;
    var updated := b[y := row];
    if y == n {
      assert updated[..n] == b[..n];
      BagLast(BoardBag(updated), BoardBag(b), BoardBag(b[..n]), RowBag(b[y]), RowBag(row));
    } else {
      assert updated[..n] == b[..n][y := row];
      assert updated[n] == b[n] && b[..n][y] == b[y];
      BoardBagUpdate(b[..n], y, row);
      BagStep(BoardBag(updated), BoardBag(b), BoardBag(b[..n][y := row]), BoardBag(b[..n]),
              RowBag(b[n]), RowBag(b[y]), RowBag(row));
    }
  }

  /** Three nested replacements (slot in cell, cell in row, row in board) compose. */
  lemma ChainBags(a: multiset<Occupant>, a2: multiset<Occupant>, r: multiset<Occupant>, r2: multiset<Occupant>,
                  s: multiset<Occupant>, s2: multiset<Occupant>, x: multiset<Occupant>, v: multiset<Occupant>)
    requires a2 + r == a + r2 && r2 + s == r + s2 && s2 + x == s + v
    ensures a2 + x == a + v
  {
    forall o ensures (a2 + x)[o] == (a + v)[o] {
      assert (s2 + x)[o] == (s + v)[o];
      assert (r2 + s)[o] == (r + s2)[o];
      assert (a2 + r)[o] == (a + r2)[o];
    }
  }

  /** Replacing one slot removes its old occupant from the board's bag and adds the new one. */
  lemma PutBag(b: Board, t: Target, v: Option<Occupant>)
    requires WellFormed(b) && ValidTarget(t) && (v.Some? ==> ZLevel(v.value) == t.z)
    ensures BoardBag(Put(b, t, v)) + SlotBag(Slot(b, t)) == BoardBag(b) + SlotBag(v)
  {
    var c := b[t.y][t.x];
    var c2 := Cell(c.items[t.z := v]);
    var row2 := b[t.y][t.x := c2];
    assert Put(b, t, v) == b[t.y := row2];
    assert Slot(b, t) == c.items[t.z];
    SlotsBagUpdate(c.items, t.z, v);
    RowBagUpdate(b[t.y], t.x, c2);
    BoardBagUpdate(b, t.y, row2);
    ChainBags(BoardBag(b), BoardBag(b[t.y := row2]), RowBag(b[t.y]), RowBag(row2),
              SlotsBag(c.items), SlotsBag(c2.items), SlotBag(c.items[t.z]), SlotBag(v));
  }

  /** A move neither loses nor duplicates an occupant, whether it succeeds or not. */
  lemma MoveConserves(b: Board, src: Target, d: Direction)
    requires WellFormed(b) && (InBound(src.x, src.y) ==> src.z < LAYERS)
    ensures BoardBag(MoveItem(b, src, d).0) == BoardBag(b)
  {
    var r := MoveItem(b, src, d);
    if r.1.Moved? {
      var n := Neighbour(src, d);
      var b1 := Put(b, src, None);
      var b2 := Put(b1, n, Slot(b, src));
      PutBag(b, src, None);
      PutBag(b1, n, Slot(b, src));
      assert Slot(b1, n) == None;
      assert SlotBag(None) == multiset{};
      assert BoardBag(b1) + SlotBag(Slot(b, src)) == BoardBag(b);
      assert BoardBag(b2) == BoardBag(b1) + SlotBag(Slot(b, src));
    }
  }

  // ----- find_kind -----

  /** The cell at flat position `j` of the x-outer, y-inner scan: x = j / MAX_Y, y = j % MAX_Y. */
  function CellAt(b: Board, j: nat): Cell
    requires WellFormed(b) && j < CELLS
  {
    b[j % MAX_Y][j / MAX_Y]
  }

  /** The first cell, from scan position `i` on, holding an occupant of kind `k`. */
  function FirstCellWith(b: Board, k: Kinds, i: nat): (r: Option<nat>)
    requires WellFormed(b) && i <= CELLS
    ensures r.Some? ==> i <= r.value < CELLS && Cells.FindKind(CellAt(b, r.value), k).Some?
    ensures r.Some? ==> forall j :: i <= j < r.value ==> Cells.FindKind(CellAt(b, j), k).None?
    ensures r.None? ==> forall j :: i <= j < CELLS ==> Cells.FindKind(CellAt(b, j), k).None?
    decreases CELLS - i
  {
    if i == CELLS then None
    else if Cells.FindKind(CellAt(b, i), k).Some? then Some(i)
    else FirstCellWith(b, k, i + 1)
  }

  /** The scan stops at the first cell holding kind `k`. */
  lemma {:induction false} FirstCellWithAt(b: Board, k: Kinds, i: nat, j: nat)
    requires WellFormed(b) && i <= j < CELLS
    requires forall l :: i <= l < j ==> Cells.FindKind(CellAt(b, l), k).None?
    requires Cells.FindKind(CellAt(b, j), k).Some?
    ensures FirstCellWith(b, k, i) == Some(j)
    decreases j - i
  {
    if i < j {
      FirstCellWithAt(b, k, i + 1, j);
    }
  }

  /** `Grid::find_kind`: the target of the first occupant of kind `k`, scanning columns
      left to right and each column top to bottom. */
  function FindKind(b: Board, k: Kinds): (r: Option<Target>)
    requires WellFormed(b)
    ensures r.None? <==> forall j :: 0 <= j < CELLS ==> Cells.FindKind(CellAt(b, j), k).None?
    ensures r.Some? ==> r.value.z < LAYERS
  {
    match FirstCellWith(b, k, 0)
    case None => None
    case Some(j) => Cells.FindKind(CellAt(b, j), k)
  }

  /** `find_kind` returns the target of the lowest occupant of kind `k` in the first cell,
      columns left to right and each column top to bottom, that holds one. */
  lemma FindKindScanOrder(b: Board, k: Kinds)
    requires WellFormed(b)
    ensures FindKind(b, k).Some? ==>
      exists j: nat, z: nat :: FirstCellWith(b, k, 0) == Some(j) && j < CELLS &&
        FirstKindSlot(CellAt(b, j).items, k, z) && FindKind(b, k).value == TargetOf(CellAt(b, j).items[z].value)
  {
    if FindKind(b, k).Some? {
      var j := FirstCellWith(b, k, 0).value;
      Cells.FindKindFirst(CellAt(b, j), k);
      var z: nat :| FirstKindSlot(CellAt(b, j).items, k, z) && FindKind(b, k).value == TargetOf(CellAt(b, j).items[z].value);
      assert FirstCellWith(b, k, 0) == Some(j);
    }
  }

  // ----- on_actions -----

  /** What `on_actions` builds up: the board, the reactions, the redraw batch, the block
      flag and the win flag. */
  datatype Resolution = Resolution(board: Board, reactions: seq<Action>, redraw: seq<RedrawRequest>,
                                   block: Option<bool>, isWin: bool)

  function Start(b: Board): Resolution {
    Resolution(b, [], [], None, false)
  }

  predicate Requested(batch: seq<RedrawRequest>, t: Target) {
    exists i :: 0 <= i < |batch| && batch[i].target == t
  }

  predicate DistinctTargets(batch: seq<RedrawRequest>) {
    forall i, j :: 0 <= i < j < |batch| ==> batch[i].target != batch[j].target
  }

  /** The redraw batch insertion, read as insert-if-absent by target: a request for a target
      already in the batch is dropped. */
  function AddToRedraw(batch: seq<RedrawRequest>, req: RedrawRequest): (r: seq<RedrawRequest>)
    ensures forall t :: Requested(r, t) <==> Requested(batch, t) || t == req.target
    ensures |batch| <= |r| <= |batch| + 1 && r[..|batch|] == batch
    ensures DistinctTargets(batch) ==> DistinctTargets(r)
  {
    if Requested(batch, req.target) then batch
    else
      assert forall t :: Requested(batch + [req], t) ==> Requested(batch, t) || t == req.target by {
        forall t | Requested(batch + [req], t) ensures Requested(batch, t) || t == req.target {
          var i :| 0 <= i < |batch + [req]| && (batch + [req])[i].target == t;
          if i < |batch| { assert batch[i].target == t; }
        }
      }
      assert Requested(batch + [req], req.target) by { assert (batch + [req])[|batch|].target == req.target; }
      assert forall t :: Requested(batch, t) ==> Requested(batch + [req], t) by {
        forall t | Requested(batch, t) ensures Requested(batch + [req], t) {
          var i :| 0 <= i < |batch| && batch[i].target == t;
          assert (batch + [req])[i].target == t;
        }
      }
      batch + [req]
  }

  /** The reactions of a confirmed move: one per layer of the destination cell. */
  function MoveReactions(to: Target, d: Direction, who: Who): (r: seq<Action>)
    ensures |r| == LAYERS
    ensures forall z :: 0 <= z < LAYERS ==> r[z] == Action(Target(to.x, to.y, z), Move(d, who))
  {
    seq(LAYERS, z requires 0 <= z => Action(Target(to.x, to.y, z), Move(d, who)))
  }

  /** A reaction `on_reactions` can deliver without indexing past the board or the cell. */
  predicate Deliverable(a: Action) {
    a.kind.Move? && ValidTarget(a.target)
  }

  /** The invariant of the resolver's state between two actions. */
  predicate Consistent(s: Resolution) {
    && WellFormed(s.board)
    && |s.reactions| <= MAX_EVENTS
    && (forall i :: 0 <= i < |s.reactions| ==> Deliverable(s.reactions[i]))
    && DistinctTargets(s.redraw)
  }

  /** The `InitSpell` arm: find the wizard; always take the item staged in slot 0 of cell
      (0, 0) (its absence is a panic, `None`); place it beside the wizard, on the wizard's
      layer, with coordinates and layer rewritten, and request a redraw there, when that
      slot is on the board and free; otherwise the taken item is dropped. */
  function InitSpellArm(s: Resolution, d: Direction): (r: Option<Resolution>)
    requires WellFormed(s.board)
    ensures r.Some? ==> WellFormed(r.value.board)
    ensures r.Some? ==> r.value.reactions == s.reactions && r.value.block == s.block && r.value.isWin == s.isWin
    ensures r.Some? ==> |s.redraw| <= |r.value.redraw| <= |s.redraw| + 1
    ensures r.Some? && DistinctTargets(s.redraw) ==> DistinctTargets(r.value.redraw)
    ensures r.None? <==> FindKind(s.board, WizardKind).Some? && s.board[0][0].items[0].None?
  {
    var b := s.board;
    match FindKind(b, WizardKind)
    case None => Some(s)
    case Some(w) =>
      var t := Neighbour(w, d);
      var (staging, taken) := TakeItem(b[0][0], 0);
      match taken
      case None => None
      case Some(spell) => Some(PlaceStaged(s.(board := WithCell(b, 0, 0, staging)), spell, t))
  }

  /** The end of the `InitSpell` arm: the item taken from the staging slot goes into slot `t`
      beside the wizard, with its coordinates and layer rewritten, when that slot is on the
      board and free; otherwise it is dropped. */
  function PlaceStaged(s: Resolution, spell: Occupant, t: Target): (r: Resolution)
    requires WellFormed(s.board) && t.z < LAYERS
    ensures WellFormed(r.board)
    ensures r.reactions == s.reactions && r.block == s.block && r.isWin == s.isWin
    ensures r.board != s.board ==> InBound(t.x, t.y) && s.board[t.y][t.x].items[t.z].None?
    ensures |s.redraw| <= |r.redraw| <= |s.redraw| + 1
    ensures DistinctTargets(s.redraw) ==> DistinctTargets(r.redraw)
  {
    var b := s.board;
    if InBound(t.x, t.y) && !HasItem(b[t.y][t.x], t.z) then
      var placed := Occupants.SetZ(Occupants.SetY(Occupants.SetX(spell, t.x), t.y), t.z);
      s.(board := WithCell(b, t.x, t.y, SetItem(b[t.y][t.x], placed)),
         redraw := AddToRedraw(s.redraw, RedrawRequest(t, NoShift)))
    else
      s
  }

  /** One arm of the `on_actions` loop. `None` stands for a panic: `take_item` at a layer
      past the cell on an on-board source, a `reactions` push past its capacity, or the
      unwrap of an empty staging slot. */
  function Apply(s: Resolution, a: Action): (r: Option<Resolution>)
    requires WellFormed(s.board)
    ensures r.Some? ==> WellFormed(r.value.board)
    ensures r.None? ==> a.kind.Move? || a.kind.InitSpell?
    ensures r.Some? && Consistent(s) ==> Consistent(r.value)
    ensures r.Some? ==> r.value.isWin == (s.isWin || a.kind.Win?)
    ensures r.Some? && a.kind.Block? ==> r.value.block == Some(a.kind.on)
    ensures r.Some? && !a.kind.Block? && r.value.block != s.block ==> a.kind.Move? && r.value.block == Some(true)
    ensures !a.kind.Move? && !a.kind.InitSpell? ==> r.Some? && r.value.board == s.board && r.value.reactions == s.reactions
    ensures r.Some? && !a.kind.Redraw? && !a.kind.RedrawAnim? && !a.kind.InitSpell? ==> r.value.redraw == s.redraw
    ensures a.kind.Redraw? || a.kind.RedrawAnim? ==> r.Some? && s.redraw <= r.value.redraw
  {
    var b := s.board;
    var t := a.target;
    match a.kind
    case Move(d, who) =>
      if InBound(t.x, t.y) && t.z >= LAYERS then None
      else
        var (b1, res) := MoveItem(b, t, d);
        (match res
         case MoveError => Some(s)
         case Moved(to) =>
           if |s.reactions| + LAYERS > MAX_EVENTS then None
           else Some(s.(board := b1, reactions := s.reactions + MoveReactions(to, d, who), block := Some(true))))
    case Redraw =>
      Some(s.(redraw := AddToRedraw(s.redraw, RedrawRequest(t, NoShift))))
    case RedrawAnim(shift, previous) =>
      Some(s.(redraw := AddToRedraw(AddToRedraw(s.redraw, RedrawRequest(previous, NoShift)), RedrawRequest(t, shift))))
    case InitSpell(d) => InitSpellArm(s, d)
    case Block(on) => Some(s.(block := Some(on)))
    case Win => Some(s.(isWin := true))
  }

  /** The `on_actions` loop over a prefix of the list: `None` once some action panicked. */
  function Run(s: Resolution, acts: seq<Action>): (r: Option<Resolution>)
    requires WellFormed(s.board)
    ensures r.Some? ==> WellFormed(r.value.board)
    ensures r.Some? && Consistent(s) ==> Consistent(r.value)
    decreases |acts|
  {
    if |acts| == 0 then Some(s)
    else match Run(s, acts[..|acts| - 1])
      case None => None
      case Some(s1) => Apply(s1, acts[|acts| - 1])
  }

  /** A panic ends the resolution: once a prefix has panicked, so has the whole list. */
  lemma {:induction false} PanicSticks(s: Resolution, acts: seq<Action>, n: nat)
    requires WellFormed(s.board) && n <= |acts| && Run(s, acts[..n]).None?
    ensures Run(s, acts).None?
    decreases |acts|
  {
    var k := n;
    while k < |acts|
      invariant n <= k <= |acts| && Run(s, acts[..k]).None?
    {
      assert acts[..k + 1][..k] == acts[..k];
      k := k + 1;
    }
    assert acts[..k] == acts;
  }

  /** `Grid::on_actions` on a board. */
  function OnActions(b: Board, acts: seq<Action>): Option<Resolution>
    requires WellFormed(b)
  {
    Run(Start(b), acts)
  }

  // ----- on_event and on_reactions -----

  /** A position of the column-by-column scan: every column before `x` done, and the
      first `y` cells of column `x`. */
  predicate ScanPoint(x: nat, y: nat) {
    x <= MAX_X && y <= MAX_Y && (x == MAX_X ==> y == 0)
  }

  /** The cell pass of `Grid::on_event` up to scan position (x, y): each cell handles the
      event in turn and its actions are appended. */
  function EventUpTo(b: Board, e: Events.Event, x: nat, y: nat): (r: (Board, seq<Action>))
    requires WellFormed(b) && BoardReady(b) && ScanPoint(x, y)
    ensures WellFormed(r.0) && BoardReady(r.0)
    decreases x, y
  {
    if x == 0 && y == 0 then (b, [])
    else
      var (px, py) := if y == 0 then (x - 1, MAX_Y) else (x, y - 1);
      var prev := EventUpTo(b, e, px, py);
      if y == 0 then prev
      else
        var (c, more) := Cells.OnEvent(prev.0[y - 1][x], e);
        (WithCell(prev.0, x, y - 1, c), prev.1 + more)
  }

  /** Each cell adds at most one batch per layer. */
  lemma {:induction false} EventActionsBounded(b: Board, e: Events.Event, x: nat, y: nat)
    requires WellFormed(b) && BoardReady(b) && ScanPoint(x, y)
    ensures |EventUpTo(b, e, x, y).1| <= (x * MAX_Y + y) * (LAYERS * MAX_ACTIONS_PER_EVENT)
    decreases x, y
  {
    if y == 0 {
      if x > 0 {
        EventActionsBounded(b, e, x - 1, MAX_Y);
      }
    } else {
      EventActionsBounded(b, e, x, y - 1);
    }
  }

  /** `Grid::on_event` on a board. */
  function OnEvent(b: Board, e: Events.Event): (r: (Board, seq<Action>))
    requires WellFormed(b) && BoardReady(b)
    ensures WellFormed(r.0) && BoardReady(r.0)
    ensures |r.1| <= CELLS * (LAYERS * MAX_ACTIONS_PER_EVENT)
  {
    EventActionsBounded(b, e, MAX_X, 0);
    EventUpTo(b, e, MAX_X, 0)
  }

  /** One reaction delivered: only the occupant of slot `target.z` of cell (`target.x`,
      `target.y`) sees it, and an empty slot ignores it. */
  function React(b: Board, a: Action): (r: Board)
    requires WellFormed(b) && ValidTarget(a.target)
    ensures WellFormed(r)
    ensures BoardReady(b) ==> BoardReady(r)
    ensures forall u :: ValidTarget(u) ==>
              Slot(r, u) == (if u == a.target && Slot(b, u).Some? then Some(Occupants.OnReaction(Slot(b, u).value, a)) else Slot(b, u))
  {
    WithCell(b, a.target.x, a.target.y, Cells.OnReaction(b[a.target.y][a.target.x], a))
  }

  /** `Grid::on_reactions` over a prefix of the reactions, in order. */
  function Deliver(b: Board, rs: seq<Action>): (r: Board)
    requires WellFormed(b) && forall i :: 0 <= i < |rs| ==> ValidTarget(rs[i].target)
    ensures WellFormed(r)
    ensures BoardReady(b) ==> BoardReady(r)
    decreases |rs|
  {
    if |rs| == 0 then b
    else React(Deliver(b, rs[..|rs| - 1]), rs[|rs| - 1])
  }

  /** Delivering two reactions is reacting to the first, then to the second. */
  lemma DeliverTwo(b: Board, r0: Action, r1: Action)
    requires WellFormed(b) && ValidTarget(r0.target) && ValidTarget(r1.target)
    ensures Deliver(b, [r0, r1]) == React(React(b, r0), r1)
  {
    assert [r0, r1][..1] == [r0];
    assert [r0][..0] == [];
    assert Deliver(b, [r0]) == React(b, r0);
  }
}
