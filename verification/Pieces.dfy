/** Tetris pieces and board geometry (examples/tetris/schema.ts). */
module Pieces {
  const BOARD_WIDTH: nat := 10
  const BOARD_HEIGHT: nat := 20

  datatype PieceKind = I | O | T | S | Z | J | L

  const PIECE_KINDS: seq<PieceKind> := [I, O, T, S, Z, J, L]

  datatype Cell = Cell(x: int, y: int)

  function BaseCells(kind: PieceKind): seq<Cell>
  {
    match kind
    case I => [Cell(0, 0), Cell(1, 0), Cell(2, 0), Cell(3, 0)]
    case O => [Cell(0, 0), Cell(1, 0), Cell(0, 1), Cell(1, 1)]
    case T => [Cell(1, 0), Cell(0, 1), Cell(1, 1), Cell(2, 1)]
    case S => [Cell(1, 0), Cell(2, 0), Cell(0, 1), Cell(1, 1)]
    case Z => [Cell(0, 0), Cell(1, 0), Cell(1, 1), Cell(2, 1)]
    case J => [Cell(0, 0), Cell(0, 1), Cell(1, 1), Cell(2, 1)]
    case L => [Cell(2, 0), Cell(0, 1), Cell(1, 1), Cell(2, 1)]
  }

  /** The least column among the first `n` cells. */
  function MinX(cells: seq<Cell>, n: nat): int
    requires 0 < n <= |cells|
  {
    if n == 1 || MinX(cells, n - 1) > cells[n - 1].x then cells[n - 1].x else MinX(cells, n - 1)
  }

  /** The least row among the first `n` cells. */
  function MinY(cells: seq<Cell>, n: nat): int
    requires 0 < n <= |cells|
  {
    if n == 1 || MinY(cells, n - 1) > cells[n - 1].y then cells[n - 1].y else MinY(cells, n - 1)
  }

  lemma {:induction false} MinIsLeast(cells: seq<Cell>, n: nat)
    requires 0 < n <= |cells|
    ensures forall i :: 0 <= i < n ==> MinX(cells, n) <= cells[i].x && MinY(cells, n) <= cells[i].y
    ensures exists i :: 0 <= i < n && cells[i].x == MinX(cells, n)
    ensures exists i :: 0 <= i < n && cells[i].y == MinY(cells, n)
  {
    if n > 1 {
      MinIsLeast(cells, n - 1);
    }
    assert cells[n - 1].x == MinX(cells, n) || (n > 1 && MinX(cells, n) == MinX(cells, n - 1));
    assert cells[n - 1].y == MinY(cells, n) || (n > 1 && MinY(cells, n) == MinY(cells, n - 1));
  }

  function Shifted(cells: seq<Cell>, dx: int, dy: int): (r: seq<Cell>)
    ensures |r| == |cells| && forall i :: 0 <= i < |r| ==> r[i] == Cell(cells[i].x + dx, cells[i].y + dy)
  {
    seq(|cells|, i requires 0 <= i < |cells| => Cell(cells[i].x + dx, cells[i].y + dy))
  }

  function Flipped(cells: seq<Cell>): (r: seq<Cell>)
    ensures |r| == |cells| && forall i :: 0 <= i < |r| ==> r[i] == Cell(-cells[i].y, cells[i].x)
  {
    seq(|cells|, i requires 0 <= i < |cells| => Cell(-cells[i].y, cells[i].x))
  }

  /** A quarter turn, moved back against both axes. */
  function Turned(cells: seq<Cell>): (r: seq<Cell>)
    requires cells != []
    ensures |r| == |cells|
  {
    var flipped := Flipped(cells);
    Shifted(flipped, -MinX(flipped, |flipped|), -MinY(flipped, |flipped|))
  }

  function Turns(kind: PieceKind, rotation: int): nat
  {
    if kind == O then 0 else rotation % 4
  }

  /** A box no larger than four by four against both axes, holding four different cells. */
  ghost predicate Shape(cells: seq<Cell>)
  {
    && |cells| == 4
    && (forall i :: 0 <= i < 4 ==> 0 <= cells[i].x < 4 && 0 <= cells[i].y < 4)
    && (forall i, j :: 0 <= i < j < 4 ==> cells[i] != cells[j])
  }

  lemma BaseIsShape(kind: PieceKind)
    ensures Shape(BaseCells(kind))
  {
  }

  lemma TurnKeepsShape(cells: seq<Cell>)
    requires Shape(cells)
    ensures Shape(Turned(cells))
  {
    var flipped, turned := Flipped(cells), Turned(cells);
    MinIsLeast(flipped, 4);
    var i0 :| 0 <= i0 < 4 && flipped[i0].x == MinX(flipped, 4);
    var i1 :| 0 <= i1 < 4 && flipped[i1].y == MinY(flipped, 4);
    forall i, j | 0 <= i < j < 4 ensures turned[i] != turned[j] {
      assert cells[i] != cells[j];
    }
  }

  function TurnedBy(cells: seq<Cell>, turns: nat): (r: seq<Cell>)
    requires cells != []
    ensures |r| == |cells|
  {
    if turns == 0 then cells else Turned(TurnedBy(cells, turns - 1))
  }

  lemma {:induction false} TurnsKeepShape(cells: seq<Cell>, turns: nat)
    requires Shape(cells)
    ensures Shape(TurnedBy(cells, turns))
  {
    if turns > 0 {
      TurnsKeepShape(cells, turns - 1);
      TurnKeepsShape(TurnedBy(cells, turns - 1));
    }
  }

  /** Against both axes. */
  ghost predicate Snug(cells: seq<Cell>)
  {
    |cells| == 4 && MinX(cells, 4) == 0 && MinY(cells, 4) == 0
  }

  lemma TurnedIsSnug(cells: seq<Cell>)
    requires |cells| == 4
    ensures Snug(Turned(cells))
  {
    MinIsLeast(Flipped(cells), 4);
    MinIsLeast(Turned(cells), 4);
  }

  /** One shape moved as a whole, with both copies against the axes, has not moved. */
  lemma SnugIsUnmoved(cells: seq<Cell>, moved: seq<Cell>, dx: int, dy: int)
    requires Snug(cells) && Snug(moved)
    requires forall i :: 0 <= i < 4 ==> moved[i] == Cell(cells[i].x + dx, cells[i].y + dy)
    ensures moved == cells
  {
    MinIsLeast(cells, 4);
    MinIsLeast(moved, 4);
  }

  /** Four quarter turns bring a shape back, cell for cell. */
  lemma FourTurnsRestore(cells: seq<Cell>)
    requires Snug(cells)
    ensures Turned(Turned(Turned(Turned(cells)))) == cells
  {
    var one := Turned(cells);
    var two := Turned(one);
    var three := Turned(two);
    var four := Turned(three);
    TurnedIsSnug(three);
    SnugIsUnmoved(cells, four, four[0].x - cells[0].x, four[0].y - cells[0].y);
  }

  lemma BaseIsSnug(kind: PieceKind)
    ensures Snug(BaseCells(kind))
  {
    var cells := BaseCells(kind);
    MinIsLeast(cells, 4);
    BaseIsShape(kind);
    assert cells[0].y == 0 && cells[match kind case S => 2 case T => 1 case L => 1 case _ => 0].x == 0;
  }

  /** Whatever the kind, turning it four times in either direction changes nothing: rotations count modulo four. */
  lemma FullTurnIsNone(kind: PieceKind)
    ensures TurnedBy(BaseCells(kind), 4) == BaseCells(kind)
  {
    var cells := BaseCells(kind);
    BaseIsSnug(kind);
    FourTurnsRestore(cells);
    assert TurnedBy(cells, 4) == Turned(TurnedBy(cells, 3)) && TurnedBy(cells, 3) == Turned(TurnedBy(cells, 2));
    assert TurnedBy(cells, 2) == Turned(TurnedBy(cells, 1)) && TurnedBy(cells, 1) == Turned(cells);
  }

  /** The cells a piece occupies. */
  function PieceCells(kind: PieceKind, rotation: int, x: int, y: int): (cells: seq<Cell>)
    ensures |cells| == 4
  {
    Shifted(TurnedBy(BaseCells(kind), Turns(kind, rotation)), x, y)
  }

  method ComputePieceCells(kind: PieceKind, rotation: int, x: int, y: int) returns (cells: seq<Cell>)
    ensures cells == PieceCells(kind, rotation, x, y)
  {
    cells := BaseCells(kind);
    for turn := 0 to Turns(kind, rotation)
      invariant cells == TurnedBy(BaseCells(kind), turn)
    {
      cells := Turned(cells);
    }
    cells := Shifted(cells, x, y);
  }

  /** Four different cells, within a four by four box at the piece's position. */
  lemma PieceShape(kind: PieceKind, rotation: int, x: int, y: int)
    ensures var cells := PieceCells(kind, rotation, x, y);
            && |cells| == 4
            && (forall i :: 0 <= i < 4 ==> x <= cells[i].x < x + 4 && y <= cells[i].y < y + 4)
            && (forall i, j :: 0 <= i < j < 4 ==> cells[i] != cells[j])
  {
    BaseIsShape(kind);
    TurnsKeepShape(BaseCells(kind), Turns(kind, rotation));
    var base, cells := TurnedBy(BaseCells(kind), Turns(kind, rotation)), PieceCells(kind, rotation, x, y);
    forall i, j | 0 <= i < j < 4 ensures cells[i] != cells[j] {
      assert base[i] != base[j];
    }
  }

  function PieceValue(kind: PieceKind): int
  {
    match kind case I => 1 case O => 2 case T => 3 case S => 4 case Z => 5 case J => 6 case L => 7
  }

  function Width(kind: PieceKind): int
  {
    match kind case I => 4 case O => 2 case T => 3 case S => 3 case Z => 3 case J => 3 case L => 3
  }

  /** Where a piece appears: centred, rounding to the left. */
  function SpawnX(kind: PieceKind): int
  {
    (BOARD_WIDTH - Width(kind)) / 2
  }

  /** `Width` is one more than the rightmost unturned cell, as `spawnX` computes it. */
  lemma WidthIsRightmost(kind: PieceKind)
    ensures forall i :: 0 <= i < 4 ==> BaseCells(kind)[i].x < Width(kind)
    ensures exists i :: 0 <= i < 4 && BaseCells(kind)[i].x == Width(kind) - 1
  {
    assert BaseCells(kind)[if kind == S then 1 else 3].x == Width(kind) - 1;
  }
}
