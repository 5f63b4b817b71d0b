/** What settling a piece and clearing full rows do to a board (examples/tetris/game.ts). */
module TetrisBoard {
  import opened Pieces
  import opened Tetris

  /** The number of filled cells. */
  function Count(cells: seq<int>): (n: nat)
    ensures n <= |cells|
  {
    if cells == [] then 0
    else Count(cells[..|cells| - 1]) + if cells[|cells| - 1] == 0 then 0 else 1
  }

  lemma {:induction false} CountConcat(a: seq<int>, b: seq<int>)
    ensures Count(a + b) == Count(a) + Count(b)
  {
    if b == [] {
      assert a + b == a;
    } else {
      CountConcat(a, b[..|b| - 1]);
      assert (a + b)[..|a + b| - 1] == a + b[..|b| - 1];
    }
  }

  lemma CountFill(cells: seq<int>, i: nat, value: int)
    requires i < |cells| && cells[i] == 0 && value != 0
    ensures Count(cells[i := value]) == Count(cells) + 1
  {
    var before, after := cells[..i], cells[i + 1..];
    assert cells == before + [0] + after && cells[i := value] == before + [value] + after;
    CountConcat(before + [0], after);
    CountConcat(before + [value], after);
    CountConcat(before, [0]);
    CountConcat(before, [value]);
  }

  lemma {:induction false} CountExtremes(cells: seq<int>)
    ensures (forall i :: 0 <= i < |cells| ==> cells[i] == 0) ==> Count(cells) == 0
    ensures 0 !in cells ==> Count(cells) == |cells|
  {
    if cells != [] {
      CountExtremes(cells[..|cells| - 1]);
    }
  }

  // ---- Settling

  predicate InWell(c: Cell)
  {
    0 <= c.x < BOARD_WIDTH && 0 <= c.y < BOARD_HEIGHT
  }

  function Index(c: Cell): int
  {
    c.y * BOARD_WIDTH + c.x
  }

  ghost predicate AllInWell(cells: seq<Cell>)
  {
    forall i :: 0 <= i < |cells| ==> InWell(cells[i])
  }

  ghost predicate Distinct(cells: seq<Cell>)
  {
    forall i, j :: 0 <= i < j < |cells| ==> cells[i] != cells[j]
  }

  /** Exactly the piece's cells take the value. */
  lemma {:induction false} SettleAt(board: Board, cells: seq<Cell>, value: int, k: nat)
    requires AllInWell(cells) && k < |board|
    ensures (exists i :: 0 <= i < |cells| && Index(cells[i]) == k) ==> Settle(board, cells, value)[k] == value
    ensures (forall i :: 0 <= i < |cells| ==> Index(cells[i]) != k) ==> Settle(board, cells, value)[k] == board[k]
  {
    if cells != [] {
      var front := cells[..|cells| - 1];
      SettleAt(board, front, value, k);
      assert InWell(cells[|cells| - 1]);
      if i :| 0 <= i < |cells| && Index(cells[i]) == k {
        assert i < |front| ==> Index(front[i]) == k;
      }
    }
  }

  /** Every cell settled fills one free cell of the board. */
  lemma {:induction false} SettleCount(board: Board, cells: seq<Cell>, value: int)
    requires AllInWell(cells) && Distinct(cells) && value != 0
    requires forall i :: 0 <= i < |cells| ==> CellFree(board, cells[i])
    ensures Count(Settle(board, cells, value)) == Count(board) + |cells|
  {
    if cells != [] {
      var front, c := cells[..|cells| - 1], cells[|cells| - 1];
      forall i | 0 <= i < |front| ensures InWell(front[i]) && front[i] != c && CellFree(board, front[i]) {
        assert front[i] == cells[i];
      }
      SettleCount(board, front, value);
      assert InWell(c) && CellFree(board, c);
      SettleAt(board, front, value, Index(c));
      CountFill(Settle(board, front, value), Index(c), value);
    }
  }

  // ---- Clearing

  lemma {:induction false} FlatPrepend(row: Row, rows: seq<Row>)
    ensures Flat([row] + rows) == row + Flat(rows)
  {
    if rows == [] {
      assert [row] + rows == [row] && [row][..0] == [];
    } else {
      FlatPrepend(row, rows[..|rows| - 1]);
      assert ([row] + rows)[..|rows|] == [row] + rows[..|rows| - 1];
    }
  }

  lemma {:induction false} PaddedCount(rows: seq<Row>)
    requires |rows| <= BOARD_HEIGHT
    ensures Count(Flat(Padded(rows))) == Count(Flat(rows))
    decreases BOARD_HEIGHT - |rows|
  {
    if |rows| < BOARD_HEIGHT {
      PaddedCount([EMPTY_ROW] + rows);
      FlatPrepend(EMPTY_ROW, rows);
      CountConcat(EMPTY_ROW, Flat(rows));
      CountExtremes(EMPTY_ROW);
    }
  }

  lemma NextRow(board: Board, y: nat)
    requires y < BOARD_HEIGHT
    ensures board[..(y + 1) * BOARD_WIDTH] == board[..y * BOARD_WIDTH] + RowAt(board, y)
  {
  }

  lemma FlatSnoc(rows: seq<Row>, row: Row)
    ensures Flat(rows + [row]) == Flat(rows) + row
  {
    assert (rows + [row])[..|rows|] == rows;
  }

  lemma CountRow(board: Board, y: nat)
    requires y < BOARD_HEIGHT
    ensures Count(board[..(y + 1) * 10]) == Count(board[..y * 10]) + Count(RowAt(board, y))
  {
    NextRow(board, y);
    CountConcat(board[..y * 10], RowAt(board, y));
  }

  /** The filled cells above row `y` that survive, and ten for each row that does not. */
  function Accounted(board: Board, y: nat): int
    requires y <= BOARD_HEIGHT
  {
    Count(Flat(KeptRows(board, y))) + 10 * (y - |KeptRows(board, y)|)
  }

  lemma AccountedRow(board: Board, y: nat)
    requires y < BOARD_HEIGHT
    ensures Accounted(board, y + 1) == Accounted(board, y) + Count(RowAt(board, y))
  {
    var row, rows := RowAt(board, y), KeptRows(board, y);
    if RowFull(board, y) {
      CountExtremes(row);
      assert KeptRows(board, y + 1) == rows;
    } else {
      assert KeptRows(board, y + 1) == rows + [row];
      FlatSnoc(rows, row);
      CountConcat(Flat(rows), row);
    }
  }

  lemma {:induction false} KeptCount(board: Board, y: nat)
    requires y <= BOARD_HEIGHT
    ensures Accounted(board, y) == Count(board[..y * 10])
  {
    if y > 0 {
      KeptCount(board, y - 1);
      CountRow(board, y - 1);
      AccountedRow(board, y - 1);
    }
  }

  /** Clearing loses the ten cells of each full row and nothing else. */
  lemma ClearedCount(board: Board)
    ensures Count(ClearedBoard(board)) == Count(board) - BOARD_WIDTH * ClearedRows(board)
  {
    KeptCount(board, Height(board));
    PaddedCount(KeptRows(board, Height(board)));
    assert board[..Height(board) * 10] == board;
  }

  lemma {:induction false} PaddedRows(rows: seq<Row>, y: nat)
    requires |rows| <= BOARD_HEIGHT && y < BOARD_HEIGHT
    ensures Padded(rows)[y] == if y < BOARD_HEIGHT - |rows| then EMPTY_ROW else rows[y - (BOARD_HEIGHT - |rows|)]
    decreases BOARD_HEIGHT - |rows|
  {
    if |rows| < BOARD_HEIGHT {
      PaddedRows([EMPTY_ROW] + rows, y);
    }
  }

  lemma {:induction false} FlatRow(rows: seq<Row>, y: nat)
    requires y < |rows|
    ensures Flat(rows)[y * BOARD_WIDTH..(y + 1) * BOARD_WIDTH] == rows[y]
  {
    var front := rows[..|rows| - 1];
    if y < |front| {
      FlatRow(front, y);
      assert (y + 1) * BOARD_WIDTH <= |Flat(front)|;
      assert Flat(rows)[y * BOARD_WIDTH..(y + 1) * BOARD_WIDTH] == Flat(front)[y * BOARD_WIDTH..(y + 1) * BOARD_WIDTH];
    }
  }

  /** Which rows of the board are kept: the `i`th row kept is the `i`th that is not full. */
  lemma {:induction false} KeptRowIsARow(board: Board, y: nat, i: nat) returns (source: nat)
    requires y <= BOARD_HEIGHT && i < |KeptRows(board, y)|
    ensures source < y && !RowFull(board, source) && RowAt(board, source) == KeptRows(board, y)[i]
    ensures i == |KeptRows(board, source)|
  {
    if RowFull(board, y - 1) || i < |KeptRows(board, y - 1)| {
      source := KeptRowIsARow(board, y - 1, i);
    } else {
      source := y - 1;
    }
  }

  /** A cleared board is the rows that were not full, in order, below as many empty rows as were full. */
  lemma ClearedRowAt(board: Board, y: nat)
    requires y < BOARD_HEIGHT
    ensures RowAt(ClearedBoard(board), y)
         == if y < ClearedRows(board) then EMPTY_ROW else KeptRows(board, Height(board))[y - ClearedRows(board)]
  {
    PaddedRows(KeptRows(board, Height(board)), y);
    FlatRow(Padded(KeptRows(board, Height(board))), y);
  }

  ghost predicate NoFullRow(board: Board)
  {
    forall y :: 0 <= y < BOARD_HEIGHT ==> !RowFull(board, y)
  }

  lemma ClearedHasNoFullRow(board: Board)
    ensures NoFullRow(ClearedBoard(board))
  {
    forall y | 0 <= y < BOARD_HEIGHT ensures !RowFull(ClearedBoard(board), y) {
      ClearedRowAt(board, y);
      if y < ClearedRows(board) {
        assert EMPTY_ROW[0] == 0;
      } else {
        var source := KeptRowIsARow(board, Height(board), y - ClearedRows(board));
      }
    }
  }

  lemma EmptyBoardHasNoFullRow()
    ensures NoFullRow(EmptyBoard())
  {
    forall y | 0 <= y < BOARD_HEIGHT ensures !RowFull(EmptyBoard(), y) {
      assert RowAt(EmptyBoard(), y)[0] == 0;
    }
  }

  ghost predicate Colours(cells: seq<int>)
  {
    forall k :: 0 <= k < |cells| ==> 0 <= cells[k] <= 7
  }

  lemma ClearedColours(board: Board)
    requires Colours(board)
    ensures Colours(ClearedBoard(board))
  {
    forall k | 0 <= k < |ClearedBoard(board)| ensures 0 <= ClearedBoard(board)[k] <= 7 {
      var y, x := k / BOARD_WIDTH, k % BOARD_WIDTH;
      ClearedRowAt(board, y);
      assert ClearedBoard(board)[k] == RowAt(ClearedBoard(board), y)[x];
      if y < ClearedRows(board) {
        assert EMPTY_ROW[x] == 0;
      } else {
        var source := KeptRowIsARow(board, Height(board), y - ClearedRows(board));
        assert RowAt(board, source)[x] == board[source * BOARD_WIDTH + x];
      }
    }
  }

  lemma {:induction false} FullRowsBound(board: Board, h: nat, top: nat)
    requires h <= BOARD_HEIGHT
    requires forall y :: 0 <= y < BOARD_HEIGHT && RowFull(board, y) ==> top <= y < top + 4
    ensures h - |KeptRows(board, h)| <= if h <= top then 0 else if h < top + 4 then h - top else 4
  {
    if h > 0 {
      FullRowsBound(board, h - 1, top);
    }
  }

  /** One piece completes at most four rows. */
  lemma PieceClearsAtMostFour(board: Board, cells: seq<Cell>, value: int, top: nat)
    requires NoFullRow(board) && AllInWell(cells)
    requires forall i :: 0 <= i < |cells| ==> top <= cells[i].y < top + 4
    ensures ClearedRows(Settle(board, cells, value)) <= 4
  {
    var settled := Settle(board, cells, value);
    forall y | 0 <= y < BOARD_HEIGHT && (y < top || y >= top + 4) ensures !RowFull(settled, y) {
      forall x | 0 <= x < BOARD_WIDTH ensures RowAt(settled, y)[x] == RowAt(board, y)[x] {
        SettleAt(board, cells, value, y * BOARD_WIDTH + x);
        assert forall i :: 0 <= i < |cells| ==> InWell(cells[i]);
      }
      assert RowAt(settled, y) == RowAt(board, y);
      assert !RowFull(board, y);
    }
    FullRowsBound(settled, Height(settled), top);
  }
}
