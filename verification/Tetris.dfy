/** The server-authoritative Tetris rules (examples/tetris/game.ts), as functions of the game's value. */
module Tetris {
  import opened Pieces

  type Board = b: seq<int> | |b| == BOARD_WIDTH * BOARD_HEIGHT witness EmptyBoard()

  type Bag = s: seq<PieceKind> | |s| == 7 witness PIECE_KINDS

  /** A source of randomness, seen as the bags it shuffles: the `n`th refill and how many have been used. */
  datatype Rng = Rng(refill: nat -> Bag, used: nat)

  datatype Action = Join | Heartbeat | Left | Right | RotateCw | RotateCcw | SoftDrop | HardDrop

  /** A player without the fields no rule reads: identity, name and timestamps. */
  datatype Game = Game(board: Board, piece: PieceKind, next: PieceKind, rotation: int, x: int, y: int,
                       score: int, lines: int, deaths: int, bag: seq<PieceKind>,
                       action: Action, inputSeq: int, processedSeq: int)

  function EmptyBoard(): (b: seq<int>)
    ensures |b| == BOARD_WIDTH * BOARD_HEIGHT && forall i :: 0 <= i < |b| ==> b[i] == 0
  {
    seq(200, _ => 0)
  }

  // ---- The bag

  function Swapped(bag: Bag, i: nat, j: nat): Bag
    requires i < |bag| && j < |bag|
  {
    bag[i := bag[j]][j := bag[i]]
  }

  /** Swap each position from the `i`th down with the one picked for it. */
  function Shuffle(bag: Bag, i: nat, picks: seq<nat>): Bag
    requires i < |bag| && i <= |picks| && forall k :: 0 <= k < i ==> picks[k] <= k + 1
    decreases i
  {
    if i == 0 then bag else Shuffle(Swapped(bag, i, picks[i - 1]), i - 1, picks)
  }

  const PREDICTION_QUEUE_SIZE: nat := 21

  /** Top the queue up with whole bags. */
  function Filled(bag: seq<PieceKind>, rng: Rng): (r: (seq<PieceKind>, Rng))
    ensures |r.0| >= PREDICTION_QUEUE_SIZE && |r.0| >= |bag|
    decreases PREDICTION_QUEUE_SIZE - |bag|
  {
    if |bag| >= PREDICTION_QUEUE_SIZE then (bag, rng) else Filled(bag + rng.refill(rng.used), rng.(used := rng.used + 1))
  }

  /** The piece drawn, what is left of the queue and the source of rolls after it. */
  datatype Draw = Draw(kind: PieceKind, bag: seq<PieceKind>, rng: Rng)

  function Drawn(bag: seq<PieceKind>, rng: Rng): (d: Draw)
    ensures |d.bag| >= PREDICTION_QUEUE_SIZE - 1
  {
    var (full, rng') := Filled(bag, rng);
    Draw(full[0], full[1..], rng')
  }

  // ---- Placement

  predicate CellFree(board: Board, c: Cell)
  {
    0 <= c.x < BOARD_WIDTH && c.y < BOARD_HEIGHT && (c.y >= 0 ==> board[c.y * BOARD_WIDTH + c.x] == 0)
  }

  /** The first `n` cells are free. */
  predicate Fits(board: Board, cells: seq<Cell>, n: nat)
    requires n <= |cells|
  {
    n == 0 || (Fits(board, cells, n - 1) && CellFree(board, cells[n - 1]))
  }

  lemma {:induction false} FitsEach(board: Board, cells: seq<Cell>, n: nat)
    requires n <= |cells|
    ensures Fits(board, cells, n) <==> forall i :: 0 <= i < n ==> CellFree(board, cells[i])
  {
    if n > 0 {
      FitsEach(board, cells, n - 1);
    }
  }

  predicate CanPlace(board: Board, kind: PieceKind, rotation: int, x: int, y: int)
  {
    var cells := PieceCells(kind, rotation, x, y);
    Fits(board, cells, |cells|)
  }

  lemma PlacedAboveFloor(board: Board, kind: PieceKind, rotation: int, x: int, y: int)
    requires CanPlace(board, kind, rotation, x, y)
    ensures y < BOARD_HEIGHT
  {
    PieceShape(kind, rotation, x, y);
    FitsEach(board, PieceCells(kind, rotation, x, y), 4);
    assert CellFree(board, PieceCells(kind, rotation, x, y)[0]);
  }

  predicate Placed(g: Game)
  {
    CanPlace(g.board, g.piece, g.rotation, g.x, g.y)
  }

  /** How far down a piece can go, row by row. */
  function LandingY(board: Board, kind: PieceKind, rotation: int, x: int, y: int): int
    decreases if y < BOARD_HEIGHT then BOARD_HEIGHT - y else 0
  {
    if CanPlace(board, kind, rotation, x, y + 1) then
      PlacedAboveFloor(board, kind, rotation, x, y + 1);
      LandingY(board, kind, rotation, x, y + 1)
    else y
  }

  // ---- Settling

  /** Write a piece's value into its cells. */
  function Settle(board: Board, cells: seq<Cell>, value: int): Board
  {
    if cells == [] then board
    else
      var sofar := Settle(board, cells[..|cells| - 1], value);
      var c := cells[|cells| - 1];
      var at := c.y * BOARD_WIDTH + c.x;
      if c.y >= 0 && 0 <= at < |sofar| then sofar[at := value] else sofar
  }

  function RowAt(board: Board, y: int): (row: seq<int>)
    requires 0 <= y < BOARD_HEIGHT
    ensures |row| == BOARD_WIDTH
  {
    board[y * BOARD_WIDTH..(y + 1) * BOARD_WIDTH]
  }

  predicate RowFull(board: Board, y: int)
    requires 0 <= y < BOARD_HEIGHT
  {
    0 !in RowAt(board, y)
  }

  type Row = r: seq<int> | |r| == BOARD_WIDTH witness EMPTY_ROW

  const EMPTY_ROW: seq<int> := [0, 0, 0, 0, 0, 0, 0, 0, 0, 0]

  /** The rows above row `y` that are not full. */
  function KeptRows(board: Board, y: nat): (rows: seq<Row>)
    requires y <= BOARD_HEIGHT
    ensures |rows| <= y
  {
    if y == 0 then []
    else if RowFull(board, y - 1) then KeptRows(board, y - 1)
    else KeptRows(board, y - 1) + [RowAt(board, y - 1)]
  }

  /** Empty rows on top until the board is full height again. */
  function Padded(rows: seq<Row>): (r: seq<Row>)
    requires |rows| <= BOARD_HEIGHT
    ensures |r| == BOARD_HEIGHT
    decreases BOARD_HEIGHT - |rows|
  {
    if |rows| < BOARD_HEIGHT then Padded([EMPTY_ROW] + rows) else rows
  }

  function Flat(rows: seq<Row>): (board: seq<int>)
    ensures |board| == BOARD_WIDTH * |rows|
  {
    if rows == [] then [] else Flat(rows[..|rows| - 1]) + rows[|rows| - 1]
  }

  function Height(board: Board): (h: nat)
    ensures h == BOARD_HEIGHT
  {
    |board| / BOARD_WIDTH
  }

  function ClearedBoard(board: Board): Board
  {
    Flat(Padded(KeptRows(board, Height(board))))
  }

  function ClearedRows(board: Board): nat
  {
    BOARD_HEIGHT - |KeptRows(board, Height(board))|
  }

  function PointsFor(cleared: nat): int
  {
    if cleared < 5 then [0, 100, 300, 500, 800][cleared] else cleared * 300
  }

  function ResetAfterDeath(g: Game, rng: Rng): (Game, Rng)
  {
    var first := Drawn(g.bag, rng);
    var second := Drawn(first.bag, first.rng);
    (g.(board := EmptyBoard(), score := 0, lines := 0, deaths := g.deaths + 1, piece := first.kind,
        next := second.kind, rotation := 0, x := SpawnX(first.kind), y := 0, bag := second.bag), second.rng)
  }

  /** The queued piece takes the field and the next one is drawn. */
  function Entered(g: Game, d: Draw): Game
  {
    g.(piece := g.next, next := d.kind, rotation := 0, x := SpawnX(g.next), y := 0, bag := d.bag)
  }

  /** The next piece enters; where it cannot, the run ends and starts over, as the last component tells. */
  function SpawnNext(g: Game, rng: Rng): (Game, Rng, bool)
  {
    var d := Drawn(g.bag, rng);
    if Placed(Entered(g, d)) then (Entered(g, d), d.rng, false)
    else
      var (g', rng') := ResetAfterDeath(Entered(g, d), d.rng);
      (g', rng', true)
  }

  function Settled(g: Game): Board
  {
    Settle(g.board, PieceCells(g.piece, g.rotation, g.x, g.y), PieceValue(g.piece))
  }

  /** The game with the active piece settled, full rows cleared and scored. */
  function Scored(g: Game): Game
  {
    var cleared := ClearedRows(Settled(g));
    g.(board := ClearedBoard(Settled(g)), lines := g.lines + cleared, score := g.score + PointsFor(cleared))
  }

  function Lock(g: Game, rng: Rng): (Game, Rng, bool)
  {
    SpawnNext(Scored(g), rng)
  }

  // ---- Input

  function Moved(g: Game, dx: int, dy: int): (Game, bool)
  {
    if CanPlace(g.board, g.piece, g.rotation, g.x + dx, g.y + dy)
    then (g.(x := g.x + dx, y := g.y + dy), true)
    else (g, false)
  }

  const KICKS: seq<int> := [0, -1, 1, -2, 2]

  /** The first of the kicks that lets the turned piece fit. */
  function Kicked(g: Game, rotation: int, kicks: seq<int>): (r: (Game, bool))
    ensures r.0 == g.(rotation := r.0.rotation, x := r.0.x)
    ensures if r.1 then r.0.rotation == rotation && Placed(r.0) else r.0 == g
  {
    if kicks == [] then (g, false)
    else if CanPlace(g.board, g.piece, rotation, g.x + kicks[0], g.y)
    then (g.(rotation := rotation, x := g.x + kicks[0]), true)
    else Kicked(g, rotation, kicks[1..])
  }

  /** JavaScript's `%`, which truncates towards zero. */
  function Remainder(a: int, n: nat): int
    requires n > 0
  {
    if a >= 0 then a % n else -((0 - a) % n)
  }

  function Rotated(g: Game, direction: int): (Game, bool)
  {
    Kicked(g, Remainder(g.rotation + direction + 4, 4), KICKS)
  }

  /** The piece falls one row, or settles where it is. */
  function Dropped(g: Game, rng: Rng): (Game, Rng)
  {
    if Moved(g, 0, 1).1 then (Moved(g, 0, 1).0, rng)
    else (Lock(g, rng).0, Lock(g, rng).1)
  }

  function Landed(g: Game): Game
  {
    g.(y := LandingY(g.board, g.piece, g.rotation, g.x, g.y))
  }

  function Applied(g: Game, action: Action, rng: Rng): (Game, Rng)
  {
    match action
    case Left => (Moved(g, -1, 0).0, rng)
    case Right => (Moved(g, 1, 0).0, rng)
    case RotateCw => (Rotated(g, 1).0, rng)
    case RotateCcw => (Rotated(g, -1).0, rng)
    case SoftDrop => Dropped(g, rng)
    case HardDrop => (Lock(Landed(g), rng).0, Lock(Landed(g), rng).1)
    case Join => (g, rng)
    case Heartbeat => (g, rng)
  }

  /** Whether a command changes the game the player sees. */
  predicate Changes(g: Game, action: Action)
  {
    match action
    case Left => Moved(g, -1, 0).1
    case Right => Moved(g, 1, 0).1
    case RotateCw => Rotated(g, 1).1
    case RotateCcw => Rotated(g, -1).1
    case SoftDrop => true
    case HardDrop => true
    case Join => false
    case Heartbeat => false
  }

  datatype Input = Input(seqNo: int, action: Action)

  function Noted(g: Game, input: Input): Game
  {
    g.(inputSeq := input.seqNo, action := input.action)
  }

  /** The command is noted, then obeyed. */
  function Obeyed(g: Game, input: Input, rng: Rng): (Game, Rng)
  {
    Applied(Noted(g, input), input.action, rng)
  }

  /** The inputs the server has not processed, applied in order on top of its snapshot. */
  function Replayed(g: Game, inputs: seq<Input>, rng: Rng): (Game, Rng)
  {
    if inputs == [] then (g, rng)
    else
      var (g', rng') := Replayed(g, inputs[..|inputs| - 1], rng);
      var input := inputs[|inputs| - 1];
      if input.seqNo <= g.processedSeq then (g', rng')
      else Obeyed(g', input, rng')
  }

  function NewGame(rng: Rng): (Game, Rng)
  {
    var first := Drawn([], rng);
    var second := Drawn(first.bag, first.rng);
    (Game(EmptyBoard(), first.kind, second.kind, 0, SpawnX(first.kind), 0, 0, 0, 0, second.bag, Join, 0, 0), second.rng)
  }
}
