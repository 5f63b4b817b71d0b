/** What every command keeps: the piece fits, no row is full, and a long queue is known (examples/tetris/game.ts). */
module TetrisSafety {
  import opened Pieces
  import opened Tetris
  import opened TetrisBoard

  /** The pieces still queued when none is being drawn. */
  const QUEUED: nat := PREDICTION_QUEUE_SIZE - 1

  ghost predicate Legal(g: Game)
  {
    && Colours(g.board) && NoFullRow(g.board)
    && Placed(g) && 0 <= g.y && 0 <= g.rotation < 4
    && |g.bag| >= QUEUED
  }

  lemma ActiveCells(g: Game)
    requires Placed(g) && 0 <= g.y
    ensures var cells := PieceCells(g.piece, g.rotation, g.x, g.y);
            && |cells| == 4 && AllInWell(cells) && Distinct(cells)
            && (forall i :: 0 <= i < 4 ==> CellFree(g.board, cells[i]))
            && (forall i :: 0 <= i < 4 ==> g.y <= cells[i].y < g.y + 4)
  {
    var cells := PieceCells(g.piece, g.rotation, g.x, g.y);
    PieceShape(g.piece, g.rotation, g.x, g.y);
    FitsEach(g.board, cells, 4);
    forall i | 0 <= i < 4 ensures InWell(cells[i]) {
      assert CellFree(g.board, cells[i]);
    }
  }

  lemma {:induction false} SettledColours(board: Board, cells: seq<Cell>, kind: PieceKind)
    requires Colours(board)
    ensures Colours(Settle(board, cells, PieceValue(kind)))
  {
    if cells != [] {
      SettledColours(board, cells[..|cells| - 1], kind);
    }
  }

  /** On an empty board every piece can appear. */
  lemma EmptyBoardTakesAnyPiece(kind: PieceKind)
    ensures CanPlace(EmptyBoard(), kind, 0, SpawnX(kind), 0)
  {
    PieceShape(kind, 0, SpawnX(kind), 0);
    WidthIsRightmost(kind);
    var cells := PieceCells(kind, 0, SpawnX(kind), 0);
    forall i | 0 <= i < |cells| ensures CellFree(EmptyBoard(), cells[i]) {
      assert TurnedBy(BaseCells(kind), 0) == BaseCells(kind);
      assert cells[i].x == BaseCells(kind)[i].x + SpawnX(kind);
    }
    FitsEach(EmptyBoard(), cells, 4);
  }

  /** What one lock does: the ledger of cells, lines, score and lives. */
  lemma LockLedger(g: Game, rng: Rng)
    requires Legal(g)
    ensures var (g', _, died) := Lock(g, rng); var cleared := ClearedRows(Settled(g));
            && cleared <= 4
            && (!died ==>
                  && Count(g'.board) == Count(g.board) + 4 - BOARD_WIDTH * cleared
                  && g'.lines == g.lines + cleared && g'.score == g.score + [0, 100, 300, 500, 800][cleared]
                  && g'.deaths == g.deaths && g'.piece == g.next)
            && (died ==> Count(g'.board) == 0 && g'.lines == 0 && g'.score == 0 && g'.deaths == g.deaths + 1)
  {
    var cells := PieceCells(g.piece, g.rotation, g.x, g.y);
    ActiveCells(g);
    SettleCount(g.board, cells, PieceValue(g.piece));
    ClearedCount(Settled(g));
    PieceClearsAtMostFour(g.board, cells, PieceValue(g.piece), g.y);
    CountExtremes(EmptyBoard());
  }

  lemma ScoredIsClean(g: Game)
    requires Legal(g)
    ensures Colours(Scored(g).board) && NoFullRow(Scored(g).board)
  {
    SettledColours(g.board, PieceCells(g.piece, g.rotation, g.x, g.y), g.piece);
    ClearedColours(Settled(g));
    ClearedHasNoFullRow(Settled(g));
  }

  lemma SpawnIsLegal(g: Game, rng: Rng)
    requires Colours(g.board) && NoFullRow(g.board)
    ensures Legal(SpawnNext(g, rng).0)
  {
    var entered := Entered(g, Drawn(g.bag, rng));
    EmptyBoardHasNoFullRow();
    EmptyBoardTakesAnyPiece(Drawn(entered.bag, Drawn(g.bag, rng).rng).kind);
  }

  lemma LockKeepsLegal(g: Game, rng: Rng)
    requires Legal(g)
    ensures Legal(Lock(g, rng).0)
  {
    ScoredIsClean(g);
    SpawnIsLegal(Scored(g), rng);
  }

  /** A hard drop ends where the piece cannot fall further... */
  lemma {:induction false} LandsOnSomething(board: Board, kind: PieceKind, rotation: int, x: int, y: int)
    ensures y <= LandingY(board, kind, rotation, x, y)
    ensures !CanPlace(board, kind, rotation, x, LandingY(board, kind, rotation, x, y) + 1)
    decreases if y < BOARD_HEIGHT then BOARD_HEIGHT - y else 0
  {
    if CanPlace(board, kind, rotation, x, y + 1) {
      PlacedAboveFloor(board, kind, rotation, x, y + 1);
      LandsOnSomething(board, kind, rotation, x, y + 1);
    }
  }

  /** ...after passing through free rows only. */
  lemma {:induction false} FallsThroughFreeRows(board: Board, kind: PieceKind, rotation: int, x: int, y: int, h: int)
    requires y < h <= LandingY(board, kind, rotation, x, y)
    ensures CanPlace(board, kind, rotation, x, h)
    decreases h - y
  {
    if h > y + 1 {
      FallsThroughFreeRows(board, kind, rotation, x, y + 1, h);
    }
  }

  lemma KickTaken(g: Game, rotation: int, kicks: seq<int>, x: int)
    requires kicks != [] && x == g.x + kicks[0] && CanPlace(g.board, g.piece, rotation, x, g.y)
    ensures Kicked(g, rotation, kicks) == (g.(rotation := rotation, x := x), true)
  {
  }

  lemma KickSkipped(g: Game, rotation: int, kicks: seq<int>, x: int)
    requires kicks != [] && x == g.x + kicks[0] && !CanPlace(g.board, g.piece, rotation, x, g.y)
    ensures Kicked(g, rotation, kicks) == Kicked(g, rotation, kicks[1..])
  {
  }

  /** A turn is by the first kick that fits, if one does: kick `j`, which puts the piece at `x`. */
  lemma {:induction false} KickIsFirstFit(g: Game, rotation: int, kicks: seq<int>, i: nat, at: int) returns (j: nat, x: int)
    requires i < |kicks| && at == g.x + kicks[i] && CanPlace(g.board, g.piece, rotation, at, g.y)
    ensures j <= i && x == g.x + kicks[j] && Kicked(g, rotation, kicks) == (g.(rotation := rotation, x := x), true)
  {
    j, x := 0, g.x + kicks[0];
    if CanPlace(g.board, g.piece, rotation, x, g.y) {
      KickTaken(g, rotation, kicks, x);
    } else {
      var rest, k := kicks[1..], 0;
      KickSkipped(g, rotation, kicks, x);
      k, x := KickIsFirstFit(g, rotation, rest, i - 1, at);
      j := k + 1;
    }
  }

  /** A step to one side, where it is possible, is undone by a step to the other. */
  lemma SidestepsUndo(g: Game, rng: Rng)
    requires Legal(g)
    ensures Changes(g, Left) ==> Applied(g, Left, rng).0.x == g.x - 1 && Applied(Applied(g, Left, rng).0, Right, rng).0 == g
    ensures Changes(g, Right) ==> Applied(g, Right, rng).0.x == g.x + 1 && Applied(Applied(g, Right, rng).0, Left, rng).0 == g
  {
    var left, right := Moved(g, -1, 0).0, Moved(g, 1, 0).0;
    if Changes(g, Left) {
      assert left == g.(x := g.x - 1) && Moved(left, 1, 0).0 == g;
    }
    if Changes(g, Right) {
      assert right == g.(x := g.x + 1) && Moved(right, -1, 0).0 == g;
    }
  }

  lemma DropKeepsLegal(g: Game, rng: Rng)
    requires Legal(g)
    ensures Legal(Dropped(g, rng).0)
  {
    LockKeepsLegal(g, rng);
  }

  lemma LandedIsLegal(g: Game)
    requires Legal(g)
    ensures Legal(Landed(g))
  {
    var low := LandingY(g.board, g.piece, g.rotation, g.x, g.y);
    LandsOnSomething(g.board, g.piece, g.rotation, g.x, g.y);
    if low > g.y {
      FallsThroughFreeRows(g.board, g.piece, g.rotation, g.x, g.y, low);
    }
  }

  lemma TurnedRotation(rotation: int, direction: int)
    requires 0 <= rotation < 4 && (direction == 1 || direction == -1)
    ensures 0 <= Remainder(rotation + direction + 4, 4) < 4
  {
  }

  lemma TurnKeepsLegal(g: Game, direction: int)
    requires Legal(g) && (direction == 1 || direction == -1)
    ensures Legal(Rotated(g, direction).0)
  {
    TurnedRotation(g.rotation, direction);
    ghost var rotation := Remainder(g.rotation + direction + 4, 4);
    var turned := Kicked(g, rotation, KICKS);
    assert Rotated(g, direction) == turned;
  }

  lemma InputKeepsLegal(g: Game, action: Action, rng: Rng)
    requires Legal(g)
    ensures Legal(Applied(g, action, rng).0)
  {
    match action
    case RotateCw => TurnKeepsLegal(g, 1);
    case RotateCcw => TurnKeepsLegal(g, -1);
    case SoftDrop => DropKeepsLegal(g, rng);
    case HardDrop =>
      LandedIsLegal(g);
      LockKeepsLegal(Landed(g), rng);
    case _ =>
  }

  lemma NewGameIsLegal(rng: Rng)
    ensures Legal(NewGame(rng).0)
  {
    EmptyBoardHasNoFullRow();
    EmptyBoardTakesAnyPiece(NewGame(rng).0.piece);
  }

  // ---- Bags

  ghost predicate Picks(picks: seq<nat>)
  {
    |picks| == 6 && forall k :: 0 <= k < 6 ==> picks[k] <= k + 1
  }

  lemma {:induction false} ShuffleKeepsPieces(bag: Bag, i: nat, picks: seq<nat>)
    requires Picks(picks) && i < 7
    ensures multiset(Shuffle(bag, i, picks)) == multiset(bag)
    decreases i
  {
    if i > 0 {
      var j := picks[i - 1];
      assert multiset(Swapped(bag, i, j)) == multiset(bag);
      ShuffleKeepsPieces(Swapped(bag, i, j), i - 1, picks);
    }
  }

  /** A refill is fair: every ordering of the pieces comes out of some picks... */
  lemma {:induction false} ShuffleReaches(bag: Bag, i: nat, goal: Bag) returns (picks: seq<nat>)
    requires i < 7 && multiset(bag) == multiset(goal) && bag[i + 1..] == goal[i + 1..]
    ensures |picks| == i && (forall k :: 0 <= k < i ==> picks[k] <= k + 1)
    ensures Shuffle(bag, i, picks) == goal
    decreases i
  {
    if i == 0 {
      picks := [];
      OnePlaceLeft(bag, goal);
    } else {
      var j := Find(bag, i, goal);
      var next := Swapped(bag, i, j);
      assert multiset(next) == multiset(bag);
      SwapSettles(bag, i, j, goal);
      var rest := ShuffleReaches(next, i - 1, goal);
      picks := rest + [j];
      ShuffleReadsFirst(next, i - 1, rest, picks);
    }
  }

  lemma SwapSettles(bag: Bag, i: nat, j: nat, goal: Bag)
    requires j <= i < 7 && bag[j] == goal[i] && bag[i + 1..] == goal[i + 1..]
    ensures Swapped(bag, i, j)[i..] == goal[i..]
  {
    forall k | i < k < 7 ensures Swapped(bag, i, j)[k] == goal[k] {
      assert bag[i + 1..][k - i - 1] == goal[i + 1..][k - i - 1];
    }
  }

  lemma OnePlaceLeft(bag: Bag, goal: Bag)
    requires multiset(bag) == multiset(goal) && bag[1..] == goal[1..]
    ensures bag == goal
  {
    assert bag == [bag[0]] + bag[1..] && goal == [goal[0]] + goal[1..];
    assert multiset([bag[0]]) == multiset(bag) - multiset(bag[1..]);
    assert multiset([goal[0]]) == multiset(goal) - multiset(goal[1..]);
    assert bag[0] in multiset([goal[0]]);
  }

  lemma Find(bag: Bag, i: nat, goal: Bag) returns (j: nat)
    requires i < 7 && multiset(bag) == multiset(goal) && bag[i + 1..] == goal[i + 1..]
    ensures j <= i && bag[j] == goal[i]
  {
    var a, b, tail := bag[..i + 1], goal[..i + 1], bag[i + 1..];
    assert bag == a + tail;
    assert goal == b + tail;
    assert multiset(a + tail) == multiset(b + tail);
    forall kind: PieceKind ensures multiset(a)[kind] == multiset(b)[kind] {
      assert multiset(a + tail)[kind] == multiset(b + tail)[kind];
    }
    assert b[i] in multiset(b);
    assert b[i] in a;
    j :| 0 <= j < i + 1 && a[j] == b[i];
  }

  lemma {:induction false} ShuffleReadsFirst(bag: Bag, i: nat, picks: seq<nat>, more: seq<nat>)
    requires i < 7 && i <= |picks| <= |more| && (forall k :: 0 <= k < i ==> picks[k] <= k + 1 && more[k] == picks[k])
    ensures Shuffle(bag, i, more) == Shuffle(bag, i, picks)
    decreases i
  {
    if i > 0 {
      ShuffleReadsFirst(Swapped(bag, i, picks[i - 1]), i - 1, picks, more);
    }
  }

  /** ...and nothing else does: the orderings of the seven kinds are exactly the refills. */
  lemma RefillsAreTheOrderings(bag: Bag)
    ensures multiset(bag) == multiset(PIECE_KINDS) <==> exists picks :: Picks(picks) && Shuffle(PIECE_KINDS, 6, picks) == bag
  {
    if multiset(bag) == multiset(PIECE_KINDS) {
      var picks := ShuffleReaches(PIECE_KINDS, 6, bag);
      assert Picks(picks);
    }
    if picks :| Picks(picks) && Shuffle(PIECE_KINDS, 6, picks) == bag {
      ShuffleKeepsPieces(PIECE_KINDS, 6, picks);
    }
  }
}
