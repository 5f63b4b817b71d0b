/** The player object the rules update in place (examples/tetris/game.ts). */
module TetrisPlayer {
  import opened Pieces
  import opened Tetris
  import opened TetrisTime

  /** One refill; `picks[i - 1]` is what `Math.floor(random() * (i + 1))` gives for position `i`. */
  method RefillBag(picks: seq<nat>) returns (bag: Bag)
    requires |picks| == 6 && forall k :: 0 <= k < 6 ==> picks[k] <= k + 1
    ensures bag == Shuffle(PIECE_KINDS, 6, picks)
  {
    bag := PIECE_KINDS;
    var i := |bag| - 1;
    while i > 0
      invariant 0 <= i < |bag|
      invariant Shuffle(bag, i, picks) == Shuffle(PIECE_KINDS, 6, picks)
    {
      var j := picks[i - 1];
      bag := bag[i := bag[j]][j := bag[i]];
      i := i - 1;
    }
  }

  class PlayerClock {
    var fall: int
    var alive: int

    constructor ()
      ensures View() == Clock(0, 0)
    {
      fall, alive := 0, 0;
    }

    ghost function View(): Clock
      reads this
    {
      Clock(fall, alive)
    }
  }

  class Player {
    var board: Board
    var piece: PieceKind
    var next: PieceKind
    var rotation: int
    var x: int
    var y: int
    var score: int
    var lines: int
    var deaths: int
    var bag: seq<PieceKind>
    var action: Action
    var inputSeq: int
    var processedSeq: int

    ghost function View(): Game
      reads this
    {
      Game(board, piece, next, rotation, x, y, score, lines, deaths, bag, action, inputSeq, processedSeq)
    }

    constructor (rng0: Rng)
      ensures View() == NewGame(rng0).0
    {
      board, piece, next, rotation, x, y := EmptyBoard(), I, O, 0, 0, 0;
      score, lines, deaths, bag, action, inputSeq, processedSeq := 0, 0, 0, [], Join, 0, 0;
      new;
      var rng;
      piece, rng := TakePiece(rng0);
      next, rng := TakePiece(rng);
      x := SpawnX(piece);
    }

    /** Another player in the same state. */
    constructor Copy(other: Player)
      ensures View() == other.View()
    {
      board, piece, next, rotation, x, y := other.board, other.piece, other.next, other.rotation, other.x, other.y;
      score, lines, deaths, bag := other.score, other.lines, other.deaths, other.bag;
      action, inputSeq, processedSeq := other.action, other.inputSeq, other.processedSeq;
    }

    method TakePiece(rng0: Rng) returns (kind: PieceKind, rng: Rng)
      modifies this`bag
      ensures Draw(kind, bag, rng) == Drawn(old(bag), rng0)
    {
      rng := rng0;
      while |bag| < PREDICTION_QUEUE_SIZE
        invariant Filled(bag, rng) == Filled(old(bag), rng0)
        decreases PREDICTION_QUEUE_SIZE - |bag|
      {
        bag := bag + rng.refill(rng.used);
        rng := rng.(used := rng.used + 1);
      }
      kind := bag[0];
      bag := bag[1..];
    }

    method Fit(kind: PieceKind, r: int, x0: int, y0: int) returns (ok: bool)
      ensures ok == CanPlace(board, kind, r, x0, y0)
    {
      var cells := ComputePieceCells(kind, r, x0, y0);
      FitsEach(board, cells, |cells|);
      for i := 0 to |cells|
        invariant Fits(board, cells, i)
      {
        var c := cells[i];
        if c.x < 0 || c.x >= BOARD_WIDTH || c.y >= BOARD_HEIGHT {
          return false;
        }
        if c.y >= 0 && board[c.y * BOARD_WIDTH + c.x] != 0 {
          return false;
        }
      }
      return true;
    }

    method Landing() returns (r: int)
      ensures r == LandingY(board, piece, rotation, x, y)
    {
      r := y;
      var more := Fit(piece, rotation, x, r + 1);
      while more
        invariant more == CanPlace(board, piece, rotation, x, r + 1)
        invariant LandingY(board, piece, rotation, x, r) == LandingY(board, piece, rotation, x, y)
        decreases if r < BOARD_HEIGHT then BOARD_HEIGHT - r else 0, more
      {
        PlacedAboveFloor(board, piece, rotation, x, r + 1);
        r := r + 1;
        more := Fit(piece, rotation, x, r + 1);
      }
    }

    method ClearLines() returns (cleared: nat)
      modifies this`board
      ensures cleared == ClearedRows(old(board))
      ensures View() == old(View()).(board := ClearedBoard(old(board)))
    {
      var rows: seq<Row> := [];
      cleared := 0;
      for h := 0 to BOARD_HEIGHT
        invariant board == old(board)
        invariant rows == KeptRows(board, h) && cleared == h - |rows|
      {
        var row := board[h * BOARD_WIDTH..(h + 1) * BOARD_WIDTH];
        if 0 !in row {
          cleared := cleared + 1;
        } else {
          rows := rows + [row];
        }
      }
      ghost var kept := rows;
      while |rows| < BOARD_HEIGHT
        invariant |rows| <= BOARD_HEIGHT && Padded(rows) == Padded(kept)
        decreases BOARD_HEIGHT - |rows|
      {
        rows := [EMPTY_ROW] + rows;
      }
      board := Flat(rows);
    }

    method ResetToFreshRun(rng0: Rng) returns (rng: Rng)
      modifies this
      ensures (View(), rng) == ResetAfterDeath(old(View()), rng0)
    {
      board := EmptyBoard();
      score := 0;
      lines := 0;
      deaths := deaths + 1;
      piece, rng := TakePiece(rng0);
      next, rng := TakePiece(rng);
      rotation := 0;
      x := SpawnX(piece);
      y := 0;
    }

    /** The queued piece takes the field. */
    method Enter(rng0: Rng) returns (rng: Rng)
      modifies this
      ensures View() == Entered(old(View()), Drawn(old(bag), rng0))
      ensures rng == Drawn(old(bag), rng0).rng
    {
      piece := next;
      next, rng := TakePiece(rng0);
      rotation := 0;
      x := SpawnX(piece);
      y := 0;
    }

    method Spawn(rng0: Rng) returns (died: bool, rng: Rng)
      modifies this
      ensures (View(), rng, died) == SpawnNext(old(View()), rng0)
    {
      rng := Enter(rng0);
      var free := Fit(piece, rotation, x, y);
      if !free {
        rng := ResetToFreshRun(rng);
      }
      died := !free;
    }

    /** Write the active piece into the board. */
    method Stamp()
      modifies this`board
      ensures board == Settled(old(View()))
    {
      var value := PieceValue(piece);
      var cells := ComputePieceCells(piece, rotation, x, y);
      for i := 0 to |cells|
        invariant board == Settle(old(board), cells[..i], value)
      {
        assert cells[..i + 1][..i] == cells[..i];
        var at := cells[i].y * BOARD_WIDTH + cells[i].x;
        if cells[i].y >= 0 && 0 <= at < |board| {
          board := board[at := value];
        }
      }
      assert cells[..|cells|] == cells;
    }

    method LockPiece(rng0: Rng) returns (died: bool, rng: Rng)
      modifies this
      ensures (View(), rng, died) == Lock(old(View()), rng0)
    {
      Stamp();
      var cleared := ClearLines();
      lines := lines + cleared;
      score := score + PointsFor(cleared);
      assert View() == Scored(old(View()));
      died, rng := Spawn(rng0);
    }

    method Move(dx: int, dy: int) returns (moved: bool)
      modifies this
      ensures View() == Moved(old(View()), dx, dy).0 && moved == Moved(old(View()), dx, dy).1
    {
      var toX, toY := x + dx, y + dy;
      moved := Fit(piece, rotation, toX, toY);
      if moved {
        x := toX;
        y := toY;
      }
      assert View() == if moved then old(View()).(x := toX, y := toY) else old(View());
    }

    /** Turn the piece, shifted by the first kick that fits. */
    method Kick(nextRotation: int, kicks: seq<int>) returns (turned: bool)
      modifies this`rotation, this`x
      ensures (View(), turned) == Kicked(old(View()), nextRotation, kicks)
    {
      ghost var g := View();
      ghost var goal := Kicked(g, nextRotation, kicks);
      assert kicks[0..] == kicks;
      for i := 0 to |kicks|
        invariant View() == g
        invariant goal == Kicked(g, nextRotation, kicks[i..])
      {
        assert kicks[i..][0] == kicks[i] && kicks[i..][1..] == kicks[i + 1..];
        var free := Fit(piece, nextRotation, x + kicks[i], y);
        if free {
          rotation := nextRotation;
          x := x + kicks[i];
          return true;
        }
      }
      assert kicks[|kicks|..] == [];
      return false;
    }

    method Rotate(direction: int) returns (turned: bool)
      modifies this
      ensures (View(), turned) == Rotated(old(View()), direction)
    {
      ghost var g := View();
      var nextRotation := Remainder(rotation + direction + 4, 4);
      turned := Kick(nextRotation, KICKS);
      assert Rotated(g, direction) == Kicked(g, nextRotation, KICKS);
    }

    method Drop(rng0: Rng) returns (rng: Rng)
      modifies this
      ensures (View(), rng) == Dropped(old(View()), rng0)
    {
      rng := rng0;
      var moved := Move(0, 1);
      if !moved {
        var died;
        died, rng := LockPiece(rng0);
      }
    }

    method ApplyInput(command: Action, rng0: Rng) returns (changed: bool, rng: Rng)
      modifies this
      ensures (View(), rng) == Applied(old(View()), command, rng0)
      ensures changed == Changes(old(View()), command)
    {
      rng := rng0;
      match command
      case Left => changed := Move(-1, 0);
      case Right => changed := Move(1, 0);
      case RotateCw => changed := Rotate(1);
      case RotateCcw => changed := Rotate(-1);
      case SoftDrop =>
        rng := Drop(rng0);
        changed := true;
      case HardDrop =>
        y := Landing();
        var died;
        died, rng := LockPiece(rng0);
        changed := true;
      case Join => changed := false;
      case Heartbeat => changed := false;
    }

    method PaySurvival(clock: PlayerClock, elapsed: int) returns (paid: bool)
      modifies this`score, clock`alive
      ensures (View(), clock.alive) == Survived(old(View()), old(clock.alive) + elapsed)
    {
      clock.alive := clock.alive + elapsed;
      paid := false;
      while clock.alive >= 1000
        invariant Survived(View(), clock.alive) == Survived(old(View()), old(clock.alive) + elapsed)
      {
        clock.alive := clock.alive - 1000;
        score := score + LevelFor(lines);
        paid := true;
      }
    }

    /** One fall interval passes; `left` falls may follow on the way to `goal`. */
    method FallOnce(clock: PlayerClock, left: nat, gravity: Gravity, rng0: Rng, ghost goal: (Game, int, Rng)) returns (rng: Rng)
      requires clock.fall >= Interval(gravity, lines)
      requires Fallen(View(), clock.fall, left + 1, gravity, rng0) == goal
      modifies this, clock`fall
      ensures Fallen(View(), clock.fall, left, gravity, rng) == goal
    {
      clock.fall := clock.fall - Interval(gravity, lines);
      rng := Drop(rng0);
    }

    method Fall(clock: PlayerClock, elapsed: int, gravity: Gravity, rng0: Rng) returns (fell: bool, rng: Rng)
      modifies this, clock`fall
      ensures Fallen(old(View()), old(clock.fall) + elapsed, MAX_FALLS, gravity, rng0) == (View(), clock.fall, rng)
    {
      clock.fall := clock.fall + elapsed;
      rng, fell := rng0, false;
      var steps := MAX_FALLS;
      ghost var goal := Fallen(View(), clock.fall, steps, gravity, rng);
      while clock.fall >= Interval(gravity, lines) && steps > 0
        invariant Fallen(View(), clock.fall, steps, gravity, rng) == goal
        decreases steps
      {
        steps := steps - 1;
        rng := FallOnce(clock, steps, gravity, rng, goal);
        fell := true;
      }
    }

    /** Gravity and survival over `ms` milliseconds. */
    method Advance(clock: PlayerClock, ms: int, gravity: Gravity, rng0: Rng) returns (changed: bool, rng: Rng)
      modifies this, clock
      ensures (View(), clock.View(), rng) == Advanced(old(View()), old(clock.View()), ms, gravity, rng0)
    {
      var paid := PaySurvival(clock, Elapsed(ms));
      changed, rng := Fall(clock, Elapsed(ms), gravity, rng0);
      changed := paid || changed;
    }
  }

  /** The client's view at once: a copy of the server's snapshot with the unprocessed inputs applied. */
  method ReplayInputs(authoritative: Player, inputs: seq<Input>, rng0: Rng) returns (predicted: Player, rng: Rng)
    ensures fresh(predicted)
    ensures (predicted.View(), rng) == Replayed(authoritative.View(), inputs, rng0)
  {
    predicted := new Player.Copy(authoritative);
    rng := rng0;
    assert inputs[..|inputs|] == inputs;
    for i := 0 to |inputs|
      invariant predicted.View() == Replayed(authoritative.View(), inputs[..i], rng0).0
      invariant rng == Replayed(authoritative.View(), inputs[..i], rng0).1
    {
      assert inputs[..i + 1][..i] == inputs[..i];
      if inputs[i].seqNo <= authoritative.processedSeq {
        continue;
      }
      predicted.inputSeq := inputs[i].seqNo;
      predicted.action := inputs[i].action;
      var changed;
      changed, rng := predicted.ApplyInput(inputs[i].action, rng);
    }
  }
}
