/** What a client may predict before the server answers (examples/tetris/game.ts). */
module TetrisPrediction {
  import opened Pieces
  import opened Tetris
  import opened TetrisSafety
  import opened TetrisTime

  lemma {:induction false} FilledKeepsQueue(bag: seq<PieceKind>, rng: Rng)
    ensures Filled(bag, rng).0[..|bag|] == bag
    decreases PREDICTION_QUEUE_SIZE - |bag|
  {
    if |bag| < PREDICTION_QUEUE_SIZE {
      var more := rng.refill(rng.used);
      FilledKeepsQueue(bag + more, rng.(used := rng.used + 1));
      PrefixOfPrefix(Filled(bag, rng).0, bag, more);
    }
  }

  lemma PrefixOfPrefix(s: seq<PieceKind>, a: seq<PieceKind>, b: seq<PieceKind>)
    requires |a| + |b| <= |s| && s[..|a + b|] == a + b
    ensures s[..|a|] == a
  {
    assert s[..|a|] == (a + b)[..|a|];
  }

  /** The same game, with the next `k` pieces agreed on. */
  ghost predicate Agree(g: Game, h: Game, k: nat)
  {
    && g.(bag := []) == h.(bag := [])
    && SameQueue(g.bag, h.bag, k)
  }

  ghost predicate SameQueue(a: seq<PieceKind>, b: seq<PieceKind>, k: nat)
  {
    k <= |a| && k <= |b| && a[..k] == b[..k]
  }

  lemma DrawnAlike(a: seq<PieceKind>, b: seq<PieceKind>, k: nat, r1: Rng, r2: Rng)
    requires k > 0 && SameQueue(a, b, k)
    ensures Drawn(a, r1).kind == Drawn(b, r2).kind
    ensures SameQueue(Drawn(a, r1).bag, Drawn(b, r2).bag, k - 1)
  {
    FilledKeepsQueue(a, r1);
    FilledKeepsQueue(b, r2);
    TailAlike(Filled(a, r1).0, Filled(b, r2).0, a, b, k);
  }

  lemma TailAlike(s: seq<PieceKind>, t: seq<PieceKind>, a: seq<PieceKind>, b: seq<PieceKind>, k: nat)
    requires 0 < k <= |a| <= |s| && k <= |b| <= |t| && s[..|a|] == a && t[..|b|] == b && a[..k] == b[..k]
    ensures s[0] == t[0] && SameQueue(s[1..], t[1..], k - 1)
  {
    forall i | 0 <= i < k ensures s[i] == t[i] {
      assert s[..|a|][i] == a[..k][i] == b[..k][i] == t[..|b|][i];
    }
  }

  /** Whether settling the piece would block the next one. */
  predicate Dies(g: Game)
  {
    !CanPlace(Scored(g).board, g.next, 0, SpawnX(g.next), 0)
  }

  function LockDraws(g: Game): nat
  {
    if Dies(g) then 3 else 1
  }

  /** The pieces a command takes from the queue. */
  function Draws(g: Game, action: Action): nat
  {
    match action
    case SoftDrop => if Moved(g, 0, 1).1 then 0 else LockDraws(g)
    case HardDrop => LockDraws(Landed(g))
    case _ => 0
  }

  function ReplayDraws(g: Game, inputs: seq<Input>, rng: Rng): nat
  {
    if inputs == [] then 0
    else
      var input, front := inputs[|inputs| - 1], inputs[..|inputs| - 1];
      ReplayDraws(g, front, rng)
        + if input.seqNo <= g.processedSeq then 0 else Draws(Noted(Replayed(g, front, rng).0, input), input.action)
  }

  /** Up to the spawn, two agreeing games stay alike, and they die together. */
  lemma EnteredAlike(g: Game, h: Game, k: nat, r1: Rng, r2: Rng)
    requires Agree(g, h, k) && k > 0
    ensures var s, t := Scored(g), Scored(h);
            && Agree(Entered(s, Drawn(s.bag, r1)), Entered(t, Drawn(t.bag, r2)), k - 1)
            && Placed(Entered(s, Drawn(s.bag, r1))) == Placed(Entered(t, Drawn(t.bag, r2))) == !Dies(g)
            && Dies(h) == Dies(g)
  {
    DrawnAlike(g.bag, h.bag, k, r1, r2);
    assert g.board == g.(bag := []).board == h.board;
  }

  lemma ResetAlike(g: Game, h: Game, k: nat, r1: Rng, r2: Rng)
    requires Agree(g, h, k) && k >= 2
    ensures Agree(ResetAfterDeath(g, r1).0, ResetAfterDeath(h, r2).0, k - 2)
  {
    var d1, d2 := Drawn(g.bag, r1), Drawn(h.bag, r2);
    DrawnAlike(g.bag, h.bag, k, r1, r2);
    DrawnAlike(d1.bag, d2.bag, k - 1, d1.rng, d2.rng);
  }

  lemma LockAlike(g: Game, h: Game, k: nat, left: nat, r1: Rng, r2: Rng)
    requires Agree(g, h, k) && k == left + LockDraws(g)
    ensures LockDraws(h) == LockDraws(g)
    ensures Agree(Lock(g, r1).0, Lock(h, r2).0, left)
    ensures Lock(g, r1).2 == Lock(h, r2).2 == Dies(g)
  {
    var s, t := Scored(g), Scored(h);
    var d1, d2 := Drawn(s.bag, r1), Drawn(t.bag, r2);
    EnteredAlike(g, h, k, r1, r2);
    if Dies(g) {
      ResetAlike(Entered(s, d1), Entered(t, d2), k - 1, d1.rng, d2.rng);
    }
  }

  lemma {:induction false} KickAlike(g: Game, h: Game, k: nat, rotation: int, kicks: seq<int>)
    requires Agree(g, h, k)
    ensures Agree(Kicked(g, rotation, kicks).0, Kicked(h, rotation, kicks).0, k)
  {
    if kicks != [] {
      KickAlike(g, h, k, rotation, kicks[1..]);
    }
  }

  lemma TurnAlike(g: Game, h: Game, k: nat, direction: int)
    requires Agree(g, h, k)
    ensures Agree(Rotated(g, direction).0, Rotated(h, direction).0, k)
  {
    assert g.rotation == g.(bag := []).rotation == h.rotation;
    KickAlike(g, h, k, Remainder(g.rotation + direction + 4, 4), KICKS);
  }

  lemma MoveAlike(g: Game, h: Game, k: nat, dx: int, dy: int)
    requires Agree(g, h, k)
    ensures Moved(g, dx, dy).1 == Moved(h, dx, dy).1 && Agree(Moved(g, dx, dy).0, Moved(h, dx, dy).0, k)
  {
    assert Moved(g, dx, dy).0.(bag := []) == Moved(g.(bag := []), dx, dy).0;
    assert Moved(h, dx, dy).0.(bag := []) == Moved(h.(bag := []), dx, dy).0;
  }

  lemma SoftDropAlike(g: Game, h: Game, k: nat, left: nat, r1: Rng, r2: Rng)
    requires Agree(g, h, k) && k == left + Draws(g, SoftDrop)
    ensures Agree(Dropped(g, r1).0, Dropped(h, r2).0, left)
  {
    MoveAlike(g, h, k, 0, 1);
    if Moved(g, 0, 1).1 {
      assert Dropped(g, r1).0 == Moved(g, 0, 1).0 && Dropped(h, r2).0 == Moved(h, 0, 1).0;
    } else {
      LockAlike(g, h, k, left, r1, r2);
    }
  }

  lemma HardDropAlike(g: Game, h: Game, k: nat, left: nat, r1: Rng, r2: Rng)
    requires Agree(g, h, k) && k == left + LockDraws(Landed(g))
    ensures Agree(Lock(Landed(g), r1).0, Lock(Landed(h), r2).0, left)
  {
    assert Landed(g).(bag := []) == Landed(g.(bag := [])) == Landed(h.(bag := [])) == Landed(h).(bag := []);
    LockAlike(Landed(g), Landed(h), k, left, r1, r2);
  }

  /** A command keeps games alike, and uses up what it draws of the pieces agreed on. */
  lemma InputAlike(g: Game, h: Game, k: nat, left: nat, action: Action, r1: Rng, r2: Rng)
    requires Agree(g, h, k) && k == left + Draws(g, action)
    ensures Agree(Applied(g, action, r1).0, Applied(h, action, r2).0, left)
  {
    match action
    case RotateCw => TurnAlike(g, h, k, 1);
    case RotateCcw => TurnAlike(g, h, k, -1);
    case SoftDrop => SoftDropAlike(g, h, k, left, r1, r2);
    case HardDrop => HardDropAlike(g, h, k, left, r1, r2);
    case Left => MoveAlike(g, h, k, -1, 0);
    case Right => MoveAlike(g, h, k, 1, 0);
    case _ =>
  }

  lemma ObeyAlike(g: Game, h: Game, k: nat, left: nat, input: Input, r1: Rng, r2: Rng)
    requires Agree(g, h, k) && k == left + Draws(Noted(g, input), input.action)
    ensures Agree(Obeyed(g, input, r1).0, Obeyed(h, input, r2).0, left)
  {
    assert Noted(g, input).(bag := []) == Noted(g.(bag := []), input) == Noted(h, input).(bag := []);
    InputAlike(Noted(g, input), Noted(h, input), k, left, input.action, r1, r2);
  }

  /** As long as the known queue lasts, a replay does not depend on the source of randomness. */
  lemma {:induction false} ReplayAlike(g: Game, inputs: seq<Input>, left: nat, r1: Rng, r2: Rng)
    requires left + ReplayDraws(g, inputs, r1) <= |g.bag|
    ensures Agree(Replayed(g, inputs, r1).0, Replayed(g, inputs, r2).0, left)
  {
    if inputs != [] {
      var front, input := inputs[..|inputs| - 1], inputs[|inputs| - 1];
      var one, two := Replayed(g, front, r1), Replayed(g, front, r2);
      if input.seqNo > g.processedSeq {
        var k := left + Draws(Noted(one.0, input), input.action);
        ReplayAlike(g, front, k, r1, r2);
        ObeyAlike(one.0, two.0, k, left, input, one.1, two.1);
        assert Replayed(g, inputs, r1) == Obeyed(one.0, input, one.1);
        assert Replayed(g, inputs, r2) == Obeyed(two.0, input, two.1);
      } else {
        ReplayAlike(g, front, left, r1, r2);
        assert Replayed(g, inputs, r1) == one && Replayed(g, inputs, r2) == two;
      }
    }
  }

  // ---- The count of processed inputs plays no part in the rules

  lemma LockIgnoresCount(g: Game, n: int, rng: Rng)
    ensures Lock(Counted(g, n), rng).0 == Counted(Lock(g, rng).0, n) && Lock(Counted(g, n), rng).1 == Lock(g, rng).1
  {
    var s, d := Scored(g), Drawn(g.bag, rng);
    assert Scored(Counted(g, n)) == Counted(s, n);
    assert Entered(Counted(s, n), d) == Counted(Entered(s, d), n);
    assert ResetAfterDeath(Counted(Entered(s, d), n), d.rng).0 == Counted(ResetAfterDeath(Entered(s, d), d.rng).0, n);
  }

  lemma {:induction false} KickIgnoresCount(g: Game, n: int, rotation: int, kicks: seq<int>)
    ensures Kicked(Counted(g, n), rotation, kicks).0 == Counted(Kicked(g, rotation, kicks).0, n)
  {
    if kicks != [] {
      KickIgnoresCount(g, n, rotation, kicks[1..]);
    }
  }

  lemma TurnIgnoresCount(g: Game, n: int, direction: int)
    ensures Rotated(Counted(g, n), direction).0 == Counted(Rotated(g, direction).0, n)
  {
    KickIgnoresCount(g, n, Remainder(g.rotation + direction + 4, 4), KICKS);
  }

  lemma MoveIgnoresCount(g: Game, n: int, dx: int, dy: int)
    ensures Moved(Counted(g, n), dx, dy) == (Counted(Moved(g, dx, dy).0, n), Moved(g, dx, dy).1)
  {
  }

  lemma InputIgnoresCount(g: Game, n: int, action: Action, rng: Rng)
    ensures Applied(Counted(g, n), action, rng).0 == Counted(Applied(g, action, rng).0, n)
    ensures Applied(Counted(g, n), action, rng).1 == Applied(g, action, rng).1
  {
    match action
    case Left => MoveIgnoresCount(g, n, -1, 0);
    case Right => MoveIgnoresCount(g, n, 1, 0);
    case RotateCw => TurnIgnoresCount(g, n, 1);
    case RotateCcw => TurnIgnoresCount(g, n, -1);
    case SoftDrop =>
      MoveIgnoresCount(g, n, 0, 1);
      LockIgnoresCount(g, n, rng);
    case HardDrop =>
      assert Landed(Counted(g, n)) == Counted(Landed(g), n);
      LockIgnoresCount(Landed(g), n, rng);
    case _ =>
  }

  lemma ObeyIgnoresCount(g: Game, n: int, input: Input, rng: Rng)
    ensures Obeyed(Counted(g, n), input, rng).0 == Counted(Obeyed(g, input, rng).0, n)
    ensures Obeyed(Counted(g, n), input, rng).1 == Obeyed(g, input, rng).1
  {
    assert Noted(Counted(g, n), input) == Counted(Noted(g, input), n);
    InputIgnoresCount(Noted(g, input), n, input.action, rng);
  }

  // ---- The server's own steps

  /** The server takes the inputs one by one, each against the count it has reached. */
  function ServedAll(g: Game, inputs: seq<Input>, rng: Rng): (Game, Rng)
  {
    if inputs == [] then (g, rng)
    else
      var before := ServedAll(g, inputs[..|inputs| - 1], rng);
      Served(before.0, inputs[|inputs| - 1], before.1)
  }

  /** A client numbers its inputs upwards. */
  ghost predicate Numbered(inputs: seq<Input>)
  {
    forall i, j :: 0 <= i < j < |inputs| ==> inputs[i].seqNo < inputs[j].seqNo
  }

  /** The count after some inputs: the last one's number, if that was new. */
  function CountAfter(g: Game, inputs: seq<Input>): int
  {
    if inputs == [] || inputs[|inputs| - 1].seqNo <= g.processedSeq then g.processedSeq else inputs[|inputs| - 1].seqNo
  }

  /** With the same randomness, the server's steps are the client's replay, and count what it replays. */
  lemma {:induction false} ServingIsReplaying(g: Game, inputs: seq<Input>, rng: Rng)
    requires Numbered(inputs)
    ensures ServedAll(g, inputs, rng).0 == Counted(Replayed(g, inputs, rng).0, CountAfter(g, inputs))
    ensures ServedAll(g, inputs, rng).1 == Replayed(g, inputs, rng).1
    ensures Replayed(g, inputs, rng).0.processedSeq == g.processedSeq
  {
    if inputs != [] {
      var front, input := inputs[..|inputs| - 1], inputs[|inputs| - 1];
      var mine, before, n := Replayed(g, front, rng), ServedAll(g, front, rng), CountAfter(g, front);
      ServingIsReplaying(g, front, rng);
      assert front != [] ==> front[|front| - 1].seqNo < input.seqNo;
      assert input.seqNo > before.0.processedSeq <==> input.seqNo > g.processedSeq;
      if input.seqNo > g.processedSeq {
        assert Counted(before.0, input.seqNo) == Counted(mine.0, input.seqNo);
        ObeyIgnoresCount(mine.0, input.seqNo, input, mine.1);
        ObeyIgnoresCount(mine.0, mine.0.processedSeq, input, mine.1);
        assert Counted(mine.0, mine.0.processedSeq) == mine.0;
        assert Replayed(g, inputs, rng) == Obeyed(mine.0, input, mine.1);
      } else {
        assert Replayed(g, inputs, rng) == mine;
      }
    }
  }

  function Keys(inputs: seq<Input>): seq<Event>
  {
    seq(|inputs|, i requires 0 <= i < |inputs| => Key(inputs[i]))
  }

  /** Key events after others are the server's steps from the game reached. */
  lemma {:induction false} PlayedKeys(events: seq<Event>, inputs: seq<Input>, gravity: Gravity, server: Rng,
                                      start: (Game, Clock, Rng), served: (Game, Rng))
    requires start == Played(events, gravity, server) && served == ServedAll(start.0, inputs, start.2)
    ensures Played(events + Keys(inputs), gravity, server) == (served.0, start.1, served.1)
  {
    var all := events + Keys(inputs);
    if inputs == [] {
      assert all == events;
    } else {
      var front, last := inputs[..|inputs| - 1], Key(inputs[|inputs| - 1]);
      var before := ServedAll(start.0, front, start.2);
      PlayedKeys(events, front, gravity, server, start, before);
      assert served == Served(before.0, inputs[|inputs| - 1], before.1);
      assert all == events + Keys(front) + [last];
      PlayedOneMore(events + Keys(front), last, gravity, server, (before.0, start.1, before.1));
    }
  }

  lemma PlayedOneMore(events: seq<Event>, last: Event, gravity: Gravity, server: Rng, before: (Game, Clock, Rng))
    requires before == Played(events, gravity, server)
    ensures Played(events + [last], gravity, server) == Happened(before.0, before.1, last, gravity, before.2)
  {
    assert (events + [last])[..|events|] == events;
  }

  /** The client's replay with any randomness against the server's steps with its own. */
  lemma ReplayPredicts(g: Game, inputs: seq<Input>, left: nat, client: Rng, server: Rng, predicted: Game, actual: Game)
    requires Numbered(inputs) && left + ReplayDraws(g, inputs, client) <= |g.bag|
    requires predicted == Replayed(g, inputs, client).0 && actual == ServedAll(g, inputs, server).0
    ensures Agree(Counted(predicted, actual.processedSeq), actual, left) && actual.processedSeq == CountAfter(g, inputs)
  {
    ReplayAlike(g, inputs, left, client, server);
    ServingIsReplaying(g, inputs, server);
    CountedAlike(predicted, Replayed(g, inputs, server).0, left, CountAfter(g, inputs));
  }

  /**
   * From any reachable game, the client's replay of its unprocessed inputs is what the server will have
   * once it processes them, but for the count of processed inputs and the unknown tail of the queue:
   * so long as the replay draws no more pieces than are queued, of which there are at least twenty.
   */
  lemma PredictionIsExact(events: seq<Event>, gravity: Gravity, server: Rng, inputs: seq<Input>, client: Rng, left: nat)
    requires Numbered(inputs)
    requires var g := Played(events, gravity, server).0; left + ReplayDraws(g, inputs, client) <= |g.bag|
    ensures |Played(events, gravity, server).0.bag| >= QUEUED
    ensures var g := Played(events, gravity, server).0; var predicted := Replayed(g, inputs, client).0;
            var actual := Played(events + Keys(inputs), gravity, server).0;
            Agree(Counted(predicted, actual.processedSeq), actual, left) && actual.processedSeq == CountAfter(g, inputs)
  {
    var start := Played(events, gravity, server);
    var served := ServedAll(start.0, inputs, start.2);
    EveryGameIsLegal(events, gravity, server);
    PlayedKeys(events, inputs, gravity, server, start, served);
    ReplayPredicts(start.0, inputs, left, client, start.2, Replayed(start.0, inputs, client).0, served.0);
  }

  lemma CountedAlike(g: Game, h: Game, k: nat, n: int)
    requires Agree(g, h, k)
    ensures Agree(Counted(g, n), Counted(h, n), k)
  {
    assert Counted(g, n).(bag := []) == Counted(g.(bag := []), n) == Counted(h, n).(bag := []);
  }

  /** A command draws at most three pieces, so six are always predicted exactly. */
  lemma {:induction false} ReplayDrawsFew(g: Game, inputs: seq<Input>, rng: Rng)
    ensures ReplayDraws(g, inputs, rng) <= 3 * |inputs|
  {
    if inputs != [] {
      ReplayDrawsFew(g, inputs[..|inputs| - 1], rng);
    }
  }

  lemma SixCommandsArePredicted(events: seq<Event>, gravity: Gravity, server: Rng, inputs: seq<Input>, client: Rng)
    requires Numbered(inputs) && |inputs| <= 6
    ensures var predicted := Replayed(Played(events, gravity, server).0, inputs, client).0;
            var actual := Played(events + Keys(inputs), gravity, server).0;
            Agree(Counted(predicted, actual.processedSeq), actual, QUEUED - 3 * |inputs|)
  {
    var g, left := Played(events, gravity, server).0, QUEUED - 3 * |inputs|;
    EveryGameIsLegal(events, gravity, server);
    ReplayDrawsFew(g, inputs, client);
    assert left + ReplayDraws(g, inputs, client) <= |g.bag|;
    PredictionIsExact(events, gravity, server, inputs, client, left);
  }
}
