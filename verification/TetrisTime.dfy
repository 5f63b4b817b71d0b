/** Gravity, survival points and whole games (examples/tetris/game.ts). */
module TetrisTime {
  import opened Tetris
  import opened TetrisSafety

  /** Fall time and alive time not yet spent. */
  datatype Clock = Clock(fall: int, alive: int)

  function LevelFor(lines: int): int
  {
    (if lines < 0 then 0 else lines) / 5 + 1
  }

  /** A fall interval in milliseconds for each line count. */
  type Gravity = int -> int

  function Interval(gravity: Gravity, lines: int): int
  {
    gravity(lines)
  }

  /** Pay a second's points for each whole second alive. */
  function Survived(g: Game, alive: int): (r: (Game, int))
    ensures r.1 < 1000
    decreases if alive < 0 then 0 else alive
  {
    if alive < 1000 then (g, alive)
    else Survived(g.(score := g.score + LevelFor(g.lines)), alive - 1000)
  }

  const MAX_FALLS: nat := 12

  /** Fall while the accumulated time lasts, at most `steps` rows. */
  function Fallen(g: Game, fall: int, steps: nat, gravity: Gravity, rng: Rng): (r: (Game, int, Rng))
    ensures Legal(g) ==> Legal(r.0)
    decreases steps
  {
    if fall < Interval(gravity, g.lines) || steps == 0 then (g, fall, rng)
    else
      var (g', rng') := Dropped(g, rng);
      assert Legal(g) ==> Legal(g') by {
        if Legal(g) {
          DropKeepsLegal(g, rng);
        }
      }
      Fallen(g', fall - Interval(gravity, g.lines), steps - 1, gravity, rng')
  }

  function Elapsed(ms: int): int
  {
    if ms < 0 then 0 else if ms > 1000 then 1000 else ms
  }

  function Advanced(g: Game, clock: Clock, ms: int, gravity: Gravity, rng: Rng): (Game, Clock, Rng)
  {
    var paid := Survived(g, clock.alive + Elapsed(ms));
    var fell := Fallen(paid.0, clock.fall + Elapsed(ms), MAX_FALLS, gravity, rng);
    (fell.0, Clock(fell.1, paid.1), fell.2)
  }

  /**
   * With no interval below 75 milliseconds, time is only spent on falling, and all of it is spent
   * down to less than an interval unless every one of the falls allowed has been made.
   */
  lemma {:induction false} FallingSpendsTime(g: Game, fall: int, steps: nat, gravity: Gravity, rng: Rng, end: (Game, int, Rng))
    requires end == Fallen(g, fall, steps, gravity, rng) && forall n :: Interval(gravity, n) >= 75
    ensures end.1 <= fall && (fall >= 0 ==> end.1 >= 0)
    ensures end.1 < Interval(gravity, end.0.lines) || fall - end.1 >= 75 * steps
    decreases steps
  {
    if fall >= Interval(gravity, g.lines) && steps > 0 {
      var drop, left := Dropped(g, rng), fall - Interval(gravity, g.lines);
      var next := Fallen(drop.0, left, steps - 1, gravity, drop.1);
      assert end == next;
      FallingSpendsTime(drop.0, left, steps - 1, gravity, drop.1, next);
    }
  }

  lemma {:induction false} SurvivalOnlyPays(g: Game, alive: int)
    ensures Survived(g, alive).0 == g.(score := Survived(g, alive).0.score)
    ensures alive >= 0 ==>
              && Survived(g, alive).0.score == g.score + (alive / 1000) * LevelFor(g.lines)
              && Survived(g, alive).1 == alive % 1000
    decreases if alive < 0 then 0 else alive
  {
    if alive >= 1000 {
      SurvivalOnlyPays(g.(score := g.score + LevelFor(g.lines)), alive - 1000);
      assert alive / 1000 == 1 + (alive - 1000) / 1000;
      Distributes((alive - 1000) / 1000, LevelFor(g.lines));
    }
  }

  lemma Distributes(n: int, level: int)
    ensures (n + 1) * level == n * level + level
  {
  }

  /** On unchanged lines, two stretches of time alive pay what the two together would. */
  lemma SurvivalIgnoresTicks(g: Game, alive: int, first: int, second: int)
    requires alive >= 0 && first >= 0 && second >= 0
    ensures var (g1, rest) := Survived(g, alive + first);
            Survived(g1, rest + second) == Survived(g, alive + first + second)
  {
    var total := alive + first;
    var (g1, rest) := Survived(g, total);
    SurvivalOnlyPays(g, total);
    SurvivalOnlyPays(g1, rest + second);
    SurvivalOnlyPays(g, total + second);
    var n, m := total / 1000, (rest + second) / 1000;
    assert total + second == 1000 * n + (rest + second);
    assert (total + second) / 1000 == n + m;
    Sums(n, m, LevelFor(g.lines));
  }

  lemma Sums(n: int, m: int, level: int)
    ensures (n + m) * level == n * level + m * level
  {
  }

  /** Any key or any tick. */
  datatype Event = Key(input: Input) | Tick(ms: int)

  function Counted(g: Game, seqNo: int): Game
  {
    g.(processedSeq := seqNo)
  }

  /** What the server makes of an input: obeyed and counted as processed if it is new, else ignored. */
  function Served(g: Game, input: Input, rng: Rng): (Game, Rng)
  {
    if input.seqNo > g.processedSeq then Obeyed(Counted(g, input.seqNo), input, rng) else (g, rng)
  }

  function Happened(g: Game, clock: Clock, event: Event, gravity: Gravity, rng: Rng): (Game, Clock, Rng)
  {
    match event
    case Key(input) => (Served(g, input, rng).0, clock, Served(g, input, rng).1)
    case Tick(ms) => Advanced(g, clock, ms, gravity, rng)
  }

  function Played(events: seq<Event>, gravity: Gravity, rng: Rng): (Game, Clock, Rng)
  {
    if events == [] then (NewGame(rng).0, Clock(0, 0), NewGame(rng).1)
    else
      var (g, clock, rng') := Played(events[..|events| - 1], gravity, rng);
      Happened(g, clock, events[|events| - 1], gravity, rng')
  }

  lemma EventKeepsLegal(g: Game, clock: Clock, event: Event, gravity: Gravity, rng: Rng)
    requires Legal(g)
    ensures Legal(Happened(g, clock, event, gravity, rng).0)
  {
    match event
    case Key(input) =>
      InputKeepsLegal(Noted(Counted(g, input.seqNo), input), input.action, rng);
    case Tick(ms) => SurvivalOnlyPays(g, clock.alive + Elapsed(ms));
  }

  /** After any keys and ticks: the piece fits, no row is full, and a long queue is known. */
  lemma {:induction false} EveryGameIsLegal(events: seq<Event>, gravity: Gravity, rng: Rng)
    ensures Legal(Played(events, gravity, rng).0)
  {
    if events == [] {
      NewGameIsLegal(rng);
    } else {
      var (g, clock, rng') := Played(events[..|events| - 1], gravity, rng);
      EveryGameIsLegal(events[..|events| - 1], gravity, rng);
      EventKeepsLegal(g, clock, events[|events| - 1], gravity, rng');
    }
  }

  /** The time all ticks of a run bring, each counted up to a second. */
  function Ticked(events: seq<Event>): int
  {
    if events == [] then 0
    else
      var last := events[|events| - 1];
      Ticked(events[..|events| - 1]) + if last.Tick? then Elapsed(last.ms) else 0
  }

  /** After time `t` with `rest` of it unspent, `more` completes the seconds that the total does. */
  lemma WholeSeconds(t: int, rest: int, more: int, total: int, spent: int)
    requires 0 <= t && rest == t % 1000 && spent == rest + more && total == t + more
    ensures spent % 1000 == total % 1000 && spent / 1000 == total / 1000 - t / 1000
  {
    var n := t / 1000;
    assert total == 1000 * n + spent;
  }

  lemma TickPays(g: Game, spent: int, seconds: int, rest: int)
    requires spent >= 0 && seconds == spent / 1000 && rest == spent % 1000
    ensures Survived(g, spent) == (g.(score := g.score + seconds * LevelFor(g.lines)), rest)
  {
    SurvivalOnlyPays(g, spent);
  }

  lemma {:induction false} AliveIsTicked(events: seq<Event>, gravity: Gravity, rng: Rng)
    ensures Ticked(events) >= 0 && Played(events, gravity, rng).1.alive == Ticked(events) % 1000
  {
    if events != [] {
      var init, last := events[..|events| - 1], events[|events| - 1];
      var (g, clock, rng') := Played(init, gravity, rng);
      AliveIsTicked(init, gravity, rng);
      if last.Tick? {
        var spent := clock.alive + Elapsed(last.ms);
        WholeSeconds(Ticked(init), clock.alive, Elapsed(last.ms), Ticked(events), spent);
        TickPays(g, spent, spent / 1000, spent % 1000);
      }
    }
  }

  /**
   * Over whole games, whatever falls and clears between the ticks, no second alive is lost or paid
   * twice: a tick pays, at the level it begins on, as many seconds as the total time then completes.
   */
  lemma EverySecondIsPaidOnce(events: seq<Event>, ms: int, gravity: Gravity, rng: Rng, g: Game, clock: Clock, spent: int, total: int)
    requires g == Played(events, gravity, rng).0 && clock == Played(events, gravity, rng).1
    requires spent == clock.alive + Elapsed(ms) && total == Ticked(events) + Elapsed(ms)
    ensures Survived(g, spent)
         == (g.(score := g.score + (total / 1000 - Ticked(events) / 1000) * LevelFor(g.lines)), total % 1000)
  {
    AliveIsTicked(events, gravity, rng);
    WholeSeconds(Ticked(events), clock.alive, Elapsed(ms), total, spent);
    TickPays(g, spent, total / 1000 - Ticked(events) / 1000, total % 1000);
  }
}
