/** Clocks over whole runs (src/core/hlc.ts, src/client/ops.ts, and the clock restored in src/client/sync-client.ts). */
module ClockRuns {
  import opened Hlc
  import opened Ops
  import opened Options

  /** What every clock in a run looks like: nothing negative, counter within its padding. */
  predicate Good(h: HLC)
  {
    0 <= h.ms && 0 <= h.counter <= COUNTER_MAX
  }

  lemma SendAdvances(local: HLC, wall: int)
    requires Good(local)
    ensures Good(SendHlc(local, wall)) && Above(SendHlc(local, wall), local)
    ensures SendHlc(local, wall).ms >= wall
  {
  }

  /**
   * A received clock is passed too, unless it claims to be further ahead than the allowed drift. Such
   * a clock is not followed: it is passed only if it was not ahead of the local clock anyway, or had
   * the same millisecond and the local counter rolls over.
   */
  lemma ReceiveAdvances(local: HLC, remote: HLC, wall: int)
    requires Good(local) && remote.counter >= 0
    ensures Good(ReceiveHlc(local, remote, wall)) && Above(ReceiveHlc(local, remote, wall), local)
    ensures remote.ms <= wall + MAX_CLOCK_DRIFT_MS ==> Above(ReceiveHlc(local, remote, wall), remote)
    ensures remote.ms > wall + MAX_CLOCK_DRIFT_MS ==>
              (Above(ReceiveHlc(local, remote, wall), remote) <==>
                 remote.ms < local.ms
                 || (remote.ms == local.ms && (remote.counter <= local.counter || local.counter == COUNTER_MAX)))
  {
  }

  datatype Event = Send(wall: int) | Receive(wall: int, remote: HLC)

  function Step(h: HLC, e: Event): HLC
  {
    if e.Send? then SendHlc(h, e.wall) else ReceiveHlc(h, e.remote, e.wall)
  }

  function Run(h: HLC, events: seq<Event>): HLC
  {
    if events == [] then h else Step(Run(h, events[..|events| - 1]), events[|events| - 1])
  }

  /** Time and counter as one number; a rollover adds exactly one. */
  function Ticks(h: HLC): int
  {
    h.ms * 10000 + h.counter
  }

  /**
   * A clock cannot be dragged ahead of the wall by more than the drift: whatever remote clocks it
   * hears, after `k` events it is at most one millisecond and `k` ticks past the allowed drift.
   */
  lemma {:induction false} RunIsBounded(nodeId: string, events: seq<Event>, latest: int)
    requires latest >= 0
    requires forall i :: 0 <= i < |events| ==> events[i].wall <= latest && (events[i].Receive? ==> events[i].remote.counter >= 0)
    ensures Good(Run(CreateHlc(nodeId), events))
    ensures Ticks(Run(CreateHlc(nodeId), events)) <= (latest + MAX_CLOCK_DRIFT_MS + 1) * 10000 + |events|
    ensures Run(CreateHlc(nodeId), events).ms <= latest + MAX_CLOCK_DRIFT_MS + 1 + |events| / 10000
    ensures (forall i :: 0 <= i < |events| ==> events[i].Send?) ==>
              Ticks(Run(CreateHlc(nodeId), events)) <= latest * 10000 + |events|
              && Run(CreateHlc(nodeId), events).ms <= latest + |events| / 10000
  {
    if events != [] {
      RunIsBounded(nodeId, events[..|events| - 1], latest);
    }
  }

  /** Every event leaves the clock strictly above where it was, so no two stamps of a run are equal. */
  lemma {:induction false} RunIsStrict(nodeId: string, events: seq<Event>, i: nat, latest: int)
    requires i < |events| && latest >= 0
    requires forall k :: 0 <= k < |events| ==> events[k].wall <= latest && (events[k].Receive? ==> events[k].remote.counter >= 0)
    ensures Above(Run(CreateHlc(nodeId), events), Run(CreateHlc(nodeId), events[..i]))
  {
    var init := events[..|events| - 1];
    RunIsBounded(nodeId, init, latest);
    if i < |init| {
      RunIsStrict(nodeId, init, i, latest);
      assert init[..i] == events[..i];
    } else {
      assert init == events[..i];
    }
  }

  // ---- After a restart

  /**
   * The clock `init` starts from: the persisted one, moved past every queued operation. `None` when
   * a queued stamp does not parse, where `unpackHlc` throws.
   */
  method RestoreClock(nodeId: string, restored: Option<HLC>, queued: seq<string>) returns (h: Option<HLC>)
    requires restored.Some? ==> Good(restored.value)
    requires forall i :: 0 <= i < |queued| && UnpackHlc(queued[i]).Some? ==> Good(UnpackHlc(queued[i]).value)
    ensures h.None? <==> exists i :: 0 <= i < |queued| && UnpackHlc(queued[i]).None?
    ensures h.Some? ==> Good(h.value) && h.value.nodeId == nodeId
    ensures h.Some? && restored.Some? ==> !Above(restored.value, h.value)
    ensures h.Some? ==> forall i :: 0 <= i < |queued| ==> !Above(UnpackHlc(queued[i]).value, h.value)
  {
    var maxMs := if restored.Some? then restored.value.ms else 0;
    var maxCounter := if restored.Some? then restored.value.counter else 0;
    for i := 0 to |queued|
      invariant Good(HLC(maxMs, maxCounter, nodeId))
      invariant restored.Some? ==> !Above(restored.value, HLC(maxMs, maxCounter, nodeId))
      invariant forall k :: 0 <= k < i ==>
                  UnpackHlc(queued[k]).Some? && !Above(UnpackHlc(queued[k]).value, HLC(maxMs, maxCounter, nodeId))
    {
      var op := UnpackHlc(queued[i]);
      if op.None? {
        return None;
      }
      if op.value.ms > maxMs || (op.value.ms == maxMs && op.value.counter > maxCounter) {
        maxMs := op.value.ms;
        maxCounter := op.value.counter;
      }
    }
    h := Some(HLC(maxMs, maxCounter, nodeId));
  }

  /** A clock past a queued stamp stays past it, strictly once anything has happened. */
  lemma {:induction false} RunStaysPast(h: HLC, events: seq<Event>, queued: HLC)
    requires Good(h) && !Above(queued, h)
    requires forall k :: 0 <= k < |events| && events[k].Receive? ==> events[k].remote.counter >= 0
    ensures Good(Run(h, events)) && if events == [] then !Above(queued, Run(h, events)) else Above(Run(h, events), queued)
    decreases |events|
  {
    if events != [] {
      var before, e := Run(h, events[..|events| - 1]), events[|events| - 1];
      RunStaysPast(h, events[..|events| - 1], queued);
      if e.Send? {
        SendAdvances(before, e.wall);
      } else {
        ReceiveAdvances(before, e.remote, e.wall);
      }
    }
  }

  /**
   * Whatever the wall clock says and whatever is heard after the restart, every stamp made from then
   * on sorts after every queued one.
   */
  lemma NewStampsFollowQueued(h: HLC, queued: HLC, events: seq<Event>)
    requires Good(h) && Fits(queued) && !Above(queued, h) && events != [] && Fits(Run(h, events))
    requires forall k :: 0 <= k < |events| && events[k].Receive? ==> events[k].remote.counter >= 0
    ensures CompareHlc(PackHlc(Run(h, events)), PackHlc(queued)) > 0
  {
    RunStaysPast(h, events, queued);
    StringOrderIsCausalOrder(queued, Run(h, events));
    CompareFlips(PackHlc(Run(h, events)), PackHlc(queued));
  }

  /** The clock after the first `k` sends of a batch. */
  function After(h: HLC, walls: seq<int>, k: nat): HLC
    requires k <= |walls|
  {
    Sends(h, walls[..k])
  }

  lemma AfterNext(h: HLC, walls: seq<int>, k: nat, next: nat)
    requires Good(h) && next == k + 1 <= |walls|
    ensures After(h, walls, next) == SendHlc(After(h, walls, k), walls[k]) && Good(After(h, walls, k))
  {
    SendsStayGood(h, walls[..k]);
    assert walls[..next][..k] == walls[..k];
  }

  lemma {:induction false} AfterRises(h: HLC, walls: seq<int>, i: nat, j: nat)
    requires Good(h) && i < j <= |walls|
    ensures Good(After(h, walls, i)) && Good(After(h, walls, j)) && Above(After(h, walls, j), After(h, walls, i))
    decreases j
  {
    var last := j - 1;
    AfterNext(h, walls, last, j);
    SendAdvances(After(h, walls, last), walls[last]);
    if i < last {
      AfterRises(h, walls, i, last);
    }
  }

  /** The stamps of one batch are in order, as strings. */
  lemma BatchStampsRise(h: HLC, walls: seq<int>, i: nat, j: nat)
    requires Good(h) && i < j <= |walls|
    requires After(h, walls, i).ms < Pow10(MS_PAD) && After(h, walls, j).ms < Pow10(MS_PAD)
    ensures Good(After(h, walls, i)) && Good(After(h, walls, j))
    ensures CompareHlc(PackHlc(After(h, walls, i)), PackHlc(After(h, walls, j))) < 0
  {
    AfterRises(h, walls, i, j);
    StringOrderIsCausalOrder(After(h, walls, i), After(h, walls, j));
  }

  lemma {:induction false} SendsStayGood(h: HLC, walls: seq<int>)
    requires Good(h)
    ensures Good(Sends(h, walls))
  {
    if walls != [] {
      SendsStayGood(h, walls[..|walls| - 1]);
      SendAdvances(Sends(h, walls[..|walls| - 1]), walls[|walls| - 1]);
    }
  }
}
