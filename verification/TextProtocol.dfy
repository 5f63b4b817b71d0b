/**
 * Several bindings on one text column, and the server between them, as steps: typing, flushing,
 * the server resolving a write, and a version of the row reaching a client. Versions reach each
 * client in order; steps interleave in any way. Rejected writes are not part of this model.
 */
module TextProtocol {
  import opened Conflict
  import opened Hunks
  import opened Merge3
  import opened Ops
  import opened Options
  import opened TextBinding
  import TextDiff
  import opened TextPolicy

  /** A version of the row: its text, the writers it remembers, and whose write made it. */
  datatype Version = Version(text: string, seen: seq<(string, int)>, author: Option<nat>)

  /**
   * A client: its binding, the edit on its way to the server, how many versions have reached it, and
   * the last write number it used. `base` is the version its shadow is from; `at` is the version its
   * served write made. Both only explain the state; no step depends on them.
   */
  datatype Client = Client(s: State, up: Option<TextEdit>, got: nat, last: nat, base: nat, at: nat)

  datatype World = World(log: seq<Version>, clients: seq<Client>)

  /** What does not change during a run: who the clients are, the column, and the hash in use. */
  datatype Setting = Setting(names: seq<string>, column: string, hash: string -> int)

  datatype Step =
    | Type(i: nat, next: string, caret: Option<int>)
    | Erase(i: nat)
    | Flush(i: nat, n: nat)
    | Serve(i: nat)
    | Deliver(i: nat)

  ghost predicate Enabled(w: World, step: Step)
  {
    step.i < |w.clients| && var c := w.clients[step.i];
    match step
    case Type(_, _, _) => true
    case Erase(_) => true
    case Flush(_, n) => Flushes(c.s) && n > c.last
    case Serve(_) => c.up.Some? && w.log != []
    case Deliver(_) => c.got < |w.log|
  }

  /** The text the server writes for an edit; a remove leaves it alone. */
  ghost function ServedText(edit: TextEdit, current: string): string
  {
    if edit.edits == [] then current
    else Merge(Apply(edit.edits[0].value, edit.edits[0].back), current, edit.edits[0].value)
  }

  ghost function Served(w: World, i: nat, edit: TextEdit): Version
    requires w.log != []
  {
    var current := w.log[|w.log| - 1];
    Version(ServedText(edit, current.text), Remember(current.seen, edit.who, edit.n), Some(i))
  }

  function View(v: Version, name: string): RowView
  {
    RowView(v.text, SeenBy(v.seen, name))
  }

  ghost function Delivered(c: Client, v: Version, name: string): Client
  {
    var s := AfterPump(c.s, Some(View(v, name)));
    c.(s := s, got := c.got + 1, base := if c.s.flight != 0 && SeenBy(v.seen, name) < c.s.flight then c.base else c.got)
  }

  ghost function Take(setting: Setting, w: World, step: Step): World
    requires |setting.names| == |w.clients| && Enabled(w, step)
  {
    var i, c := step.i, w.clients[step.i];
    match step
    case Type(_, next, caret) => w.(clients := w.clients[i := c.(s := AfterSet(c.s, next, caret))])
    case Erase(_) => w.(clients := w.clients[i := c.(s := AfterRemove(c.s))])
    case Flush(_, n) =>
      w.(clients := w.clients[i := c.(s := AfterFlush(c.s, n), last := n,
                                      up := Some(FlushedEdit(c.s, setting.names[i], setting.column, n, setting.hash)))])
    case Serve(_) =>
      World(w.log + [Served(w, i, c.up.value)], w.clients[i := c.(up := None, at := |w.log|)])
    case Deliver(_) => w.(clients := w.clients[i := Delivered(c, w.log[c.got], setting.names[i])])
  }

  /** Fresh clients, under names that have not written this row yet, and the row as it is. */
  ghost predicate Start(setting: Setting, w: World)
  {
    && |w.log| == 1 && OncePerWriter(w.log[0].seen) && w.log[0].author.None?
    && |w.clients| == |setting.names|
    && (forall i :: 0 <= i < |setting.names| ==> SeenBy(w.log[0].seen, setting.names[i]) == 0)
    && (forall i, j :: 0 <= i < j < |setting.names| ==> setting.names[i] != setting.names[j])
    && (forall i :: 0 <= i < |w.clients| ==> w.clients[i] == Client(BLANK, None, 0, 0, 0, 0))
  }

  ghost predicate Legal(setting: Setting, w: World, steps: seq<Step>)
    requires |setting.names| == |w.clients|
    decreases |steps|
  {
    steps == [] || (Enabled(w, steps[0]) && Legal(setting, Take(setting, w, steps[0]), steps[1..]))
  }

  ghost function Run(setting: Setting, w: World, steps: seq<Step>): (w': World)
    requires |setting.names| == |w.clients| && Legal(setting, w, steps)
    ensures |w'.clients| == |w.clients|
    decreases |steps|
  {
    if steps == [] then w else Run(setting, Take(setting, w, steps[0]), steps[1..])
  }

  // ---- What every step keeps

  /** The writes of client `i` that versions `[lo, hi)` were made by: none. */
  ghost predicate NoneBy(log: seq<Version>, i: nat, lo: int, hi: int)
  {
    forall v :: lo <= v < hi && 0 <= v < |log| ==> log[v].author != Some(i)
  }

  ghost predicate SeenBelow(log: seq<Version>, name: string, hi: int, n: int)
  {
    forall v :: 0 <= v < hi && v < |log| ==> SeenBy(log[v].seen, name) < n
  }

  /** An edit on its way: it rebuilds the sender's shadow exactly and carries what was sent. */
  ghost predicate InFlight(c: Client, name: string, column: string, edit: TextEdit)
  {
    && edit.who == name && edit.n == c.s.flight
    && (if edit.edits == [] then edit.remove.Some? && edit.remove.value.column == column
        else
          && |edit.edits| == 1 && edit.remove.None? && edit.edits[0].column == column
          && edit.edits[0].value == c.s.sent && Ordered(edit.edits[0].back, 0, |c.s.sent|)
          && Apply(edit.edits[0].value, edit.edits[0].back) == c.s.shadow)
  }

  ghost predicate Idle(log: seq<Version>, i: nat, c: Client)
  {
    c.up.None? && (c.got > 0 ==> c.base == c.got - 1 && NoneBy(log, i, c.got, |log|))
    && (c.got == 0 ==> NoneBy(log, i, 0, |log|))
  }

  /** A write not yet served: the server has seen none of this client's writes since its shadow. */
  ghost predicate Waiting(log: seq<Version>, i: nat, name: string, column: string, c: Client)
  {
    c.up.Some? && InFlight(c, name, column, c.up.value)
    && SeenBelow(log, name, |log|, c.s.flight) && NoneBy(log, i, c.base + 1, |log|)
  }

  /** A write served as version `at`, which has not reached this client yet. */
  ghost predicate Landed(log: seq<Version>, i: nat, name: string, c: Client)
  {
    && c.up.None? && c.got <= c.at < |log|
    && log[c.at].author == Some(i) && SeenBy(log[c.at].seen, name) == c.s.flight
    && SeenBelow(log, name, c.at, c.s.flight)
    && NoneBy(log, i, c.base + 1, c.at) && NoneBy(log, i, c.at + 1, |log|)
  }

  ghost predicate ClientOk(log: seq<Version>, i: nat, name: string, column: string, c: Client)
  {
    && c.got <= |log| && (c.s.present <==> c.got > 0)
    && SeenBelow(log, name, |log|, c.last + 1)
    && (c.got == 0 ==> c.s.flight == 0 && c.s.shadow == "")
    && (c.got > 0 ==> c.base < c.got && c.s.shadow == log[c.base].text)
    && (if c.s.flight == 0 then Idle(log, i, c)
        else c.s.flight <= c.last && (Waiting(log, i, name, column, c) || Landed(log, i, name, c)))
  }

  ghost predicate Inv(setting: Setting, w: World)
  {
    && w.log != [] && |w.clients| == |setting.names|
    && (forall i, j :: 0 <= i < j < |setting.names| ==> setting.names[i] != setting.names[j])
    && (forall v :: 0 <= v < |w.log| ==> OncePerWriter(w.log[v].seen))
    && (forall i :: 0 <= i < |w.clients| ==> ClientOk(w.log, i, setting.names[i], setting.column, w.clients[i]))
  }

  lemma StartIsOk(setting: Setting, w: World)
    requires Start(setting, w)
    ensures Inv(setting, w)
  {
  }

  lemma TypeOk(log: seq<Version>, i: nat, name: string, column: string, c: Client, s: State)
    requires ClientOk(log, i, name, column, c)
    requires s.shadow == c.s.shadow && s.flight == c.s.flight && s.sent == c.s.sent && s.present == c.s.present
    ensures ClientOk(log, i, name, column, c.(s := s))
  {
  }

  lemma FlushOk(setting: Setting, log: seq<Version>, i: nat, c: Client, n: nat)
    requires i < |setting.names| && ClientOk(log, i, setting.names[i], setting.column, c) && Flushes(c.s) && n > c.last
    ensures var edit := FlushedEdit(c.s, setting.names[i], setting.column, n, setting.hash);
            ClientOk(log, i, setting.names[i], setting.column, c.(s := AfterFlush(c.s, n), last := n, up := Some(edit)))
  {
    TextDiff.DiffIsCorrect(c.s.local, c.s.shadow);
    SeparatedIsOrdered(TextDiff.Diff(c.s.local, c.s.shadow), 0, |c.s.local|);
  }

  lemma DeliverOk(log: seq<Version>, i: nat, name: string, column: string, c: Client)
    requires ClientOk(log, i, name, column, c) && c.got < |log|
    ensures ClientOk(log, i, name, column, Delivered(c, log[c.got], name))
  {
    var v := log[c.got];
    if c.s.flight != 0 && c.up.None? && c.got == c.at {
      assert SeenBy(v.seen, name) == c.s.flight;
    }
  }

  /** What another client's served write leaves as it was. */
  lemma OthersOk(log: seq<Version>, i: nat, name: string, column: string, c: Client, v: Version)
    requires ClientOk(log, i, name, column, c) && log != []
    requires v.author != Some(i)
    requires SeenBy(v.seen, name) == 0 || SeenBy(v.seen, name) == SeenBy(log[|log| - 1].seen, name)
    ensures ClientOk(log + [v], i, name, column, c)
  {
  }

  lemma ServeOk(log: seq<Version>, i: nat, name: string, column: string, c: Client, v: Version)
    requires ClientOk(log, i, name, column, c) && c.up.Some? && log != []
    requires v.author == Some(i) && SeenBy(v.seen, name) == c.up.value.n
    ensures ClientOk(log + [v], i, name, column, c.(up := None, at := |log|))
  {
  }

  lemma ServedClientOk(setting: Setting, w: World, i: nat, j: nat, edit: TextEdit, v: Version)
    requires Inv(setting, w) && Enabled(w, Serve(i)) && j < |w.clients|
    requires edit == w.clients[i].up.value && v == Served(w, i, edit)
    ensures ClientOk(w.log + [v], j, setting.names[j], setting.column,
                     if i == j then w.clients[j].(up := None, at := |w.log|) else w.clients[j])
  {
    var c, last := w.clients[i], w.log[|w.log| - 1];
    assert ClientOk(w.log, i, setting.names[i], setting.column, c) && ClientOk(w.log, j, setting.names[j], setting.column, w.clients[j]);
    assert edit.who == setting.names[i];
    assert OncePerWriter(last.seen);
    RememberKeeps(last.seen, edit.who, edit.n, setting.names[j]);
    if j == i {
      ServeOk(w.log, i, setting.names[i], setting.column, c, v);
    } else {
      assert setting.names[j] != setting.names[i];
      OthersOk(w.log, j, setting.names[j], setting.column, w.clients[j], v);
    }
  }

  lemma ServeKeepsInv(setting: Setting, w: World, i: nat)
    requires Inv(setting, w) && Enabled(w, Serve(i))
    ensures Inv(setting, Take(setting, w, Serve(i)))
  {
    var w', edit, last := Take(setting, w, Serve(i)), w.clients[i].up.value, w.log[|w.log| - 1];
    forall j | 0 <= j < |w.clients| ensures ClientOk(w'.log, j, setting.names[j], setting.column, w'.clients[j]) {
      ServedClientOk(setting, w, i, j, edit, Served(w, i, edit));
    }
    assert OncePerWriter(last.seen);
    RememberKeeps(last.seen, edit.who, edit.n, edit.who);
  }

  /** Every step, of whatever kind and in whatever order, keeps the protocol's invariant. */
  lemma StepKeepsInv(setting: Setting, w: World, step: Step)
    requires Inv(setting, w) && Enabled(w, step)
    ensures Inv(setting, Take(setting, w, step))
  {
    var i := step.i;
    var c, name := w.clients[i], setting.names[i];
    assert ClientOk(w.log, i, name, setting.column, c);
    match step
    case Type(_, next, caret) => TypeOk(w.log, i, name, setting.column, c, AfterSet(c.s, next, caret));
    case Erase(_) => TypeOk(w.log, i, name, setting.column, c, AfterRemove(c.s));
    case Flush(_, n) => FlushOk(setting, w.log, i, c, n);
    case Serve(_) => ServeKeepsInv(setting, w, i);
    case Deliver(_) => DeliverOk(w.log, i, name, setting.column, c);
  }

  lemma {:induction false} RunKeepsInv(setting: Setting, w: World, steps: seq<Step>)
    requires Inv(setting, w) && Legal(setting, w, steps)
    ensures Inv(setting, Run(setting, w, steps))
    decreases |steps|
  {
    if steps != [] {
      StepKeepsInv(setting, w, steps[0]);
      RunKeepsInv(setting, Take(setting, w, steps[0]), steps[1..]);
    }
  }

  // ---- Each merge sees exactly the same of this client's own writes on both sides

  /** How many of the first `upto` versions client `i` wrote. */
  ghost function OwnWrites(log: seq<Version>, i: nat, upto: nat): nat
    requires upto <= |log|
  {
    if upto == 0 then 0 else OwnWrites(log, i, upto - 1) + if log[upto - 1].author == Some(i) then 1 else 0
  }

  lemma {:induction false} NoneByCounts(log: seq<Version>, i: nat, lo: nat, hi: nat)
    requires lo <= hi <= |log| && NoneBy(log, i, lo, hi)
    ensures OwnWrites(log, i, hi) == OwnWrites(log, i, lo)
    decreases hi
  {
    if lo < hi {
      NoneByCounts(log, i, lo, hi - 1);
    }
  }

  /**
   * When the server resolves a write, the base it rebuilds is the very text the sender started from,
   * and that text and the server's current one contain the same of the sender's own writes.
   */
  lemma ServerMergesLikeWithLike(setting: Setting, w: World, i: nat)
    requires Inv(setting, w) && Enabled(w, Serve(i))
    ensures var c := w.clients[i];
            && c.base < |w.log| && c.s.shadow == w.log[c.base].text
            && (c.up.value.edits != [] ==> Apply(c.up.value.edits[0].value, c.up.value.edits[0].back) == w.log[c.base].text)
            && OwnWrites(w.log, i, c.base + 1) == OwnWrites(w.log, i, |w.log|)
  {
    var c := w.clients[i];
    assert ClientOk(w.log, i, setting.names[i], setting.column, c);
    NoneByCounts(w.log, i, c.base + 1, |w.log|);
  }

  /** Counting up to the version now arriving, when it is not skipped. */
  lemma ArrivalCounts(log: seq<Version>, i: nat, name: string, column: string, c: Client)
    requires ClientOk(log, i, name, column, c) && 0 < c.got < |log|
    requires c.s.flight == 0 || SeenBy(log[c.got].seen, name) >= c.s.flight
    ensures c.base < c.got && c.s.shadow == log[c.base].text
    ensures OwnWrites(log, i, c.got + 1) == OwnWrites(log, i, c.base + 1) + if c.s.flight != 0 then 1 else 0
  {
    if c.s.flight == 0 {
      NoneByCounts(log, i, c.base + 1, c.got + 1);
    } else {
      assert c.got == c.at;
      NoneByCounts(log, i, c.base + 1, c.at);
    }
  }

  /**
   * When a version reaches a client, either the client has a write the version does not include, and
   * nothing happens; or the text it merges from and the version include the same of its own writes:
   * its shadow if nothing was in flight, else what it sent, the version including that write as well.
   */
  lemma ClientMergesLikeWithLike(setting: Setting, w: World, i: nat)
    requires Inv(setting, w) && Enabled(w, Deliver(i)) && w.clients[i].s.present
    ensures var c := w.clients[i]; var v, own := w.log[c.got], if c.s.flight != 0 then 1 else 0;
            var s' := Take(setting, w, Deliver(i)).clients[i].s;
            if c.s.flight != 0 && SeenBy(v.seen, setting.names[i]) < c.s.flight then s' == c.s
            else
              && c.base < c.got && OwnWrites(w.log, i, c.got + 1) == OwnWrites(w.log, i, c.base + 1) + own
              && s'.shadow == v.text
              && s'.local == Merge(if c.s.flight != 0 then c.s.sent else w.log[c.base].text, v.text, c.s.local)
  {
    var c := w.clients[i];
    assert ClientOk(w.log, i, setting.names[i], setting.column, c);
    if c.s.flight == 0 || SeenBy(w.log[c.got].seen, setting.names[i]) >= c.s.flight {
      ArrivalCounts(w.log, i, setting.names[i], setting.column, c);
      PumpMerges(c.s, View(w.log[c.got], setting.names[i]));
    }
  }

  // ---- Agreement

  predicate Settling(step: Step)
  {
    !step.Type? && !step.Erase?
  }

  /** Nothing left to do short of typing: no version to deliver, no edit to serve, nothing to flush. */
  ghost predicate Quiet(w: World)
  {
    forall i :: 0 <= i < |w.clients| ==>
      w.clients[i].got == |w.log| && w.clients[i].up.None? && !Flushes(w.clients[i].s)
  }

  lemma QuietOrEnabled(w: World) returns (step: Step)
    requires w.log != [] && !Quiet(w)
    requires forall i :: 0 <= i < |w.clients| ==> w.clients[i].got <= |w.log|
    ensures Settling(step) && Enabled(w, step)
  {
    var i :| 0 <= i < |w.clients| && !(w.clients[i].got == |w.log| && w.clients[i].up.None? && !Flushes(w.clients[i].s));
    var c := w.clients[i];
    if c.got < |w.log| {
      step := Deliver(i);
    } else if c.up.Some? {
      step := Serve(i);
    } else {
      step := Flush(i, c.last + 1);
    }
  }

  /** Every client shows the server's text. */
  ghost predicate Agreed(w: World)
  {
    w.log != [] && forall i :: 0 <= i < |w.clients| ==> w.clients[i].s.local == w.log[|w.log| - 1].text
  }

  /** When nothing is left to do, every client shows the server's text. */
  lemma QuietMeansAgreement(setting: Setting, w: World)
    requires Inv(setting, w) && Quiet(w)
    ensures Agreed(w)
  {
    forall i | 0 <= i < |w.clients| ensures w.clients[i].s.local == w.log[|w.log| - 1].text {
      assert ClientOk(w.log, i, setting.names[i], setting.column, w.clients[i]);
    }
  }

  /** Something typed, or a remove asked for, that is not on its way. */
  predicate Dirty(s: State)
  {
    s.removing || s.local != if s.flight != 0 then s.sent else s.shadow
  }

  /** How much a client still has to do, `n` clients being told of every write. */
  function Weight(c: Client, n: nat): nat
  {
    if c.s.flight == 0 then (if Dirty(c.s) then n + 3 else 0)
    else if c.up.None? then (if Dirty(c.s) then n + 4 else 1)
    else if Dirty(c.s) then 2 * n + 5 else n + 2
  }

  function Work(clients: seq<Client>, versions: nat, n: nat): int
  {
    if clients == [] then 0
    else Work(clients[..|clients| - 1], versions, n) + Weight(clients[|clients| - 1], n) + versions - clients[|clients| - 1].got
  }

  /** An upper bound on the steps left before everything is quiet. */
  function Measure(w: World): int
  {
    Work(w.clients, |w.log|, |w.clients|)
  }

  lemma {:induction false} WorkUpdated(clients: seq<Client>, i: nat, c: Client, versions: nat, n: nat)
    requires i < |clients|
    ensures Work(clients[i := c], versions, n)
         == Work(clients, versions, n) - Weight(clients[i], n) + clients[i].got + Weight(c, n) - c.got
    decreases |clients|
  {
    var k := |clients| - 1;
    if i < k {
      WorkUpdated(clients[..k], i, c, versions, n);
      assert clients[i := c][..k] == clients[..k][i := c];
    } else {
      assert clients[i := c][..k] == clients[..k];
    }
  }

  lemma {:induction false} WorkGrows(clients: seq<Client>, versions: nat, n: nat)
    ensures Work(clients, versions + 1, n) == Work(clients, versions, n) + |clients|
  {
    if clients != [] {
      WorkGrows(clients[..|clients| - 1], versions, n);
    }
  }

  lemma {:induction false} WorkIsNatural(clients: seq<Client>, versions: nat, n: nat)
    requires forall i :: 0 <= i < |clients| ==> clients[i].got <= versions
    ensures Work(clients, versions, n) >= 0
  {
    if clients != [] {
      WorkIsNatural(clients[..|clients| - 1], versions, n);
    }
  }

  lemma FlushLightens(setting: Setting, c: Client, name: string, k: nat, n: nat)
    requires Flushes(c.s) && k > 0
    ensures var c' := c.(s := AfterFlush(c.s, k), last := k,
                         up := Some(FlushedEdit(c.s, name, setting.column, k, setting.hash)));
            c'.got == c.got && Weight(c', n) < Weight(c, n)
  {
  }

  lemma ServeLightens(c: Client, at: nat, n: nat)
    requires c.up.Some? && c.s.flight != 0
    ensures Weight(c.(up := None, at := at), n) + n < Weight(c, n)
  {
  }

  lemma DeliverLightens(log: seq<Version>, i: nat, name: string, column: string, c: Client, n: nat)
    requires ClientOk(log, i, name, column, c) && c.got < |log|
    ensures Weight(Delivered(c, log[c.got], name), n) <= Weight(c, n)
  {
  }

  lemma FlushReduces(setting: Setting, w: World, i: nat, k: nat)
    requires Inv(setting, w) && Enabled(w, Flush(i, k))
    ensures Measure(Take(setting, w, Flush(i, k))) < Measure(w)
  {
    var c, n, name := w.clients[i], |w.clients|, setting.names[i];
    var c' := c.(s := AfterFlush(c.s, k), last := k, up := Some(FlushedEdit(c.s, name, setting.column, k, setting.hash)));
    FlushLightens(setting, c, name, k, n);
    WorkUpdated(w.clients, i, c', |w.log|, n);
  }

  lemma ServeReduces(setting: Setting, w: World, i: nat)
    requires Inv(setting, w) && Enabled(w, Serve(i))
    ensures Measure(Take(setting, w, Serve(i))) < Measure(w)
  {
    var c, n := w.clients[i], |w.clients|;
    var c' := c.(up := None, at := |w.log|);
    assert ClientOk(w.log, i, setting.names[i], setting.column, c);
    ServeLightens(c, |w.log|, n);
    WorkUpdated(w.clients, i, c', |w.log|, n);
    WorkGrows(w.clients[i := c'], |w.log|, n);
  }

  lemma DeliverReduces(setting: Setting, w: World, i: nat)
    requires Inv(setting, w) && Enabled(w, Deliver(i))
    ensures Measure(Take(setting, w, Deliver(i))) < Measure(w)
  {
    var c, n, name := w.clients[i], |w.clients|, setting.names[i];
    assert ClientOk(w.log, i, name, setting.column, c);
    DeliverLightens(w.log, i, name, setting.column, c, n);
    WorkUpdated(w.clients, i, Delivered(c, w.log[c.got], name), |w.log|, n);
  }

  /** Every step that is not typing strictly reduces the work left, whichever step it is. */
  lemma SettlingStepsReduceWork(setting: Setting, w: World, step: Step)
    requires Inv(setting, w) && Enabled(w, step) && Settling(step)
    ensures Measure(Take(setting, w, step)) < Measure(w)
  {
    match step
    case Flush(i, k) => FlushReduces(setting, w, i, k);
    case Serve(i) => ServeReduces(setting, w, i);
    case Deliver(i) => DeliverReduces(setting, w, i);
  }

  /**
   * Once typing stops, every schedule settles: a run of other steps is no longer than the work left
   * at its start, and where none is possible any more every client shows the server's text.
   */
  lemma {:induction false} EveryScheduleSettles(setting: Setting, w: World, steps: seq<Step>)
    requires Inv(setting, w) && Legal(setting, w, steps) && forall k :: 0 <= k < |steps| ==> Settling(steps[k])
    ensures |steps| + Measure(Run(setting, w, steps)) <= Measure(w) && Measure(Run(setting, w, steps)) >= 0
    ensures var w' := Run(setting, w, steps);
            (forall step :: Settling(step) ==> !Enabled(w', step)) ==> Agreed(w')
    decreases |steps|
  {
    if steps == [] {
      assert forall i :: 0 <= i < |w.clients| ==> ClientOk(w.log, i, setting.names[i], setting.column, w.clients[i]);
      WorkIsNatural(w.clients, |w.log|, |w.clients|);
      if Quiet(w) {
        QuietMeansAgreement(setting, w);
      } else {
        var step := QuietOrEnabled(w);
      }
    } else {
      StepKeepsInv(setting, w, steps[0]);
      SettlingStepsReduceWork(setting, w, steps[0]);
      EveryScheduleSettles(setting, Take(setting, w, steps[0]), steps[1..]);
    }
  }

  /** From a fresh start, after any typing and any other steps, every schedule still settles in agreement. */
  lemma EveryRunCanAgree(setting: Setting, w: World, before: seq<Step>, after: seq<Step>)
    requires Start(setting, w) && Legal(setting, w, before) && Legal(setting, Run(setting, w, before), after)
    requires forall k :: 0 <= k < |after| ==> Settling(after[k])
    ensures |after| <= Measure(Run(setting, w, before))
    ensures var w' := Run(setting, Run(setting, w, before), after);
            (forall step :: Settling(step) ==> !Enabled(w', step)) ==> Agreed(w')
  {
    StartIsOk(setting, w);
    RunKeepsInv(setting, w, before);
    EveryScheduleSettles(setting, Run(setting, w, before), after);
  }

  // ---- The server's step is the text policy

  /** On a row holding the current version, resolving the edit in flight leaves the row holding the served one. */
  lemma ServeIsTheTextPolicy(setting: Setting, w: World, i: nat, policy: Policy, incoming: Incoming, existing: Existing)
    requires Inv(setting, w) && Enabled(w, Serve(i))
    requires |setting.names[i]| <= 64 && setting.column in policy.text
    requires w.clients[i].up.value.edits == [] ==> policy.softDelete.Some?
    requires setting.column != TEXT_SEEN_COLUMN
    requires policy.softDelete != Some(setting.column) && policy.softDelete != Some(TEXT_SEEN_COLUMN)
    requires incoming.op.Update? && Columns(incoming.payload) == map[] && existing.row.Some?
    requires TextAt(existing.row.value, setting.column) == w.log[|w.log| - 1].text
    requires SeenAt(existing.row.value) == w.log[|w.log| - 1].seen
    ensures var r, v := TextResult(policy, incoming, w.clients[i].up, existing, setting.hash), Served(w, i, w.clients[i].up.value);
            && r.accepted && r.row.Some?
            && TextAt(r.row.value, setting.column) == v.text && SeenAt(r.row.value) == v.seen
  {
    var edit := w.clients[i].up.value;
    assert ClientOk(w.log, i, setting.names[i], setting.column, w.clients[i]);
    if edit.edits == [] {
      OneRemove(policy, incoming, edit, existing, setting.hash, setting.column);
    } else {
      assert ValidChange(edit.edits[0], policy);
      OneEdit(policy, incoming, edit, existing, setting.hash, setting.column);
    }
  }

  // ---- What a remove does to typing

  /**
   * A flush that carries a remove counts what is typed as sent without sending it. Where nobody else
   * wrote, the binding still shows what it sent when the write comes back if and only if no remove
   * was asked for; whatever the server's text was by then, a remove leaves that text on screen.
   */
  lemma RemoveFlushDropsTyping(s: State, who: string, column: string, n: nat, hash: string -> int, current: string,
                               served: string, seen: nat)
    requires Flushes(s) && s.local != s.shadow && 0 < n <= seen
    requires served == ServedText(FlushedEdit(s, who, column, n, hash), current)
    ensures var s' := AfterPump(AfterFlush(s, n), Some(RowView(served, seen)));
            && s'.local == (if s.removing then current else Merge(s.shadow, current, s.local))
            && (current == s.shadow ==> (s'.local == s.local <==> !s.removing))
  {
    TextDiff.DiffIsCorrect(s.local, s.shadow);
  }

  lemma RunCons(setting: Setting, w: World, step: Step, rest: seq<Step>, w': World)
    requires |setting.names| == |w.clients| && Enabled(w, step) && w' == Take(setting, w, step) && Legal(setting, w', rest)
    ensures Legal(setting, w, [step] + rest) && Run(setting, w, [step] + rest) == Run(setting, w', rest)
  {
    assert ([step] + rest)[1..] == rest;
  }

  /** One client, whose first write is a remove on its way, with `typed` on screen and counted as sent. */
  ghost predicate RemoveSent(setting: Setting, w: World, log: seq<Version>, typed: string)
  {
    && w.log == log && |w.clients| == |setting.names| == 1 && |log| == 1
    && var c := w.clients[0];
    && c.got == 1 && c.s.present && !c.s.removing && c.s.flight == 1 && c.s.sent == c.s.local == typed
    && c.s.shadow == log[0].text != typed
    && c.up.Some? && c.up.value.edits == [] && c.up.value.who == setting.names[0] && c.up.value.n == 1
  }

  lemma RemoveIsSent(setting: Setting, w: World, typed: string) returns (w': World)
    requires Start(setting, w) && |w.clients| == 1 && typed != w.log[0].text
    ensures var steps := [Deliver(0)] + ([Erase(0)] + ([Type(0, typed, None)] + ([Flush(0, 1)] + [])));
            Legal(setting, w, steps) && w' == Run(setting, w, steps) && RemoveSent(setting, w', w.log, typed)
  {
    var a := Take(setting, w, Deliver(0));
    var b := Take(setting, a, Erase(0));
    var c := Take(setting, b, Type(0, typed, None));
    w' := Take(setting, c, Flush(0, 1));
    RunCons(setting, c, Flush(0, 1), [], w');
    RunCons(setting, b, Type(0, typed, None), [Flush(0, 1)] + [], c);
    RunCons(setting, a, Erase(0), [Type(0, typed, None)] + ([Flush(0, 1)] + []), b);
    RunCons(setting, w, Deliver(0), [Erase(0)] + ([Type(0, typed, None)] + ([Flush(0, 1)] + [])), a);
  }

  /** Whatever is served and delivered next, the typing reaches no version and leaves the screen. */
  lemma SentRemoveLoses(setting: Setting, w: World, log: seq<Version>, typed: string)
    requires RemoveSent(setting, w, log, typed) && OncePerWriter(log[0].seen)
    ensures var steps := [Serve(0)] + ([Deliver(0)] + []);
            Legal(setting, w, steps) && var w' := Run(setting, w, steps);
            && Quiet(w') && w'.clients[0].s.local == log[0].text
            && forall v :: 0 <= v < |w'.log| ==> w'.log[v].text == log[0].text
  {
    RememberKeeps(log[0].seen, setting.names[0], 1, setting.names[0]);
    var a := Take(setting, w, Serve(0));
    var b := Take(setting, a, Deliver(0));
    RunCons(setting, a, Deliver(0), [], b);
    RunCons(setting, w, Serve(0), [Deliver(0)] + [], a);
  }

  lemma RunStarts(setting: Setting, w: World, steps: seq<Step>, w': World)
    requires |setting.names| == |w.clients| && steps != [] && Legal(setting, w, steps) && w' == Run(setting, w, steps)
    ensures Enabled(w, steps[0]) && Legal(setting, Take(setting, w, steps[0]), steps[1..])
    ensures w' == Run(setting, Take(setting, w, steps[0]), steps[1..])
  {
  }

  lemma {:induction false} RunConcat(setting: Setting, w: World, first: seq<Step>, rest: seq<Step>, mid: World)
    requires |setting.names| == |w.clients| && |setting.names| == |mid.clients|
    requires Legal(setting, w, first) && mid == Run(setting, w, first) && Legal(setting, mid, rest)
    ensures Legal(setting, w, first + rest) && Run(setting, w, first + rest) == Run(setting, mid, rest)
    decreases |first|
  {
    if first == [] {
      assert first + rest == rest;
    } else {
      var step, later := first[0], first[1..];
      RunStarts(setting, w, first, mid);
      var w' := Take(setting, w, step);
      RunConcat(setting, w', later, rest, mid);
      RunCons(setting, w, step, later + rest, w');
      assert first + rest == [step] + (later + rest);
    }
  }

  /** Asking for a remove and then typing, all in one flush: the typing reaches no version and is off the screen. */
  lemma RemoveRunLosesTyping(setting: Setting, w: World, typed: string)
    requires Start(setting, w) && |w.clients| == 1 && typed != w.log[0].text
    ensures var steps := [Deliver(0), Erase(0), Type(0, typed, None), Flush(0, 1), Serve(0), Deliver(0)];
            Legal(setting, w, steps) && var w' := Run(setting, w, steps);
            && Quiet(w') && w'.clients[0].s.local == w.log[0].text
            && forall v :: 0 <= v < |w'.log| ==> w'.log[v].text == w.log[0].text
  {
    var first := [Deliver(0)] + ([Erase(0)] + ([Type(0, typed, None)] + ([Flush(0, 1)] + [])));
    var rest := [Serve(0)] + ([Deliver(0)] + []);
    var sent := RemoveIsSent(setting, w, typed);
    SentRemoveLoses(setting, sent, w.log, typed);
    RunConcat(setting, w, first, rest, sent);
    assert [Deliver(0), Erase(0), Type(0, typed, None), Flush(0, 1), Serve(0), Deliver(0)] == first + rest;
  }

  // ---- A single writer

  /** A client that only reads. */
  predicate Reader(c: Client)
  {
    c.up.None? && c.s.flight == 0 && !c.s.removing && c.s.local == c.s.shadow
  }

  /**
   * Client `x` writes, without removes, and the others read: nobody else's text can reach it, and its
   * own comes back as it was sent.
   */
  ghost predicate Solo(w: World, x: nat)
  {
    x < |w.clients| && (forall i :: 0 <= i < |w.clients| && i != x ==> Reader(w.clients[i])) && var c := w.clients[x];
    && !c.s.removing && (c.up.Some? ==> c.up.value.edits != [] && c.base == |w.log| - 1)
    && (if c.got == 0 then |w.log| == 1
        else if c.s.flight == 0 || c.up.Some? then c.got == |w.log|
        else c.got == c.at == |w.log| - 1 && w.log[c.at].text == c.s.sent)
  }

  /** A step of a run where only `x` types, and nobody removes. */
  predicate BySolo(step: Step, x: nat)
  {
    !step.Erase? && (step.Type? ==> step.i == x)
  }

  lemma SoloFlushStays(setting: Setting, w: World, x: nat, n: nat)
    requires Inv(setting, w) && Solo(w, x) && Enabled(w, Flush(x, n))
    ensures Solo(Take(setting, w, Flush(x, n)), x)
  {
    assert ClientOk(w.log, x, setting.names[x], setting.column, w.clients[x]);
  }

  lemma SoloServeStays(setting: Setting, w: World, x: nat)
    requires Inv(setting, w) && Solo(w, x) && Enabled(w, Serve(x))
    ensures Solo(Take(setting, w, Serve(x)), x)
  {
    assert ClientOk(w.log, x, setting.names[x], setting.column, w.clients[x]);
  }

  lemma SoloDeliverStays(setting: Setting, w: World, x: nat)
    requires Inv(setting, w) && Solo(w, x) && Enabled(w, Deliver(x))
    ensures Solo(Take(setting, w, Deliver(x)), x)
  {
    assert ClientOk(w.log, x, setting.names[x], setting.column, w.clients[x]);
  }

  lemma ReaderStays(c: Client, v: Version, name: string)
    requires Reader(c)
    ensures Reader(Delivered(c, v, name))
  {
  }

  lemma SoloStays(setting: Setting, w: World, x: nat, step: Step)
    requires Inv(setting, w) && Solo(w, x) && Enabled(w, step) && BySolo(step, x)
    ensures Solo(Take(setting, w, step), x)
  {
    if step.i != x {
      assert Reader(w.clients[step.i]);
      ReaderStays(w.clients[step.i], w.log[w.clients[step.i].got], setting.names[step.i]);
    } else {
      match step
      case Flush(_, n) => SoloFlushStays(setting, w, x, n);
      case Serve(_) => SoloServeStays(setting, w, x);
      case Deliver(_) => SoloDeliverStays(setting, w, x);
      case Type(_, _, _) =>
    }
  }

  /** With a single writer, what comes back from the server never changes what is on its screen. */
  lemma SoloPumpKeepsLocal(setting: Setting, w: World, x: nat)
    requires Inv(setting, w) && Solo(w, x) && Enabled(w, Deliver(x)) && w.clients[x].s.present
    ensures Take(setting, w, Deliver(x)).clients[x].s.local == w.clients[x].s.local
  {
    assert ClientOk(w.log, x, setting.names[x], setting.column, w.clients[x]);
  }

  lemma StartIsSolo(setting: Setting, w: World, x: nat)
    requires Start(setting, w) && x < |w.clients|
    ensures Solo(w, x)
  {
  }

  lemma {:induction false} SoloRunsStaySolo(setting: Setting, w: World, x: nat, steps: seq<Step>)
    requires Inv(setting, w) && Solo(w, x) && Legal(setting, w, steps) && forall k :: 0 <= k < |steps| ==> BySolo(steps[k], x)
    ensures Inv(setting, Run(setting, w, steps)) && Solo(Run(setting, w, steps), x)
    decreases |steps|
  {
    if steps != [] {
      StepKeepsInv(setting, w, steps[0]);
      SoloStays(setting, w, x, steps[0]);
      SoloRunsStaySolo(setting, Take(setting, w, steps[0]), x, steps[1..]);
    }
  }

  /**
   * In every run from a fresh start where one client types and any others only read, without removes,
   * no delivery ever changes what is on the writer's screen.
   */
  lemma SoloWriterIsNeverDisturbed(setting: Setting, w: World, x: nat, steps: seq<Step>)
    requires Start(setting, w) && x < |w.clients|
    requires Legal(setting, w, steps) && forall k :: 0 <= k < |steps| ==> BySolo(steps[k], x)
    ensures var w' := Run(setting, w, steps);
            Inv(setting, w') &&
            (Enabled(w', Deliver(x)) && w'.clients[x].s.present ==>
               Take(setting, w', Deliver(x)).clients[x].s.local == w'.clients[x].s.local)
  {
    StartIsOk(setting, w);
    StartIsSolo(setting, w, x);
    SoloRunsStaySolo(setting, w, x, steps);
    var w' := Run(setting, w, steps);
    if Enabled(w', Deliver(x)) && w'.clients[x].s.present {
      SoloPumpKeepsLocal(setting, w', x);
    }
  }
}
