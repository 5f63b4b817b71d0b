/** Reverting a write is the same as never having made it (src/client/store.ts). */
module StoreLaws {
  import opened Conflict
  import opened Ops
  import opened Options
  import opened Store

  /** The visible row after a write, from the visible row before it. */
  function Shows(metas: Metas, row: Option<LocalRow>, op: ClientOp): Option<LocalRow>
  {
    Visible(Optimistic(metas, row, op))
  }

  /** A tombstone and no row at all show the same after any write. */
  lemma OnlyVisibleMatters(metas: Metas, entry: Option<LocalRow>, op: ClientOp)
    ensures Visible(Optimistic(metas, entry, op)) == Shows(metas, Visible(entry), op)
  {
  }

  /** The visible row after every still-pending write of `key`, in order, from `base`. */
  function Fold(metas: Metas, ps: seq<PendingOp>, key: Key, base: Option<LocalRow>): Option<LocalRow>
  {
    if ps == [] then base
    else
      var row, p := Fold(metas, ps[..|ps| - 1], key, base), ps[|ps| - 1];
      if KeyOf(p.op) == key && p.status.Pending? then Shows(metas, row, p.op) else row
  }

  /** Each tracked write of `key` remembers exactly what the writes before it had shown. */
  ghost predicate Remembers(metas: Metas, ps: seq<PendingOp>, key: Key, base: Option<LocalRow>)
  {
    ps == [] ||
    var init, p := ps[..|ps| - 1], ps[|ps| - 1];
    Remembers(metas, init, key, base) && (KeyOf(p.op) == key ==> p.pre == Fold(metas, init, key, base))
  }

  /** What the tracked writes of a row were made on: what the earliest remembers, else the row itself. */
  function BaseOf(s: State, key: Key): Option<LocalRow>
  {
    var first := First(s.pending, key);
    if first.Some? then first.value.pre else At(s, key)
  }

  /** The row shows its base with every pending write on top, and each write remembers its own start. */
  ghost predicate RowOk(s: State, key: Key)
  {
    && Remembers(s.metas, s.pending, key, BaseOf(s, key))
    && At(s, key) == Fold(s.metas, s.pending, key, BaseOf(s, key))
  }

  /** Operation ids are unique, and nothing remembered is a tombstone. */
  ghost predicate Sane(ps: seq<PendingOp>)
  {
    UniqueIds(ps) && RemembersRows(ps)
  }

  ghost predicate Ok(s: State)
  {
    Sane(s.pending) && forall key :: RowOk(s, key)
  }

  lemma {:induction false} FoldIsVisible(metas: Metas, ps: seq<PendingOp>, key: Key, base: Option<LocalRow>)
    requires Visible(base) == base
    ensures Visible(Fold(metas, ps, key, base)) == Fold(metas, ps, key, base)
  {
    if ps != [] {
      FoldIsVisible(metas, ps[..|ps| - 1], key, base);
    }
  }

  lemma {:induction false} FirstSnoc(ps: seq<PendingOp>, p: PendingOp, key: Key)
    ensures First(ps + [p], key) == if First(ps, key).Some? then First(ps, key) else if KeyOf(p.op) == key then Some(p) else None
    decreases |ps|
  {
    if ps == [] {
      assert (ps + [p])[1..] == [];
    } else {
      FirstSnoc(ps[1..], p, key);
      assert (ps + [p])[1..] == ps[1..] + [p];
    }
  }

  lemma {:induction false} NoneTrackedFold(metas: Metas, ps: seq<PendingOp>, key: Key, base: Option<LocalRow>)
    requires First(ps, key).None?
    ensures Fold(metas, ps, key, base) == base && Remembers(metas, ps, key, base)
    decreases |ps|
  {
    if ps != [] {
      var init, p := ps[..|ps| - 1], ps[|ps| - 1];
      assert ps == init + [p];
      FirstSnoc(init, p, key);
      NoneTrackedFold(metas, init, key, base);
    }
  }

  // ---- Local writes

  lemma WriteElsewhere(s: State, op: ClientOp, key: Key)
    requires RowOk(s, key) && KeyOf(op) != key
    ensures RowOk(Written(s, op), key) && At(Written(s, op), key) == At(s, key) && BaseOf(Written(s, op), key) == BaseOf(s, key)
  {
    var p := PendingOp(op, Pending, At(s, KeyOf(op)));
    FirstSnoc(s.pending, p, key);
    assert (s.pending + [p])[..|s.pending|] == s.pending;
  }

  lemma WriteHere(s: State, op: ClientOp)
    requires RowOk(s, KeyOf(op))
    ensures RowOk(Written(s, op), KeyOf(op)) && At(Written(s, op), KeyOf(op)) == Shows(s.metas, At(s, KeyOf(op)), op)
    ensures BaseOf(Written(s, op), KeyOf(op)) == BaseOf(s, KeyOf(op))
  {
    var key := KeyOf(op);
    var p := PendingOp(op, Pending, At(s, key));
    FirstSnoc(s.pending, p, key);
    if First(s.pending, key).None? {
      NoneTrackedFold(s.metas, s.pending, key, At(s, key));
    }
    assert (s.pending + [p])[..|s.pending|] == s.pending;
    OnlyVisibleMatters(s.metas, EntryAt(s.rows, key), op);
  }

  /** A local write keeps every row in order, and changes no row but its own. */
  lemma WriteOk(s: State, op: ClientOp)
    requires Ok(s) && forall i :: 0 <= i < |s.pending| ==> s.pending[i].op.id != op.id
    ensures Ok(Written(s, op))
    ensures forall key :: At(Written(s, op), key)
              == if key == KeyOf(op) then Shows(s.metas, At(s, key), op) else At(s, key)
  {
    forall key
      ensures RowOk(Written(s, op), key)
      ensures At(Written(s, op), key) == if key == KeyOf(op) then Shows(s.metas, At(s, key), op) else At(s, key)
    {
      if key == KeyOf(op) {
        WriteHere(s, op);
      } else {
        WriteElsewhere(s, op, key);
      }
    }
  }

  // ---- Reverts

  /** Replaying leaves other rows' writes alone, and its own row with the writes but the reverted one. */
  lemma {:induction false} ReplayOk(metas: Metas, ps: seq<PendingOp>, key: Key, id: string, base: Option<LocalRow>)
    ensures var (out, entry) := Replay(metas, ps, key, id, base);
            && Visible(entry) == Fold(metas, out, key, Visible(base))
            && Remembers(metas, out, key, Visible(base))
    decreases |ps|
  {
    if ps != [] {
      var init, p := ps[..|ps| - 1], ps[|ps| - 1];
      var (out0, entry0) := Replay(metas, init, key, id, base);
      ReplayOk(metas, init, key, id, base);
      var (out, entry) := Replay(metas, ps, key, id, base);
      if |out| > |out0| {
        assert out[..|out| - 1] == out0;
        OnlyVisibleMatters(metas, entry0, p.op);
      }
    }
  }

  /** Without one of them, a row's pending writes in order. */
  function Except(ps: seq<PendingOp>, id: string): seq<PendingOp>
  {
    if ps == [] then []
    else Except(ps[..|ps| - 1], id) + if ps[|ps| - 1].op.id == id then [] else [ps[|ps| - 1]]
  }

  /** The same writes with the same standing, whatever they remember. */
  ghost predicate SameWrites(ps: seq<PendingOp>, qs: seq<PendingOp>)
  {
    |ps| == |qs| && forall i :: 0 <= i < |ps| ==> ps[i].op == qs[i].op && ps[i].status == qs[i].status
  }

  lemma {:induction false} SameWritesFold(metas: Metas, ps: seq<PendingOp>, qs: seq<PendingOp>, key: Key, base: Option<LocalRow>)
    requires SameWrites(ps, qs)
    ensures Fold(metas, ps, key, base) == Fold(metas, qs, key, base)
    decreases |ps|
  {
    if ps != [] {
      SameWritesFold(metas, ps[..|ps| - 1], qs[..|qs| - 1], key, base);
    }
  }

  lemma {:induction false} ReplayKeepsWrites(metas: Metas, ps: seq<PendingOp>, key: Key, id: string, base: Option<LocalRow>)
    requires forall i :: 0 <= i < |ps| && ps[i].op.id == id ==> KeyOf(ps[i].op) == key
    ensures SameWrites(Replay(metas, ps, key, id, base).0, Except(ps, id))
    decreases |ps|
  {
    if ps != [] {
      ReplayKeepsWrites(metas, ps[..|ps| - 1], key, id, base);
    }
  }

  /** One more tracked write replayed: left out, or kept with its operation and standing. */
  lemma ReplaySnoc(metas: Metas, ps: seq<PendingOp>, key: Key, id: string, base: Option<LocalRow>,
                   out0: seq<PendingOp>, out: seq<PendingOp>, p: PendingOp)
    requires ps != [] && p == ps[|ps| - 1]
    requires out0 == Replay(metas, ps[..|ps| - 1], key, id, base).0 && out == Replay(metas, ps, key, id, base).0
    ensures if KeyOf(p.op) == key then out == out0 || exists last :: out == out0 + [last] && last.op == p.op
            else out == out0 + [p]
  {
    if KeyOf(p.op) == key && p.op.id != id {
      var last := out[|out| - 1];
      assert out == out0 + [last] && last.op == p.op;
    }
  }

  /** A write of another row changes nothing of how this row's are folded or remembered. */
  lemma OtherRowSnoc(metas: Metas, out0: seq<PendingOp>, last: PendingOp, other: Key, b: Option<LocalRow>)
    requires KeyOf(last.op) != other
    ensures var out := out0 + [last];
            && First(out, other) == First(out0, other) && Fold(metas, out, other, b) == Fold(metas, out0, other, b)
            && (Remembers(metas, out, other, b) <==> Remembers(metas, out0, other, b))
  {
    FirstSnoc(out0, last, other);
    assert (out0 + [last])[..|out0|] == out0;
  }

  /** The same write added to queues that agree on this row leaves them agreeing. */
  lemma SameSnoc(metas: Metas, out0: seq<PendingOp>, init: seq<PendingOp>, p: PendingOp, other: Key, b: Option<LocalRow>)
    requires First(out0, other) == First(init, other) && Fold(metas, out0, other, b) == Fold(metas, init, other, b)
    requires Remembers(metas, out0, other, b) <==> Remembers(metas, init, other, b)
    ensures var out, ps := out0 + [p], init + [p];
            && First(out, other) == First(ps, other) && Fold(metas, out, other, b) == Fold(metas, ps, other, b)
            && (Remembers(metas, out, other, b) <==> Remembers(metas, ps, other, b))
  {
    FirstSnoc(out0, p, other);
    FirstSnoc(init, p, other);
    assert (out0 + [p])[..|out0|] == out0 && (init + [p])[..|init|] == init;
  }

  /** To other rows, the replayed queue is the same queue. */
  lemma {:induction false} ReplayElsewhere(metas: Metas, ps: seq<PendingOp>, key: Key, id: string, base: Option<LocalRow>,
                                           other: Key, b: Option<LocalRow>)
    requires other != key
    ensures var out := Replay(metas, ps, key, id, base).0;
            && First(out, other) == First(ps, other)
            && Fold(metas, out, other, b) == Fold(metas, ps, other, b)
            && (Remembers(metas, out, other, b) <==> Remembers(metas, ps, other, b))
    decreases |ps|
  {
    if ps != [] {
      var init, p := ps[..|ps| - 1], ps[|ps| - 1];
      var out0, out := Replay(metas, init, key, id, base).0, Replay(metas, ps, key, id, base).0;
      ReplayElsewhere(metas, init, key, id, base, other, b);
      ReplaySnoc(metas, ps, key, id, base, out0, out, p);
      assert ps == init + [p];
      if KeyOf(p.op) == key {
        OtherRowSnoc(metas, init, p, other, b);
        if last :| out == out0 + [last] && last.op == p.op {
          OtherRowSnoc(metas, out0, last, other, b);
        }
      } else {
        SameSnoc(metas, out0, init, p, other, b);
      }
    }
  }

  lemma {:induction false} FirstRemembers(metas: Metas, ps: seq<PendingOp>, key: Key, base: Option<LocalRow>)
    requires Remembers(metas, ps, key, base)
    ensures First(ps, key).Some? ==> First(ps, key).value.pre == base
    ensures First(ps, key).None? ==> Fold(metas, ps, key, base) == base
    decreases |ps|
  {
    if ps != [] {
      var init, p := ps[..|ps| - 1], ps[|ps| - 1];
      assert ps == init + [p];
      FirstSnoc(init, p, key);
      FirstRemembers(metas, init, key, base);
    }
  }

  lemma {:induction false} FindIs(ps: seq<PendingOp>, id: string, i: nat)
    requires i < |ps| && ps[i].op.id == id && UniqueIds(ps)
    ensures Find(ps, id) == Some(ps[i])
    decreases |ps|
  {
    if i > 0 {
      FindIs(ps[1..], id, i - 1);
    }
  }

  lemma {:induction false} FirstExists(ps: seq<PendingOp>, key: Key, i: nat)
    requires i < |ps| && KeyOf(ps[i].op) == key
    ensures First(ps, key).Some?
    ensures exists j :: 0 <= j < |ps| && First(ps, key).value == ps[j]
    decreases |ps|
  {
    if KeyOf(ps[0].op) != key {
      FirstExists(ps[1..], key, i - 1);
      var j :| 0 <= j < |ps[1..]| && First(ps[1..], key).value == ps[1..][j];
      assert ps[j + 1] == ps[1..][j];
    }
  }

  /**
   * The row of a reverted write, rebuilt: its base (the server's row if it sent one, else what its
   * earliest tracked write was made on) with every other pending write on top, each remembering its
   * start. This needs nothing of how the row looked before.
   */
  lemma RevertRebuilds(s: State, i: nat, serverRow: Option<Row>) returns (base: Option<LocalRow>)
    requires Sane(s.pending) && i < |s.pending|
    ensures var id, key := s.pending[i].op.id, KeyOf(s.pending[i].op); var s' := Reverted(s, id, serverRow);
            && First(s.pending, key).Some? && (serverRow.None? ==> base == First(s.pending, key).value.pre)
            && (serverRow.Some? ==> base.Some? && base.value.data == serverRow)
            && At(s', key) == Fold(s.metas, Except(s.pending, id), key, base)
            && Remembers(s.metas, s'.pending, key, base) && RowOk(s', key)
            && SameWrites(s'.pending, Except(s.pending, id)) && s'.metas == s.metas
  {
    var id, key := s.pending[i].op.id, KeyOf(s.pending[i].op);
    FindIs(s.pending, id, i);
    FirstExists(s.pending, key, i);
    var first := First(s.pending, key).value;
    var entry0 := RevertBase(s, key, first, serverRow);
    base := Visible(entry0);
    ReplayOk(s.metas, s.pending, key, id, entry0);
    ReplayKeepsWrites(s.metas, s.pending, key, id, entry0);
    var s' := Reverted(s, id, serverRow);
    SameWritesFold(s.metas, s'.pending, Except(s.pending, id), key, base);
    FirstRemembers(s.metas, s'.pending, key, base);
  }

  /** A revert changes no other row, nor what is tracked for it. */
  lemma RevertElsewhere(s: State, i: nat, serverRow: Option<Row>, other: Key, b: Option<LocalRow>)
    requires Sane(s.pending) && i < |s.pending| && other != KeyOf(s.pending[i].op)
    ensures var s' := Reverted(s, s.pending[i].op.id, serverRow);
            && At(s', other) == At(s, other) && First(s'.pending, other) == First(s.pending, other)
            && Fold(s.metas, s'.pending, other, b) == Fold(s.metas, s.pending, other, b)
            && (Remembers(s.metas, s'.pending, other, b) <==> Remembers(s.metas, s.pending, other, b))
  {
    var id, key := s.pending[i].op.id, KeyOf(s.pending[i].op);
    FindIs(s.pending, id, i);
    FirstExists(s.pending, key, i);
    ReplayElsewhere(s.metas, s.pending, key, id, RevertBase(s, key, First(s.pending, key).value, serverRow), other, b);
  }

  lemma {:induction false} ExceptFrom(ps: seq<PendingOp>, id: string, i: nat) returns (k: nat)
    requires i < |Except(ps, id)|
    ensures k < |ps| && Except(ps, id)[i] == ps[k] && ps[k].op.id != id
    decreases |ps|
  {
    k := |ps| - 1;
    if i < |Except(ps[..|ps| - 1], id)| {
      k := ExceptFrom(ps[..|ps| - 1], id, i);
    }
  }

  ghost predicate UniqueIds(ps: seq<PendingOp>)
  {
    forall i, j :: 0 <= i < j < |ps| ==> ps[i].op.id != ps[j].op.id
  }

  lemma {:induction false} ExceptIsUnique(ps: seq<PendingOp>, id: string)
    requires UniqueIds(ps)
    ensures UniqueIds(Except(ps, id))
    decreases |ps|
  {
    if ps != [] {
      var init, p := ps[..|ps| - 1], ps[|ps| - 1];
      ExceptIsUnique(init, id);
      forall i | 0 <= i < |Except(init, id)| ensures Except(init, id)[i].op.id != p.op.id {
        var k := ExceptFrom(init, id, i);
        assert ps[k].op.id != ps[|ps| - 1].op.id;
      }
    }
  }

  ghost predicate RemembersRows(ps: seq<PendingOp>)
  {
    forall i :: 0 <= i < |ps| ==> Visible(ps[i].pre) == ps[i].pre
  }

  lemma {:induction false} ReplayStaysSane(metas: Metas, ps: seq<PendingOp>, key: Key, id: string, base: Option<LocalRow>)
    requires RemembersRows(ps)
    ensures RemembersRows(Replay(metas, ps, key, id, base).0)
    decreases |ps|
  {
    if ps != [] {
      var init, p := ps[..|ps| - 1], ps[|ps| - 1];
      assert Visible(p.pre) == p.pre && RemembersRows(init);
      ReplayStaysSane(metas, init, key, id, base);
    }
  }

  lemma SameWritesUnique(ps: seq<PendingOp>, qs: seq<PendingOp>)
    requires SameWrites(ps, qs) && UniqueIds(qs)
    ensures UniqueIds(ps)
  {
    forall i, j | 0 <= i < j < |ps| ensures ps[i].op.id != ps[j].op.id {
      assert ps[i].op == qs[i].op && ps[j].op == qs[j].op;
    }
  }

  lemma RevertStaysSane(s: State, i: nat, serverRow: Option<Row>)
    requires Sane(s.pending) && i < |s.pending|
    ensures Sane(Reverted(s, s.pending[i].op.id, serverRow).pending)
  {
    var id, key := s.pending[i].op.id, KeyOf(s.pending[i].op);
    FindIs(s.pending, id, i);
    FirstExists(s.pending, key, i);
    var entry := RevertBase(s, key, First(s.pending, key).value, serverRow);
    ReplayStaysSane(s.metas, s.pending, key, id, entry);
    ReplayKeepsWrites(s.metas, s.pending, key, id, entry);
    ExceptIsUnique(s.pending, id);
    SameWritesUnique(Replay(s.metas, s.pending, key, id, entry).0, Except(s.pending, id));
  }

  /** A revert keeps every row in order, whichever write it takes back. */
  lemma RevertOk(s: State, i: nat, serverRow: Option<Row>)
    requires Ok(s) && i < |s.pending|
    ensures Ok(Reverted(s, s.pending[i].op.id, serverRow))
  {
    var s' := Reverted(s, s.pending[i].op.id, serverRow);
    RevertStaysSane(s, i, serverRow);
    forall key ensures RowOk(s', key) {
      var base := RevertRebuilds(s, i, serverRow);
      if key != KeyOf(s.pending[i].op) {
        RevertElsewhere(s, i, serverRow, key, BaseOf(s, key));
        assert RowOk(s, key);
      }
    }
  }

  // ---- Acknowledgements

  /** Per row, what is acknowledged are the earliest of its tracked writes. */
  ghost predicate PrefixAcked(ps: seq<PendingOp>, ids: set<string>)
  {
    forall i, j :: 0 <= i < j < |ps| && KeyOf(ps[i].op) == KeyOf(ps[j].op) && ps[j].op.id in ids ==> ps[i].op.id in ids
  }

  /** The base of the writes left: what the earliest left remembers, else everything acknowledged. */
  function AckedBase(metas: Metas, ps: seq<PendingOp>, ids: set<string>, key: Key, base: Option<LocalRow>): Option<LocalRow>
  {
    var first := First(Unacked(ps, ids), key);
    if first.Some? then first.value.pre else Fold(metas, ps, key, base)
  }

  lemma {:induction false} AckedNothingLeft(ps: seq<PendingOp>, p: PendingOp, ids: set<string>)
    requires PrefixAcked(ps + [p], ids) && p.op.id in ids
    ensures First(Unacked(ps, ids), KeyOf(p.op)).None?
    decreases |ps|
  {
    if ps != [] {
      var init, q := ps[..|ps| - 1], ps[|ps| - 1];
      assert (ps + [p])[|ps|] == p && (ps + [p])[|ps| - 1] == q;
      forall i, j | 0 <= i < j < |init + [p]| && KeyOf((init + [p])[i].op) == KeyOf((init + [p])[j].op) && (init + [p])[j].op.id in ids
        ensures (init + [p])[i].op.id in ids
      {
        assert (init + [p])[i] == (ps + [p])[i];
        assert (init + [p])[j] == (ps + [p])[if j == |init| then |ps| else j];
      }
      AckedNothingLeft(init, p, ids);
      assert Unacked(init, ids) + [] == Unacked(init, ids);
      FirstSnoc(Unacked(init, ids), q, KeyOf(p.op));
    }
  }

  /** The writes left fold, from their own base, to what all of them folded to. */
  ghost predicate AckedFine(metas: Metas, ps: seq<PendingOp>, ids: set<string>, key: Key, base: Option<LocalRow>)
  {
    var us, b := Unacked(ps, ids), AckedBase(metas, ps, ids, key, base);
    Remembers(metas, us, key, b) && Fold(metas, us, key, b) == Fold(metas, ps, key, base)
  }

  lemma AckKeptOne(metas: Metas, ps: seq<PendingOp>, p: PendingOp, ids: set<string>, key: Key, base: Option<LocalRow>)
    requires AckedFine(metas, ps, ids, key, base) && p.op.id !in ids
    requires KeyOf(p.op) == key ==> p.pre == Fold(metas, ps, key, base)
    ensures AckedFine(metas, ps + [p], ids, key, base)
  {
    var us := Unacked(ps, ids);
    assert (ps + [p])[..|ps|] == ps && (us + [p])[..|us|] == us;
    FirstSnoc(us, p, key);
    if First(us, key).None? {
      NoneTrackedFold(metas, us, key, Fold(metas, ps, key, base));
    }
  }

  lemma AckDroppedOne(metas: Metas, ps: seq<PendingOp>, p: PendingOp, ids: set<string>, key: Key, base: Option<LocalRow>)
    requires AckedFine(metas, ps, ids, key, base) && p.op.id in ids
    requires KeyOf(p.op) == key ==> First(Unacked(ps, ids), key).None?
    ensures AckedFine(metas, ps + [p], ids, key, base)
  {
    var us := Unacked(ps, ids);
    assert (ps + [p])[..|ps|] == ps && us + [] == us;
    if KeyOf(p.op) == key {
      NoneTrackedFold(metas, us, key, Fold(metas, ps + [p], key, base));
    }
  }

  lemma {:induction false} AckKeepsFold(metas: Metas, ps: seq<PendingOp>, ids: set<string>, key: Key, base: Option<LocalRow>)
    requires PrefixAcked(ps, ids) && Remembers(metas, ps, key, base)
    ensures AckedFine(metas, ps, ids, key, base)
    decreases |ps|
  {
    if ps != [] {
      var init, p := ps[..|ps| - 1], ps[|ps| - 1];
      assert ps == init + [p];
      AckKeepsFold(metas, init, ids, key, base);
      if p.op.id !in ids {
        AckKeptOne(metas, init, p, ids, key, base);
      } else {
        AckedNothingLeft(init, p, ids);
        AckDroppedOne(metas, init, p, ids, key, base);
      }
    }
  }

  lemma {:induction false} UnackedFrom(ps: seq<PendingOp>, ids: set<string>, i: nat) returns (k: nat)
    requires i < |Unacked(ps, ids)|
    ensures k < |ps| && Unacked(ps, ids)[i] == ps[k]
    decreases |ps|
  {
    k := |ps| - 1;
    if i < |Unacked(ps[..|ps| - 1], ids)| {
      k := UnackedFrom(ps[..|ps| - 1], ids, i);
    }
  }

  lemma {:induction false} UnackedIsSane(ps: seq<PendingOp>, ids: set<string>)
    requires Sane(ps)
    ensures Sane(Unacked(ps, ids))
    decreases |ps|
  {
    if ps != [] {
      var init, p := ps[..|ps| - 1], ps[|ps| - 1];
      assert RemembersRows(init) && Visible(p.pre) == p.pre;
      UnackedIsSane(init, ids);
      forall i | 0 <= i < |Unacked(init, ids)| ensures Unacked(init, ids)[i].op.id != p.op.id {
        var k := UnackedFrom(init, ids, i);
        assert ps[k].op.id != ps[|ps| - 1].op.id;
      }
    }
  }

  /** Acknowledging the earliest writes of each row changes nothing on screen and keeps every row in order. */
  lemma AckOk(s: State, ids: set<string>)
    requires Ok(s) && PrefixAcked(s.pending, ids)
    ensures var s' := s.(pending := Unacked(s.pending, ids)); Ok(s') && s'.rows == s.rows
  {
    var s' := s.(pending := Unacked(s.pending, ids));
    UnackedIsSane(s.pending, ids);
    forall key ensures RowOk(s', key) {
      assert RowOk(s, key);
      AckKeepsFold(s.metas, s.pending, ids, key, BaseOf(s, key));
    }
  }

  // ---- As if never written

  function WriteAll(s: State, ops: seq<ClientOp>): State
  {
    if ops == [] then s else Written(WriteAll(s, ops[..|ops| - 1]), ops[|ops| - 1])
  }

  /** None of the operations has an id already in use. */
  ghost predicate FreshIds(ps: seq<PendingOp>, ops: seq<ClientOp>)
  {
    && (forall i, j :: 0 <= i < |ps| && 0 <= j < |ops| ==> ps[i].op.id != ops[j].id)
    && (forall i, j :: 0 <= i < j < |ops| ==> ops[i].id != ops[j].id)
  }

  /** Local writes are queued behind what was tracked, in order. */
  lemma {:induction false} WriteAllQueues(s: State, ops: seq<ClientOp>)
    ensures WriteAll(s, ops).metas == s.metas && |WriteAll(s, ops).pending| == |s.pending| + |ops|
    ensures forall i :: 0 <= i < |s.pending| ==> WriteAll(s, ops).pending[i] == s.pending[i]
    ensures forall i :: 0 <= i < |ops| ==>
              WriteAll(s, ops).pending[|s.pending| + i].op == ops[i] && WriteAll(s, ops).pending[|s.pending| + i].status.Pending?
    decreases |ops|
  {
    if ops != [] {
      var init, op := ops[..|ops| - 1], ops[|ops| - 1];
      var t := WriteAll(s, init);
      WriteAllQueues(s, init);
      assert WriteAll(s, ops).pending == t.pending + [PendingOp(op, Pending, At(t, KeyOf(op)))];
      forall i | 0 <= i < |ops|
        ensures WriteAll(s, ops).pending[|s.pending| + i].op == ops[i] && WriteAll(s, ops).pending[|s.pending| + i].status.Pending?
      {
        if i < |init| {
          assert t.pending[|s.pending| + i].op == init[i];
        }
      }
    }
  }

  lemma {:induction false} WriteAllOk(s: State, ops: seq<ClientOp>)
    requires Ok(s) && FreshIds(s.pending, ops)
    ensures Ok(WriteAll(s, ops))
    ensures forall key :: BaseOf(WriteAll(s, ops), key) == BaseOf(s, key)
    decreases |ops|
  {
    if ops != [] {
      var init, op := ops[..|ops| - 1], ops[|ops| - 1];
      var t := WriteAll(s, init);
      WriteAllOk(s, init);
      WriteAllQueues(s, init);
      forall i | 0 <= i < |t.pending| ensures t.pending[i].op.id != op.id {
        if i >= |s.pending| {
          assert t.pending[|s.pending| + (i - |s.pending|)].op == init[i - |s.pending|];
        }
      }
      WriteOk(t, op);
      forall key ensures BaseOf(Written(t, op), key) == BaseOf(t, key) {
        if key == KeyOf(op) {
          WriteHere(t, op);
        } else {
          WriteElsewhere(t, op, key);
        }
      }
    }
  }

  lemma {:induction false} ExceptOne(ps: seq<PendingOp>, i: nat)
    requires i < |ps| && UniqueIds(ps)
    ensures Except(ps, ps[i].op.id) == ps[..i] + ps[i + 1..]
    decreases |ps|
  {
    var init, p := ps[..|ps| - 1], ps[|ps| - 1];
    if i < |ps| - 1 {
      ExceptOne(init, i);
      assert init[..i] + init[i + 1..] + [p] == ps[..i] + ps[i + 1..];
    } else {
      ExceptNone(init, p.op.id);
      assert init == ps[..i] + ps[i + 1..];
    }
  }

  lemma {:induction false} ExceptNone(ps: seq<PendingOp>, id: string)
    requires forall i :: 0 <= i < |ps| ==> ps[i].op.id != id
    ensures Except(ps, id) == ps
    decreases |ps|
  {
    if ps != [] {
      ExceptNone(ps[..|ps| - 1], id);
      assert ps == ps[..|ps| - 1] + [ps[|ps| - 1]];
    }
  }

  /**
   * Taking a write back, after any further writes to any rows, leaves every row as if it had never
   * been made.
   */
  lemma RevertIsNeverWritten(s: State, op: ClientOp, later: seq<ClientOp>)
    requires Ok(s) && FreshIds(s.pending, [op] + later)
    ensures forall key :: At(Reverted(WriteAll(s, [op] + later), op.id, None), key) == At(WriteAll(s, later), key)
  {
    assert FreshIds(s.pending, later) by {
      assert forall j :: 0 <= j < |later| ==> later[j] == ([op] + later)[j + 1];
    }
    var with_, without := WriteAll(s, [op] + later), WriteAll(s, later);
    WriteAllOk(s, [op] + later);
    WriteAllQueues(s, [op] + later);
    WriteAllOk(s, later);
    WriteAllQueues(s, later);
    var i := |s.pending|;
    assert ([op] + later)[0] == op;
    assert with_.pending[i + 0].op == op;
    ExceptOne(with_.pending, i);
    LeftOutOne(s, op, later);
    forall key ensures At(Reverted(with_, op.id, None), key) == At(without, key) {
      assert RowOk(with_, key) && RowOk(without, key) && BaseOf(with_, key) == BaseOf(without, key) == BaseOf(s, key);
      SameWritesFold(s.metas, Except(with_.pending, op.id), without.pending, key, BaseOf(s, key));
      RevertShows(with_, i, key);
    }
  }

  /** After a revert without a server row, each row shows its base with the other pending writes on top. */
  lemma RevertShows(s: State, i: nat, key: Key)
    requires Ok(s) && i < |s.pending|
    ensures At(Reverted(s, s.pending[i].op.id, None), key) == Fold(s.metas, Except(s.pending, s.pending[i].op.id), key, BaseOf(s, key))
  {
    assert RowOk(s, key);
    if key == KeyOf(s.pending[i].op) {
      var base := RevertRebuilds(s, i, None);
    } else {
      RevertElsewhere(s, i, None, key, BaseOf(s, key));
      forall j | 0 <= j < |s.pending| && s.pending[j].op.id == s.pending[i].op.id ensures KeyOf(s.pending[j].op) != key {
        assert j == i;
      }
      ExceptElsewhere(s.metas, s.pending, s.pending[i].op.id, key, BaseOf(s, key));
    }
  }

  lemma LeftOutOne(s: State, op: ClientOp, later: seq<ClientOp>)
    requires Ok(s) && FreshIds(s.pending, [op] + later) && FreshIds(s.pending, later)
    ensures var ps, i := WriteAll(s, [op] + later).pending, |s.pending|;
            i < |ps| && SameWrites(ps[..i] + ps[i + 1..], WriteAll(s, later).pending)
  {
    WriteAllOk(s, [op] + later);
    WriteAllQueues(s, [op] + later);
    WriteAllOk(s, later);
    WriteAllQueues(s, later);
    var ps, qs, i := WriteAll(s, [op] + later).pending, WriteAll(s, later).pending, |s.pending|;
    forall k | 0 <= k < |qs| ensures ps[if k < i then k else k + 1].op == qs[k].op
      ensures ps[if k < i then k else k + 1].status == qs[k].status
    {
      LeftOutAt(s, op, later, k);
    }
    DropOne(ps, qs, i);
  }

  lemma LeftOutAt(s: State, op: ClientOp, later: seq<ClientOp>, k: nat)
    requires Ok(s) && FreshIds(s.pending, [op] + later) && FreshIds(s.pending, later)
    requires k < |s.pending| + |later|
    ensures var ps, qs, k' := WriteAll(s, [op] + later).pending, WriteAll(s, later).pending, if k < |s.pending| then k else k + 1;
            k < |qs| && k' < |ps| && ps[k'].op == qs[k].op && ps[k'].status == qs[k].status
  {
    var i := |s.pending|;
    WriteAllAt(s, later, k);
    WriteAllAt(s, [op] + later, if k < i then k else k + 1);
    if k >= i {
      assert ([op] + later)[k + 1 - i] == later[k - i];
    }
  }

  lemma WriteAllAt(s: State, ops: seq<ClientOp>, k: nat)
    requires Ok(s) && FreshIds(s.pending, ops) && k < |s.pending| + |ops|
    ensures var ps := WriteAll(s, ops).pending;
            && |ps| == |s.pending| + |ops|
            && (k < |s.pending| ==> ps[k] == s.pending[k])
            && (k >= |s.pending| ==> ps[k].op == ops[k - |s.pending|] && ps[k].status.Pending?)
  {
    WriteAllOk(s, ops);
    WriteAllQueues(s, ops);
    if k >= |s.pending| {
      assert WriteAll(s, ops).pending[|s.pending| + (k - |s.pending|)].op == ops[k - |s.pending|];
    }
  }

  lemma DropOne(ps: seq<PendingOp>, qs: seq<PendingOp>, i: nat)
    requires i < |ps| == |qs| + 1
    requires forall k :: 0 <= k < |qs| ==>
               ps[if k < i then k else k + 1].op == qs[k].op && ps[if k < i then k else k + 1].status == qs[k].status
    ensures SameWrites(ps[..i] + ps[i + 1..], qs)
  {
    var rs := ps[..i] + ps[i + 1..];
    forall k | 0 <= k < |rs| ensures rs[k].op == qs[k].op && rs[k].status == qs[k].status {
      assert rs[k] == ps[if k < i then k else k + 1];
    }
  }

  lemma {:induction false} ExceptElsewhere(metas: Metas, ps: seq<PendingOp>, id: string, key: Key, base: Option<LocalRow>)
    requires forall i :: 0 <= i < |ps| && ps[i].op.id == id ==> KeyOf(ps[i].op) != key
    ensures Fold(metas, Except(ps, id), key, base) == Fold(metas, ps, key, base)
    decreases |ps|
  {
    if ps != [] {
      var init, p := ps[..|ps| - 1], ps[|ps| - 1];
      ExceptElsewhere(metas, init, id, key, base);
      assert Except(init, id) + [] == Except(init, id);
      if p.op.id != id {
        assert (Except(init, id) + [p])[..|Except(init, id)|] == Except(init, id);
      }
    }
  }

  // ---- Whole runs

  datatype Event =
    | Write(op: ClientOp)
    | Ack(ids: set<string>)
    | Revert(id: string, serverRow: Option<Row>)

  /** New ids for new writes, and acknowledgements in the order the writes were made. */
  ghost predicate Allowed(s: State, e: Event)
  {
    match e
    case Write(op) => forall i :: 0 <= i < |s.pending| ==> s.pending[i].op.id != op.id
    case Ack(ids) => PrefixAcked(s.pending, ids)
    case Revert(_, _) => true
  }

  function After(s: State, e: Event): State
  {
    match e
    case Write(op) => Written(s, op)
    case Ack(ids) => s.(pending := Unacked(s.pending, ids))
    case Revert(id, serverRow) => Reverted(s, id, serverRow)
  }

  function AfterAll(s: State, events: seq<Event>): State
    decreases |events|
  {
    if events == [] then s else AfterAll(After(s, events[0]), events[1..])
  }

  ghost predicate AllowedAll(s: State, events: seq<Event>)
    decreases |events|
  {
    events == [] || (Allowed(s, events[0]) && AllowedAll(After(s, events[0]), events[1..]))
  }

  lemma {:induction false} FindGives(ps: seq<PendingOp>, id: string) returns (i: nat)
    ensures Find(ps, id).Some? ==> i < |ps| && ps[i].op.id == id
    decreases |ps|
  {
    i := 0;
    if ps != [] && ps[0].op.id != id {
      i := FindGives(ps[1..], id);
      i := i + 1;
    }
  }

  /**
   * In every run of local writes, acknowledgements and reverts, every row shows its base with its
   * pending writes on top, and every tracked write remembers exactly what it was applied on.
   */
  lemma {:induction false} RunsStayOk(s: State, events: seq<Event>)
    requires Ok(s) && AllowedAll(s, events)
    ensures Ok(AfterAll(s, events))
    decreases |events|
  {
    if events != [] {
      match events[0] {
        case Write(op) => WriteOk(s, op);
        case Ack(ids) => AckOk(s, ids);
        case Revert(id, serverRow) =>
          if Find(s.pending, id).Some? {
            var i := FindGives(s.pending, id);
            RevertOk(s, i, serverRow);
          }
      }
      RunsStayOk(After(s, events[0]), events[1..]);
    }
  }

  // ---- Rejecting a batch

  function RevertAll(s: State, ids: seq<string>): State
  {
    if ids == [] then s else Reverted(RevertAll(s, ids[..|ids| - 1]), ids[|ids| - 1], None)
  }

  function ExceptAll(ps: seq<PendingOp>, ids: seq<string>): seq<PendingOp>
  {
    if ids == [] then ps else Except(ExceptAll(ps, ids[..|ids| - 1]), ids[|ids| - 1])
  }

  /** The row's tracked writes start from `base`, whatever the row itself shows just now. */
  ghost predicate Starts(s: State, key: Key, base: Option<LocalRow>)
  {
    First(s.pending, key).Some? ==> First(s.pending, key).value.pre == base
  }

  ghost predicate GoodFrom(s: State, key: Key, base: Option<LocalRow>)
  {
    At(s, key) == Fold(s.metas, s.pending, key, base) && Remembers(s.metas, s.pending, key, base)
  }

  /** One of these reverts takes back a write of the row. */
  ghost predicate Touches(s: State, ids: seq<string>, key: Key)
  {
    ids != [] &&
    var init, found := ids[..|ids| - 1], Find(RevertAll(s, ids[..|ids| - 1]).pending, ids[|ids| - 1]);
    Touches(s, init, key) || (found.Some? && KeyOf(found.value.op) == key)
  }

  /** To this row, the two states are the same. */
  ghost predicate SameFor(s: State, t: State, key: Key, base: Option<LocalRow>)
  {
    && At(t, key) == At(s, key) && First(t.pending, key) == First(s.pending, key)
    && Fold(t.metas, t.pending, key, base) == Fold(s.metas, s.pending, key, base)
    && (Remembers(t.metas, t.pending, key, base) <==> Remembers(s.metas, s.pending, key, base))
    && (forall p :: p in s.pending && KeyOf(p.op) == key ==> p in t.pending)
  }

  lemma {:induction false} ReplayKeepsOthers(metas: Metas, ps: seq<PendingOp>, key: Key, id: string, base: Option<LocalRow>, p: PendingOp)
    requires p in ps && KeyOf(p.op) != key
    ensures p in Replay(metas, ps, key, id, base).0
    decreases |ps|
  {
    var init, last := ps[..|ps| - 1], ps[|ps| - 1];
    assert ps == init + [last];
    if p in init {
      ReplayKeepsOthers(metas, init, key, id, base, p);
    }
  }

  lemma RevertOne(s: State, id: string, key: Key, base: Option<LocalRow>)
    requires Sane(s.pending) && Starts(s, key, base)
    ensures var t, found := Reverted(s, id, None), Find(s.pending, id);
            && Sane(t.pending) && t.metas == s.metas && Starts(t, key, base)
            && SameWrites(t.pending, Except(s.pending, id))
            && (if found.Some? && KeyOf(found.value.op) == key then GoodFrom(t, key, base) else SameFor(s, t, key, base))
  {
    if Find(s.pending, id).Some? {
      var i := FindGives(s.pending, id);
      FindIs(s.pending, id, i);
      RevertStaysSane(s, i, None);
      var b := RevertRebuilds(s, i, None);
      if KeyOf(s.pending[i].op) == key {
        FirstRemembers(s.metas, Reverted(s, id, None).pending, key, base);
        SameWritesFold(s.metas, Reverted(s, id, None).pending, Except(s.pending, id), key, base);
      } else {
        RevertElsewhere(s, i, None, key, base);
        FirstExists(s.pending, KeyOf(s.pending[i].op), i);
        var first := First(s.pending, KeyOf(s.pending[i].op)).value;
        forall p | p in s.pending && KeyOf(p.op) == key ensures p in Reverted(s, id, None).pending {
          ReplayKeepsOthers(s.metas, s.pending, KeyOf(s.pending[i].op), id,
                            RevertBase(s, KeyOf(s.pending[i].op), first, None), p);
        }
      }
    } else {
      FindMisses(s.pending, id);
      ExceptNone(s.pending, id);
    }
  }

  lemma {:induction false} FindMisses(ps: seq<PendingOp>, id: string)
    requires Find(ps, id).None?
    ensures forall i :: 0 <= i < |ps| ==> ps[i].op.id != id
    decreases |ps|
  {
    if ps != [] {
      FindMisses(ps[1..], id);
      forall i | 0 <= i < |ps| ensures ps[i].op.id != id {
        if i > 0 { assert ps[i] == ps[1..][i - 1]; }
      }
    }
  }

  lemma {:induction false} RevertEach(s: State, ids: seq<string>, key: Key, base: Option<LocalRow>)
    requires Sane(s.pending) && Starts(s, key, base)
    ensures var t := RevertAll(s, ids);
            && Sane(t.pending) && t.metas == s.metas && Starts(t, key, base)
            && (if Touches(s, ids, key) then GoodFrom(t, key, base) else SameFor(s, t, key, base))
    decreases |ids|
  {
    if ids != [] {
      RevertEach(s, ids[..|ids| - 1], key, base);
      RevertOne(RevertAll(s, ids[..|ids| - 1]), ids[|ids| - 1], key, base);
    }
  }

  lemma {:induction false} ExceptSame(ps: seq<PendingOp>, qs: seq<PendingOp>, id: string)
    requires SameWrites(ps, qs)
    ensures SameWrites(Except(ps, id), Except(qs, id))
    decreases |ps|
  {
    if ps != [] {
      ExceptSame(ps[..|ps| - 1], qs[..|qs| - 1], id);
    }
  }

  lemma {:induction false} RevertEachDrops(s: State, ids: seq<string>)
    requires Sane(s.pending)
    ensures Sane(RevertAll(s, ids).pending) && SameWrites(RevertAll(s, ids).pending, ExceptAll(s.pending, ids))
    decreases |ids|
  {
    if ids != [] {
      var t, id := RevertAll(s, ids[..|ids| - 1]), ids[|ids| - 1];
      var key := Key("", "");
      RevertEachDrops(s, ids[..|ids| - 1]);
      RevertOne(t, id, key, if First(t.pending, key).Some? then First(t.pending, key).value.pre else None);
      ExceptSame(t.pending, ExceptAll(s.pending, ids[..|ids| - 1]), id);
    }
  }

  predicate InBatch(p: PendingOp, batchId: string) { p.op.batchId == Some(batchId) }

  /** The ids of a batch's pending writes, in order: the ones that get reverted. */
  function MemberIds(ps: seq<PendingOp>, batchId: string): seq<string>
  {
    if ps == [] then []
    else MemberIds(ps[..|ps| - 1], batchId) 
         + if InBatch(ps[|ps| - 1], batchId) && ps[|ps| - 1].status.Pending? then [ps[|ps| - 1].op.id] else []
  }

  /** The queue without the batch. */
  function Outside(ps: seq<PendingOp>, batchId: string): seq<PendingOp>
  {
    if ps == [] then []
    else Outside(ps[..|ps| - 1], batchId) + if InBatch(ps[|ps| - 1], batchId) then [] else [ps[|ps| - 1]]
  }

  lemma {:induction false} MarkedShape(ps: seq<PendingOp>, batchId: string, key: Key)
    ensures |Marked(ps, batchId)| == |ps|
    ensures forall i :: 0 <= i < |ps| ==>
              Marked(ps, batchId)[i] == if InBatch(ps[i], batchId) then ps[i].(status := Rejected) else ps[i]
    ensures First(Marked(ps, batchId), key).Some? <==> First(ps, key).Some?
    ensures First(ps, key).Some? ==> First(Marked(ps, batchId), key).value.pre == First(ps, key).value.pre
    decreases |ps|
  {
    if ps != [] {
      var init, p := ps[..|ps| - 1], ps[|ps| - 1];
      MarkedShape(init, batchId, key);
      var m0, m := Marked(init, batchId), Marked(ps, batchId);
      assert ps == init + [p] && m == m0 + [m[|m| - 1]];
      FirstSnoc(init, p, key);
      FirstSnoc(m0, m[|m| - 1], key);
    }
  }

  lemma MarkedIsSane(ps: seq<PendingOp>, batchId: string)
    requires Sane(ps)
    ensures Sane(Marked(ps, batchId))
  {
    MarkedShape(ps, batchId, Key("", ""));
    var m := Marked(ps, batchId);
    forall i, j | 0 <= i < j < |m| ensures m[i].op.id != m[j].op.id {
      assert ps[i].op.id != ps[j].op.id;
    }
    forall i | 0 <= i < |m| ensures Visible(m[i].pre) == m[i].pre {
      assert Visible(ps[i].pre) == ps[i].pre;
    }
  }

  /** Rows the batch does not touch fold as before. */
  lemma {:induction false} MarkedElsewhere(metas: Metas, ps: seq<PendingOp>, batchId: string, key: Key, base: Option<LocalRow>)
    requires forall i :: 0 <= i < |ps| && KeyOf(ps[i].op) == key ==> !InBatch(ps[i], batchId)
    ensures Fold(metas, Marked(ps, batchId), key, base) == Fold(metas, ps, key, base)
    ensures Remembers(metas, Marked(ps, batchId), key, base) <==> Remembers(metas, ps, key, base)
    decreases |ps|
  {
    if ps != [] {
      MarkedElsewhere(metas, ps[..|ps| - 1], batchId, key, base);
      assert Marked(ps, batchId)[..|Marked(ps[..|ps| - 1], batchId)|] == Marked(ps[..|ps| - 1], batchId);
    }
  }

  lemma {:induction false} MemberIdsAre(ps: seq<PendingOp>, batchId: string, id: string)
    ensures id in MemberIds(ps, batchId) <==> exists i :: 0 <= i < |ps| && InBatch(ps[i], batchId) && ps[i].status.Pending? && ps[i].op.id == id
    decreases |ps|
  {
    if ps != [] {
      var init, p := ps[..|ps| - 1], ps[|ps| - 1];
      MemberIdsAre(init, batchId, id);
      if i :| 0 <= i < |init| && InBatch(init[i], batchId) && init[i].status.Pending? && init[i].op.id == id {
        assert InBatch(ps[i], batchId) && ps[i].status.Pending? && ps[i].op.id == id;
      }
      if i :| 0 <= i < |ps| && InBatch(ps[i], batchId) && ps[i].status.Pending? && ps[i].op.id == id {
        assert i < |init| ==> init[i] == ps[i];
      }
    }
  }

  lemma {:induction false} ExceptUnacked(ps: seq<PendingOp>, ids: set<string>, id: string)
    ensures Except(Unacked(ps, ids), id) == Unacked(ps, ids + {id})
    decreases |ps|
  {
    if ps != [] {
      var init, p := ps[..|ps| - 1], ps[|ps| - 1];
      ExceptUnacked(init, ids, id);
      var us := Unacked(init, ids);
      assert us + [] == us;
      if p.op.id !in ids {
        assert (us + [p])[..|us|] == us;
      }
    }
  }

  lemma {:induction false} UnackedNone(ps: seq<PendingOp>)
    ensures Unacked(ps, {}) == ps
    decreases |ps|
  {
    if ps != [] {
      UnackedNone(ps[..|ps| - 1]);
      assert ps == ps[..|ps| - 1] + [ps[|ps| - 1]];
    }
  }

  function IdSet(ids: seq<string>): set<string> { set id | id in ids }

  lemma {:induction false} ExceptAllIsUnacked(ps: seq<PendingOp>, ids: seq<string>)
    ensures ExceptAll(ps, ids) == Unacked(ps, IdSet(ids))
    decreases |ids|
  {
    if ids == [] {
      assert IdSet(ids) == {};
      UnackedNone(ps);
    } else {
      var init, id := ids[..|ids| - 1], ids[|ids| - 1];
      ExceptAllIsUnacked(ps, init);
      ExceptUnacked(ps, IdSet(init), id);
      assert ids == init + [id];
      assert IdSet(ids) == IdSet(init) + {id};
    }
  }

  lemma {:induction false} OutsideIsUnacked(ps: seq<PendingOp>, batchId: string, ids: set<string>)
    requires forall i :: 0 <= i < |ps| ==> (ps[i].op.id in ids <==> InBatch(ps[i], batchId))
    ensures Unacked(Marked(ps, batchId), ids) == Outside(ps, batchId)
    decreases |ps|
  {
    if ps != [] {
      var init, p := ps[..|ps| - 1], ps[|ps| - 1];
      OutsideIsUnacked(init, batchId, ids);
      var m0, m := Marked(init, batchId), Marked(ps, batchId);
      assert m[..|m| - 1] == m0;
    }
  }

  lemma {:induction false} OutsideHasNoMember(ps: seq<PendingOp>, batchId: string)
    ensures forall i :: 0 <= i < |Outside(ps, batchId)| ==> !InBatch(Outside(ps, batchId)[i], batchId)
    decreases |ps|
  {
    if ps != [] {
      OutsideHasNoMember(ps[..|ps| - 1], batchId);
    }
  }

  ghost predicate BatchPending(ps: seq<PendingOp>, batchId: string)
  {
    forall i :: 0 <= i < |ps| && InBatch(ps[i], batchId) ==> ps[i].status.Pending?
  }

  lemma BatchDropsMembers(s: State, batchId: string)
    requires Sane(s.pending) && BatchPending(s.pending, batchId)
    ensures var t := RevertAll(s.(pending := Marked(s.pending, batchId)), MemberIds(s.pending, batchId));
            Sane(t.pending) && SameWrites(t.pending, Outside(s.pending, batchId))
  {
    var m, ids := s.(pending := Marked(s.pending, batchId)), MemberIds(s.pending, batchId);
    MarkedIsSane(s.pending, batchId);
    RevertEachDrops(m, ids);
    ExceptAllIsUnacked(m.pending, ids);
    forall i | 0 <= i < |s.pending| ensures s.pending[i].op.id in IdSet(ids) <==> InBatch(s.pending[i], batchId) {
      MemberIdsAre(s.pending, batchId, s.pending[i].op.id);
    }
    OutsideIsUnacked(s.pending, batchId, IdSet(ids));
  }

  lemma BatchRow(s: State, batchId: string, key: Key)
    requires Ok(s) && BatchPending(s.pending, batchId)
    ensures var t := RevertAll(s.(pending := Marked(s.pending, batchId)), MemberIds(s.pending, batchId));
            GoodFrom(t, key, BaseOf(s, key)) && Starts(t, key, BaseOf(s, key)) && t.metas == s.metas
  {
    var m, ids, base := s.(pending := Marked(s.pending, batchId)), MemberIds(s.pending, batchId), BaseOf(s, key);
    assert RowOk(s, key);
    MarkedIsSane(s.pending, batchId);
    MarkedShape(s.pending, batchId, key);
    RevertEach(m, ids, key, base);
    if !Touches(m, ids, key) {
      var t := RevertAll(m, ids);
      BatchDropsMembers(s, batchId);
      OutsideHasNoMember(s.pending, batchId);
      forall i | 0 <= i < |s.pending| && KeyOf(s.pending[i].op) == key ensures !InBatch(s.pending[i], batchId) {
        assert m.pending[i] in t.pending;
        var j :| 0 <= j < |t.pending| && t.pending[j] == m.pending[i];
        assert Outside(s.pending, batchId)[j].op == s.pending[i].op;
      }
      MarkedElsewhere(s.metas, s.pending, batchId, key, base);
    }
  }

  /**
   * Rejecting a batch and reverting each of its writes leaves every row with its base and the writes
   * outside the batch on top, and every row in order again.
   */
  lemma BatchRejectionOk(s: State, batchId: string)
    requires Ok(s) && BatchPending(s.pending, batchId)
    ensures var t := RevertAll(s.(pending := Marked(s.pending, batchId)), MemberIds(s.pending, batchId));
            && Ok(t) && SameWrites(t.pending, Outside(s.pending, batchId))
            && forall key :: At(t, key) == Fold(s.metas, Outside(s.pending, batchId), key, BaseOf(s, key))
  {
    var t := RevertAll(s.(pending := Marked(s.pending, batchId)), MemberIds(s.pending, batchId));
    BatchDropsMembers(s, batchId);
    forall key
      ensures RowOk(t, key)
      ensures At(t, key) == Fold(s.metas, Outside(s.pending, batchId), key, BaseOf(s, key))
    {
      BatchRow(s, batchId, key);
      FirstRemembers(t.metas, t.pending, key, BaseOf(s, key));
      SameWritesFold(s.metas, t.pending, Outside(s.pending, batchId), key, BaseOf(s, key));
    }
  }
}
