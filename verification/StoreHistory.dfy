/**
 * Over whole runs, a row shows exactly the writes never taken back (src/client/store.ts): those
 * acknowledged since are in its base, those still tracked are on top.
 */
module StoreHistory {
  import opened Ops
  import opened Options
  import opened Store
  import opened StoreLaws

  /** The operations of a row's pending writes, in order. */
  function RowOps(ps: seq<PendingOp>, key: Key): seq<ClientOp>
  {
    if ps == [] then []
    else RowOps(ps[..|ps| - 1], key)
         + if KeyOf(ps[|ps| - 1].op) == key && ps[|ps| - 1].status.Pending? then [ps[|ps| - 1].op] else []
  }

  /** A row after these operations. */
  function FoldOps(metas: Metas, ops: seq<ClientOp>, base: Option<LocalRow>): Option<LocalRow>
  {
    if ops == [] then base else Shows(metas, FoldOps(metas, ops[..|ops| - 1], base), ops[|ops| - 1])
  }

  function WithoutId(ops: seq<ClientOp>, id: string): seq<ClientOp>
  {
    if ops == [] then []
    else WithoutId(ops[..|ops| - 1], id) + if ops[|ops| - 1].id == id then [] else [ops[|ops| - 1]]
  }

  /** The row's writes never taken back: `h` so far, and what the run adds and takes back. */
  function Lasting(s: State, events: seq<Event>, key: Key, h: seq<ClientOp>): seq<ClientOp>
    decreases |events|
  {
    if events == [] then h
    else
      var h' := match events[0]
        case Write(op) => if KeyOf(op) == key then h + [op] else h
        case Ack(_) => h
        case Revert(id, _) => if Find(s.pending, id).Some? then WithoutId(h, id) else h;
      Lasting(After(s, events[0]), events[1..], key, h')
  }

  /** No write reuses an id, and no revert brings a row from the server. */
  ghost predicate Plain(used: set<string>, events: seq<Event>)
    decreases |events|
  {
    events == [] ||
    match events[0]
    case Write(op) => op.id !in used && Plain(used + {op.id}, events[1..])
    case Ack(_) => Plain(used, events[1..])
    case Revert(_, serverRow) => serverRow.None? && Plain(used, events[1..])
  }

  ghost predicate UsedBy(used: set<string>, ps: seq<PendingOp>)
  {
    forall i :: 0 <= i < |ps| ==> ps[i].op.id in used
  }

  /** These operations are of no tracked write, and their ids are used up. */
  ghost predicate Gone(ops: seq<ClientOp>, used: set<string>, ps: seq<PendingOp>)
  {
    forall op :: op in ops ==> op.id in used && forall i :: 0 <= i < |ps| ==> ps[i].op.id != op.id
  }

  // ---- Lists of operations

  lemma {:induction false} FoldIsRowOps(metas: Metas, ps: seq<PendingOp>, key: Key, base: Option<LocalRow>)
    ensures Fold(metas, ps, key, base) == FoldOps(metas, RowOps(ps, key), base)
    decreases |ps|
  {
    if ps != [] {
      var init, p := ps[..|ps| - 1], ps[|ps| - 1];
      FoldIsRowOps(metas, init, key, base);
      if KeyOf(p.op) == key && p.status.Pending? {
        assert RowOps(ps, key) == RowOps(init, key) + [p.op];
        assert RowOps(ps, key)[..|RowOps(init, key)|] == RowOps(init, key);
      } else {
        assert RowOps(ps, key) == RowOps(init, key);
      }
    }
  }

  lemma {:induction false} FoldConcat(metas: Metas, a: seq<ClientOp>, b: seq<ClientOp>, base: Option<LocalRow>)
    ensures FoldOps(metas, a + b, base) == FoldOps(metas, b, FoldOps(metas, a, base))
    decreases |b|
  {
    if b == [] {
      assert a + b == a;
    } else {
      FoldConcat(metas, a, b[..|b| - 1], base);
      assert (a + b)[..|a + b| - 1] == a + b[..|b| - 1];
    }
  }

  lemma {:induction false} WithoutConcat(a: seq<ClientOp>, b: seq<ClientOp>, id: string)
    ensures WithoutId(a + b, id) == WithoutId(a, id) + WithoutId(b, id)
    decreases |b|
  {
    if b == [] {
      assert a + b == a && WithoutId(a, id) + [] == WithoutId(a, id);
    } else {
      WithoutConcat(a, b[..|b| - 1], id);
      assert (a + b)[..|a + b| - 1] == a + b[..|b| - 1];
    }
  }

  lemma {:induction false} WithoutAbsent(a: seq<ClientOp>, id: string)
    requires forall op :: op in a ==> op.id != id
    ensures WithoutId(a, id) == a
    decreases |a|
  {
    if a != [] {
      WithoutAbsent(a[..|a| - 1], id);
      assert a == a[..|a| - 1] + [a[|a| - 1]];
    }
  }

  lemma {:induction false} RowOpsExcept(ps: seq<PendingOp>, id: string, key: Key)
    ensures RowOps(Except(ps, id), key) == WithoutId(RowOps(ps, key), id)
    decreases |ps|
  {
    if ps != [] {
      var init, p := ps[..|ps| - 1], ps[|ps| - 1];
      var ex, ops := Except(init, id), RowOps(init, key);
      RowOpsExcept(init, id, key);
      assert (ex + [p])[..|ex|] == ex && ex + [] == ex;
      assert (ops + [p.op])[..|ops|] == ops && ops + [] == ops;
    }
  }

  lemma {:induction false} RowOpsSame(ps: seq<PendingOp>, qs: seq<PendingOp>, key: Key)
    requires SameWrites(ps, qs)
    ensures RowOps(ps, key) == RowOps(qs, key)
    decreases |ps|
  {
    if ps != [] {
      RowOpsSame(ps[..|ps| - 1], qs[..|qs| - 1], key);
    }
  }

  lemma RowOpsSnoc(ps: seq<PendingOp>, p: PendingOp, key: Key)
    ensures RowOps(ps + [p], key) == RowOps(ps, key) + if KeyOf(p.op) == key && p.status.Pending? then [p.op] else []
  {
    assert (ps + [p])[..|ps|] == ps;
  }

  lemma {:induction false} NoneTrackedOps(ps: seq<PendingOp>, key: Key)
    requires First(ps, key).None?
    ensures RowOps(ps, key) == []
    decreases |ps|
  {
    if ps != [] {
      var init, p := ps[..|ps| - 1], ps[|ps| - 1];
      assert ps == init + [p];
      FirstSnoc(init, p, key);
      NoneTrackedOps(init, key);
    }
  }

  // ---- Acknowledgements move a row's earliest writes into its base

  /** The row's writes are `d`, gone into the base, and then what is left of them. */
  ghost predicate Splits(metas: Metas, ps: seq<PendingOp>, us: seq<PendingOp>, key: Key, base: Option<LocalRow>, d: seq<ClientOp>)
  {
    && RowOps(ps, key) == d + RowOps(us, key)
    && FoldOps(metas, d, base) == if First(us, key).Some? then First(us, key).value.pre else Fold(metas, ps, key, base)
  }

  /** One more write, of the row and acknowledged: nothing of the row is left. */
  lemma AckedSplits(metas: Metas, init: seq<PendingOp>, us: seq<PendingOp>, p: PendingOp, key: Key, base: Option<LocalRow>,
                    d: seq<ClientOp>)
    returns (d': seq<ClientOp>)
    requires Splits(metas, init, us, key, base, d) && KeyOf(p.op) == key && First(us, key).None?
    ensures Splits(metas, init + [p], us, key, base, d') && (d' == d || d' == d + [p.op])
  {
    NoneTrackedOps(us, key);
    RowOpsSnoc(init, p, key);
    FoldIsRowOps(metas, init + [p], key, base);
    assert d + [] == d;
    d' := RowOps(init + [p], key);
    assert d' + [] == d';
  }

  /** One more write, left: if it is the row's first left, it remembers what those before it leave. */
  lemma LeftSplits(metas: Metas, init: seq<PendingOp>, us: seq<PendingOp>, p: PendingOp, key: Key, base: Option<LocalRow>,
                   d: seq<ClientOp>)
    requires Splits(metas, init, us, key, base, d) && (KeyOf(p.op) == key ==> p.pre == Fold(metas, init, key, base))
    ensures Splits(metas, init + [p], us + [p], key, base, d)
  {
    RowOpsSnoc(init, p, key);
    RowOpsSnoc(us, p, key);
    FirstSnoc(us, p, key);
    assert RowOps(init + [p], key) == d + RowOps(us + [p], key);
    if First(us, key).None? && KeyOf(p.op) != key {
      assert (init + [p])[..|init|] == init;
    }
  }

  lemma ElsewhereSplits(metas: Metas, init: seq<PendingOp>, us: seq<PendingOp>, p: PendingOp, key: Key, base: Option<LocalRow>,
                        d: seq<ClientOp>)
    requires Splits(metas, init, us, key, base, d) && KeyOf(p.op) != key
    ensures Splits(metas, init + [p], us, key, base, d)
  {
    RowOpsSnoc(init, p, key);
    assert (init + [p])[..|init|] == init;
    assert RowOps(init, key) + [] == RowOps(init, key);
  }

  /** What is acknowledged of a row comes first among its writes, and folds to the base of those left. */
  lemma {:induction false} AckSplits(metas: Metas, ps: seq<PendingOp>, ids: set<string>, key: Key, base: Option<LocalRow>)
    returns (d: seq<ClientOp>)
    requires PrefixAcked(ps, ids) && Remembers(metas, ps, key, base)
    ensures Splits(metas, ps, Unacked(ps, ids), key, base, d) && forall op :: op in d ==> op.id in ids
    decreases |ps|
  {
    if ps == [] {
      d := [];
    } else {
      var init, p := ps[..|ps| - 1], ps[|ps| - 1];
      var us := Unacked(init, ids);
      assert ps == init + [p];
      d := AckSplits(metas, init, ids, key, base);
      if p.op.id !in ids {
        LeftSplits(metas, init, us, p, key, base, d);
      } else {
        assert us + [] == us;
        if KeyOf(p.op) == key {
          AckedNothingLeft(init, p, ids);
          d := AckedSplits(metas, init, us, p, key, base, d);
        } else {
          ElsewhereSplits(metas, init, us, p, key, base, d);
        }
      }
    }
  }

  /** A row's operations are those of tracked writes. */
  lemma {:induction false} RowOpsFrom(ps: seq<PendingOp>, key: Key, used: set<string>)
    requires UsedBy(used, ps)
    ensures forall op :: op in RowOps(ps, key) ==> op.id in used
    decreases |ps|
  {
    if ps != [] {
      assert ps[|ps| - 1].op.id in used;
      RowOpsFrom(ps[..|ps| - 1], key, used);
    }
  }

  lemma {:induction false} UnackedLacks(ps: seq<PendingOp>, ids: set<string>)
    ensures forall i :: 0 <= i < |Unacked(ps, ids)| ==> Unacked(ps, ids)[i].op.id !in ids && Unacked(ps, ids)[i] in ps
    decreases |ps|
  {
    if ps != [] {
      UnackedLacks(ps[..|ps| - 1], ids);
    }
  }

  // ---- One event

  /** The row's history is what is gone into its base, then what is still tracked. */
  ghost predicate Tracks(s: State, key: Key, h: seq<ClientOp>, gone: seq<ClientOp>, base: Option<LocalRow>, used: set<string>)
  {
    && h == gone + RowOps(s.pending, key) && FoldOps(s.metas, gone, base) == BaseOf(s, key)
    && Gone(gone, used, s.pending) && UsedBy(used, s.pending)
  }

  lemma WrittenIsNotGone(ps: seq<PendingOp>, p: PendingOp, gone: seq<ClientOp>, used: set<string>, used': set<string>)
    requires UsedBy(used, ps) && Gone(gone, used, ps) && p.op.id !in used && used' == used + {p.op.id}
    ensures Gone(gone, used', ps + [p]) && UsedBy(used', ps + [p])
  {
  }

  lemma WriteTracks(s: State, op: ClientOp, key: Key, h: seq<ClientOp>, gone: seq<ClientOp>, base: Option<LocalRow>, used: set<string>)
    requires RowOk(s, key) && Tracks(s, key, h, gone, base, used) && op.id !in used
    ensures Tracks(Written(s, op), key, if KeyOf(op) == key then h + [op] else h, gone, base, used + {op.id})
  {
    var p, ops := PendingOp(op, Pending, At(s, KeyOf(op))), RowOps(s.pending, key);
    RowOpsSnoc(s.pending, p, key);
    WrittenIsNotGone(s.pending, p, gone, used, used + {op.id});
    if KeyOf(op) == key {
      WriteHere(s, op);
      Regroup(h + [op], gone, ops, [op], ops + [op]);
    } else {
      WriteElsewhere(s, op, key);
      assert ops + [] == ops;
    }
  }

  lemma AckedAreGone(ps: seq<PendingOp>, ids: set<string>, gone: seq<ClientOp>, d: seq<ClientOp>, used: set<string>)
    requires UsedBy(used, ps) && Gone(gone, used, ps)
    requires forall op :: op in d ==> op.id in ids && op.id in used
    ensures Gone(gone + d, used, Unacked(ps, ids)) && UsedBy(used, Unacked(ps, ids))
  {
    UnackedLacks(ps, ids);
  }

  lemma Regroup(h: seq<ClientOp>, a: seq<ClientOp>, b: seq<ClientOp>, c: seq<ClientOp>, bc: seq<ClientOp>)
    requires h == a + bc && bc == b + c
    ensures h == a + b + c && forall op :: op in b ==> op in bc
  {
  }

  lemma AckTracks(s: State, ids: set<string>, key: Key, h: seq<ClientOp>, gone: seq<ClientOp>, base: Option<LocalRow>, used: set<string>)
    returns (more: seq<ClientOp>)
    requires RowOk(s, key) && Tracks(s, key, h, gone, base, used) && PrefixAcked(s.pending, ids)
    ensures Tracks(s.(pending := Unacked(s.pending, ids)), key, h, more, base, used)
  {
    var ps, us, b := s.pending, Unacked(s.pending, ids), BaseOf(s, key);
    var d := AckSplits(s.metas, ps, ids, key, b);
    more := gone + d;
    Regroup(h, gone, d, RowOps(us, key), RowOps(ps, key));
    FoldConcat(s.metas, gone, d, base);
    RowOpsFrom(ps, key, used);
    AckedAreGone(ps, ids, gone, d, used);
  }

  lemma RevertTracks(s: State, i: nat, key: Key, h: seq<ClientOp>, gone: seq<ClientOp>, base: Option<LocalRow>, used: set<string>)
    requires Ok(s) && Tracks(s, key, h, gone, base, used) && i < |s.pending|
    ensures Tracks(Reverted(s, s.pending[i].op.id, None), key, WithoutId(h, s.pending[i].op.id), gone, base, used)
  {
    var id, kept := s.pending[i].op.id, Except(s.pending, s.pending[i].op.id);
    var s' := Reverted(s, id, None);
    var b := RevertRebuilds(s, i, None);
    RevertedBase(s, i, key);
    RowOpsSame(s'.pending, kept, key);
    RowOpsExcept(s.pending, id, key);
    WithoutConcat(gone, RowOps(s.pending, key), id);
    WithoutAbsent(gone, id);
    forall k | 0 <= k < |s'.pending| ensures exists j :: 0 <= j < |s.pending| && s.pending[j].op.id == s'.pending[k].op.id {
      assert s'.pending[k].op == kept[k].op;
      var j := ExceptFrom(s.pending, id, k);
      assert s.pending[j].op.id == s'.pending[k].op.id;
    }
  }

  /** A revert without a server row keeps what every row's writes start from. */
  lemma RevertedBase(s: State, i: nat, key: Key)
    requires Ok(s) && i < |s.pending|
    ensures BaseOf(Reverted(s, s.pending[i].op.id, None), key) == BaseOf(s, key)
  {
    var s' := Reverted(s, s.pending[i].op.id, None);
    if KeyOf(s.pending[i].op) == key {
      var b := RevertRebuilds(s, i, None);
      FirstRemembers(s.metas, s'.pending, key, b);
      SameWritesFold(s.metas, s'.pending, Except(s.pending, s.pending[i].op.id), key, b);
    } else {
      RevertElsewhere(s, i, None, key, None);
    }
  }

  // ---- Whole runs

  lemma {:induction false} RunTracks(s: State, events: seq<Event>, key: Key, h: seq<ClientOp>, gone: seq<ClientOp>,
                                     base: Option<LocalRow>, used: set<string>)
    requires Ok(s) && AllowedAll(s, events) && Plain(used, events) && Tracks(s, key, h, gone, base, used)
    ensures At(AfterAll(s, events), key) == FoldOps(s.metas, Lasting(s, events, key, h), base)
    decreases |events|
  {
    if events == [] {
      assert RowOk(s, key);
      FoldIsRowOps(s.metas, s.pending, key, BaseOf(s, key));
      FoldConcat(s.metas, gone, RowOps(s.pending, key), base);
    } else {
      var s', rest := After(s, events[0]), events[1..];
      match events[0]
      case Write(op) =>
        WriteOk(s, op);
        assert RowOk(s, key);
        WriteTracks(s, op, key, h, gone, base, used);
        RunTracks(s', rest, key, if KeyOf(op) == key then h + [op] else h, gone, base, used + {op.id});
      case Ack(ids) =>
        AckOk(s, ids);
        assert RowOk(s, key);
        var more := AckTracks(s, ids, key, h, gone, base, used);
        RunTracks(s', rest, key, h, more, base, used);
      case Revert(id, _) =>
        if Find(s.pending, id).Some? {
          var i := FindGives(s.pending, id);
          RevertOk(s, i, None);
          RevertTracks(s, i, key, h, gone, base, used);
          var b := RevertRebuilds(s, i, None);
          RunTracks(s', rest, key, WithoutId(h, id), gone, base, used);
        } else {
          RunTracks(s', rest, key, h, gone, base, used);
        }
    }
  }

  /**
   * Reverting is the same as never having written, over whole runs: after any local writes,
   * acknowledgements of each row's earliest writes and reverts, in any order, every row shows, from
   * what its writes started from, exactly its writes never taken back, in the order they were made.
   */
  lemma RunShowsLastingWrites(s: State, events: seq<Event>, used: set<string>)
    requires Ok(s) && AllowedAll(s, events) && UsedBy(used, s.pending) && Plain(used, events)
    ensures forall key :: At(AfterAll(s, events), key)
                       == FoldOps(s.metas, Lasting(s, events, key, RowOps(s.pending, key)), BaseOf(s, key))
  {
    forall key
      ensures At(AfterAll(s, events), key) == FoldOps(s.metas, Lasting(s, events, key, RowOps(s.pending, key)), BaseOf(s, key))
    {
      assert [] + RowOps(s.pending, key) == RowOps(s.pending, key);
      RunTracks(s, events, key, RowOps(s.pending, key), [], BaseOf(s, key), used);
    }
  }
}
