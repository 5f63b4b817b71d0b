/** Exactly when a delete among the writes makes the merge policy depend on their order (src/server/conflict.ts). */
module DeleteOrder {
  import opened Conflict
  import opened Hlc
  import opened Ops
  import opened Options

  const NO_ROW := Existing(None, None, map[])

  predicate Older(a: Incoming, b: Incoming)
  {
    CompareHlc(a.hlc, b.hlc) < 0
  }

  /** The latest of the writes to this column. */
  ghost predicate Decides(ops: set<Incoming>, op: Incoming, col: string)
  {
    op in ops && Sets(op, col) && forall o :: o in ops && Sets(o, col) ==> CompareHlc(o.hlc, op.hlc) <= 0
  }

  ghost predicate DecidesSome(ops: set<Incoming>, op: Incoming)
  {
    exists col :: Decides(ops, op, col)
  }

  /** A delete, stamped differently from every write. */
  ghost predicate DeleteOf(ops: set<Incoming>, d: Incoming)
  {
    d.op.Delete? && forall o :: o in ops ==> o.hlc != d.hlc
  }

  ghost predicate NoRepeats(x: seq<Incoming>)
  {
    forall i, j :: 0 <= i < j < |x| ==> x[i] != x[j]
  }

  /** Each of the writes and the delete, once. */
  ghost predicate Delivers(seqn: seq<Incoming>, ops: set<Incoming>, d: Incoming)
  {
    OpSet(seqn) == ops + {d} && NoRepeats(seqn)
  }

  /** All orders leave the same row and the same clocks. */
  ghost predicate OrderFree(ops: set<Incoming>, d: Incoming)
  {
    forall x, y :: Delivers(x, ops, d) && Delivers(y, ops, d) ==> SameOutcome(x, y)
  }

  ghost predicate SameOutcome(x: seq<Incoming>, y: seq<Incoming>)
  {
    MergeAll(x, NO_ROW).row == MergeAll(y, NO_ROW).row && MergeAll(x, NO_ROW).clocks == MergeAll(y, NO_ROW).clocks
  }

  /**
   * No write older than the delete decides a column, and each touches only columns that every
   * deciding write touches as well.
   */
  ghost predicate Harmless(ops: set<Incoming>, d: Incoming)
  {
    forall o :: o in ops && Older(o, d) ==> !DecidesSome(ops, o) && Within(ops, o)
  }

  ghost predicate Within(ops: set<Incoming>, o: Incoming)
  {
    forall m :: m in ops && DecidesSome(ops, m) ==> Columns(o.payload).Keys <= Columns(m.payload).Keys
  }

  predicate Accepts(op: Incoming, st: Existing)
  {
    MergeResult(op, st).accepted
  }

  // ---- Sequences of deliveries

  lemma {:induction false} MergeConcat(x: seq<Incoming>, y: seq<Incoming>, st: Existing)
    ensures MergeAll(x + y, st) == MergeAll(y, MergeAll(x, st))
    decreases |y|
  {
    if y == [] {
      assert x + y == x;
    } else {
      assert (x + y)[..|x + y| - 1] == x + y[..|y| - 1];
      MergeConcat(x, y[..|y| - 1], st);
    }
  }

  lemma OneMore(x: seq<Incoming>, op: Incoming, st: Existing)
    ensures MergeAll(x + [op], st) == MergeStep(op, MergeAll(x, st))
  {
    assert (x + [op])[..|x|] == x;
  }

  /** The state some writes leave, whatever their order. */
  lemma WritesSettle(x: seq<Incoming>, ops: set<Incoming>)
    requires x != [] && Valid(ops) && OpSet(x) <= ops
    ensures Valid(OpSet(x)) && Settled(OpSet(x), MergeAll(x, NO_ROW))
  {
    MergingSettles(x);
  }

  /** A delete that meets no row changes nothing. */
  lemma DeleteMeetsNothing(d: Incoming)
    requires d.op.Delete?
    ensures MergeStep(d, NO_ROW) == NO_ROW
  {
  }

  /** What a delete does to a row, by the stamp of the write last accepted. */
  lemma DeleteMeetsRow(d: Incoming, st: Existing)
    requires d.op.Delete? && Stamped(st)
    ensures MergeStep(d, st) == if CompareHlc(d.hlc, st.rowHlc.value) > 0 then NO_ROW else st
  {
  }

  /** The whole delivery: the delete either changes nothing, or only what follows it counts. */
  lemma DeliveryOutcome(before: seq<Incoming>, d: Incoming, after: seq<Incoming>, whole: seq<Incoming>,
                        writes: seq<Incoming>, st: Existing)
    requires d.op.Delete? && st == MergeAll(before, NO_ROW) && (before == [] || Stamped(st))
    requires whole == before + [d] + after && writes == before + after
    ensures MergeAll(whole, NO_ROW) == MergeAll(if Lands(before, d, st) then after else writes, NO_ROW)
  {
    MergeConcat(before + [d], after, NO_ROW);
    MergeConcat(before, after, NO_ROW);
    OneMore(before, d, NO_ROW);
    if before == [] {
      DeleteMeetsNothing(d);
    } else {
      DeleteMeetsRow(d, st);
    }
  }

  /** Whether a delete after these writes removes a row. */
  predicate Lands(before: seq<Incoming>, d: Incoming, st: Existing)
    requires before == [] || Stamped(st)
  {
    before != [] && CompareHlc(d.hlc, st.rowHlc.value) > 0
  }

  // ---- Which writes are accepted

  lemma AcceptedMoves(op: Incoming, st: Existing)
    requires Writes(op)
    ensures Stamped(st) ==> (Accepts(op, st) <==> Winners(Columns(op.payload), st.clocks, op.hlc) != {})
    ensures !Accepts(op, st) ==> MergeStep(op, st) == st
    ensures Accepts(op, st) ==> MergeStep(op, st).rowHlc == Some(op.hlc) && Stamped(MergeStep(op, st))
  {
  }

  /** The last write accepted gives the row its stamp. */
  lemma {:induction false} LastAccepted(x: seq<Incoming>) returns (k: nat)
    requires x != [] && forall i :: 0 <= i < |x| ==> Writes(x[i])
    ensures k < |x| && AcceptedAt(x, k) && forall i :: k < i < |x| ==> !AcceptedAt(x, i)
    ensures Stamped(MergeAll(x, NO_ROW)) && MergeAll(x, NO_ROW).rowHlc == Some(x[k].hlc)
    decreases |x|
  {
    var at := |x| - 1;
    var init, last := x[..at], x[at];
    var st := MergeAll(init, NO_ROW);
    assert MergeAll(x, NO_ROW) == MergeStep(last, st);
    AcceptedMoves(last, st);
    assert AcceptedAt(x, at) <==> Accepts(last, st);
    if Accepts(last, st) {
      k := at;
    } else {
      assert init != [];
      k := LastAccepted(init);
      AcceptedBefore(x, init, k);
      forall i | k < i < |x| ensures !AcceptedAt(x, i) {
        if i < at {
          AcceptedBefore(x, init, i);
        } else {
          assert i == at;
        }
      }
    }
  }

  lemma AcceptedBefore(x: seq<Incoming>, init: seq<Incoming>, i: nat)
    requires x != [] && init == x[..|x| - 1] && i < |init|
    ensures AcceptedAt(x, i) == AcceptedAt(init, i)
  {
    assert init[..i] == x[..i];
  }

  /** The write at this place is accepted when its turn comes. */
  predicate AcceptedAt(x: seq<Incoming>, i: nat)
    requires i < |x|
  {
    Accepts(x[i], MergeAll(x[..i], NO_ROW))
  }

  /** A deciding write is accepted whatever came before it. */
  lemma DeciderIsAccepted(ops: set<Incoming>, m: Incoming, some: set<Incoming>, st: Existing)
    requires Valid(ops) && DecidesSome(ops, m) && some <= ops && m !in some && Settled(some, st)
    ensures Accepts(m, st)
  {
    var col :| Decides(ops, m, col);
    AcceptedMoves(m, st);
    if !Wins(st.clocks, m.hlc, col) {
      assert col in st.row.value;
      var o :| o in some && Sets(o, col) && o.hlc == st.clocks[col];
      CompareFlips(o.hlc, m.hlc);
    }
    assert col in Winners(Columns(m.payload), st.clocks, m.hlc);
  }

  /** A write is refused after a newer one that touches all of its columns. */
  lemma CoveredIsRefused(some: set<Incoming>, m: Incoming, o: Incoming, st: Existing)
    requires Valid(some) && m in some && Writes(o) && Older(o, m) && Settled(some, st)
    requires Columns(o.payload).Keys <= Columns(m.payload).Keys
    ensures !Accepts(o, st)
  {
    AcceptedMoves(o, st);
    forall c | Sets(o, c) ensures !Wins(st.clocks, o.hlc, c) {
      assert Sets(m, c) && Touched(some, c);
      var latest :| latest in some && Sets(latest, c) && latest.hlc == st.clocks[c];
      CompareChains(o.hlc, m.hlc, latest.hlc);
      CompareFlips(o.hlc, m.hlc);
    }
    assert Winners(Columns(o.payload), st.clocks, o.hlc) == {};
  }

  // ---- The condition suffices

  lemma WritesAll(x: seq<Incoming>, ops: set<Incoming>)
    requires Valid(ops) && OpSet(x) <= ops
    ensures forall i :: 0 <= i < |x| ==> x[i] in ops && Writes(x[i])
  {
    forall i | 0 <= i < |x| ensures x[i] in ops {
      assert x[i] in OpSet(x);
    }
  }

  lemma PrefixSet(x: seq<Incoming>, i: nat)
    requires i < |x| && NoRepeats(x)
    ensures OpSet(x[..i]) <= OpSet(x) && x[i] !in OpSet(x[..i])
  {
  }

  /** A deciding write is accepted when its turn comes. */
  lemma DeciderAcceptedAt(ops: set<Incoming>, x: seq<Incoming>, at: nat)
    requires Valid(ops) && OpSet(x) <= ops && NoRepeats(x) && at < |x| && DecidesSome(ops, x[at])
    ensures AcceptedAt(x, at)
  {
    WritesAll(x, ops);
    if at > 0 {
      PrefixSet(x, at);
      WritesSettle(x[..at], ops);
      DeciderIsAccepted(ops, x[at], OpSet(x[..at]), MergeAll(x[..at], NO_ROW));
    }
  }

  /** A write older than the delete is refused once a deciding write has come. */
  lemma OlderRefusedAt(ops: set<Incoming>, d: Incoming, x: seq<Incoming>, at: nat, k: nat)
    requires Valid(ops) && DeleteOf(ops, d) && Harmless(ops, d) && OpSet(x) <= ops && NoRepeats(x)
    requires at < k < |x| && DecidesSome(ops, x[at]) && Older(x[k], d)
    ensures !AcceptedAt(x, k)
  {
    WritesAll(x, ops);
    var m, o := x[at], x[k];
    assert !Older(m, d) && Within(ops, o);
    CompareFlips(m.hlc, d.hlc);
    CompareFlips(o.hlc, d.hlc);
    CompareChains(o.hlc, d.hlc, m.hlc);
    assert Older(o, m);
    PrefixSet(x, k);
    WritesSettle(x[..k], ops);
    assert x[..k][at] == m;
    CoveredIsRefused(OpSet(x[..k]), m, o, MergeAll(x[..k], NO_ROW));
  }

  /** Under the condition, a delete that is accepted has seen no deciding write. */
  lemma AcceptedDeleteSawNoDecider(ops: set<Incoming>, d: Incoming, x: seq<Incoming>, m: Incoming)
    requires Valid(ops) && DeleteOf(ops, d) && Harmless(ops, d) && x != [] && OpSet(x) <= ops && NoRepeats(x)
    requires Stamped(MergeAll(x, NO_ROW)) && CompareHlc(d.hlc, MergeAll(x, NO_ROW).rowHlc.value) > 0
    requires DecidesSome(ops, m)
    ensures m !in x
  {
    WritesAll(x, ops);
    var k := LastAccepted(x);
    CompareFlips(x[k].hlc, d.hlc);
    assert x[k] in ops && Older(x[k], d);
    if at :| 0 <= at < |x| && x[at] == m {
      DeciderAcceptedAt(ops, x, at);
      assert at <= k;
      if at < k {
        OlderRefusedAt(ops, d, x, at, k);
      }
    }
  }

  /** Without writes that decide nothing, the rest still settles on the same row. */
  lemma DecidersSuffice(ops: set<Incoming>, rest: set<Incoming>, st: Existing)
    requires Valid(ops) && Settled(ops, st) && rest <= ops && forall m :: DecidesSome(ops, m) ==> m in rest
    ensures Settled(rest, st)
  {
    forall c ensures c in st.row.value ==> Touched(rest, c) && Latest(rest, c, st.row.value[c], st.clocks[c]) {
      if c in st.row.value {
        var o :| o in ops && Sets(o, c) && o.hlc == st.clocks[c] && Columns(o.payload)[c] == st.row.value[c];
        assert Decides(ops, o, c) && DecidesSome(ops, o);
      }
    }
    forall c ensures Touched(rest, c) ==> c in st.row.value {
      if Touched(rest, c) {
        assert Touched(ops, c);
      }
    }
    var o :| o in ops && o.hlc == st.clocks["_row"];
    var c :| c in o.payload.value;
    assert Decides(ops, o, c) && DecidesSome(ops, o);
  }

  /** Under the condition every delivery leaves what the writes alone leave. */
  lemma HarmlessOutcome(ops: set<Incoming>, d: Incoming, x: seq<Incoming>) returns (st: Existing)
    requires Valid(ops) && ops != {} && DeleteOf(ops, d) && Harmless(ops, d) && Delivers(x, ops, d)
    ensures Settled(ops, st) && MergeAll(x, NO_ROW).row == st.row && MergeAll(x, NO_ROW).clocks == st.clocks
  {
    var before, after := Around(x, ops, d);
    var writes, seen := before + after, MergeAll(before, NO_ROW);
    st := MergeAll(writes, NO_ROW);
    WritesSettle(writes, ops);
    if before != [] {
      WritesSettle(before, ops);
    }
    DeliveryOutcome(before, d, after, x, writes, seen);
    if Lands(before, d, seen) {
      forall m | DecidesSome(ops, m) ensures m in OpSet(after) {
        AcceptedDeleteSawNoDecider(ops, d, before, m);
        assert m in OpSet(writes);
      }
      DecidersSuffice(ops, OpSet(after), st);
      assert after != [];
      WritesSettle(after, ops);
      SettledIsUnique(OpSet(after), st, MergeAll(after, NO_ROW));
    }
  }

  lemma WithoutOne(x: seq<Incoming>, at: nat, o: Incoming)
    requires at < |x| && NoRepeats(x)
    ensures o in x[..at] + x[at + 1..] <==> o in x && o != x[at]
  {
    var y := x[..at] + x[at + 1..];
    if i :| 0 <= i < |x| && x[i] == o && i != at {
      assert y[if i < at then i else i - 1] == o;
    }
    if i :| 0 <= i < |y| && y[i] == o {
      assert o == x[if i < at then i else i + 1];
    }
  }

  lemma PiecesHaveNoRepeats(x: seq<Incoming>, at: nat)
    requires at < |x| && NoRepeats(x)
    ensures NoRepeats(x[..at]) && NoRepeats(x[at + 1..])
  {
  }

  /** A delivery is what comes before the delete, the delete, and what comes after. */
  lemma Around(x: seq<Incoming>, ops: set<Incoming>, d: Incoming) returns (before: seq<Incoming>, after: seq<Incoming>)
    requires Valid(ops) && ops != {} && DeleteOf(ops, d) && Delivers(x, ops, d)
    ensures x == before + [d] + after && OpSet(before + after) == ops && before + after != []
    ensures OpSet(before) <= ops && OpSet(after) <= ops && NoRepeats(before) && NoRepeats(after)
  {
    assert d in OpSet(x) && d !in ops;
    assert NoRepeats(x);
    var at :| 0 <= at < |x| && x[at] == d;
    before, after := x[..at], x[at + 1..];
    assert x == before + [d] + after;
    PiecesHaveNoRepeats(x, at);
    forall o ensures o in before + after <==> o in ops {
      WithoutOne(x, at, o);
      assert o in OpSet(x) <==> o in ops + {d};
    }
    assert OpSet(before + after) == ops;
    var w :| w in ops;
    assert w in before + after;
    assert forall o :: o in before || o in after ==> o in before + after;
  }

  // ---- The condition is needed

  /** Some order of the writes. */
  lemma {:induction false} Listed(ops: set<Incoming>) returns (x: seq<Incoming>)
    ensures OpSet(x) == ops && NoRepeats(x)
    decreases ops
  {
    x := [];
    if o :| o in ops {
      var rest := Listed(ops - {o});
      x := [o] + rest;
      assert forall i :: 0 <= i < |rest| ==> rest[i] in OpSet(rest);
      assert OpSet(x) == {o} + OpSet(rest);
    }
  }

  lemma DeciderShows(ops: set<Incoming>, m: Incoming, col: string, st: Existing)
    requires Valid(ops) && Decides(ops, m, col) && Settled(ops, st)
    ensures col in st.row.value && st.clocks[col] == m.hlc
  {
    assert Touched(ops, col);
    var o :| o in ops && Sets(o, col) && o.hlc == st.clocks[col];
    CompareFlips(o.hlc, m.hlc);
  }

  /** A deciding write lost to the delete cannot be made up for by the others. */
  lemma LostDecider(ops: set<Incoming>, m: Incoming, col: string, full: Existing, rest: seq<Incoming>, st: Existing)
    requires Valid(ops) && Decides(ops, m, col) && Settled(ops, full) && OpSet(rest) <= ops && m !in OpSet(rest)
    requires st == MergeAll(rest, NO_ROW)
    ensures st.row != full.row || st.clocks != full.clocks
  {
    DeciderShows(ops, m, col, full);
    if rest != [] {
      WritesSettle(rest, ops);
      if col in st.row.value {
        var r :| r in OpSet(rest) && Sets(r, col) && r.hlc == st.clocks[col];
        assert r != m;
      }
    }
  }

  /** The delete first, then these writes and the rest; and the delete right after these writes. */
  lemma OutcomesDiffer(ops: set<Incoming>, d: Incoming, first: seq<Incoming>, st: Existing, rest: seq<Incoming>,
                       writes: seq<Incoming>, x: seq<Incoming>, y: seq<Incoming>, m: Incoming, col: string)
    requires Valid(ops) && d.op.Delete? && first != [] && st == MergeAll(first, NO_ROW)
    requires writes == first + rest && x == [d] + writes && y == first + [d] + rest
    requires OpSet(writes) == ops && OpSet(rest) <= ops
    requires Decides(ops, m, col) && m !in OpSet(rest) && Stamped(st) && CompareHlc(d.hlc, st.rowHlc.value) > 0
    ensures !SameOutcome(x, y)
  {
    assert x == [] + [d] + writes && writes == [] + writes;
    DeliveryOutcome([], d, writes, x, writes, NO_ROW);
    DeliveryOutcome(first, d, rest, y, writes, st);
    WritesSettle(writes, ops);
    LostDecider(ops, m, col, MergeAll(writes, NO_ROW), rest, MergeAll(rest, NO_ROW));
  }

  lemma DeliversBoth(ops: set<Incoming>, d: Incoming, first: seq<Incoming>, rest: seq<Incoming>)
    requires DeleteOf(ops, d) && d !in ops && NoRepeats(first) && NoRepeats(rest)
    requires OpSet(first) <= ops && OpSet(rest) == ops - OpSet(first)
    ensures Delivers([d] + (first + rest), ops, d) && Delivers(first + [d] + rest, ops, d) && OpSet(first + rest) == ops
  {
    assert forall i :: 0 <= i < |first| ==> first[i] in OpSet(first);
    assert forall i :: 0 <= i < |rest| ==> rest[i] in OpSet(rest);
    assert OpSet([d] + (first + rest)) == {d} + OpSet(first) + OpSet(rest);
    assert OpSet(first + [d] + rest) == {d} + OpSet(first) + OpSet(rest);
    assert OpSet(first + rest) == OpSet(first) + OpSet(rest);
  }

  lemma FreeIsSame(ops: set<Incoming>, d: Incoming, x: seq<Incoming>, y: seq<Incoming>)
    requires OrderFree(ops, d) && Delivers(x, ops, d) && Delivers(y, ops, d)
    ensures SameOutcome(x, y)
  {
  }

  /** Where some writes leave a row the delete would remove, none of them decides a column. */
  lemma LandingLosesDecider(ops: set<Incoming>, d: Incoming, first: seq<Incoming>, st: Existing, m: Incoming)
    requires Valid(ops) && DeleteOf(ops, d) && OrderFree(ops, d) && first != [] && st == MergeAll(first, NO_ROW)
    requires NoRepeats(first) && OpSet(first) <= ops && m in OpSet(first)
    requires Stamped(st) && CompareHlc(d.hlc, st.rowHlc.value) > 0
    ensures !DecidesSome(ops, m)
  {
    if col :| Decides(ops, m, col) {
      var rest := Listed(ops - OpSet(first));
      DeliversBoth(ops, d, first, rest);
      var writes := first + rest;
      var x, y := [d] + writes, first + [d] + rest;
      FreeIsSame(ops, d, x, y);
      OutcomesDiffer(ops, d, first, st, rest, writes, x, y, m, col);
    }
  }

  lemma FreeHasNoOlderDecider(ops: set<Incoming>, d: Incoming, o: Incoming)
    requires Valid(ops) && DeleteOf(ops, d) && OrderFree(ops, d) && o in ops && Older(o, d)
    ensures !DecidesSome(ops, o)
  {
    assert OpSet([o]) == {o} && [] + [o] == [o];
    OneMore([], o, NO_ROW);
    AcceptedMoves(o, NO_ROW);
    CompareFlips(o.hlc, d.hlc);
    LandingLosesDecider(ops, d, [o], MergeStep(o, NO_ROW), o);
  }

  /** A write with a column of its own is accepted even after a newer one. */
  lemma PairLands(d: Incoming, m: Incoming, o: Incoming, c: string, st: Existing)
    requires Writes(m) && Writes(o) && Sets(o, c) && !Sets(m, c) && Older(o, d) && st == MergeAll([m, o], NO_ROW)
    ensures Stamped(st) && CompareHlc(d.hlc, st.rowHlc.value) > 0
  {
    var one := MergeStep(m, NO_ROW);
    assert [] + [m] == [m] && [m] + [o] == [m, o];
    OneMore([], m, NO_ROW);
    OneMore([m], o, NO_ROW);
    AcceptedMoves(m, NO_ROW);
    AcceptedMoves(o, one);
    assert c !in one.clocks;
    assert c in Winners(Columns(o.payload), one.clocks, o.hlc);
    CompareFlips(o.hlc, d.hlc);
  }

  lemma FreeIsWithin(ops: set<Incoming>, d: Incoming, o: Incoming, m: Incoming)
    requires Valid(ops) && DeleteOf(ops, d) && OrderFree(ops, d) && o in ops && Older(o, d) && m in ops && DecidesSome(ops, m)
    ensures Columns(o.payload).Keys <= Columns(m.payload).Keys
  {
    FreeHasNoOlderDecider(ops, d, o);
    assert m != o;
    forall c | c in Columns(o.payload).Keys ensures Sets(m, c) {
      if !Sets(m, c) {
        var pair := [m, o];
        PairLands(d, m, o, c, MergeAll(pair, NO_ROW));
        PairSet(m, o);
        LandingLosesDecider(ops, d, pair, MergeAll(pair, NO_ROW), m);
      }
    }
  }

  lemma PairSet(m: Incoming, o: Incoming)
    requires m != o
    ensures OpSet([m, o]) == {m, o} && NoRepeats([m, o])
  {
  }

  /**
   * With one delete among the writes, all orders leave the same row if, and only if, every write
   * older than the delete decides no column and touches only what every deciding write touches too.
   */
  lemma DeleteOrderExactly(ops: set<Incoming>, d: Incoming)
    requires Valid(ops) && ops != {} && DeleteOf(ops, d)
    ensures OrderFree(ops, d) <==> Harmless(ops, d)
  {
    if OrderFree(ops, d) {
      forall o | o in ops && Older(o, d) ensures !DecidesSome(ops, o) && Within(ops, o) {
        FreeHasNoOlderDecider(ops, d, o);
        forall m | m in ops && DecidesSome(ops, m) ensures Columns(o.payload).Keys <= Columns(m.payload).Keys {
          FreeIsWithin(ops, d, o, m);
        }
      }
    }
    if Harmless(ops, d) {
      forall x, y | Delivers(x, ops, d) && Delivers(y, ops, d) ensures SameOutcome(x, y) {
        var s := HarmlessOutcome(ops, d, x);
        var t := HarmlessOutcome(ops, d, y);
        SettledIsUnique(ops, s, t);
      }
    }
  }
}
