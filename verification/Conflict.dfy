/** The server's conflict policies (src/server/conflict.ts), custom resolvers aside. */
module Conflict {
  import opened Hlc
  import opened Ops
  import opened Options

  type Row = map<string, Value>

  type Clocks = map<string, string>

  datatype Incoming = Incoming(op: OpType, payload: Option<Row>, hlc: string)

  datatype Existing = Existing(row: Option<Row>, rowHlc: Option<string>, clocks: Clocks)

  datatype Result = Result(accepted: bool, row: Option<Row>, clocks: Clocks, reason: Option<string>)

  function Columns(payload: Option<Row>): Row
  {
    if payload.Some? then payload.value else map[]
  }

  /** An absent and an empty stamp both count as none. */
  predicate Stamped(existing: Existing)
  {
    existing.row.Some? && existing.rowHlc.Some? && existing.rowHlc.value != ""
  }

  function StampAll(cols: set<string>, hlc: string): Clocks
  {
    map c | c in cols :: hlc
  }

  /** A first write: every column and the row carry its stamp. */
  function FirstWrite(incoming: Incoming): Result
  {
    Result(true, if incoming.op.Delete? then None else incoming.payload, ColClocks(incoming), None)
  }

  function ColClocks(incoming: Incoming): Clocks
  {
    map["_row" := incoming.hlc] + StampAll(Columns(incoming.payload).Keys, incoming.hlc)
  }

  method BuildColClocks(incoming: Incoming) returns (clocks: Clocks)
    ensures clocks == ColClocks(incoming)
  {
    clocks := map["_row" := incoming.hlc];
    var cols := Columns(incoming.payload).Keys;
    while cols != {}
      invariant cols <= Columns(incoming.payload).Keys
      invariant clocks == map["_row" := incoming.hlc] + StampAll(Columns(incoming.payload).Keys - cols, incoming.hlc)
      decreases cols
    {
      var col :| col in cols;
      clocks := clocks[col := incoming.hlc];
      cols := cols - {col};
    }
  }

  // ---- Last writer wins, by row

  function LwwResult(incoming: Incoming, existing: Existing): Result
  {
    if !Stamped(existing) then FirstWrite(incoming)
    else if CompareHlc(incoming.hlc, existing.rowHlc.value) > 0 then
      if incoming.op.Delete? then Result(true, None, existing.clocks["_row" := incoming.hlc], None)
      else
        Result(true,
               if incoming.op.Update? then Some(existing.row.value + Columns(incoming.payload)) else incoming.payload,
               existing.clocks["_row" := incoming.hlc] + StampAll(Columns(incoming.payload).Keys, incoming.hlc),
               None)
    else Result(false, existing.row, existing.clocks, None)
  }

  // ---- Merge, by column

  predicate Wins(clocks: Clocks, hlc: string, col: string)
  {
    col !in clocks || clocks[col] == "" || CompareHlc(hlc, clocks[col]) > 0
  }

  function Winners(payload: Row, clocks: Clocks, hlc: string): set<string>
  {
    set c | c in payload && Wins(clocks, hlc, c)
  }

  function Taken(payload: Row, cols: set<string>): Row
  {
    map c | c in payload && c in cols :: payload[c]
  }

  function MergeResult(incoming: Incoming, existing: Existing): Result
  {
    if !Stamped(existing) then FirstWrite(incoming)
    else if incoming.op.Delete? then
      if CompareHlc(incoming.hlc, existing.rowHlc.value) > 0 then
        Result(true, None, existing.clocks["_row" := incoming.hlc], None)
      else Result(false, existing.row, existing.clocks, Some("merge_stale"))
    else
      var payload := Columns(incoming.payload);
      var won := Winners(payload, existing.clocks, incoming.hlc);
      if won == {} then Result(false, existing.row, existing.clocks, Some("merge_stale"))
      else
        var clocks := existing.clocks + StampAll(won, incoming.hlc);
        Result(true, Some(existing.row.value + Taken(payload, won)),
               if Wins(clocks, incoming.hlc, "_row") then clocks["_row" := incoming.hlc] else clocks, None)
  }

  lemma TakeOne(payload: Row, row: Row, clocks: Clocks, hlc: string, won: set<string>, col: string)
    requires col in payload
    ensures row + Taken(payload, won + {col}) == (row + Taken(payload, won))[col := payload[col]]
    ensures clocks + StampAll(won + {col}, hlc) == (clocks + StampAll(won, hlc))[col := hlc]
  {
  }

  lemma WinsElsewhere(clocks: Clocks, won: set<string>, hlc: string, col: string)
    requires col !in won
    ensures Wins(clocks + StampAll(won, hlc), hlc, col) <==> Wins(clocks, hlc, col)
  {
  }

  /** Taking one more column off the list. */
  lemma OneColumnDone(won: set<string>, left: set<string>, col: string)
    requires col in left
    ensures won - (left - {col}) == if col in won then (won - left) + {col} else won - left
  {
  }

  /** The loop over the payload: each column that wins is taken and stamped. */
  method MergeColumns(payload: Row, row: Row, clocks: Clocks, hlc: string)
    returns (merged: Row, stamped: Clocks, anyAccepted: bool)
    ensures var won := Winners(payload, clocks, hlc);
            && merged == row + Taken(payload, won) && stamped == clocks + StampAll(won, hlc)
            && (anyAccepted <==> won != {})
  {
    ghost var won := Winners(payload, clocks, hlc);
    merged, stamped, anyAccepted := row, clocks, false;
    var left := payload.Keys;
    while left != {}
      invariant left <= payload.Keys
      invariant anyAccepted <==> won - left != {}
      invariant merged == row + Taken(payload, won - left) && stamped == clocks + StampAll(won - left, hlc)
      decreases left
    {
      var col :| col in left;
      OneColumnDone(won, left, col);
      WinsElsewhere(clocks, won - left, hlc, col);
      if Wins(stamped, hlc, col) {
        TakeOne(payload, row, clocks, hlc, won - left, col);
        merged := merged[col := payload[col]];
        stamped := stamped[col := hlc];
        anyAccepted := true;
      }
      left := left - {col};
    }
    assert won - left == won;
  }

  method ResolveMerge(incoming: Incoming, existing: Existing) returns (r: Result)
    ensures r == MergeResult(incoming, existing)
  {
    if !Stamped(existing) {
      var first := BuildColClocks(incoming);
      return Result(true, if incoming.op.Delete? then None else incoming.payload, first, None);
    }
    if incoming.op.Delete? {
      if CompareHlc(incoming.hlc, existing.rowHlc.value) > 0 {
        return Result(true, None, existing.clocks["_row" := incoming.hlc], None);
      }
      return Result(false, existing.row, existing.clocks, Some("merge_stale"));
    }
    var merged, clocks, anyAccepted :=
      MergeColumns(Columns(incoming.payload), existing.row.value, existing.clocks, incoming.hlc);
    if anyAccepted && ("_row" !in clocks || clocks["_row"] == "" || CompareHlc(incoming.hlc, clocks["_row"]) > 0) {
      clocks := clocks["_row" := incoming.hlc];
    }
    if !anyAccepted {
      return Result(false, existing.row, existing.clocks, Some("merge_stale"));
    }
    r := Result(true, Some(merged), clocks, None);
  }

  // ---- Writing the result back

  /** What storage holds after an operation: an accepted delete removes the row and its clocks. */
  function Stored(incoming: Incoming, existing: Existing, r: Result): Existing
  {
    if !r.accepted then existing
    else if r.row.None? then Existing(None, None, map[])
    else Existing(r.row, Some(incoming.hlc), r.clocks)
  }

  function MergeStep(incoming: Incoming, existing: Existing): Existing
  {
    Stored(incoming, existing, MergeResult(incoming, existing))
  }

  function MergeAll(ops: seq<Incoming>, existing: Existing): Existing
  {
    if ops == [] then existing else MergeStep(ops[|ops| - 1], MergeAll(ops[..|ops| - 1], existing))
  }

  // ---- Merging does not depend on order

  /** An insert or update that touches some column, none of them the row's own clock. */
  predicate Writes(op: Incoming)
  {
    && !op.op.Delete? && op.payload.Some? && op.payload.value != map[]
    && "_row" !in op.payload.value && op.hlc != ""
  }

  ghost predicate Valid(ops: set<Incoming>)
  {
    && (forall o :: o in ops ==> Writes(o))
    && (forall o, o' :: o in ops && o' in ops && o.hlc == o'.hlc ==> o == o')
  }

  /** `clock` and `value` are those of the latest of these operations that touched the column. */
  ghost predicate Latest(ops: set<Incoming>, col: string, value: Value, clock: string)
  {
    && (exists o :: o in ops && Sets(o, col) && o.hlc == clock && Columns(o.payload)[col] == value)
    && (forall o :: o in ops && Sets(o, col) ==> CompareHlc(o.hlc, clock) <= 0)
  }

  predicate Sets(op: Incoming, col: string)
  {
    col in Columns(op.payload)
  }

  ghost predicate LatestOfAll(ops: set<Incoming>, clock: string)
  {
    (exists o :: o in ops && o.hlc == clock) && (forall o :: o in ops ==> CompareHlc(o.hlc, clock) <= 0)
  }

  ghost predicate Touched(ops: set<Incoming>, col: string)
  {
    exists o :: o in ops && Sets(o, col)
  }

  /** The row holds, column by column, the latest write of these operations, and nothing else. */
  ghost predicate Settled(ops: set<Incoming>, st: Existing)
    requires Valid(ops)
  {
    && Stamped(st)
    && (forall c :: c in st.row.value <==> Touched(ops, c))
    && st.clocks.Keys == st.row.value.Keys + {"_row"}
    && (forall c :: c in st.row.value ==> Latest(ops, c, st.row.value[c], st.clocks[c]))
    && LatestOfAll(ops, st.clocks["_row"])
  }

  lemma FirstSettles(op: Incoming)
    requires Writes(op)
    ensures Settled({op}, MergeStep(op, Existing(None, None, map[])))
  {
    CompareFlips(op.hlc, op.hlc);
    var st := MergeStep(op, Existing(None, None, map[]));
    assert st.clocks.Keys == st.row.value.Keys + {"_row"};
  }

  /** Merging one more operation, column by column. */
  lemma StepColumn(op: Incoming, st: Existing, col: string)
    requires Writes(op) && Stamped(st) && st.clocks.Keys == st.row.value.Keys + {"_row"} && col != "_row"
    ensures var next := MergeStep(op, st);
            && Stamped(next) && next.clocks.Keys == next.row.value.Keys + {"_row"}
            && (col in next.row.value <==> col in st.row.value || (Sets(op, col) && Wins(st.clocks, op.hlc, col)))
            && (col in next.row.value ==>
                  if Sets(op, col) && Wins(st.clocks, op.hlc, col)
                  then next.row.value[col] == Columns(op.payload)[col] && next.clocks[col] == op.hlc
                  else next.row.value[col] == st.row.value[col] && next.clocks[col] == st.clocks[col])
  {
    assert Sets(op, col) && Wins(st.clocks, op.hlc, col) ==> col in Winners(Columns(op.payload), st.clocks, op.hlc);
  }

  lemma LatestKept(ops: set<Incoming>, op: Incoming, col: string, value: Value, clock: string)
    requires Latest(ops, col, value, clock)
    requires Sets(op, col) ==> CompareHlc(op.hlc, clock) <= 0
    ensures Latest(ops + {op}, col, value, clock)
  {
    var o :| o in ops && Sets(o, col) && o.hlc == clock && Columns(o.payload)[col] == value;
    assert o in ops + {op};
  }

  lemma LatestReplaced(ops: set<Incoming>, op: Incoming, col: string)
    requires Sets(op, col)
    requires forall o :: o in ops && Sets(o, col) ==> CompareHlc(o.hlc, op.hlc) <= 0
    ensures Latest(ops + {op}, col, Columns(op.payload)[col], op.hlc)
  {
    CompareFlips(op.hlc, op.hlc);
    assert op in ops + {op};
  }

  lemma ColumnSettles(ops: set<Incoming>, op: Incoming, st: Existing, col: string)
    requires Valid(ops) && Settled(ops, st) && Writes(op) && col != "_row"
    ensures var next := MergeStep(op, st);
            && Stamped(next) && next.clocks.Keys == next.row.value.Keys + {"_row"}
            && (col in next.row.value <==> Touched(ops + {op}, col))
            && (col in next.row.value ==> Latest(ops + {op}, col, next.row.value[col], next.clocks[col]))
  {
    var next := MergeStep(op, st);
    StepColumn(op, st, col);
    TouchedByMore(ops, op, col);
    if Sets(op, col) && Wins(st.clocks, op.hlc, col) {
      forall o | o in ops && Sets(o, col) ensures CompareHlc(o.hlc, op.hlc) <= 0 {
        assert Touched(ops, col) && col in st.row.value;
        var latest :| latest in ops && Sets(latest, col) && latest.hlc == st.clocks[col];
        CompareFlips(op.hlc, st.clocks[col]);
        CompareChains(o.hlc, st.clocks[col], op.hlc);
      }
      LatestReplaced(ops, op, col);
    } else if col in st.row.value {
      LatestKept(ops, op, col, st.row.value[col], st.clocks[col]);
    }
  }

  lemma TouchedByMore(ops: set<Incoming>, op: Incoming, col: string)
    ensures Touched(ops + {op}, col) <==> Touched(ops, col) || Sets(op, col)
  {
    if Touched(ops, col) {
      var o :| o in ops && Sets(o, col);
      assert o in ops + {op};
    }
    assert op in ops + {op};
  }

  /** The row's clock moves exactly when a column is won by a later write. */
  lemma RowClockAfter(op: Incoming, st: Existing, row: string, after: string)
    requires Writes(op) && Stamped(st) && "_row" in st.clocks && row == st.clocks["_row"]
    requires after == if Winners(Columns(op.payload), st.clocks, op.hlc) != {} && CompareHlc(op.hlc, row) > 0 then op.hlc else row
    ensures "_row" in MergeStep(op, st).clocks && MergeStep(op, st).clocks["_row"] == after
  {
  }

  lemma LosesEverywhere(ops: set<Incoming>, op: Incoming, st: Existing, won: set<string>)
    requires Valid(ops) && Settled(ops, st) && Writes(op) && won == Winners(Columns(op.payload), st.clocks, op.hlc)
    ensures won == {} ==> CompareHlc(op.hlc, st.clocks["_row"]) <= 0
  {
    if won == {} {
      var col :| col in op.payload.value;
      assert col !in won;
      LosesToRowClock(ops, op, st, col);
    }
  }

  lemma RowClockSettles(ops: set<Incoming>, op: Incoming, st: Existing)
    requires Valid(ops) && Settled(ops, st) && Writes(op)
    ensures "_row" in MergeStep(op, st).clocks && LatestOfAll(ops + {op}, MergeStep(op, st).clocks["_row"])
  {
    var row, won := st.clocks["_row"], Winners(Columns(op.payload), st.clocks, op.hlc);
    var after := if won != {} && CompareHlc(op.hlc, row) > 0 then op.hlc else row;
    CompareFlips(row, row);
    LosesEverywhere(ops, op, st, won);
    RowClockAfter(op, st, row, after);
    LaterOf(ops, op, row, after);
  }

  lemma LaterOf(ops: set<Incoming>, op: Incoming, row: string, after: string)
    requires LatestOfAll(ops, row)
    requires if after == row then CompareHlc(op.hlc, row) <= 0 else after == op.hlc && CompareHlc(op.hlc, row) > 0
    ensures LatestOfAll(ops + {op}, after)
  {
    var first :| first in ops && first.hlc == row;
    assert first in ops + {op} && op in ops + {op};
    CompareFlips(op.hlc, row);
    CompareFlips(op.hlc, op.hlc);
    if after != row {
      forall o | o in ops ensures CompareHlc(o.hlc, op.hlc) <= 0 {
        CompareChains(o.hlc, row, op.hlc);
      }
    }
  }

  /** An operation that loses a column is no later than the row's own clock. */
  lemma LosesToRowClock(ops: set<Incoming>, op: Incoming, st: Existing, col: string)
    requires Valid(ops) && Settled(ops, st) && Writes(op) && Sets(op, col) && !Wins(st.clocks, op.hlc, col)
    ensures CompareHlc(op.hlc, st.clocks["_row"]) <= 0
  {
    var winner :| winner in ops && Sets(winner, col) && winner.hlc == st.clocks[col];
    CompareChains(op.hlc, winner.hlc, st.clocks["_row"]);
  }

  lemma StepSettles(ops: set<Incoming>, op: Incoming, st: Existing)
    requires Valid(ops) && Settled(ops, st) && Valid(ops + {op})
    ensures Settled(ops + {op}, MergeStep(op, st))
  {
    var next := MergeStep(op, st);
    assert op in ops + {op};
    RowClockSettles(ops, op, st);
    forall c | c != "_row"
      ensures Stamped(next) && next.clocks.Keys == next.row.value.Keys + {"_row"}
      ensures c in next.row.value <==> Touched(ops + {op}, c)
      ensures c in next.row.value ==> Latest(ops + {op}, c, next.row.value[c], next.clocks[c])
    {
      ColumnSettles(ops, op, st, c);
    }
    ColumnSettles(ops, op, st, "");
    RowIsNoColumn(ops, op, st);
  }

  lemma RowIsNoColumn(ops: set<Incoming>, op: Incoming, st: Existing)
    requires Valid(ops) && Settled(ops, st) && Valid(ops + {op})
    ensures !Touched(ops + {op}, "_row") && Stamped(MergeStep(op, st)) && "_row" !in MergeStep(op, st).row.value
  {
    assert !Touched(ops, "_row");
    assert op in ops + {op};
  }

  ghost function OpSet(ops: seq<Incoming>): set<Incoming>
  {
    set o | o in ops
  }

  /** Folding writes into a new row leaves, for every column, the latest write that touched it. */
  lemma {:induction false} MergingSettles(ops: seq<Incoming>)
    requires ops != [] && Valid(OpSet(ops))
    ensures Settled(OpSet(ops), MergeAll(ops, Existing(None, None, map[])))
  {
    var init, last := ops[..|ops| - 1], ops[|ops| - 1];
    assert OpSet(ops) == OpSet(init) + {last};
    if init == [] {
      assert OpSet(ops) == {last};
      FirstSettles(last);
    } else {
      MergingSettles(init);
      StepSettles(OpSet(init), last, MergeAll(init, Existing(None, None, map[])));
    }
  }

  lemma LatestIsUnique(ops: set<Incoming>, col: string, value: Value, clock: string, value': Value, clock': string)
    requires Valid(ops) && Latest(ops, col, value, clock) && Latest(ops, col, value', clock')
    ensures value == value' && clock == clock'
  {
    CompareFlips(clock, clock');
  }

  lemma LatestOfAllIsUnique(ops: set<Incoming>, clock: string, clock': string)
    requires LatestOfAll(ops, clock) && LatestOfAll(ops, clock')
    ensures clock == clock'
  {
    CompareFlips(clock, clock');
  }

  ghost predicate SameAt(s: Existing, t: Existing, col: string)
    requires s.row.Some? && t.row.Some?
  {
    && (col in s.row.value <==> col in t.row.value) && (col in s.clocks <==> col in t.clocks)
    && (col in s.row.value && col in t.row.value ==> s.row.value[col] == t.row.value[col])
    && (col in s.clocks && col in t.clocks ==> s.clocks[col] == t.clocks[col])
  }

  /** What settling says of one column. */
  ghost predicate SettledAt(ops: set<Incoming>, st: Existing, col: string)
    requires st.row.Some?
  {
    && (col in st.row.value <==> Touched(ops, col)) && (col in st.clocks <==> col in st.row.value)
    && (col in st.row.value ==> Latest(ops, col, st.row.value[col], st.clocks[col]))
  }

  lemma SettledIsAt(ops: set<Incoming>, st: Existing, col: string)
    requires Valid(ops) && Settled(ops, st) && col != "_row"
    ensures st.row.Some? && SettledAt(ops, st, col)
  {
  }

  lemma SettledSameColumn(ops: set<Incoming>, s: Existing, t: Existing, col: string)
    requires Valid(ops) && s.row.Some? && t.row.Some? && SettledAt(ops, s, col) && SettledAt(ops, t, col)
    ensures SameAt(s, t, col)
  {
    if Touched(ops, col) {
      LatestIsUnique(ops, col, s.row.value[col], s.clocks[col], t.row.value[col], t.clocks[col]);
    }
  }

  lemma SettledSameAt(ops: set<Incoming>, s: Existing, t: Existing, col: string)
    requires Valid(ops) && Settled(ops, s) && Settled(ops, t)
    ensures SameAt(s, t, col)
  {
    if col == "_row" {
      LatestOfAllIsUnique(ops, s.clocks[col], t.clocks[col]);
      assert !Touched(ops, col);
    } else {
      SettledIsAt(ops, s, col);
      SettledIsAt(ops, t, col);
      SettledSameColumn(ops, s, t, col);
    }
  }

  lemma SameEverywhere(s: Existing, t: Existing)
    requires s.row.Some? && t.row.Some? && forall c :: SameAt(s, t, c)
    ensures s.row == t.row && s.clocks == t.clocks
  {
    forall c ensures c in s.row.value <==> c in t.row.value { assert SameAt(s, t, c); }
    forall c ensures c in s.clocks <==> c in t.clocks { assert SameAt(s, t, c); }
    forall c | c in s.row.value ensures s.row.value[c] == t.row.value[c] { assert SameAt(s, t, c); }
    forall c | c in s.clocks ensures s.clocks[c] == t.clocks[c] { assert SameAt(s, t, c); }
    assert s.row.value == t.row.value && s.clocks == t.clocks;
  }

  lemma SettledIsUnique(ops: set<Incoming>, s: Existing, t: Existing)
    requires Valid(ops) && Settled(ops, s) && Settled(ops, t)
    ensures s.row == t.row && s.clocks == t.clocks
  {
    forall c ensures SameAt(s, t, c) {
      SettledSameAt(ops, s, t, c);
    }
    SameEverywhere(s, t);
  }

  /**
   * The merge policy does not depend on order or repetition: two deliveries of the same writes, in
   * any order and with any repeats, leave the same row and the same clocks.
   */
  lemma MergeOrderDoesNotMatter(ops: seq<Incoming>, ops': seq<Incoming>)
    requires ops != [] && Valid(OpSet(ops)) && OpSet(ops) == OpSet(ops')
    ensures var s, t := MergeAll(ops, Existing(None, None, map[])), MergeAll(ops', Existing(None, None, map[]));
            s.row == t.row && s.clocks == t.clocks
  {
    assert ops[0] in OpSet(ops');
    MergingSettles(ops);
    MergingSettles(ops');
    SettledIsUnique(OpSet(ops), MergeAll(ops, Existing(None, None, map[])), MergeAll(ops', Existing(None, None, map[])));
  }

  lemma OlderWriteLowersStamp(b: Incoming, st: Existing)
    requires b == Incoming(Update, Some(map["b" := Other(2)]), "1")
    requires st.row == Some(map["a" := Other(1)]) && st.rowHlc == Some("3") && "b" !in st.clocks
    ensures MergeStep(b, st).row == Some(map["a" := Other(1), "b" := Other(2)]) && MergeStep(b, st).rowHlc == Some("1")
  {
    assert Winners(map["b" := Other(2)], st.clocks, "1") == {"b"};
    assert MergeStep(b, st).row.value == map["a" := Other(1), "b" := Other(2)];
  }

  /**
   * With a delete among the writes the order does matter: an older write to another column lowers
   * the row's stamp, and a delete older than the newest write then removes the row.
   */
  lemma DeleteOrderMatters(a: Incoming, b: Incoming, delete: Incoming)
    requires a == Incoming(Update, Some(map["a" := Other(1)]), "3")
    requires b == Incoming(Update, Some(map["b" := Other(2)]), "1")
    requires delete == Incoming(Delete, None, "2")
    ensures MergeAll([a, b, delete], Existing(None, None, map[])).row == None
    ensures MergeAll([a, delete, b], Existing(None, None, map[])).row == Some(map["a" := Other(1), "b" := Other(2)])
  {
    var st0 := Existing(None, None, map[]);
    var st1 := MergeStep(a, st0);
    var st2 := MergeStep(b, st1);
    assert st1.row == Some(map["a" := Other(1)]) && st1.rowHlc == Some("3") && "b" !in st1.clocks;
    OlderWriteLowersStamp(b, st1);
    assert CompareHlc("2", "1") == 1 && CompareHlc("2", "3") == -1;
    assert MergeStep(delete, st1) == st1;
    Three(a, b, delete, st0);
    Three(a, delete, b, st0);
  }

  lemma Three(x: Incoming, y: Incoming, z: Incoming, st: Existing)
    ensures MergeAll([x, y, z], st) == MergeStep(z, MergeStep(y, MergeStep(x, st)))
  {
    assert [x, y, z][..2] == [x, y] && [x, y][..1] == [x] && [x][..0] == [];
    assert MergeAll([x], st) == MergeStep(x, MergeAll([], st));
    assert MergeAll([x, y], st) == MergeStep(y, MergeAll([x], st));
  }
}
