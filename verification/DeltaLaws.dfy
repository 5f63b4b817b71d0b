/** What a row ends up as does not depend on the order deltas arrive in (src/client/store.ts, `applyDelta`). */
module DeltaLaws {
  import opened Conflict
  import opened Hlc
  import opened Ops
  import opened Options
  import opened Store

  function DeltaAll(metas: Metas, key: Key, entry: Option<LocalRow>, ds: seq<Delta>): Option<LocalRow>
  {
    if ds == [] then entry
    else DeltaEntry(metas, key, DeltaAll(metas, key, entry, ds[..|ds| - 1]), ds[|ds| - 1])
  }

  /** No two different deltas carry the same stamp. */
  ghost predicate Distinct(ds: seq<Delta>)
  {
    forall d, d' :: d in ds && d' in ds && d.hlc == d'.hlc ==> d == d'
  }

  /** The same deltas, in any order and with any repeats. */
  ghost predicate SameDeltas(ds: seq<Delta>, ds': seq<Delta>)
  {
    forall d :: d in ds <==> d in ds'
  }

  // ---- Inserts and deletes

  /** What the newest of some inserts and deletes leaves. */
  function Decided(metas: Metas, key: Key, entry: Option<LocalRow>, latest: Delta): Option<LocalRow>
  {
    if Stale(entry, latest.hlc) then entry else Made(metas, key, latest)
  }

  lemma StaleForOlder(entry: Option<LocalRow>, older: string, newer: string)
    requires CompareHlc(older, newer) <= 0 && Stale(entry, newer)
    ensures Stale(entry, older)
  {
    CompareChains(older, newer, entry.value.serverHlc.value);
  }

  /** One more insert or delete: the newer of it and the newest so far decides. */
  lemma DecidedNext(metas: Metas, key: Key, entry: Option<LocalRow>, latest: Delta, last: Delta)
    requires !latest.op.Update? && !last.op.Update? && latest.hlc != "" && last.hlc != ""
    ensures DeltaEntry(metas, key, Decided(metas, key, entry, latest), last)
         == Decided(metas, key, entry, if CompareHlc(last.hlc, latest.hlc) > 0 then last else latest)
  {
    CompareFlips(last.hlc, latest.hlc);
    if CompareHlc(last.hlc, latest.hlc) > 0 {
      if Stale(entry, last.hlc) {
        StaleForOlder(entry, latest.hlc, last.hlc);
      }
    } else if Stale(entry, latest.hlc) {
      StaleForOlder(entry, last.hlc, latest.hlc);
    }
  }

  /** The newest insert or delete decides the row, unless what is stored is at least as new already. */
  lemma {:induction false} LatestDecides(metas: Metas, key: Key, entry: Option<LocalRow>, ds: seq<Delta>) returns (latest: Delta)
    requires ds != [] && forall d :: d in ds ==> !d.op.Update? && d.hlc != ""
    ensures latest in ds && forall d :: d in ds ==> CompareHlc(d.hlc, latest.hlc) <= 0
    ensures DeltaAll(metas, key, entry, ds) == Decided(metas, key, entry, latest)
    decreases |ds|
  {
    var init, last := ds[..|ds| - 1], ds[|ds| - 1];
    CompareFlips(last.hlc, last.hlc);
    assert ds == init + [last];
    if init == [] {
      latest := last;
    } else {
      var before := LatestDecides(metas, key, entry, init);
      DecidedNext(metas, key, entry, before, last);
      CompareFlips(last.hlc, before.hlc);
      latest := if CompareHlc(last.hlc, before.hlc) > 0 then last else before;
      forall d | d in init ensures CompareHlc(d.hlc, latest.hlc) <= 0 {
        CompareChains(d.hlc, before.hlc, latest.hlc);
      }
    }
  }

  /**
   * Any arrival order of the same inserts and deletes, with any repeats, on any row or none, leaves the
   * row as the newest of them made it or as it was; in particular a tombstone keeps out every older insert.
   */
  lemma InsertsAndDeletesConverge(metas: Metas, key: Key, entry: Option<LocalRow>, ds: seq<Delta>, ds': seq<Delta>)
    requires ds != [] && Distinct(ds) && SameDeltas(ds, ds')
    requires forall d :: d in ds ==> !d.op.Update? && d.hlc != ""
    ensures DeltaAll(metas, key, entry, ds) == DeltaAll(metas, key, entry, ds')
  {
    assert ds[0] in ds';
    var l := LatestDecides(metas, key, entry, ds);
    var l' := LatestDecides(metas, key, entry, ds');
    CompareFlips(l.hlc, l'.hlc);
  }

  // ---- Updates of a live row

  /** A column as the row has it: its value and its clock. */
  datatype Cell = Cell(value: Option<Value>, clock: Option<string>)

  function CellAt(row: LocalRow, col: string): Cell
  {
    Cell(if row.data.Some? && col in row.data.value then Some(row.data.value[col]) else None,
         if col in row.colClocks then Some(row.colClocks[col]) else None)
  }

  /** An update's offer for a column is taken when it is newer than what is there. */
  function CellStep(cell: Cell, d: Delta, col: string): Cell
  {
    if col in Columns(d.payload) &&
       (cell.clock.None? || cell.clock.value == "" || CompareHlc(ClockOf(d, col), cell.clock.value) > 0)
    then Cell(Some(Columns(d.payload)[col]), Some(ClockOf(d, col)))
    else cell
  }

  function CellAll(cell: Cell, ds: seq<Delta>, col: string): Cell
  {
    if ds == [] then cell else CellStep(CellAll(cell, ds[..|ds| - 1], col), ds[|ds| - 1], col)
  }

  /** A live row that carries its primary key. */
  ghost predicate Live(metas: Metas, key: Key, entry: Option<LocalRow>)
  {
    entry.Some? && entry.value.data.Some? && PkOf(metas, key.table) in entry.value.data.value
  }

  lemma UpdateByColumn(metas: Metas, key: Key, entry: Option<LocalRow>, d: Delta, col: string)
    requires Live(metas, key, entry) && d.op.Update? && col != "_row"
    ensures var after := DeltaEntry(metas, key, entry, d);
            Live(metas, key, after) && CellAt(after.value, col) == CellStep(CellAt(entry.value, col), d, col)
  {
    var cols := Newer(d, entry.value.colClocks);
    assert col in cols <==> col in Columns(d.payload) && Wins(entry.value.colClocks, ClockOf(d, col), col);
  }

  lemma {:induction false} UpdatesByColumn(metas: Metas, key: Key, entry: Option<LocalRow>, ds: seq<Delta>, col: string)
    requires Live(metas, key, entry) && col != "_row" && forall d :: d in ds ==> d.op.Update?
    ensures var after := DeltaAll(metas, key, entry, ds);
            Live(metas, key, after) && CellAt(after.value, col) == CellAll(CellAt(entry.value, col), ds, col)
    decreases |ds|
  {
    if ds != [] {
      UpdatesByColumn(metas, key, entry, ds[..|ds| - 1], col);
      UpdateByColumn(metas, key, DeltaAll(metas, key, entry, ds[..|ds| - 1]), ds[|ds| - 1], col);
    }
  }

  /** The cell is what it was, or what one of the updates offers. */
  ghost predicate Offered(cell: Cell, start: Cell, ds: seq<Delta>, col: string)
  {
    cell == start ||
    exists d :: d in ds && col in Columns(d.payload) && cell == Cell(Some(Columns(d.payload)[col]), Some(ClockOf(d, col)))
  }

  ghost predicate NoNewer(cell: Cell, ds: seq<Delta>, col: string)
  {
    forall d :: d in ds && col in Columns(d.payload) ==>
      cell.clock.Some? && cell.clock.value != "" && CompareHlc(ClockOf(d, col), cell.clock.value) <= 0
  }

  /** The cell a run of updates leaves is one of those offered, and none offered is newer. */
  lemma {:induction false} CellIsNewest(start: Cell, ds: seq<Delta>, col: string)
    requires forall d :: d in ds ==> ClockOf(d, col) != ""
    ensures var cell := CellAll(start, ds, col);
            && Offered(cell, start, ds, col) && NoNewer(cell, ds, col)
            && (cell == start || start.clock.None? || start.clock.value == "" ||
                CompareHlc(start.clock.value, cell.clock.value) < 0)
    decreases |ds|
  {
    if ds != [] {
      var init, last := ds[..|ds| - 1], ds[|ds| - 1];
      assert ds == init + [last];
      CellIsNewest(start, init, col);
      var before, cell := CellAll(start, init, col), CellAll(start, ds, col);
      CompareFlips(ClockOf(last, col), ClockOf(last, col));
      if cell != before {
        assert last in ds;
        if before.clock.Some? && before.clock.value != "" {
          NewerThanBefore(before.clock.value, ClockOf(last, col), init, col);
          if start.clock.Some? && start.clock.value != "" {
            CompareFlips(start.clock.value, start.clock.value);
            CompareFlips(before.clock.value, ClockOf(last, col));
            CompareFlips(start.clock.value, before.clock.value);
            CompareFlips(start.clock.value, ClockOf(last, col));
            CompareChains(start.clock.value, before.clock.value, ClockOf(last, col));
          }
        }
      }
    }
  }

  lemma NewerThanBefore(old_: string, new_: string, ds: seq<Delta>, col: string)
    requires CompareHlc(new_, old_) > 0
    requires forall d :: d in ds && col in Columns(d.payload) ==> CompareHlc(ClockOf(d, col), old_) <= 0
    ensures forall d :: d in ds && col in Columns(d.payload) ==> CompareHlc(ClockOf(d, col), new_) <= 0
  {
    CompareFlips(old_, new_);
    forall d | d in ds && col in Columns(d.payload) ensures CompareHlc(ClockOf(d, col), new_) <= 0 {
      CompareChains(ClockOf(d, col), old_, new_);
    }
  }

  /** Two updates that stamp a column alike give it the same value. */
  ghost predicate DistinctAt(ds: seq<Delta>, col: string)
  {
    forall d, d' :: d in ds && d' in ds && col in Columns(d.payload) && col in Columns(d'.payload) ==>
      (ClockOf(d, col) == ClockOf(d', col) ==> Columns(d.payload)[col] == Columns(d'.payload)[col])
  }

  lemma NewestIsUnique(start: Cell, cell: Cell, cell': Cell, ds: seq<Delta>, col: string)
    requires DistinctAt(ds, col)
    requires Offered(cell, start, ds, col) && NoNewer(cell, ds, col) && Offered(cell', start, ds, col) && NoNewer(cell', ds, col)
    requires cell == start || start.clock.None? || start.clock.value == "" || CompareHlc(start.clock.value, cell.clock.value) < 0
    requires cell' == start || start.clock.None? || start.clock.value == "" || CompareHlc(start.clock.value, cell'.clock.value) < 0
    ensures cell == cell'
  {
    if cell.clock.Some? && cell'.clock.Some? {
      CompareFlips(cell.clock.value, cell'.clock.value);
    }
  }

  /**
   * Any arrival order of the same updates, with any repeats, on a live row leaves every column with
   * the same value and the same clock: the newest offered, or what the row had if none was newer.
   */
  lemma UpdatesConverge(metas: Metas, key: Key, entry: Option<LocalRow>, ds: seq<Delta>, ds': seq<Delta>, col: string)
    requires Live(metas, key, entry) && col != "_row" && SameDeltas(ds, ds') && DistinctAt(ds, col)
    requires forall d :: d in ds ==> d.op.Update? && ClockOf(d, col) != ""
    ensures DeltaAll(metas, key, entry, ds).Some? && DeltaAll(metas, key, entry, ds').Some?
    ensures CellAt(DeltaAll(metas, key, entry, ds).value, col) == CellAt(DeltaAll(metas, key, entry, ds').value, col)
  {
    var start := CellAt(entry.value, col);
    UpdatesByColumn(metas, key, entry, ds, col);
    UpdatesByColumn(metas, key, entry, ds', col);
    CellIsNewest(start, ds, col);
    CellIsNewest(start, ds', col);
    NewestIsUnique(start, CellAll(start, ds, col), CellAll(start, ds', col), ds, col);
  }

  /** An update is not ordered against a tombstone: one older than the delete brings the row back. */
  lemma UpdateRevivesTombstone(metas: Metas, key: Key, delete: Delta, update: Delta)
    requires delete == Delta(Delete, None, "2", None) && update == Delta(Update, Some(map["a" := Other(1)]), "1", None)
    ensures Visible(DeltaAll(metas, key, None, [delete, update])).Some?
  {
    assert [delete, update][..1] == [delete] && [delete][..0] == [];
    var tombstone := DeltaEntry(metas, key, None, delete);
    assert DeltaAll(metas, key, None, [delete]) == DeltaEntry(metas, key, DeltaAll(metas, key, None, []), delete);
    assert tombstone == Some(LocalRow(None, map[], Some("2")));
    assert "a" in Newer(update, map[]);
  }

  /** It does so whatever the clocks: an update after a delete shows the row again if and only if it carries a column. */
  lemma UpdateRevivesExactly(metas: Metas, key: Key, delete: Delta, update: Delta)
    requires delete.op.Delete? && update.op.Update?
    ensures Visible(DeltaAll(metas, key, None, [delete, update])).Some? <==> Columns(update.payload) != map[]
  {
    var tombstone := Made(metas, key, delete);
    assert [delete, update][..1] == [delete] && [delete][..0] == [];
    assert DeltaAll(metas, key, None, [delete]) == tombstone;
    var cols := Newer(update, tombstone.value.colClocks);
    assert forall c :: c in Columns(update.payload) ==> c in cols;
    if Columns(update.payload) != map[] {
      var c :| c in Columns(update.payload);
      assert c in cols;
    }
  }
}
