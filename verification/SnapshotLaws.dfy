/** A snapshot replaces what the server knows and keeps what the user wrote on top (src/client/store.ts, `applySnapshot`). */
module SnapshotLaws {
  import opened Conflict
  import opened Ops
  import opened Options
  import opened Store
  import opened StoreLaws

  /** Showing pending writes again puts each row's own on top of it, and touches no other table. */
  lemma {:induction false} ReappliedRow(metas: Metas, rows: Rows, ps: seq<PendingOp>, table: string, key: Key)
    ensures Visible(EntryAt(Reapplied(metas, rows, ps, table), key))
         == if key.table == table then Fold(metas, ps, key, Visible(EntryAt(rows, key))) else Visible(EntryAt(rows, key))
    ensures key.table != table ==> EntryAt(Reapplied(metas, rows, ps, table), key) == EntryAt(rows, key)
    decreases |ps|
  {
    if ps != [] {
      var init, p := ps[..|ps| - 1], ps[|ps| - 1];
      var sofar := Reapplied(metas, rows, init, table);
      ReappliedRow(metas, rows, init, table, key);
      if KeyOf(p.op) == key {
        OnlyVisibleMatters(metas, EntryAt(sofar, key), p.op);
      }
    }
  }

  /** A row of the snapshot is stored as the server sent it; a later row of the same id replaces it. */
  lemma {:induction false} SnapshotStores(rows: Rows, table: string, snapshot: seq<Row>, colClocks: map<string, Clocks>, pk: string,
                                          i: nat)
    requires i < |snapshot| && forall j :: i < j < |snapshot| ==> RowIdOf(snapshot[j], pk) != RowIdOf(snapshot[i], pk)
    ensures var entry := EntryAt(SnapshotRows(rows, table, snapshot, colClocks, pk), Key(table, RowIdOf(snapshot[i], pk)));
            entry.Some? && entry.value.data == Some(snapshot[i])
    decreases |snapshot|
  {
    if i < |snapshot| - 1 {
      SnapshotStores(rows, table, snapshot[..|snapshot| - 1], colClocks, pk, i);
    }
  }

  /** A key no row of the snapshot has keeps what was stored before. */
  lemma {:induction false} SnapshotSpares(rows: Rows, table: string, snapshot: seq<Row>, colClocks: map<string, Clocks>, pk: string,
                                          key: Key)
    requires key.table != table || forall i :: 0 <= i < |snapshot| ==> RowIdOf(snapshot[i], pk) != key.rowId
    ensures EntryAt(SnapshotRows(rows, table, snapshot, colClocks, pk), key) == EntryAt(rows, key)
    decreases |snapshot|
  {
    if snapshot != [] {
      SnapshotSpares(rows, table, snapshot[..|snapshot| - 1], colClocks, pk, key);
    }
  }

  /**
   * After a snapshot, a row the server sent shows the server's data with exactly the writes still
   * pending for it on top, in order.
   */
  lemma SnapshotShowsRow(s: State, rows: Rows, table: string, snapshot: seq<Row>, colClocks: map<string, Clocks>, pk: string,
                         i: nat, key: Key)
    requires i < |snapshot| && forall j :: i < j < |snapshot| ==> RowIdOf(snapshot[j], pk) != RowIdOf(snapshot[i], pk)
    requires key == Key(table, RowIdOf(snapshot[i], pk))
    ensures var loaded := SnapshotRows(rows, table, snapshot, colClocks, pk);
            var s' := s.(rows := Reapplied(s.metas, loaded, s.pending, table));
            && EntryAt(loaded, key).Some? && EntryAt(loaded, key).value.data == Some(snapshot[i])
            && At(s', key) == Fold(s.metas, s.pending, key, EntryAt(loaded, key))
  {
    SnapshotStores(rows, table, snapshot, colClocks, pk, i);
    ReappliedRow(s.metas, SnapshotRows(rows, table, snapshot, colClocks, pk), s.pending, table, key);
  }

  /** A row the server did not send keeps its data only if it was kept; pending writes are on top either way. */
  lemma SnapshotShowsOthers(s: State, rows: Rows, table: string, snapshot: seq<Row>, colClocks: map<string, Clocks>, pk: string,
                            key: Key)
    requires key.table != table || forall i :: 0 <= i < |snapshot| ==> RowIdOf(snapshot[i], pk) != key.rowId
    ensures var s' := s.(rows := Reapplied(s.metas, SnapshotRows(rows, table, snapshot, colClocks, pk), s.pending, table));
            At(s', key) == if key.table == table then Fold(s.metas, s.pending, key, Visible(EntryAt(rows, key)))
                           else Visible(EntryAt(rows, key))
  {
    SnapshotSpares(rows, table, snapshot, colClocks, pk, key);
    ReappliedRow(s.metas, SnapshotRows(rows, table, snapshot, colClocks, pk), s.pending, table, key);
  }
}
