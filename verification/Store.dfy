/** The client's rows and its queue of optimistic writes (src/client/store.ts), in memory. */
module Store {
  import opened Conflict
  import opened Hlc
  import opened Ops
  import opened Options

  const TEXT_EDIT_KEY := "$text"

  /** A row as the client has it; `data` is `None` for a tombstone. */
  datatype LocalRow = LocalRow(data: Option<Row>, colClocks: Clocks, serverHlc: Option<string>)

  datatype Status = Pending | Rejected

  /** A tracked write; `pre` is the visible row just before it was applied, `None` when there was none. */
  datatype PendingOp = PendingOp(op: ClientOp, status: Status, pre: Option<LocalRow>)

  datatype Meta = Meta(serverSet: set<string>, pk: string)

  datatype Key = Key(table: string, rowId: string)

  type Metas = map<string, Meta>

  function KeyOf(op: ClientOp): Key { Key(op.table, op.rowId) }

  function PkOf(metas: Metas, table: string): string
  {
    if table in metas then metas[table].pk else "id"
  }

  /** A row that is shown has its id under the primary key. */
  function WithPk(metas: Metas, table: string, rowId: string, data: Row): Row
  {
    if PkOf(metas, table) in data then data else data[PkOf(metas, table) := Str(rowId)]
  }

  /** What storing a row leaves under its key: nothing when there is neither data nor a clock to remember. */
  function Entry(data: Option<Row>, colClocks: Clocks, serverHlc: Option<string>): Option<LocalRow>
  {
    if data.None? && serverHlc.None? then None else Some(LocalRow(data, colClocks, serverHlc))
  }

  /** Tombstones are hidden from readers. */
  function Visible(entry: Option<LocalRow>): Option<LocalRow>
  {
    if entry.Some? && entry.value.data.Some? then entry else None
  }

  /** The columns an optimistic write may show: not the text edit, not what the server sets. */
  function Shown(metas: Metas, op: ClientOp): Row
  {
    var payload := Columns(op.payload) - {TEXT_EDIT_KEY};
    var stripped := if op.table in metas then payload - metas[op.table].serverSet else payload;
    if op.op.Insert? && op.payload.Some? then WithPk(metas, op.table, op.rowId, stripped) else stripped
  }

  /** A row after an optimistic write. */
  function Optimistic(metas: Metas, entry: Option<LocalRow>, op: ClientOp): Option<LocalRow>
  {
    var existing := Visible(entry);
    if op.op.Delete? then Entry(None, map["_row" := op.hlc], Some(op.hlc))
    else if existing.Some? then
      Entry(Some(existing.value.data.value + Shown(metas, op)), existing.value.colClocks, existing.value.serverHlc)
    else if op.op.Insert? then Entry(Some(Shown(metas, op)), map["_row" := op.hlc], Some(op.hlc))
    else entry
  }

  type Rows = map<Key, LocalRow>

  function EntryAt(rows: Rows, key: Key): Option<LocalRow>
  {
    if key in rows then Some(rows[key]) else None
  }

  function Put(rows: Rows, key: Key, entry: Option<LocalRow>): Rows
  {
    if entry.Some? then rows[key := entry.value] else rows - {key}
  }

  lemma PutTwice(rows: Rows, rows': Rows, key: Key, first: Option<LocalRow>, second: Option<LocalRow>)
    requires rows' == Put(rows, key, first)
    ensures Put(rows', key, second) == Put(rows, key, second) && EntryAt(Put(rows, key, second), key) == second
  {
  }

  /** The store's state as a value. */
  datatype State = State(pending: seq<PendingOp>, rows: Rows, metas: Metas)

  function At(s: State, key: Key): Option<LocalRow>
  {
    Visible(EntryAt(s.rows, key))
  }

  function Applied(s: State, op: ClientOp): State
  {
    s.(rows := Put(s.rows, KeyOf(op), Optimistic(s.metas, EntryAt(s.rows, KeyOf(op)), op)))
  }

  function Added(s: State, op: ClientOp): State
  {
    s.(pending := s.pending + [PendingOp(op, Pending, At(s, KeyOf(op)))])
  }

  /** A local write: queued, then shown. */
  function Written(s: State, op: ClientOp): State
  {
    Applied(Added(s, op), op)
  }

  function Unacked(ps: seq<PendingOp>, ids: set<string>): seq<PendingOp>
  {
    if ps == [] then []
    else Unacked(ps[..|ps| - 1], ids) + if ps[|ps| - 1].op.id in ids then [] else [ps[|ps| - 1]]
  }

  function Find(ps: seq<PendingOp>, id: string): Option<PendingOp>
  {
    if ps == [] then None else if ps[0].op.id == id then Some(ps[0]) else Find(ps[1..], id)
  }

  /** The earliest write tracked for a row. */
  function First(ps: seq<PendingOp>, key: Key): Option<PendingOp>
  {
    if ps == [] then None else if KeyOf(ps[0].op) == key then Some(ps[0]) else First(ps[1..], key)
  }

  /** Replay a row's tracked writes without one of them, refreshing what each was applied on. */
  function Replay(metas: Metas, ps: seq<PendingOp>, key: Key, id: string, base: Option<LocalRow>)
    : (seq<PendingOp>, Option<LocalRow>)
  {
    if ps == [] then ([], base)
    else
      var (out, entry) := Replay(metas, ps[..|ps| - 1], key, id, base);
      var p := ps[|ps| - 1];
      if KeyOf(p.op) != key then (out + [p], entry)
      else if p.op.id == id then (out, entry)
      else (out + [p.(pre := Visible(entry))], if p.status.Pending? then Optimistic(metas, entry, p.op) else entry)
  }

  /** What a revert rebuilds from: the server's row, else what the earliest tracked write was applied on. */
  function RevertBase(s: State, key: Key, first: PendingOp, serverRow: Option<Row>): Option<LocalRow>
  {
    var existing := At(s, key);
    if serverRow.Some? then
      Entry(serverRow, if existing.Some? then existing.value.colClocks else map[],
            if existing.Some? then existing.value.serverHlc else None)
    else if first.pre.Some? then Entry(first.pre.value.data, first.pre.value.colClocks, first.pre.value.serverHlc)
    else None
  }

  function Reverted(s: State, id: string, serverRow: Option<Row>): State
  {
    var found := Find(s.pending, id);
    if found.None? then s
    else
      var key := KeyOf(found.value.op);
      var first := First(s.pending, key);
      if first.None? then s
      else
        var (pending, entry) := Replay(s.metas, s.pending, key, id, RevertBase(s, key, first.value, serverRow));
        s.(pending := pending, rows := Put(s.rows, key, entry))
  }

  function Marked(ps: seq<PendingOp>, batchId: string): seq<PendingOp>
  {
    if ps == [] then []
    else Marked(ps[..|ps| - 1], batchId)
         + [if ps[|ps| - 1].op.batchId == Some(batchId) then ps[|ps| - 1].(status := Rejected) else ps[|ps| - 1]]
  }

  /** Show every pending write of a table again, in order. */
  function Reapplied(metas: Metas, rows: Rows, ps: seq<PendingOp>, table: string): Rows
  {
    if ps == [] then rows
    else
      var sofar := Reapplied(metas, rows, ps[..|ps| - 1], table);
      var p := ps[|ps| - 1];
      if p.status.Pending? && p.op.table == table then
        Put(sofar, KeyOf(p.op), Optimistic(metas, EntryAt(sofar, KeyOf(p.op)), p.op))
      else sofar
  }

  // ---- Deltas from the server

  datatype Delta = Delta(op: OpType, payload: Option<Row>, hlc: string, colClocks: Option<Clocks>)

  /** Whether what is stored carries a server stamp at least as new. */
  predicate Stale(entry: Option<LocalRow>, hlc: string)
  {
    entry.Some? && entry.value.serverHlc.Some? && entry.value.serverHlc.value != ""
    && CompareHlc(hlc, entry.value.serverHlc.value) <= 0
  }

  /** The row an insert or a delete makes, when it is not stale. */
  function Made(metas: Metas, key: Key, d: Delta): Option<LocalRow>
  {
    if d.op.Delete? then Entry(None, map[], Some(d.hlc))
    else Entry(Some(WithPk(metas, key.table, key.rowId, Columns(d.payload))),
               if d.colClocks.Some? then d.colClocks.value else map["_row" := d.hlc], Some(d.hlc))
  }

  function ClockOf(d: Delta, col: string): string
  {
    if d.colClocks.Some? && col in d.colClocks.value then d.colClocks.value[col] else d.hlc
  }

  /** The columns of an update that are newer than what the row has. */
  function Newer(d: Delta, colClocks: Clocks): set<string>
  {
    set c | c in Columns(d.payload) && Wins(colClocks, ClockOf(d, c), c)
  }

  function ClocksOf(d: Delta, cols: set<string>): Clocks
  {
    map c | c in cols :: ClockOf(d, c)
  }

  function DeltaEntry(metas: Metas, key: Key, entry: Option<LocalRow>, d: Delta): Option<LocalRow>
  {
    if d.op.Delete? || d.op.Insert? || entry.None? then (if Stale(entry, d.hlc) then entry else Made(metas, key, d))
    else
      var cols := Newer(d, entry.value.colClocks);
      if cols == {} then entry
      else
        var rowHlc := if Stale(entry, d.hlc) then entry.value.serverHlc.value else d.hlc;
        Entry(Some(WithPk(metas, key.table, key.rowId, Columns(entry.value.data) + Taken(Columns(d.payload), cols))),
              (entry.value.colClocks + ClocksOf(d, cols))["_row" := rowHlc], Some(rowHlc))
  }

  class ClientStore {
    var pending: seq<PendingOp>
    var rows: Rows
    var metas: Metas

    ghost function View(): State
      reads this
    {
      State(pending, rows, metas)
    }

    constructor ()
      ensures View() == State([], map[], map[])
    {
      pending, rows, metas := [], map[], map[];
    }

    method SetRow(key: Key, data: Option<Row>, colClocks: Clocks, serverHlc: Option<string>)
      modifies this
      ensures View() == old(View()).(rows := Put(old(rows), key, Entry(data, colClocks, serverHlc)))
    {
      if data.None? && serverHlc.None? {
        rows := rows - {key};
      } else {
        rows := rows[key := LocalRow(data, colClocks, serverHlc)];
      }
    }

    method GetRow(key: Key) returns (row: Option<LocalRow>)
      ensures row == At(View(), key)
    {
      row := if key in rows && rows[key].data.Some? then Some(rows[key]) else None;
    }

    method AddPendingOp(op: ClientOp)
      modifies this
      ensures View() == Added(old(View()), op)
    {
      var existing := GetRow(KeyOf(op));
      pending := pending + [PendingOp(op, Pending, existing)];
    }

    method ApplyOptimistic(op: ClientOp)
      modifies this
      ensures View() == Applied(old(View()), op)
    {
      var existing := GetRow(KeyOf(op));
      if op.op.Delete? {
        SetRow(KeyOf(op), None, map["_row" := op.hlc], Some(op.hlc));
      } else if existing.Some? {
        SetRow(KeyOf(op), Some(existing.value.data.value + Shown(metas, op)), existing.value.colClocks,
               existing.value.serverHlc);
      } else if op.op.Insert? {
        SetRow(KeyOf(op), Some(Shown(metas, op)), map["_row" := op.hlc], Some(op.hlc));
      } else {
        assert Put(rows, KeyOf(op), EntryAt(rows, KeyOf(op))) == rows;
      }
    }

    method Write(op: ClientOp)
      modifies this
      ensures View() == Written(old(View()), op)
    {
      AddPendingOp(op);
      ApplyOptimistic(op);
    }

    method MarkSynced(ids: set<string>)
      modifies this
      ensures View() == old(View()).(pending := Unacked(old(pending), ids))
    {
      var kept := [];
      for i := 0 to |pending|
        invariant View() == old(View()) && kept == Unacked(pending[..i], ids)
      {
        assert pending[..i + 1][..i] == pending[..i];
        if pending[i].op.id !in ids {
          kept := kept + [pending[i]];
        }
      }
      assert pending[..|pending|] == pending;
      pending := kept;
    }

    method RejectBatch(batchId: string)
      modifies this
      ensures View() == old(View()).(pending := Marked(old(pending), batchId))
    {
      var marked := [];
      for i := 0 to |pending|
        invariant View() == old(View()) && marked == Marked(pending[..i], batchId)
      {
        assert pending[..i + 1][..i] == pending[..i];
        marked := marked + [if pending[i].op.batchId == Some(batchId) then pending[i].(status := Rejected) else pending[i]];
      }
      assert pending[..|pending|] == pending;
      pending := marked;
    }

    /** Rebuild the row of a rejected write from its base and its other writes. */
    method RevertOp(id: string, serverRow: Option<Row>)
      modifies this
      ensures View() == Reverted(old(View()), id, serverRow)
    {
      var found := Find(pending, id);
      if found.None? {
        return;
      }
      var key := KeyOf(found.value.op);
      var first := First(pending, key);
      if first.None? {
        return;
      }
      var existing := GetRow(key);
      ghost var base := RevertBase(View(), key, first.value, serverRow);
      if serverRow.Some? {
        SetRow(key, serverRow, if existing.Some? then existing.value.colClocks else map[],
               if existing.Some? then existing.value.serverHlc else None);
      } else if first.value.pre.Some? {
        SetRow(key, first.value.pre.value.data, first.value.pre.value.colClocks, first.value.pre.value.serverHlc);
      } else {
        rows := rows - {key};
      }
      assert rows == Put(old(rows), key, base) && EntryAt(rows, key) == base;
      var kept := [];
      for i := 0 to |pending|
        invariant pending == old(pending) && metas == old(metas)
        invariant (kept, EntryAt(rows, key)) == Replay(metas, pending[..i], key, id, base)
        invariant rows == Put(old(rows), key, EntryAt(rows, key))
      {
        assert pending[..i + 1][..i] == pending[..i];
        var p := pending[i];
        if KeyOf(p.op) != key {
          kept := kept + [p];
        } else if p.op.id != id {
          var row := GetRow(key);
          kept := kept + [p.(pre := row)];
          if p.status.Pending? {
            ghost var before := rows;
            ApplyOptimistic(p.op);
            PutTwice(old(rows), before, key, EntryAt(before, key), Optimistic(metas, EntryAt(before, key), p.op));
          }
        }
      }
      assert pending[..|pending|] == pending;
      pending := kept;
    }

    method ApplyDelta(key: Key, d: Delta)
      modifies this
      ensures View() == old(View()).(rows := Put(old(rows), key, DeltaEntry(old(metas), key, EntryAt(old(rows), key), d)))
    {
      var existing := EntryAt(rows, key);
      assert Put(rows, key, existing) == rows;
      if d.op.Delete? {
        if !Stale(existing, d.hlc) {
          SetRow(key, None, map[], Some(d.hlc));
        }
        return;
      }
      if d.op.Insert? || existing.None? {
        if !Stale(existing, d.hlc) {
          SetRow(key, Some(WithPk(metas, key.table, key.rowId, Columns(d.payload))),
                 if d.colClocks.Some? then d.colClocks.value else map["_row" := d.hlc], Some(d.hlc));
        }
        return;
      }
      var merged, clocks, anyApplied := MergeDelta(d, Columns(existing.value.data), existing.value.colClocks);
      if anyApplied {
        var rowHlc := if Stale(existing, d.hlc) then existing.value.serverHlc.value else d.hlc;
        SetRow(key, Some(WithPk(metas, key.table, key.rowId, merged)), clocks["_row" := rowHlc], Some(rowHlc));
      }
    }

    /** The loop over an update's columns. */
    static method MergeDelta(d: Delta, data: Row, colClocks: Clocks) returns (merged: Row, clocks: Clocks, anyApplied: bool)
      ensures var cols := Newer(d, colClocks);
              && merged == data + Taken(Columns(d.payload), cols) && clocks == colClocks + ClocksOf(d, cols)
              && (anyApplied <==> cols != {})
    {
      merged, clocks, anyApplied := data, colClocks, false;
      ghost var cols: set<string> := {};
      var left := Columns(d.payload).Keys;
      while left != {}
        invariant left <= Columns(d.payload).Keys && cols * left == {}
        invariant forall c :: c in cols <==> c in Columns(d.payload).Keys - left && Wins(colClocks, ClockOf(d, c), c)
        invariant merged == data + Taken(Columns(d.payload), cols) && clocks == colClocks + ClocksOf(d, cols)
        invariant anyApplied <==> cols != {}
        decreases left
      {
        var col :| col in left;
        left := left - {col};
        if Wins(colClocks, ClockOf(d, col), col) {
          ApplyOne(d, data, colClocks, cols, col);
          merged := merged[col := Columns(d.payload)[col]];
          clocks := clocks[col := ClockOf(d, col)];
          anyApplied := true;
          cols := cols + {col};
        }
      }
      assert cols == Newer(d, colClocks);
    }

    /** Replace (or, with `append`, extend) a table by the server's rows, then show pending writes again. */
    method ApplySnapshot(table: string, snapshot: seq<Row>, colClocks: map<string, Clocks>, append: bool,
                         pk: string)
      modifies this
      ensures pending == old(pending) && metas == old(metas)
      ensures var cleared := if append then old(rows) else map k | k in old(rows) && k.table != table :: old(rows)[k];
              rows == Reapplied(metas, SnapshotRows(cleared, table, snapshot, colClocks, pk), pending, table)
    {
      if !append {
        rows := map k | k in rows && k.table != table :: rows[k];
      }
      ghost var cleared := rows;
      for i := 0 to |snapshot|
        invariant pending == old(pending) && metas == old(metas)
        invariant rows == SnapshotRows(cleared, table, snapshot[..i], colClocks, pk)
      {
        assert snapshot[..i + 1][..i] == snapshot[..i];
        var row := snapshot[i];
        var rowId := RowIdOf(row, pk);
        var clocks := if rowId in colClocks then colClocks[rowId] else map[];
        SetRow(Key(table, rowId), Some(row), clocks, if "_row" in clocks then Some(clocks["_row"]) else None);
      }
      assert snapshot[..|snapshot|] == snapshot;
      ghost var loaded := rows;
      for i := 0 to |pending|
        invariant pending == old(pending) && metas == old(metas)
        invariant rows == Reapplied(metas, loaded, pending[..i], table)
      {
        assert pending[..i + 1][..i] == pending[..i];
        if pending[i].status.Pending? && pending[i].op.table == table {
          ApplyOptimistic(pending[i].op);
        }
      }
      assert pending[..|pending|] == pending;
    }
  }

  lemma ApplyOne(d: Delta, data: Row, colClocks: Clocks, cols: set<string>, col: string)
    requires col in Columns(d.payload)
    ensures data + Taken(Columns(d.payload), cols + {col}) == (data + Taken(Columns(d.payload), cols))[col := Columns(d.payload)[col]]
    ensures colClocks + ClocksOf(d, cols + {col}) == (colClocks + ClocksOf(d, cols))[col := ClockOf(d, col)]
  {
  }

  function RowIdOf(row: Row, pk: string): string
  {
    if pk in row && row[pk].Str? then row[pk].s else ""
  }

  function SnapshotRows(rows: Rows, table: string, snapshot: seq<Row>, colClocks: map<string, Clocks>, pk: string): Rows
  {
    if snapshot == [] then rows
    else
      var row := snapshot[|snapshot| - 1];
      var rowId := RowIdOf(row, pk);
      var clocks := if rowId in colClocks then colClocks[rowId] else map[];
      SnapshotRows(rows, table, snapshot[..|snapshot| - 1], colClocks, pk)
        [Key(table, rowId) := LocalRow(Some(row), clocks, if "_row" in clocks then Some(clocks["_row"]) else None)]
  }
}
