/**
 * The client's editing state for a text column (src/client/text.ts). Timers are left out: `flush`
 * may be called at any time, and `pump` once per version of the row that arrives.
 */
module TextBinding {
  import opened DiffArrays
  import opened Hunks
  import opened MapOffset
  import opened Merge3
  import opened Options
  import opened TextDiff
  import opened TextPolicy

  /** What the store's row shows the binding: the column's text, and its own entry in `_seen`. */
  datatype RowView = RowView(text: string, seen: int)

  /** The binding's state as a value; `flight` is the number of the write in flight, 0 for none. */
  datatype State = State(shadow: string, local: string, sent: string, flight: nat, cursor: int,
                         present: bool, removing: bool)

  const BLANK: State := State("", "", "", 0, 0, false, false)

  ghost function AfterSet(s: State, next: string, caret: Option<int>): State
  {
    if next == s.local && caret.None? then s
    else s.(cursor := if caret.Some? then caret.value else Mapped(s.local, next, s.cursor), local := next)
  }

  function AfterRemove(s: State): State
  {
    s.(removing := true, local := s.shadow)
  }

  /** Whether `flush` would send anything. */
  predicate Flushes(s: State)
  {
    s.flight == 0 && s.present && (s.removing || s.local != s.shadow)
  }

  function AfterFlush(s: State, n: nat): State
  {
    if Flushes(s) then s.(removing := false, flight := n, sent := s.local) else s
  }

  /** The edit `flush` sends as write number `n`. */
  ghost function FlushedEdit(s: State, who: string, column: string, n: nat, hash: string -> int): TextEdit
  {
    if s.removing then TextEdit(who, n, [], Some(Remove(column, hash(s.shadow))))
    else TextEdit(who, n, [Change(column, s.local, Diff(s.local, s.shadow))], None)
  }

  ghost function AfterPump(s: State, row: Option<RowView>): State
  {
    if row.None? then s.(present := false, flight := 0)
    else
      var server := row.value.text;
      if !s.present then
        if s.local == s.shadow then
          s.(present := true, cursor := if s.cursor < |server| then s.cursor else |server|, local := server, shadow := server)
        else
          s.(present := true, local := Merge(s.shadow, server, s.local), shadow := server)
      else if s.flight != 0 && row.value.seen < s.flight then s
      else
        var from := if s.flight != 0 then s.sent else s.shadow;
        if server != s.shadow || from != server then
          var merged := Merge(from, server, s.local);
          s.(flight := 0, cursor := Mapped(s.local, merged, s.cursor), local := merged, shadow := server)
        else s.(flight := 0)
  }

  function AfterReject(s: State, retry: bool): State
  {
    if retry then s.(flight := 0)
    else s.(flight := 0, local := s.shadow, cursor := if s.cursor < |s.shadow| then s.cursor else |s.shadow|)
  }

  class TextBinding {
    var shadow: string
    var local: string
    var sent: string
    var flight: nat
    var cursor: int
    var present: bool
    var removing: bool
    const who: string
    const column: string
    const hash: string -> int

    ghost function View(): State
      reads this
    {
      State(shadow, local, sent, flight, cursor, present, removing)
    }

    constructor (who: string, column: string, hash: string -> int)
      ensures View() == BLANK && this.who == who && this.column == column && this.hash == hash
    {
      this.who, this.column, this.hash := who, column, hash;
      shadow, local, sent, flight, cursor, present, removing := "", "", "", 0, 0, false, false;
    }

    method Set(next: string, caret: Option<int>)
      modifies this
      ensures View() == AfterSet(old(View()), next, caret)
    {
      if next == local && caret.None? {
        return;
      }
      if caret.Some? {
        cursor := caret.value;
      } else {
        cursor := MapCaret(local, next, cursor);
      }
      local := next;
    }

    method Delete()
      modifies this
      ensures View() == AfterRemove(old(View()))
    {
      removing := true;
      local := shadow;
    }

    /** Send what is unsent, unless a write is in flight; `n` is the client's next write number. */
    method Flush(n: nat) returns (edit: Option<TextEdit>)
      modifies this
      ensures View() == AfterFlush(old(View()), n)
      ensures edit == if Flushes(old(View())) then Some(FlushedEdit(old(View()), who, column, n, hash)) else None
    {
      if flight != 0 || !present {
        return None;
      }
      if removing {
        edit := Some(TextEdit(who, n, [], Some(Remove(column, hash(shadow)))));
        removing := false;
      } else if local != shadow {
        var back := DiffText(local, shadow);
        edit := Some(TextEdit(who, n, [Change(column, local, back)], None));
      } else {
        return None;
      }
      flight := n;
      sent := local;
    }

    /** Take the row as it now is; `None` when it is gone. */
    method Pump(row: Option<RowView>)
      modifies this
      ensures View() == AfterPump(old(View()), row)
    {
      if row.None? {
        present := false;
        flight := 0;
        return;
      }
      var server := row.value.text;
      if !present {
        present := true;
        if local == shadow {
          cursor := if cursor < |server| then cursor else |server|;
          local := server;
        } else {
          local := MergeText(shadow, server, local);
        }
        shadow := server;
        return;
      }
      if flight != 0 && row.value.seen < flight {
        return;
      }
      var from := if flight != 0 then sent else shadow;
      flight := 0;
      if server != shadow || from != server {
        var merged := MergeText(from, server, local);
        cursor := MapCaret(local, merged, cursor);
        local := merged;
        shadow := server;
      }
    }

    method OnRejected(retry: bool)
      modifies this
      ensures View() == AfterReject(old(View()), retry)
    {
      flight := 0;
      if !retry {
        local := shadow;
        cursor := if cursor < |local| then cursor else |local|;
      }
    }
  }

  // ---- What a flush sends is sound

  /** The server accepts what a flush builds, a remove if the table has soft delete, and it takes the server back to the shadow. */
  lemma FlushIsValid(s: State, who: string, column: string, n: nat, hash: string -> int, policy: Policy)
    requires |who| <= 64 && column in policy.text
    ensures var edit := FlushedEdit(s, who, column, n, hash);
            && (ValidEdit(edit, policy) <==> (s.removing ==> policy.softDelete.Some?))
            && (!s.removing ==> |edit.edits| == 1 && Separated(edit.edits[0].back, |edit.edits[0].value|)
                                && edit.edits[0].value == s.local && Apply(edit.edits[0].value, edit.edits[0].back) == s.shadow)
  {
    if !s.removing {
      var back := Diff(s.local, s.shadow);
      DiffIsCorrect(s.local, s.shadow);
      SeparatedIsOrdered(back, 0, |s.local|);
      assert ValidChange(Change(column, s.local, back), policy);
    }
  }

  // ---- What a pump does

  /** The pump's guard only saves work: without it the result would be the same. */
  lemma PumpMerges(s: State, row: RowView)
    requires s.present && (s.flight == 0 || row.seen >= s.flight)
    ensures var from := if s.flight != 0 then s.sent else s.shadow; var s' := AfterPump(s, Some(row));
            s'.local == Merge(from, row.text, s.local) && s'.shadow == row.text && s'.flight == 0
            && s'.present && s'.removing == s.removing
  {
  }

  /** With nothing typed since, a pump leaves the binding showing the server's text. */
  lemma CleanPumpFollows(s: State, row: RowView)
    requires s.present && (s.flight == 0 || row.seen >= s.flight)
    requires s.local == if s.flight != 0 then s.sent else s.shadow
    ensures AfterPump(s, Some(row)).local == row.text
  {
  }

  /** Being shown the same row again changes nothing. */
  lemma RepeatedPumpChangesNothing(s: State, row: Option<RowView>)
    requires s.present || s.flight == 0
    ensures AfterPump(AfterPump(s, row), row) == AfterPump(s, row)
  {
  }

  /**
   * A version that arrives while a write is in flight is skipped, so a final rejection of that write
   * falls back to an older text. The row's text is on screen then if and only if the skipped version
   * had not changed it; the next pump always brings it.
   */
  lemma RejectionWaitsForPump(s: State, skipped: RowView)
    requires s.present && s.flight != 0 && skipped.seen < s.flight
    ensures var s' := AfterReject(AfterPump(s, Some(skipped)), false);
            && (s'.local == skipped.text <==> s.shadow == skipped.text)
            && AfterPump(s', Some(skipped)).local == skipped.text
  {
  }
}
