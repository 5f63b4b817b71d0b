/** The server's side of text columns (src/server/conflict.ts, `resolveText` and `isTextEdit`). */
module TextPolicy {
  import opened Conflict
  import opened Hunks
  import opened Merge3
  import opened Ops
  import opened Options

  const TEXT_SEEN_COLUMN := "_seen"

  const TEXT_SEEN_LIMIT: nat := 64

  /** The new value of a text column, and the hunks that take it back to the text it was made from. */
  datatype Change = Change(column: string, value: string, back: seq<Hunk>)

  datatype Remove = Remove(column: string, baseHash: int)

  datatype TextEdit = TextEdit(who: string, n: int, edits: seq<Change>, remove: Option<Remove>)

  datatype Policy = Policy(text: set<string>, softDelete: Option<string>)

  /** The edits the server takes: a short writer name, declared columns only, and every reverse patch in order and in range. */
  ghost predicate ValidEdit(edit: TextEdit, policy: Policy)
  {
    && |edit.who| <= 64
    && (forall i :: 0 <= i < |edit.edits| ==> ValidChange(edit.edits[i], policy))
    && (edit.remove.Some? ==> edit.remove.value.column in policy.text && policy.softDelete.Some?)
  }

  ghost predicate ValidChange(change: Change, policy: Policy)
  {
    change.column in policy.text && Ordered(change.back, 0, |change.value|)
  }

  method IsTextEdit(edit: TextEdit, policy: Policy) returns (ok: bool)
    ensures ok == ValidEdit(edit, policy)
  {
    if |edit.who| > 64 {
      return false;
    }
    for i := 0 to |edit.edits|
      invariant forall k :: 0 <= k < i ==> ValidChange(edit.edits[k], policy)
    {
      var change := edit.edits[i];
      if change.column !in policy.text {
        return false;
      }
      var pos := 0;
      for j := 0 to |change.back|
        invariant 0 <= pos
        invariant Ordered(change.back, 0, |change.value|) <==> Ordered(change.back[j..], pos, |change.value|)
      {
        var h := change.back[j];
        assert change.back[j..][0] == h && change.back[j..][1..] == change.back[j + 1..];
        if h.start < pos || h.end < h.start || h.end > |change.value| {
          return false;
        }
        pos := h.end;
      }
    }
    ok := edit.remove.None? || (edit.remove.value.column in policy.text && policy.softDelete.Some?);
  }

  // ---- What a row holds

  function TextAt(row: Row, column: string): string
  {
    if column in row && row[column].Str? then row[column].s else ""
  }

  function SeenAt(row: Row): seq<(string, int)>
  {
    if TEXT_SEEN_COLUMN in row && row[TEXT_SEEN_COLUMN].Seen? then row[TEXT_SEEN_COLUMN].entries else []
  }

  predicate Truthy(row: Row, column: string)
  {
    column in row && match row[column]
                     case Str(s) => s != ""
                     case Flag(b) => b
                     case Seen(_) => true
                     case Other(n) => n != 0
  }

  function Without(seen: seq<(string, int)>, who: string): seq<(string, int)>
  {
    if seen == [] then []
    else (if seen[0].0 == who then [] else [seen[0]]) + Without(seen[1..], who)
  }

  function Newest(seen: seq<(string, int)>): seq<(string, int)>
  {
    if |seen| > TEXT_SEEN_LIMIT then seen[|seen| - TEXT_SEEN_LIMIT..] else seen
  }

  /** Note a writer's latest write, dropping the oldest writer past the limit. */
  function Remember(seen: seq<(string, int)>, who: string, n: int): seq<(string, int)>
  {
    Newest(Without(seen, who) + [(who, n)])
  }

  /** The latest write of `who` the row includes, 0 when it knows of none. */
  function SeenBy(seen: seq<(string, int)>, who: string): int
  {
    if seen == [] then 0 else if seen[0].0 == who then seen[0].1 else SeenBy(seen[1..], who)
  }

  // ---- Resolving an edit

  /** A row being rewritten, and the stamps that go with it. */
  datatype Draft = Draft(row: Row, clocks: Clocks)

  function Stamp(d: Draft, column: string, value: Value, hlc: string): Draft
  {
    Draft(d.row[column := value], d.clocks[column := hlc])
  }

  ghost function ApplyChange(d: Draft, change: Change, policy: Policy, hlc: string): Draft
  {
    var merged := Merge(Apply(change.value, change.back), TextAt(d.row, change.column), change.value);
    var d1 := if change.column in d.row && d.row[change.column] == Str(merged) then d
              else Stamp(d, change.column, Str(merged), hlc);
    if policy.softDelete.Some? && Truthy(d1.row, policy.softDelete.value) then
      Stamp(d1, policy.softDelete.value, Flag(false), hlc)
    else d1
  }

  ghost function ApplyChanges(d: Draft, edits: seq<Change>, policy: Policy, hlc: string): Draft
  {
    if edits == [] then d
    else ApplyChange(ApplyChanges(d, edits[..|edits| - 1], policy, hlc), edits[|edits| - 1], policy, hlc)
  }

  function ApplyRemove(d: Draft, edit: TextEdit, policy: Policy, hlc: string, hash: string -> int): Draft
  {
    if edit.remove.Some? && policy.softDelete.Some? &&
       hash(TextAt(d.row, edit.remove.value.column)) == edit.remove.value.baseHash
    then Stamp(d, policy.softDelete.value, Flag(true), hlc)
    else d
  }

  function Acknowledge(d: Draft, edit: TextEdit, hlc: string): Draft
  {
    var d1 := Stamp(d, TEXT_SEEN_COLUMN, Seen(Remember(SeenAt(d.row), edit.who, edit.n)), hlc);
    Draft(d1.row, d1.clocks["_row" := hlc])
  }

  /** The plain columns of the operation, merged first. */
  function PlainResult(incoming: Incoming, existing: Existing): Result
  {
    if Columns(incoming.payload) == map[] then
      Result(true, Some(if existing.row.Some? then existing.row.value else map[]), existing.clocks, None)
    else MergeResult(incoming, existing)
  }

  /** `incoming.payload` is the payload without the edit. */
  ghost function TextResult(policy: Policy, incoming: Incoming, edit: Option<TextEdit>, existing: Existing,
                            hash: string -> int): Result
  {
    if incoming.op.Delete? then LwwResult(incoming, existing)
    else if incoming.op.Insert? && existing.row.Some? then Result(true, existing.row, existing.clocks, None)
    else if edit.Some? && !ValidEdit(edit.value, policy) then
      Result(false, existing.row, existing.clocks, Some("validation_failed"))
    else if edit.None? then PlainResult(incoming, existing)
    else
      var base := PlainResult(incoming, existing);
      var d0 := Draft(Columns(base.row), base.clocks);
      var d1 := ApplyChanges(d0, edit.value.edits, policy, incoming.hlc);
      var d2 := ApplyRemove(d1, edit.value, policy, incoming.hlc, hash);
      var d3 := Acknowledge(d2, edit.value, incoming.hlc);
      Result(true, Some(d3.row), d3.clocks, None)
  }

  method ResolveChanges(d0: Draft, edits: seq<Change>, policy: Policy, hlc: string) returns (d: Draft)
    ensures d == ApplyChanges(d0, edits, policy, hlc)
  {
    d := d0;
    for i := 0 to |edits|
      invariant d == ApplyChanges(d0, edits[..i], policy, hlc)
    {
      assert edits[..i + 1][..i] == edits[..i];
      var change := edits[i];
      var base := ApplyHunks(change.value, change.back);
      var merged := MergeText(base, TextAt(d.row, change.column), change.value);
      if change.column !in d.row || d.row[change.column] != Str(merged) {
        d := Stamp(d, change.column, Str(merged), hlc);
      }
      if policy.softDelete.Some? && Truthy(d.row, policy.softDelete.value) {
        d := Stamp(d, policy.softDelete.value, Flag(false), hlc);
      }
    }
    assert edits[..|edits|] == edits;
  }

  method ResolveText(policy: Policy, incoming: Incoming, edit: Option<TextEdit>, existing: Existing,
                     hash: string -> int)
    returns (r: Result)
    ensures r == TextResult(policy, incoming, edit, existing, hash)
  {
    if incoming.op.Delete? {
      return LwwResult(incoming, existing);
    }
    if incoming.op.Insert? && existing.row.Some? {
      return Result(true, existing.row, existing.clocks, None);
    }
    if edit.Some? {
      var ok := IsTextEdit(edit.value, policy);
      if !ok {
        return Result(false, existing.row, existing.clocks, Some("validation_failed"));
      }
    }
    var base: Result;
    if Columns(incoming.payload) == map[] {
      base := Result(true, Some(if existing.row.Some? then existing.row.value else map[]), existing.clocks, None);
    } else {
      base := ResolveMerge(incoming, existing);
    }
    if edit.None? {
      return base;
    }
    var d := ResolveChanges(Draft(Columns(base.row), base.clocks), edit.value.edits, policy, incoming.hlc);
    d := ApplyRemove(d, edit.value, policy, incoming.hlc, hash);
    d := Acknowledge(d, edit.value, incoming.hlc);
    r := Result(true, Some(d.row), d.clocks, None);
  }

  // ---- What an edit does to a row

  lemma {:induction false} SeenByOthers(seen: seq<(string, int)>, who: string, other: string)
    ensures SeenBy(Without(seen, who), other) == if other == who then 0 else SeenBy(seen, other)
    ensures |Without(seen, who)| <= |seen|
  {
    if seen != [] {
      SeenByOthers(seen[1..], who, other);
      var head := if seen[0].0 == who then [] else [seen[0]];
      assert head == [] ==> head + Without(seen[1..], who) == Without(seen[1..], who);
      assert head != [] ==> (head + Without(seen[1..], who))[1..] == Without(seen[1..], who);
    }
  }

  lemma {:induction false} SeenBySnoc(seen: seq<(string, int)>, who: string, n: int, other: string)
    requires SeenBy(seen, who) == 0
    requires forall i :: 0 <= i < |seen| ==> seen[i].0 != who
    ensures SeenBy(seen + [(who, n)], other) == if other == who then n else SeenBy(seen, other)
  {
    if seen != [] {
      assert (seen + [(who, n)])[1..] == seen[1..] + [(who, n)];
      SeenBySnoc(seen[1..], who, n, other);
    } else {
      assert [(who, n)][1..] == [];
    }
  }

  lemma {:induction false} WithoutLacks(seen: seq<(string, int)>, who: string)
    ensures forall i :: 0 <= i < |Without(seen, who)| ==> Without(seen, who)[i].0 != who
  {
    if seen != [] {
      WithoutLacks(seen[1..], who);
    }
  }

  /** No writer twice. */
  ghost predicate OncePerWriter(seen: seq<(string, int)>)
  {
    forall i, j :: 0 <= i < j < |seen| ==> seen[i].0 != seen[j].0
  }

  lemma {:induction false} SeenByAt(seen: seq<(string, int)>, who: string)
    requires OncePerWriter(seen)
    ensures (forall i :: 0 <= i < |seen| ==> seen[i].0 != who) ==> SeenBy(seen, who) == 0
    ensures forall i :: 0 <= i < |seen| && seen[i].0 == who ==> SeenBy(seen, who) == seen[i].1
  {
    if seen != [] {
      SeenByAt(seen[1..], who);
      forall i | 0 <= i < |seen| && seen[i].0 == who ensures SeenBy(seen, who) == seen[i].1 {
        if i > 0 { assert seen[1..][i - 1] == seen[i]; }
      }
    }
  }

  lemma NewestSeen(seen: seq<(string, int)>, who: string)
    requires OncePerWriter(seen)
    ensures OncePerWriter(Newest(seen)) && |Newest(seen)| <= TEXT_SEEN_LIMIT
    ensures SeenBy(Newest(seen), who) == 0 || SeenBy(Newest(seen), who) == SeenBy(seen, who)
    ensures seen != [] && seen[|seen| - 1].0 == who ==> SeenBy(Newest(seen), who) == seen[|seen| - 1].1
  {
    var newest := Newest(seen);
    SeenByAt(seen, who);
    SeenByAt(newest, who);
    if i :| 0 <= i < |newest| && newest[i].0 == who {
      assert seen[|seen| - |newest| + i] == newest[i];
    }
    assert seen != [] ==> newest[|newest| - 1] == seen[|seen| - 1];
  }

  lemma {:induction false} WithoutOnce(seen: seq<(string, int)>, who: string)
    requires OncePerWriter(seen)
    ensures OncePerWriter(Without(seen, who))
    ensures forall e :: e in Without(seen, who) ==> e in seen
  {
    if seen != [] {
      WithoutOnce(seen[1..], who);
      assert forall e :: e in seen[1..] ==> e.0 != seen[0].0;
    }
  }

  /**
   * After remembering a write the row knows it, still knows each other writer's latest or has
   * dropped that writer, and remembers at most the limit.
   */
  lemma RememberKeeps(seen: seq<(string, int)>, who: string, n: int, other: string)
    requires OncePerWriter(seen)
    ensures var seen' := Remember(seen, who, n);
            && OncePerWriter(seen') && |seen'| <= TEXT_SEEN_LIMIT
            && SeenBy(seen', who) == n
            && (other != who ==> SeenBy(seen', other) == SeenBy(seen, other) || SeenBy(seen', other) == 0)
  {
    var kept := Without(seen, who);
    WithoutOnce(seen, who);
    WithoutLacks(seen, who);
    SeenByOthers(seen, who, other);
    SeenByOthers(seen, who, who);
    SeenBySnoc(kept, who, n, other);
    SeenBySnoc(kept, who, n, who);
    NewestSeen(kept + [(who, n)], other);
    NewestSeen(kept + [(who, n)], who);
  }

  lemma OneChange(d: Draft, change: Change, policy: Policy, hlc: string, row: Row)
    requires change.column != TEXT_SEEN_COLUMN && row == ApplyChange(d, change, policy, hlc).row
    requires policy.softDelete != Some(change.column) && policy.softDelete != Some(TEXT_SEEN_COLUMN)
    ensures TextAt(row, change.column) == Merge(Apply(change.value, change.back), TextAt(d.row, change.column), change.value)
    ensures SeenAt(row) == SeenAt(d.row)
    ensures policy.softDelete.Some? ==> !Truthy(row, policy.softDelete.value)
  {
  }

  lemma OneChangeElsewhere(d: Draft, change: Change, policy: Policy, hlc: string, row: Row, c: string)
    requires row == ApplyChange(d, change, policy, hlc).row && c != change.column && policy.softDelete != Some(c)
    ensures (c in row <==> c in d.row) && (c in d.row ==> row[c] == d.row[c])
  {
  }

  /** A single edit is applied and acknowledged, and nothing else happens. */
  lemma OneEditResult(policy: Policy, incoming: Incoming, edit: TextEdit, existing: Existing, hash: string -> int, d: Draft)
    requires incoming.op.Update? && Columns(incoming.payload) == map[] && existing.row.Some? && ValidEdit(edit, policy)
    requires |edit.edits| == 1 && edit.remove.None?
    requires d == ApplyChange(Draft(existing.row.value, existing.clocks), edit.edits[0], policy, incoming.hlc)
    ensures var r := TextResult(policy, incoming, Some(edit), existing, hash);
            r.accepted && r.row == Some(Acknowledge(d, edit, incoming.hlc).row)
  {
    var d0 := Draft(existing.row.value, existing.clocks);
    assert edit.edits[..0] == [];
    assert ApplyChanges(d0, edit.edits, policy, incoming.hlc) == d;
  }

  /** Acknowledging a write touches the record of writers and nothing else. */
  lemma AcknowledgeReads(d: Draft, edit: TextEdit, hlc: string, policy: Policy, row: Row)
    requires row == Acknowledge(d, edit, hlc).row && policy.softDelete != Some(TEXT_SEEN_COLUMN)
    ensures SeenAt(row) == Remember(SeenAt(d.row), edit.who, edit.n)
    ensures forall c :: c != TEXT_SEEN_COLUMN ==> (c in row <==> c in d.row) && (c in d.row ==> row[c] == d.row[c])
  {
  }

  /** An edit of one text column, as the client library sends it: that column merged, the writer noted, nothing else. */
  lemma OneEdit(policy: Policy, incoming: Incoming, edit: TextEdit, existing: Existing, hash: string -> int, column: string)
    requires incoming.op.Update? && Columns(incoming.payload) == map[] && existing.row.Some? && ValidEdit(edit, policy)
    requires |edit.edits| == 1 && edit.edits[0].column == column && edit.remove.None?
    requires column != TEXT_SEEN_COLUMN && policy.softDelete != Some(column) && policy.softDelete != Some(TEXT_SEEN_COLUMN)
    ensures var r, row, change := TextResult(policy, incoming, Some(edit), existing, hash), existing.row.value, edit.edits[0];
            && r.accepted && r.row.Some?
            && TextAt(r.row.value, column) == Merge(Apply(change.value, change.back), TextAt(row, column), change.value)
            && SeenAt(r.row.value) == Remember(SeenAt(row), edit.who, edit.n)
            && (policy.softDelete.Some? ==> !Truthy(r.row.value, policy.softDelete.value))
            && (forall c :: c != column && c != TEXT_SEEN_COLUMN && policy.softDelete != Some(c) ==>
                  (c in r.row.value <==> c in row) && (c in row ==> r.row.value[c] == row[c]))
  {
    var d0 := Draft(existing.row.value, existing.clocks);
    var d := ApplyChange(d0, edit.edits[0], policy, incoming.hlc);
    OneEditResult(policy, incoming, edit, existing, hash, d);
    AcknowledgeReads(d, edit, incoming.hlc, policy, Acknowledge(d, edit, incoming.hlc).row);
    OneChange(d0, edit.edits[0], policy, incoming.hlc, d.row);
    forall c | c != column && policy.softDelete != Some(c)
      ensures (c in d.row <==> c in d0.row) && (c in d0.row ==> d.row[c] == d0.row[c])
    {
      OneChangeElsewhere(d0, edit.edits[0], policy, incoming.hlc, d.row, c);
    }
  }

  /**
   * A remove marks the row exactly when its text still hashes to what the client saw, and leaves
   * the text alone either way: an edit that changed the text (and its hash) in between wins.
   */
  lemma OneRemove(policy: Policy, incoming: Incoming, edit: TextEdit, existing: Existing, hash: string -> int, column: string)
    requires incoming.op.Update? && Columns(incoming.payload) == map[] && existing.row.Some? && ValidEdit(edit, policy)
    requires edit.edits == [] && edit.remove.Some? && edit.remove.value.column == column
    requires column != TEXT_SEEN_COLUMN && policy.softDelete != Some(column) && policy.softDelete != Some(TEXT_SEEN_COLUMN)
    ensures var r, row := TextResult(policy, incoming, Some(edit), existing, hash), existing.row.value;
            && r.accepted && r.row.Some?
            && TextAt(r.row.value, column) == TextAt(row, column)
            && SeenAt(r.row.value) == Remember(SeenAt(row), edit.who, edit.n)
            && (Truthy(r.row.value, policy.softDelete.value) <==>
                  Truthy(row, policy.softDelete.value) || hash(TextAt(row, column)) == edit.remove.value.baseHash)
  {
  }
}
