/**
 * Text columns sent as patches: `patchTextColumns` (src/server/broadcast-engine.ts) and
 * `unpatchText` (src/client/sync-client.ts).
 */
module TextPatch {
  import opened Conflict
  import opened DiffArrays
  import opened Hunks
  import opened Ops
  import opened Options
  import opened TextDiff

  /** Shorter values are always sent whole. */
  const MIN_PATCH_LENGTH := 256

  datatype Patch = Patch(hunks: seq<Hunk>, hash: int)

  type Patches = map<string, Patch>

  /** Whether a column can go as a patch at all: text on both sides, and long enough. */
  predicate Patchable(changed: Row, held: Row, column: string)
  {
    && column in changed && changed[column].Str? && column in held && held[column].Str?
    && |changed[column].s| >= MIN_PATCH_LENGTH
  }

  /** Whether it does; `small` stands for the test that the patch is clearly smaller than the value. */
  ghost predicate Patched(changed: Row, held: Row, small: (seq<Hunk>, string) -> bool, column: string)
  {
    Patchable(changed, held, column) && small(Diff(held[column].s, changed[column].s), changed[column].s)
  }

  ghost function PatchSet(changed: Row, held: Row, columns: seq<string>, small: (seq<Hunk>, string) -> bool,
                          hash: string -> int): Patches
  {
    map c | c in columns && Patched(changed, held, small, c)
      :: Patch(Diff(held[c].s, changed[c].s), hash(changed[c].s))
  }

  lemma PatchSetGrows(changed: Row, held: Row, columns: seq<string>, i: nat, small: (seq<Hunk>, string) -> bool,
                      hash: string -> int)
    requires i < |columns|
    ensures var c, before := columns[i], PatchSet(changed, held, columns[..i], small, hash);
            PatchSet(changed, held, columns[..i + 1], small, hash) ==
            if Patched(changed, held, small, c)
            then before[c := Patch(Diff(held[c].s, changed[c].s), hash(changed[c].s))] else before
  {
    assert forall c :: c in columns[..i + 1] <==> c in columns[..i] || c == columns[i];
  }

  method PatchTextColumns(changed: Row, held: Row, columns: seq<string>, small: (seq<Hunk>, string) -> bool,
                          hash: string -> int)
    returns (payload: Row, patches: Patches)
    ensures patches == PatchSet(changed, held, columns, small, hash)
    ensures payload == changed - patches.Keys
  {
    payload, patches := changed, map[];
    for i := 0 to |columns|
      invariant patches == PatchSet(changed, held, columns[..i], small, hash)
      invariant payload == changed - patches.Keys
    {
      var column := columns[i];
      PatchSetGrows(changed, held, columns, i, small, hash);
      if Patchable(changed, held, column) {
        var hunks := DiffText(held[column].s, changed[column].s);
        if small(hunks, changed[column].s) {
          payload := payload - {column};
          patches := patches[column := Patch(hunks, hash(changed[column].s))];
        }
      }
    }
    assert columns[..|columns|] == columns;
  }

  /** What a patch makes of the text this client holds; `None` when it holds no text there. */
  function PatchedText(row: Option<Row>, column: string, patch: Patch): Option<string>
  {
    if row.Some? && column in row.value && row.value[column].Str?
    then Some(Apply(row.value[column].s, patch.hunks)) else None
  }

  /** Whether a patch applied to this text gives one with the hash expected. */
  predicate Lands(row: Option<Row>, column: string, patch: Patch, hash: string -> int)
  {
    PatchedText(row, column, patch).Some? && hash(PatchedText(row, column, patch).value) == patch.hash
  }

  lemma TextsGrow(row: Option<Row>, payload: Row, patches: Patches, done: set<string>, column: string, hash: string -> int)
    requires column in patches && Lands(row, column, patches[column], hash)
    ensures payload + TextsOf(row, patches, done + {column})
         == (payload + TextsOf(row, patches, done))[column := Str(Apply(row.value[column].s, patches[column].hunks))]
  {
  }

  /** Turn the patches back into values; `None` means something was missed and nothing may be applied. */
  method UnpatchText(row: Option<Row>, payload: Row, patches: Patches, hash: string -> int) returns (r: Option<Row>)
    ensures r == Unpatched(row, payload, patches, hash)
  {
    var out := payload;
    var left := patches.Keys;
    while left != {}
      invariant left <= patches.Keys
      invariant forall c :: c in patches.Keys - left ==> Lands(row, c, patches[c], hash)
      invariant out == payload + TextsOf(row, patches, patches.Keys - left)
      decreases left
    {
      var column :| column in left;
      if !Lands(row, column, patches[column], hash) {
        return None;
      }
      TextsGrow(row, payload, patches, patches.Keys - left, column, hash);
      assert patches.Keys - (left - {column}) == (patches.Keys - left) + {column};
      var value := ApplyHunks(row.value[column].s, patches[column].hunks);
      out := out[column := Str(value)];
      left := left - {column};
    }
    assert patches.Keys - {} == patches.Keys;
    r := Some(out);
  }

  function TextsOf(row: Option<Row>, patches: Patches, columns: set<string>): Row
  {
    map c | c in columns && c in patches && PatchedText(row, c, patches[c]).Some?
      :: Str(PatchedText(row, c, patches[c]).value)
  }

  function Unpatched(row: Option<Row>, payload: Row, patches: Patches, hash: string -> int): Option<Row>
  {
    if forall c :: c in patches ==> Lands(row, c, patches[c], hash)
    then Some(payload + TextsOf(row, patches, patches.Keys)) else None
  }

  lemma PatchLands(changed: Row, held: Row, row: Row, columns: seq<string>, small: (seq<Hunk>, string) -> bool,
                   hash: string -> int, c: string)
    requires c in PatchSet(changed, held, columns, small, hash) && c in row && row[c] == held[c]
    ensures var patch := PatchSet(changed, held, columns, small, hash)[c];
            PatchedText(Some(row), c, patch) == Some(changed[c].s) && Lands(Some(row), c, patch, hash)
  {
    DiffIsCorrect(held[c].s, changed[c].s);
  }

  /** When every patch gives the changed text, the accepted payload is exactly the changed columns. */
  lemma LandedPatchesRestore(changed: Row, row: Option<Row>, patches: Patches, hash: string -> int)
    requires forall c :: c in patches ==>
               && c in changed && changed[c].Str? && Lands(row, c, patches[c], hash)
               && PatchedText(row, c, patches[c]) == Some(changed[c].s)
    ensures Unpatched(row, changed - patches.Keys, patches, hash) == Some(changed)
  {
    var texts := TextsOf(row, patches, patches.Keys);
    assert texts.Keys == patches.Keys;
    assert forall c :: c in texts ==> texts[c] == changed[c];
    assert (changed - patches.Keys) + texts == changed;
  }

  /**
   * A patched delta means the same as a plain one: a client whose text columns are those the server
   * has cached for it gets back exactly the changed columns, whatever the hash and the size test.
   */
  lemma PatchRoundTrips(changed: Row, held: Row, row: Row, columns: seq<string>, small: (seq<Hunk>, string) -> bool,
                        hash: string -> int)
    requires forall c :: c in columns && c in held ==> c in row && row[c] == held[c]
    ensures var patches := PatchSet(changed, held, columns, small, hash);
            Unpatched(Some(row), changed - patches.Keys, patches, hash) == Some(changed)
  {
    var patches := PatchSet(changed, held, columns, small, hash);
    forall c | c in patches
      ensures PatchedText(Some(row), c, patches[c]) == Some(changed[c].s) && Lands(Some(row), c, patches[c], hash)
    {
      PatchLands(changed, held, row, columns, small, hash, c);
    }
    LandedPatchesRestore(changed, Some(row), patches, hash);
  }

  /** Whatever the client holds, a payload it accepts hashes, in every patched column, as the server's value does. */
  lemma AcceptedPatchesHash(changed: Row, held: Row, row: Option<Row>, columns: seq<string>,
                            small: (seq<Hunk>, string) -> bool, hash: string -> int, column: string)
    requires var patches := PatchSet(changed, held, columns, small, hash);
             column in patches && Unpatched(row, changed - patches.Keys, patches, hash).Some?
    ensures var patches := PatchSet(changed, held, columns, small, hash);
            var r := Unpatched(row, changed - patches.Keys, patches, hash).value;
            column in r && r[column].Str? && hash(r[column].s) == hash(changed[column].s)
  {
    var patches := PatchSet(changed, held, columns, small, hash);
    assert Lands(row, column, patches[column], hash);
  }
}
