# What the model covers

A model, in Dafny, of the parts of a local-first synchronization library that carry its promises, with
proofs of those promises.

- **Collaborative text.** The Myers diff with its frontier arrays, stored trace and walk back; applying
  hunks; the three-way merge; caret mapping; the server's text policy; the client's binding with one
  write in flight; any number of bindings and the server as a step machine; text deltas as patches.
- **Causal state.** Hybrid logical clocks and their string form; the merge policy column by column; the
  client store with its optimistic queue, reverts, deltas and snapshots; the splitting of a push.
- **Tetris.** The server-authoritative game and the client's prediction of it.
- **Rate limits.** The fixed-window limiter over whole histories.

Where the source changes an object or an array step by step, so does the model: the methods of
`DiffArrays`, `Merge3`, `TextBinding`, `Store`, `Ops`, `RateLimiter`, `PushChunks` and `TetrisPlayer`
are proved to compute functions, and the laws are proved about those functions. Randomness, wall clocks,
fresh identifiers, the text hash and the test that a patch is worth sending are parameters.

`dafny verify dfyconfig.toml` checks everything. Lemmas without a row below are steps of the proofs.

## Model

| member | source | states |
|---|---|---|
| TextDiff.DiffIsCorrect | src/core/text.ts:16-100 | For all texts, in each of the three exits, the hunks are in range, in order and apart, and applying them to the old text gives the new one. |
| TextDiff.DiffIsMinimalExactly | src/core/text.ts:18-89 | The deleted and inserted characters number exactly the edit distance if and only if that distance is at most 2000 or the trimmed middles share nothing. |
| TextDiff.DiffIsMinimal | src/core/text.ts:18-89 | In those cases no in-order list of hunks with the same result edits less, and the cost is the two lengths less twice the longest common subsequence. |
| TextDiff.DiffCost | src/core/text.ts:18-89 | Past 2000 edits the cost is exactly the whole of both middles between the common ends. |
| TextDiff.DiffCanOverspend | src/core/text.ts:57 | A family of texts sharing one character whose diff edits two characters more than it must. |
| EditDistance.TrimKeepsDistance | src/core/text.ts:18-26 | Trimming common ends does not change the edit distance, so it loses no optimality. |
| EditDistance.EveryScriptCostsDistance | src/core/text.ts:92-100 | Any in-order hunk list that turns one text into the other deletes and inserts at least the edit distance. |
| Myers.FirstHitIsTheCorner | src/core/text.ts:40-61 | Although the frontier is never clamped to the grid, the first round that passes both ends is the edit distance, and its hit stands exactly on the corner, on the corner's diagonal. |
| Myers.FurthestIsMaximal | src/core/text.ts:43-53 | No path with the same deletions and insertions gets further along its diagonal than the frontier cell. |
| Myers.FurthestIsReached | src/core/text.ts:43-53 | Every frontier cell is the end of a real path with that many deletions and insertions. |
| Myers.Overshoot | src/core/text.ts:43-53 | A path that runs past an edge could have stopped there, saving exactly as many edits as it overshoots. |
| Myers.FrontierBounded | src/core/text.ts:31-53 | A frontier value is never negative and never exceeds the old text's length plus the deletions made, which keeps it within its 32-bit cell for texts shorter than 2^31 - 2000. |
| DiffArrays.DiffText | src/core/text.ts:16-90 | The search over arrays, the walk back over the trace and the folding into hunks produce the diff the laws are about. |
| DiffArrays.Search | src/core/text.ts:28-58 | The search finds the edit distance exactly when it is within the limit, and leaves a trace in which each stored row is the frontier of the round before. |
| DiffArrays.WalkBack | src/core/text.ts:60-74 | Walking the trace back from the corner recovers, first to last, the edits of the path found. |
| Hunks.ApplyHunks | src/core/text.ts:92-100 | The loop computes the text after all hunks, JavaScript slicing rules included. |
| Merge3.MergeText | src/core/text.ts:107-134 | The merge method, with its early returns, computes the merge the laws are about. |
| Merge3.MergeIsItsLoop | src/core/text.ts:108-111 | On inputs that return early the loop would have written the same text. |
| MergeOrder.MergeKeepsBaseInOrder | src/core/text.ts:107-134 | Whatever overlaps, every base position neither diff deletes is in the merge, and base positions occur in order and at most once. |
| MergeBlocks.NothingTypedIsLost | src/core/text.ts:107-134 | Whatever overlaps, each insert of each side stands in the merge as one whole block, each side's in order; every character not copied from the base is in such a block; where the loop pairs a change of each side, equal texts are one block and different ones stand ours first, theirs at once after; and no other blocks are shared. |
| MergeBlocks.IdenticalChangeLandsOnce | src/core/text.ts:107-134 | A change both sides made, over the same stretch with the same text, is one block of the merge, whatever else overlaps. |
| Merge3.UnionExactlyWithoutRewind | src/core/text.ts:116-133 | The merge keeps exactly the base positions deleted by neither side if and only if its loop never moves backwards. |
| Merge3.SingleOverlapsNeverRewind | src/core/text.ts:116-133 | It never does when each change overlaps at most one change of the other side. |
| MergeLaws.UnionCanFail | src/core/text.ts:102-134 | A concrete merge in which a character that one side deleted comes back. |
| MergeLaws.SidesSwap | src/core/text.ts:107-134 | Swapping the sides takes the same steps over the same stretches of base; only the order of two inserts within one step differs. |
| MergeLaws.DisjointIsSortedUnion | src/core/text.ts:116-133 | Changes that nowhere touch merge to their union, each hunk once, in order. |
| MergeLaws.DisjointMergeIsSymmetric | src/core/text.ts:107-134 | For such changes the merge does not depend on which side is ours. |
| MapOffset.MapCaret | src/core/text.ts:140-150 | The loop computes the caret mapping the two laws below are about. |
| MapOffset.MapIsMonotone | src/core/text.ts:140-150 | Valid offsets map to valid offsets, and carets never cross. |
| MapOffset.CaretFollowsItsCharacter | src/core/text.ts:140-150 | If the diff keeps the character before the caret, that very character is the one before the mapped caret. |
| TextPolicy.IsTextEdit | src/server/conflict.ts:341-363 | The check accepts an edit exactly when the writer's name is no longer than 64, every change names a text column with reverse hunks in range and never running backwards, and a remove names a text column where rows can be soft-deleted. |
| TextPolicy.ResolveText | src/server/conflict.ts:274-339 | The server's text policy, all branches, computes the result the laws are about. |
| TextPolicy.OneEdit | src/server/conflict.ts:295-338 | An edit of one text column merges that column against the base its reverse hunks rebuild, notes the writer, clears a soft delete, and leaves every other column alone. |
| TextPolicy.OneRemove | src/server/conflict.ts:295-338 | A remove leaves the text alone and marks the row exactly when its text still hashes to what the client saw, or it was marked already. |
| TextPolicy.RememberKeeps | src/server/conflict.ts:330-338 | After noting a write the row knows it, knows each other writer's latest or has dropped that writer, and holds no more than the limit. |
| TextBinding.TextBinding.Flush | src/client/text.ts:124-139 | A flush sends an edit exactly when nothing is in flight and there is something to send, and leaves the binding with that write in flight. |
| TextBinding.TextBinding.Pump | src/client/text.ts:153-199 | Taking the row as it now is updates the binding in every branch as the laws assume. |
| TextBinding.FlushIsValid | src/client/text.ts:124-139 | The server accepts the edit a flush builds if and only if, when it is a remove, rows can be soft-deleted; reverse hunks, apart and in range, lead from what is sent back to the shadow. |
| TextBinding.PumpMerges | src/client/text.ts:153-199 | A pump that settles always leaves the three-way merge, from what was sent or else the shadow; its guard only saves work. |
| TextBinding.CleanPumpFollows | src/client/text.ts:153-199 | With nothing typed since, a pump shows the server's text. |
| TextBinding.RepeatedPumpChangesNothing | src/client/text.ts:153-199 | Being shown the same row again changes nothing. |
| TextBinding.RejectionWaitsForPump | src/client/text.ts:201-215 | After a final rejection the row's text is on screen if and only if the version skipped while in flight had not changed it; the next pump brings it in any case. |
| TextProtocol.StepKeepsInv | src/client/text.ts:93-199 | Every step of any client or the server, in any interleaving, keeps the protocol's invariant. |
| TextProtocol.ServerMergesLikeWithLike | src/server/conflict.ts:300-325 | The base the server rebuilds is the very text the sender started from, and it and the server's current text contain the same of the sender's own writes. |
| TextProtocol.ClientMergesLikeWithLike | src/client/text.ts:153-199 | A version reaching a client either lacks its write in flight and is skipped, or is merged against a text with exactly the same of the client's own writes. |
| TextProtocol.QuietMeansAgreement | src/client/text.ts:153-199 | With nothing in flight, undelivered or unsent, every client shows the server's text. |
| TextProtocol.EveryScheduleSettles | src/client/text.ts:124-199 | Once typing stops, any sequence of other steps is bounded by the work left, and where none is possible all agree. |
| TextProtocol.EveryRunCanAgree | src/client/text.ts:93-199 | From fresh clients on any row, after any run, every schedule without typing is finite and ends with all clients showing the server's text. |
| TextProtocol.ServeIsTheTextPolicy | src/server/conflict.ts:274-339 | The protocol's server step is the text policy on a row holding the current version. |
| TextProtocol.RemoveFlushDropsTyping | src/client/text.ts:109-139 | When a flush comes back, what was typed before it is still on screen, nobody else having written, if and only if it carried no remove; after a remove the server's text is on screen, whatever it is. |
| TextProtocol.RemoveRunLosesTyping | src/client/text.ts:109-139 | A run from a fresh start, with a remove and then typing before one flush, after which nothing is left to do and the typing is in no version and not on screen. |
| TextProtocol.SoloWriterIsNeverDisturbed | src/client/text.ts:153-199 | In every run where one client types and any number of others read, without removes, no delivery changes what is on the writer's screen. |
| TextPatch.PatchTextColumns | src/server/broadcast-engine.ts:34-58 | Exactly the columns worth patching leave the payload as patches with the diff and the hash of the new text. |
| TextPatch.UnpatchText | src/client/sync-client.ts:379-393 | The patches become values again if and only if each lands on text with the expected hash; otherwise nothing is applied. |
| TextPatch.PatchRoundTrips | src/client/sync-client.ts:379-393 | A client whose text columns are those the server has cached gets back exactly the changed columns, whatever the hash and the size test. |
| TextPatch.AcceptedPatchesHash | src/client/sync-client.ts:379-393 | Whatever a client holds, a payload it accepts hashes in every patched column as the server's value does. |
| Hlc.StringOrderIsCausalOrder | src/core/hlc.ts:53-78 | Packed clocks compare as strings exactly as time, counter and node do, and are equal only for equal clocks. |
| Hlc.PackRoundTrips | src/core/hlc.ts:53-72 | Unpacking a packed clock gives it back, dots in the node's name included. |
| ClockRuns.SendAdvances | src/core/hlc.ts:22-34 | A local stamp is strictly above the clock and not behind the wall. |
| ClockRuns.ReceiveAdvances | src/core/hlc.ts:36-51 | A received clock within the allowed drift is passed; one beyond it is passed if and only if it was no later than the local clock anyway, or has its millisecond when the local counter rolls over. |
| ClockRuns.RunIsBounded | src/core/hlc.ts:22-51 | Whatever remote clocks it hears, after k events a clock is at most k/10000 milliseconds past the allowed drift and one; with sends alone, past the wall. |
| ClockRuns.RunIsStrict | src/core/hlc.ts:22-51 | No two clocks of a run are equal: every later one is strictly above. |
| ClockRuns.RestoreClock | src/client/sync-client.ts:223-254 | The restored clock is below neither the persisted one nor any queued stamp, and restoring fails exactly when a queued stamp does not parse. |
| ClockRuns.NewStampsFollowQueued | src/client/sync-client.ts:223-254 | Whatever the wall says and whatever is heard after a restart, every stamp from then on sorts after every queued one. |
| Ops.OpCreator.CreateBatch | src/client/ops.ts:43-83 | The operations of a batch carry its identifier, its size, their place in it and the stamps of successive sends, and leave the clock after the last. |
| ClockRuns.BatchStampsRise | src/client/ops.ts:72-83 | The stamps of one batch are strictly increasing as strings. |
| Conflict.ResolveMerge | src/server/conflict.ts:116-180 | The merge policy's branches and its loop over columns compute the result the laws are about. |
| Conflict.MergingSettles | src/server/conflict.ts:116-180 | Folding writes into a new row leaves each touched column with the latest write to it, and the row's clock at the latest of all. |
| Conflict.MergeOrderDoesNotMatter | src/server/conflict.ts:116-180 | The same writes in any order, with any repeats, leave the same row and clocks. |
| DeleteOrder.DeleteOrderExactly | src/server/conflict.ts:116-180 | With one delete among the writes, all orders agree if and only if every write older than the delete decides no column and touches only columns that every deciding write touches. |
| Conflict.DeleteOrderMatters | src/server/conflict.ts:125-142 | A concrete trio of operations whose two orders leave a row and no row. |
| Store.ClientStore.RevertOp | src/client/store.ts:397-431 | Reverting drops the write from the queue and replays the row's other writes from its base, refreshing what each remembers. |
| StoreHistory.RunShowsLastingWrites | src/client/store.ts:129-431 | Over whole runs of writes, acknowledgements of each row's earliest writes and reverts without a server row, every row shows, from what it started with, exactly its writes never reverted, in order. |
| StoreLaws.RevertIsNeverWritten | src/client/store.ts:397-431 | Taking a write back after any further writes leaves every row as if it had never been made. |
| StoreLaws.RunsStayOk | src/client/store.ts:129-431 | In every run of local writes, acknowledgements of each row's earliest writes, and reverts, every row shows its base with its pending writes on top and every tracked write remembers what it was made on. |
| StoreLaws.RevertRebuilds | src/client/store.ts:397-431 | Whatever the row looked like, a revert leaves the server's row, or else the earliest remembered one, with every other pending write on top. |
| StoreLaws.RevertElsewhere | src/client/store.ts:397-431 | A revert changes no other row and nothing tracked for it. |
| StoreLaws.BatchRejectionOk | src/client/store.ts:170-183 | Rejecting a batch and reverting its members leaves every row with its base and the writes outside the batch on top. |
| DeltaLaws.LatestDecides | src/client/store.ts:301-338 | After any inserts and deletes the row is what the newest of them makes, unless what was stored is at least as new. |
| DeltaLaws.InsertsAndDeletesConverge | src/client/store.ts:301-338 | Any arrival order of the same inserts and deletes, with repeats, leaves the same row; a tombstone keeps out every older insert. |
| DeltaLaws.UpdatesConverge | src/client/store.ts:339-366 | Any arrival order of the same updates on a live row, with repeats, leaves each column with the same value and clock. |
| DeltaLaws.CellIsNewest | src/client/store.ts:339-366 | That value and clock were offered or already there, and none offered is newer. |
| DeltaLaws.UpdateRevivesExactly | src/client/store.ts:339-366 | Whatever the clocks, an update arriving after a delete shows the row again if and only if it carries a column. |
| DeltaLaws.UpdateRevivesTombstone | src/client/store.ts:339-366 | A concrete update older than a delete that brings the row back. |
| Store.ClientStore.ApplySnapshot | src/client/store.ts:271-299 | A snapshot replaces or extends the table by the server's rows and then shows the table's pending writes again, leaving the queue as it was. |
| SnapshotLaws.SnapshotShowsRow | src/client/store.ts:271-299 | A row the server sent then shows the server's data with exactly that row's pending writes on top, in order. |
| SnapshotLaws.SnapshotShowsOthers | src/client/store.ts:271-299 | A row it did not send keeps what was kept of it, with its pending writes on top; other tables are untouched. |
| PushChunks.Chunk | src/client/sync-client.ts:568-603 | The chunks are the operations in order, split no batch run, are neither empty nor over the limit unless one run alone, and are the fewest possible among all such splits. |
| RateLimiter.RateLimiter.Check | src/server/enforcement.ts:76-179 | A check admits exactly when every bucket concerned has room at that time, and changes nothing but stale buckets. |
| RateLimiter.NoWindowHoldsTwiceTheLimit | src/server/enforcement.ts:76-179 | Over any history, no interval of one window length holds twice the limit of admitted operations, globally and per table, with cleanup and colliding keys. |
| RateLimiter.CleanupNeverDecides | src/server/enforcement.ts:76-179 | Dropping stale buckets, whenever it happens, never changes a decision. |
| Pieces.PieceShape | examples/tetris/schema.ts:146-156 | Every piece in every rotation is four different cells within a four by four box at its position. |
| Pieces.FullTurnIsNone | examples/tetris/schema.ts:146-156 | Four quarter turns bring every piece back cell for cell. |
| TetrisSafety.RefillsAreTheOrderings | examples/tetris/game.ts:85-92 | The bags a refill can produce are exactly the orderings of the seven kinds. |
| TetrisBoard.ClearedRowAt | examples/tetris/game.ts:179-190 | A cleared board is the rows that were not full, in order, below as many empty rows as were full. |
| TetrisBoard.ClearedCount | examples/tetris/game.ts:179-190 | Clearing loses ten filled cells for each full row and nothing else. |
| TetrisSafety.LockLedger | examples/tetris/game.ts:206-228 | A lock clears at most four rows; it adds four cells and takes ten per cleared row, and scores by the table, or it is a death that empties board, score and lines. |
| TetrisSafety.LandsOnSomething | examples/tetris/game.ts:173-177 | A hard drop ends where the piece cannot go one row further. |
| TetrisSafety.FallsThroughFreeRows | examples/tetris/game.ts:173-177 | Every row it passes was free for it. |
| TetrisSafety.KickIsFirstFit | examples/tetris/game.ts:239-249 | If any kick lets the turned piece fit, the piece turns by one no later in the list. |
| TetrisSafety.SidestepsUndo | examples/tetris/game.ts:230-237 | A step to one side, where possible, is undone by a step to the other. |
| TetrisTime.EveryGameIsLegal | examples/tetris/game.ts:159-324 | After any keys and ticks the piece fits, the board holds only known colours and no full row, and at least twenty pieces are queued. |
| TetrisTime.EverySecondIsPaidOnce | examples/tetris/game.ts:297-324 | In whole games of keys and ticks, with each tick counted up to one second, a tick pays, at the level it begins on, exactly the whole seconds the total time completes with it. |
| TetrisTime.SurvivalIgnoresTicks | examples/tetris/game.ts:303-313 | On unchanged lines, two stretches of time alive pay what they would as one. |
| TetrisTime.FallingSpendsTime | examples/tetris/game.ts:315-321 | Fall time is spent down to less than one interval unless all twelve falls of a tick are made, and never below zero. |
| TetrisPlayer.ReplayInputs | examples/tetris/game.ts:144-157 | The replay applies the unprocessed inputs in order to a copy, leaving the snapshot alone. |
| TetrisPlayer.Player.LockPiece | examples/tetris/game.ts:218-228 | Settling, clearing, scoring and spawning update the player as the laws assume. |
| TetrisPlayer.Player.Advance | examples/tetris/game.ts:297-324 | A tick updates player and clock as the laws assume. |
| TetrisPrediction.PredictionIsExact | examples/tetris/game.ts:94-101 | From any reachable game, with any randomness of its own, a client's replay is what the server has after processing the same inputs, but for the count of processed inputs and the unknown tail of the queue, while the replay draws no more pieces than are queued. |
| TetrisPrediction.ServingIsReplaying | examples/tetris/server.tsx:144-151 | Testing each input against the count reached so far, as the server does, replays the same inputs as testing them all against the snapshot's count. |
| TetrisPrediction.SixCommandsArePredicted | examples/tetris/game.ts:94-101 | Any six commands are always predicted exactly. |

## Findings

Places where the code does less than its comments or its purpose suggest. Each has a lemma, and the
exact condition where there is one.

- `merge3`: "overlapping changes delete the union" fails when one change overlaps two on the other
  side, because the loop can move backwards: merging "bd" and "" over "abcd" gives "d"
  (`MergeLaws.UnionCanFail`). It holds if and only if the loop never moves backwards
  (`Merge3.UnionExactlyWithoutRewind`), and so whenever overlaps are one to one.
- The merge policy depends on order once a delete is among the operations
  (`Conflict.DeleteOrderMatters`); when exactly is `DeleteOrder.DeleteOrderExactly`.
- An update delta is not ordered against a tombstone and brings the row back whenever it carries a
  column (`DeltaLaws.UpdateRevivesTombstone`, `DeltaLaws.UpdateRevivesExactly`).
- A flush that carries a remove counts unsent typing as sent, and the settling row wipes it
  (`TextProtocol.RemoveRunLosesTyping`); it does so exactly when a remove is carried
  (`TextProtocol.RemoveFlushDropsTyping`).
- A final rejection falls back to the shadow, which may be older than a version skipped while the
  write was in flight; the next pump repairs it (`TextBinding.RejectionWaitsForPump`).
- Past 2000 edits the diff replaces the whole middle and is minimal only when the middles share
  nothing (`TextDiff.DiffIsMinimalExactly`); `TextDiff.DiffCanOverspend` is where it is not.

## Left out

- Conflict.MergeOrderDoesNotMatter: speaks of the row and its clocks; the row's separate stamp is that of the write last accepted and does depend on order, which is how deletes come to matter.
- DeleteOrder.DeleteOrderExactly: one delete, each operation delivered once; several deletes or repeated deliveries are not characterised.
- DeltaLaws.UpdatesConverge: speaks of each column's value and clock; the row's own stamp after updates is not claimed.
- TextProtocol.EveryRunCanAgree: one text column; rejected writes, closing and reopening are not steps; each version of the row reaches each client in order, so a served write lands only if its version, or a later one, is seen before 64 other writers push the writer out of the row's memory.
- StoreLaws.RunsStayOk: acknowledgements of a later write before an earlier one of the same row, snapshots and deltas are not events of these runs; after them a remembered row may be older than the server's.
- StoreHistory.RunShowsLastingWrites: reverts that bring the server's row are not in these runs (`StoreLaws.RevertRebuilds` has them one at a time), and otherwise the runs are those of `StoreLaws.RunsStayOk`, with no identifier used twice.
- ClockRuns.RestoreClock: reads plain decimal digits; JavaScript's `Number` also reads signs, spaces and exponents, which no packed clock contains.
- TetrisTime.EveryGameIsLegal: games begun by `createPlayer`; a stored player with a piece outside the board is not considered.
- Tetris.Settle: a cell past the end of the board is dropped, where JavaScript would lengthen the array; no reachable game has one.
- `markRejected` and its trimming, hydration, the storage adapter, persistence and write chain: the in-memory store is the state.
- The `server`, `custom` and row-level policies beyond the result of row-level last-writer-wins for deletes under the text policy: one-branch checks and user callbacks.
- `hashText` is any function, the size test of `patchTextColumns` any predicate, gravity any function (at least 75 ms where a law needs it), each refill any bag, fresh identifiers inputs.
- Text is a sequence of code units; numbers in clocks are unbounded integers, and Int32 cells are covered by the bound on frontier values.
- Transports, sessions, caches, fan-out, queries, rooms, presence, compaction and the user interface bindings: input and output.
