/** Splitting pending operations into messages (src/client/sync-client.ts, `doPush`). */
module PushChunks {
  import opened Ops
  import opened Options

  const MAX_BATCH_SIZE: nat := 100

  /** Neighbours that belong to one batch and may not be parted. */
  predicate SameRun(x: ClientOp, y: ClientOp)
  {
    x.batchId.Some? && x.batchId.value != "" && y.batchId == x.batchId
  }

  predicate Batched(x: ClientOp)
  {
    x.batchId.Some? && x.batchId.value != ""
  }

  function Flatten(chunks: seq<seq<ClientOp>>): seq<ClientOp>
  {
    if chunks == [] then [] else chunks[0] + Flatten(chunks[1..])
  }

  ghost predicate OneRun(c: seq<ClientOp>)
  {
    forall k :: 0 < k < |c| ==> SameRun(c[k - 1], c[k])
  }

  /** No run reaches from one into the other. */
  predicate Parted(c: seq<ClientOp>, d: seq<ClientOp>)
  {
    c == [] || d == [] || !SameRun(c[|c| - 1], d[0])
  }

  ghost predicate FineChunk(c: seq<ClientOp>)
  {
    c != [] && (|c| <= MAX_BATCH_SIZE || OneRun(c))
  }

  /**
   * A way to send the operations: in order, none lost, no batch run split, no message empty, and none
   * over the limit unless it is one run on its own.
   */
  ghost predicate Split(ops: seq<ClientOp>, chunks: seq<seq<ClientOp>>)
  {
    && Flatten(chunks) == ops
    && (forall i :: 0 <= i < |chunks| ==> FineChunk(chunks[i]))
    && (forall i :: 0 < i < |chunks| ==> Parted(chunks[i - 1], chunks[i]))
  }

  /** Length of the run a chunk starts with. */
  function RunLength(c: seq<ClientOp>): nat
  {
    if c == [] then 0 else if |c| > 1 && SameRun(c[0], c[1]) then 1 + RunLength(c[1..]) else 1
  }

  /** The first run of the later chunk would not have fitted in the earlier one. */
  predicate NoRoom(c: seq<ClientOp>, d: seq<ClientOp>)
  {
    |c| + RunLength(d) > MAX_BATCH_SIZE
  }

  ghost predicate Tight(chunks: seq<seq<ClientOp>>)
  {
    forall i :: 0 < i < |chunks| ==> NoRoom(chunks[i - 1], chunks[i])
  }

  lemma {:induction false} FlattenSnoc(chunks: seq<seq<ClientOp>>, c: seq<ClientOp>)
    ensures Flatten(chunks + [c]) == Flatten(chunks) + c
  {
    if chunks == [] {
      assert (chunks + [c])[1..] == [] && Flatten([]) + c == c + Flatten([]);
    } else {
      FlattenSnoc(chunks[1..], c);
      assert (chunks + [c])[1..] == chunks[1..] + [c];
    }
  }

  lemma {:induction false} RunLengthBounds(c: seq<ClientOp>)
    ensures RunLength(c) <= |c| && (c != [] ==> RunLength(c) > 0)
    ensures OneRun(c[..RunLength(c)])
    ensures RunLength(c) < |c| ==> RunLength(c) > 0 && !SameRun(c[RunLength(c) - 1], c[RunLength(c)])
  {
    if |c| > 1 && SameRun(c[0], c[1]) {
      RunLengthBounds(c[1..]);
      forall k | 0 < k < RunLength(c) ensures SameRun(c[k - 1], c[k]) {
        if k > 1 { assert SameRun(c[1..][..RunLength(c[1..])][k - 2], c[1..][..RunLength(c[1..])][k - 1]); }
      }
    }
  }

  lemma {:induction false} RunLengthIs(c: seq<ClientOp>, n: nat)
    requires 0 < n <= |c| && OneRun(c[..n]) && (n == |c| || !SameRun(c[n - 1], c[n]))
    ensures RunLength(c) == n
    decreases n
  {
    if n > 1 {
      assert SameRun(c[..n][0], c[..n][1]);
      forall k | 0 < k < n - 1 ensures SameRun(c[1..][k - 1], c[1..][k]) {
        assert SameRun(c[..n][k], c[..n][k + 1]);
      }
      RunLengthIs(c[1..], n - 1);
    }
  }

  /** Adding a parted run to a chunk does not change the run it starts with. */
  lemma RunLengthGrows(c: seq<ClientOp>, d: seq<ClientOp>)
    requires c != [] && Parted(c, d)
    ensures RunLength(c + d) == RunLength(c)
  {
    RunLengthBounds(c);
    var n := RunLength(c);
    assert (c + d)[..n] == c[..n];
    RunLengthIs(c + d, n);
  }

  // ---- No split uses fewer messages

  /** A chunk that reaches past two neighbours' border holds the first and the second's first run: too much, and no run. */
  lemma CannotReachPast(ops: seq<ClientOp>, o: nat, oEnd: nat, g: nat, gEnd: nat, next: seq<ClientOp>, nEnd: nat)
    requires o <= g < gEnd < oEnd <= |ops| && nEnd == gEnd + |next| <= |ops| && next != []
    requires next == ops[gEnd..nEnd] && NoRoom(ops[g..gEnd], next) && Parted(ops[g..gEnd], next)
    requires Ends(ops, nEnd) && Ends(ops, oEnd)
    ensures !FineChunk(ops[o..oEnd])
  {
    BorderParts(ops, g, gEnd, next, nEnd);
    BorderInside(ops, o, oEnd, gEnd);
    RunReaches(ops, gEnd, next, nEnd, oEnd);
  }

  lemma BorderParts(ops: seq<ClientOp>, g: nat, gEnd: nat, next: seq<ClientOp>, nEnd: nat)
    requires g < gEnd < nEnd <= |ops| && next == ops[gEnd..nEnd] && Parted(ops[g..gEnd], next)
    ensures !SameRun(ops[gEnd - 1], ops[gEnd])
  {
    var c := ops[g..gEnd];
    assert c[|c| - 1] == ops[gEnd - 1] && next[0] == ops[gEnd];
  }

  lemma BorderInside(ops: seq<ClientOp>, o: nat, oEnd: nat, border: nat)
    requires o < border < oEnd <= |ops| && !SameRun(ops[border - 1], ops[border])
    ensures !OneRun(ops[o..oEnd])
  {
    var c, k := ops[o..oEnd], border - o;
    assert c[k - 1] == ops[border - 1] && c[k] == ops[border];
    assert !SameRun(c[k - 1], c[k]);
  }

  /** What ends where no run goes on holds the whole of the run it starts. */
  lemma RunReaches(ops: seq<ClientOp>, start: nat, next: seq<ClientOp>, nEnd: nat, end: nat)
    requires start < end <= |ops| && start < nEnd <= |ops| && next == ops[start..nEnd] && Ends(ops, end)
    ensures RunLength(next) <= end - start
  {
    var n := RunLength(next);
    RunLengthBounds(next);
    forall p | start < p < start + n ensures SameRun(ops[p - 1], ops[p]) {
      var k := p - start;
      assert SameRun(next[..n][k - 1], next[..n][k]);
    }
  }

  /** No run goes on past `e`. */
  ghost predicate Ends(ops: seq<ClientOp>, e: nat)
    requires 0 < e <= |ops|
  {
    e == |ops| || !SameRun(ops[e - 1], ops[e])
  }

  ghost predicate Joined(chunks: seq<seq<ClientOp>>)
  {
    && (forall i :: 0 <= i < |chunks| ==> FineChunk(chunks[i]))
    && (forall i :: 0 < i < |chunks| ==> Parted(chunks[i - 1], chunks[i]))
  }

  /** The first chunk of a joined list of chunks ends where no run goes on. */
  lemma FirstChunkEnds(ops: seq<ClientOp>, chunks: seq<seq<ClientOp>>, p: nat, e: nat)
    requires p <= |ops| && ops[p..] == Flatten(chunks) && chunks != [] && Joined(chunks) && e == p + |chunks[0]|
    ensures p < e <= |ops| && ops[p..e] == chunks[0] && FineChunk(chunks[0]) && Ends(ops, e)
    ensures ops[e..] == Flatten(chunks[1..]) && Joined(chunks[1..])
  {
    var c := chunks[0];
    assert |ops[p..]| == |c| + |Flatten(chunks[1..])|;
    assert ops[p..e] == ops[p..][..|c|] == c;
    assert ops[e..] == ops[p..][|c|..] == Flatten(chunks[1..]);
    assert FineChunk(c);
    if e < |ops| {
      assert |chunks| > 1;
      assert FineChunk(chunks[1]) && Parted(chunks[0], chunks[1]);
      assert ops[e] == ops[e..][0] == chunks[1][0];
      assert ops[e - 1] == ops[p..e][|c| - 1];
    }
    forall i | 0 < i < |chunks[1..]| ensures Parted(chunks[1..][i - 1], chunks[1..][i]) {
      assert Parted(chunks[i], chunks[i + 1]);
    }
  }

  lemma TightTail(chunks: seq<seq<ClientOp>>)
    requires Tight(chunks) && chunks != []
    ensures Tight(chunks[1..])
  {
    forall i | 0 < i < |chunks[1..]| ensures NoRoom(chunks[1..][i - 1], chunks[1..][i]) {
      assert NoRoom(chunks[i], chunks[i + 1]);
    }
  }

  /** The second chunk of a tight split, where there is one. */
  lemma SecondChunk(ops: seq<ClientOp>, chunks: seq<seq<ClientOp>>, g: nat, gEnd: nat)
    returns (next: seq<ClientOp>, nEnd: nat)
    requires g <= |ops| && ops[g..] == Flatten(chunks) && Joined(chunks) && Tight(chunks) && chunks != []
    requires gEnd == g + |chunks[0]| < |ops|
    ensures next != [] && nEnd == gEnd + |next| <= |ops| && next == ops[gEnd..nEnd] && Ends(ops, nEnd)
    ensures NoRoom(chunks[0], next) && Parted(chunks[0], next)
  {
    FirstChunkEnds(ops, chunks, g, gEnd);
    assert Flatten(chunks[1..]) != [] && chunks[1..] != [];
    next := chunks[1];
    nEnd := gEnd + |next|;
    FirstChunkEnds(ops, chunks[1..], gEnd, nEnd);
    assert NoRoom(chunks[0], chunks[1]) && Parted(chunks[0], chunks[1]);
  }

  /** A tight split's first message reaches at least as far as any other's that starts no later. */
  lemma TightReachesFurthest(ops: seq<ClientOp>, chunks: seq<seq<ClientOp>>, g: nat, gEnd: nat,
                             other: seq<seq<ClientOp>>, o: nat, oEnd: nat)
    requires o <= g <= |ops| && ops[g..] == Flatten(chunks) && ops[o..] == Flatten(other)
    requires Joined(chunks) && Joined(other) && Tight(chunks) && chunks != [] && other != []
    requires gEnd == g + |chunks[0]| && oEnd == o + |other[0]|
    ensures oEnd <= gEnd
  {
    FirstChunkEnds(ops, chunks, g, gEnd);
    FirstChunkEnds(ops, other, o, oEnd);
    if gEnd < oEnd {
      var next, nEnd := SecondChunk(ops, chunks, g, gEnd);
      CannotReachPast(ops, o, oEnd, g, gEnd, next, nEnd);
    }
  }

  /** A tight split never falls behind another: starting no earlier, it needs no more messages. */
  lemma {:induction false} TightStaysAhead(ops: seq<ClientOp>, chunks: seq<seq<ClientOp>>, g: nat,
                                           other: seq<seq<ClientOp>>, o: nat)
    requires o <= g <= |ops| && ops[g..] == Flatten(chunks) && ops[o..] == Flatten(other)
    requires Joined(chunks) && Joined(other) && Tight(chunks)
    ensures |chunks| <= |other|
    decreases |chunks|
  {
    if chunks != [] {
      var gEnd := g + |chunks[0]|;
      FirstChunkEnds(ops, chunks, g, gEnd);
      assert other != [];
      var oEnd := o + |other[0]|;
      FirstChunkEnds(ops, other, o, oEnd);
      TightReachesFurthest(ops, chunks, g, gEnd, other, o, oEnd);
      TightTail(chunks);
      TightStaysAhead(ops, chunks[1..], gEnd, other[1..], oEnd);
    }
  }

  /** A tight split uses the fewest messages of all splits. */
  lemma TightIsFewest(ops: seq<ClientOp>, chunks: seq<seq<ClientOp>>, other: seq<seq<ClientOp>>)
    requires Split(ops, chunks) && Tight(chunks) && Split(ops, other)
    ensures |chunks| <= |other|
  {
    assert ops[0..] == ops;
    TightStaysAhead(ops, chunks, 0, other, 0);
  }

  // ---- The loop

  /** Chunks closed so far and the one being filled: a tight split of what has been read. */
  ghost predicate Progress(ops: seq<ClientOp>, i: int, chunks: seq<seq<ClientOp>>, current: seq<ClientOp>)
  {
    && 0 <= i <= |ops| && (i == 0 || i == |ops| || !SameRun(ops[i - 1], ops[i]))
    && Flatten(chunks) + current == ops[..i]
    && Joined(chunks) && Tight(chunks) && |current| <= MAX_BATCH_SIZE
    && (current != [] && chunks != [] ==>
          Parted(chunks[|chunks| - 1], current) && NoRoom(chunks[|chunks| - 1], current))
    && (current == [] && chunks != [] ==> |chunks[|chunks| - 1]| > MAX_BATCH_SIZE)
  }

  lemma JoinSnoc(chunks: seq<seq<ClientOp>>, c: seq<ClientOp>)
    requires Joined(chunks) && Tight(chunks) && FineChunk(c)
    requires chunks != [] ==> Parted(chunks[|chunks| - 1], c) && NoRoom(chunks[|chunks| - 1], c)
    ensures Joined(chunks + [c]) && Tight(chunks + [c])
  {
    var cs := chunks + [c];
    forall k | 0 < k < |cs| ensures Parted(cs[k - 1], cs[k]) && NoRoom(cs[k - 1], cs[k]) {
      if k < |chunks| {
        assert Parted(chunks[k - 1], chunks[k]) && NoRoom(chunks[k - 1], chunks[k]);
      }
    }
  }

  lemma Close(ops: seq<ClientOp>, i: int, chunks: seq<seq<ClientOp>>, current: seq<ClientOp>)
    requires Progress(ops, i, chunks, current) && current != []
    ensures Joined(chunks + [current]) && Tight(chunks + [current]) && Flatten(chunks + [current]) == ops[..i]
  {
    FlattenSnoc(chunks, current);
    JoinSnoc(chunks, current);
  }

  /** What precedes a unit ends where the unit's run does not reach. */
  lemma LastParts(ops: seq<ClientOp>, i: nat, end: nat, before: seq<ClientOp>)
    requires i < end <= |ops| && |before| <= i && before == ops[i - |before|..i]
    requires i == 0 || !SameRun(ops[i - 1], ops[i])
    ensures Parted(before, ops[i..end])
  {
    if before != [] {
      assert before[|before| - 1] == ops[i - 1] && ops[i..end][0] == ops[i];
    }
  }

  lemma Suffix(u: seq<ClientOp>, v: seq<ClientOp>, ops: seq<ClientOp>, i: nat)
    requires i <= |ops| && u + v == ops[..i]
    ensures |v| <= i && v == ops[i - |v|..i]
  {
    assert v == (u + v)[|u|..] == ops[..i][|u|..];
  }

  lemma {:induction false} LastOf(chunks: seq<seq<ClientOp>>, ops: seq<ClientOp>, i: nat)
    requires i <= |ops| && Flatten(chunks) == ops[..i] && chunks != []
    ensures var c := chunks[|chunks| - 1]; |c| <= i && c == ops[i - |c|..i]
  {
    var init, c := chunks[..|chunks| - 1], chunks[|chunks| - 1];
    assert chunks == init + [c];
    FlattenSnoc(init, c);
    Suffix(Flatten(init), c, ops, i);
  }

  /** Reading one more unit `ops[i..end]` that fits. */
  lemma ReadUnit(ops: seq<ClientOp>, i: nat, end: nat, chunks: seq<seq<ClientOp>>, current: seq<ClientOp>)
    requires Progress(ops, i, chunks, current) && i < end <= |ops|
    requires OneRun(ops[i..end]) && (end == |ops| || !SameRun(ops[end - 1], ops[end]))
    requires |current| + end - i <= MAX_BATCH_SIZE
    ensures Progress(ops, end, chunks, current + ops[i..end])
  {
    var unit := ops[i..end];
    assert Flatten(chunks) + (current + unit) == ops[..i] + unit == ops[..end];
    if chunks != [] {
      if current == [] {
        assert [] + unit == unit;
        UnitAfterOversize(ops, i, end, chunks, unit);
      } else {
        Suffix(Flatten(chunks), current, ops, i);
        LastParts(ops, i, end, current);
        RunLengthGrows(current, unit);
      }
    }
  }

  /** After a closed chunk that is too large on its own, any unit starts a new one. */
  lemma UnitAfterOversize(ops: seq<ClientOp>, i: nat, end: nat, chunks: seq<seq<ClientOp>>, unit: seq<ClientOp>)
    requires Progress(ops, i, chunks, []) && i < end <= |ops| && chunks != [] && unit == ops[i..end]
    ensures Parted(chunks[|chunks| - 1], unit) && NoRoom(chunks[|chunks| - 1], unit)
  {
    assert Flatten(chunks) + [] == Flatten(chunks);
    LastOf(chunks, ops, i);
    LastParts(ops, i, end, chunks[|chunks| - 1]);
  }

  lemma WholeRun(unit: seq<ClientOp>)
    requires OneRun(unit) && unit != []
    ensures RunLength(unit) == |unit|
  {
    assert unit[..|unit|] == unit;
    RunLengthIs(unit, |unit|);
  }

  /** The chunk being filled, closed before a unit that does not fit. */
  lemma ClosedBefore(ops: seq<ClientOp>, i: nat, end: nat, chunks: seq<seq<ClientOp>>, current: seq<ClientOp>,
                     unit: seq<ClientOp>, cs: seq<seq<ClientOp>>)
    requires Progress(ops, i, chunks, current) && i < end <= |ops| && current != []
    requires unit == ops[i..end] && OneRun(unit) && |current| + |unit| > MAX_BATCH_SIZE && cs == chunks + [current]
    ensures Joined(cs) && Tight(cs) && Flatten(cs) + unit == ops[..end]
    ensures Parted(current, unit) && NoRoom(current, unit)
  {
    Close(ops, i, chunks, current);
    Suffix(Flatten(chunks), current, ops, i);
    LastParts(ops, i, end, current);
    WholeRun(unit);
    Extend(ops, i, end, unit);
  }

  lemma Extend(ops: seq<ClientOp>, i: nat, end: nat, unit: seq<ClientOp>)
    requires i <= end <= |ops| && unit == ops[i..end]
    ensures ops[..end] == ops[..i] + unit
  {
  }

  /** Closing the chunk being filled because the next unit does not fit, and starting the next with it. */
  lemma CloseAndRead(ops: seq<ClientOp>, i: nat, end: nat, chunks: seq<seq<ClientOp>>, current: seq<ClientOp>)
    requires Progress(ops, i, chunks, current) && i < end <= |ops| && current != []
    requires OneRun(ops[i..end]) && (end == |ops| || !SameRun(ops[end - 1], ops[end]))
    requires |current| + end - i > MAX_BATCH_SIZE
    ensures end - i <= MAX_BATCH_SIZE ==> Progress(ops, end, chunks + [current], ops[i..end])
    ensures end - i > MAX_BATCH_SIZE ==> Progress(ops, end, chunks + [current] + [ops[i..end]], [])
  {
    var unit, cs := ops[i..end], chunks + [current];
    ClosedBefore(ops, i, end, chunks, current, unit, cs);
    assert cs[|cs| - 1] == current;
    if |unit| > MAX_BATCH_SIZE {
      AddOversize(ops, end, cs, unit);
    }
  }

  lemma AddOversize(ops: seq<ClientOp>, end: nat, cs: seq<seq<ClientOp>>, unit: seq<ClientOp>)
    requires end <= |ops| && (end == |ops| || end == 0 || !SameRun(ops[end - 1], ops[end]))
    requires Joined(cs) && Tight(cs) && OneRun(unit) && |unit| > MAX_BATCH_SIZE && Flatten(cs) + unit == ops[..end]
    requires cs != [] ==> Parted(cs[|cs| - 1], unit)
    ensures Progress(ops, end, cs + [unit], [])
  {
    FlattenSnoc(cs, unit);
    assert Flatten(cs + [unit]) + [] == Flatten(cs + [unit]);
    assert unit[..|unit|] == unit;
    RunLengthIs(unit, |unit|);
    JoinSnoc(cs, unit);
  }

  /** An oversize run with nothing being filled before it. */
  lemma OversizeAlone(ops: seq<ClientOp>, i: nat, end: nat, chunks: seq<seq<ClientOp>>)
    requires Progress(ops, i, chunks, []) && i < end <= |ops| && end - i > MAX_BATCH_SIZE
    requires OneRun(ops[i..end]) && (end == |ops| || !SameRun(ops[end - 1], ops[end]))
    ensures Progress(ops, end, chunks + [ops[i..end]], [])
  {
    assert Flatten(chunks) + [] == Flatten(chunks);
    assert Flatten(chunks) + ops[i..end] == ops[..end];
    if chunks != [] {
      LastOf(chunks, ops, i);
      LastParts(ops, i, end, chunks[|chunks| - 1]);
    }
    AddOversize(ops, end, chunks, ops[i..end]);
  }

  /** Everything read: the chunks, and the one being filled if there is one, are the fewest possible. */
  lemma Finish(ops: seq<ClientOp>, chunks: seq<seq<ClientOp>>, current: seq<ClientOp>)
    requires Progress(ops, |ops|, chunks, current)
    ensures var all := if |current| > 0 then chunks + [current] else chunks;
            Split(ops, all) && Tight(all) && forall other :: Split(ops, other) ==> |all| <= |other|
  {
    var all := if |current| > 0 then chunks + [current] else chunks;
    assert ops[..|ops|] == ops;
    if |current| > 0 {
      Close(ops, |ops|, chunks, current);
    } else {
      assert Flatten(chunks) + [] == Flatten(chunks);
    }
    forall other | Split(ops, other) ensures |all| <= |other| {
      TightIsFewest(ops, all, other);
    }
  }

  /** Where the batch run starting at `i` ends. */
  method EndOfRun(ops: seq<ClientOp>, i: nat) returns (end: nat)
    requires i < |ops| && Batched(ops[i])
    ensures i < end <= |ops| && OneRun(ops[i..end]) && (end == |ops| || !SameRun(ops[end - 1], ops[end]))
  {
    end := i + 1;
    while end < |ops| && ops[end].batchId == ops[i].batchId
      invariant i < end <= |ops| && forall k :: i <= k < end ==> ops[k].batchId == ops[i].batchId
    {
      end := end + 1;
    }
  }

  /** A batch run joins the chunk being filled if it fits, starts the next if not, and goes alone if it never could. */
  method AddRun(ops: seq<ClientOp>, i: nat, end: nat, chunks0: seq<seq<ClientOp>>, current0: seq<ClientOp>)
    returns (chunks: seq<seq<ClientOp>>, current: seq<ClientOp>)
    requires Progress(ops, i, chunks0, current0) && i < end <= |ops|
    requires OneRun(ops[i..end]) && (end == |ops| || !SameRun(ops[end - 1], ops[end]))
    ensures Progress(ops, end, chunks, current)
  {
    chunks, current := chunks0, current0;
    var batchOps := ops[i..end];
    if |batchOps| > MAX_BATCH_SIZE {
      if |current| > 0 {
        CloseAndRead(ops, i, end, chunks, current);
        chunks := chunks + [current];
        current := [];
      } else {
        OversizeAlone(ops, i, end, chunks);
      }
      chunks := chunks + [batchOps];
    } else if |current| + |batchOps| > MAX_BATCH_SIZE {
      CloseAndRead(ops, i, end, chunks, current);
      chunks := chunks + [current];
      current := batchOps;
    } else {
      ReadUnit(ops, i, end, chunks, current);
      current := current + batchOps;
    }
  }

  /** An operation outside any batch joins the chunk being filled, or starts the next. */
  method AddOne(ops: seq<ClientOp>, i: nat, ghost end: nat, chunks0: seq<seq<ClientOp>>, current0: seq<ClientOp>)
    returns (chunks: seq<seq<ClientOp>>, current: seq<ClientOp>)
    requires Progress(ops, i, chunks0, current0) && i < end <= |ops| && end == i + 1
    requires end == |ops| || !SameRun(ops[i], ops[end])
    ensures Progress(ops, end, chunks, current)
  {
    chunks, current := chunks0, current0;
    assert ops[i..end] == [ops[i]];
    if |current| + 1 > MAX_BATCH_SIZE {
      CloseAndRead(ops, i, end, chunks, current);
      chunks := chunks + [current];
      current := [ops[i]];
    } else {
      ReadUnit(ops, i, end, chunks, current);
      current := current + [ops[i]];
    }
  }

  /** The chunks `doPush` sends: a split of the pending operations into the fewest messages. */
  method Chunk(ops: seq<ClientOp>) returns (chunks: seq<seq<ClientOp>>)
    ensures Split(ops, chunks) && Tight(chunks)
    ensures forall other :: Split(ops, other) ==> |chunks| <= |other|
  {
    chunks := [];
    var current: seq<ClientOp> := [];
    var i := 0;
    while i < |ops|
      invariant Progress(ops, i, chunks, current)
      decreases |ops| - i
    {
      if Batched(ops[i]) {
        var end := EndOfRun(ops, i);
        chunks, current := AddRun(ops, i, end, chunks, current);
        i := end;
      } else {
        ghost var end := i + 1;
        chunks, current := AddOne(ops, i, end, chunks, current);
        i := i + 1;
      }
    }
    Finish(ops, chunks, current);
    if |current| > 0 {
      chunks := chunks + [current];
    }
  }
}
