/** Three-way text merge (src/core/text.ts, `merge3`). */
module Merge3 {
  import opened DiffArrays
  import opened Hunks
  import opened Options
  import opened TextDiff

  /** One step of the merge: the stretch of base it replaces, and what each side typed there. */
  datatype Merged = Merged(start: int, end: int, ours: Option<string>, theirs: Option<string>) {

    /** Ours first; an insert both sides made identically lands once. */
    function Text(): string
    {
      (if ours.Some? then ours.value else "") + (if theirs.Some? && theirs != ours then theirs.value else "")
    }

    function ToHunk(): Hunk
    {
      Hunk(start, end, Text())
    }
  }

  /** The two changes touch: they start together or share a base position. */
  predicate Overlap(x: Hunk, y: Hunk)
  {
    x.start == y.start || (x.start < y.end && y.start < x.end)
  }

  function Ours(x: Hunk): Merged { Merged(x.start, x.end, Some(x.insert), None) }

  function Theirs(y: Hunk): Merged { Merged(y.start, y.end, None, Some(y.insert)) }

  function Both(x: Hunk, y: Hunk): Merged
  {
    Merged(if x.start < y.start then x.start else y.start, if x.end < y.end then y.end else x.end,
           Some(x.insert), Some(y.insert))
  }

  /** The steps of the merge loop over the two hunk lists. */
  function Combine(a: seq<Hunk>, b: seq<Hunk>): seq<Merged>
    decreases |a| + |b|
  {
    if a == [] && b == [] then []
    else if a != [] && b != [] && Overlap(a[0], b[0]) then [Both(a[0], b[0])] + Combine(a[1..], b[1..])
    else if b == [] || (a != [] && a[0].start <= b[0].start) then [Ours(a[0])] + Combine(a[1..], b)
    else [Theirs(b[0])] + Combine(a, b[1..])
  }

  function ToHunks(steps: seq<Merged>): seq<Hunk>
  {
    if steps == [] then [] else [steps[0].ToHunk()] + ToHunks(steps[1..])
  }

  /** What the merge loop writes. */
  function MergeHunks(base: string, a: seq<Hunk>, b: seq<Hunk>): string
  {
    Apply(base, ToHunks(Combine(a, b)))
  }

  /** What `merge3` returns, early returns included; `MergeText` below computes it. */
  ghost function Merge(base: string, ours: string, theirs: string): string
  {
    if ours == theirs || theirs == base then ours
    else if ours == base then theirs
    else MergeHunks(base, Diff(base, ours), Diff(base, theirs))
  }

  method MergeText(base: string, ours: string, theirs: string) returns (out: string)
    ensures out == Merge(base, ours, theirs)
  {
    if ours == theirs || theirs == base {
      return ours;
    }
    if ours == base {
      return theirs;
    }
    var a := DiffText(base, ours);
    var b := DiffText(base, theirs);
    out := MergeLoop(base, a, b);
  }

  /** Writing the first step leaves the rest to be written. */
  lemma StepWritten(out: string, base: string, steps: seq<Merged>, pos: int, step: Merged, piece: string, pos': int)
    requires steps != [] && step == steps[0] && pos' == step.end
    requires piece == Slice(base, pos, step.start) + step.Text()
    ensures out + ApplyFrom(base, ToHunks(steps), pos) == out + piece + ApplyFrom(base, ToHunks(steps[1..]), pos')
  {
    var r := ApplyFrom(base, ToHunks(steps[1..]), pos');
    assert ToHunks(steps)[1..] == ToHunks(steps[1..]);
    assert out + (piece + r) == out + piece + r;
  }

  /** What the loop does at `i` and `j` is the first step of combining what is left. */
  lemma CombineStep(a: seq<Hunk>, b: seq<Hunk>, i: nat, j: nat, step: Merged, i': nat, j': nat)
    requires i <= |a| && j <= |b| && (i < |a| || j < |b|)
    requires var ours := j == |b| || (i < |a| && a[i].start <= b[j].start);
             if i < |a| && j < |b| && Overlap(a[i], b[j]) then step == Both(a[i], b[j]) && i' == i + 1 && j' == j + 1
             else if ours then step == Ours(a[i]) && i' == i + 1 && j' == j
             else step == Theirs(b[j]) && i' == i && j' == j + 1
    ensures Combine(a[i..], b[j..]) == [step] + Combine(a[i'..], b[j'..])
  {
    assert i < |a| ==> a[i..][0] == a[i] && a[i..][1..] == a[i + 1..];
    assert j < |b| ==> b[j..][0] == b[j] && b[j..][1..] == b[j + 1..];
  }

  method MergeLoop(base: string, a: seq<Hunk>, b: seq<Hunk>) returns (out: string)
    ensures out == MergeHunks(base, a, b)
  {
    var i, j, pos := 0, 0, 0;
    out := "";
    ghost var steps := Combine(a, b);
    while i < |a| || j < |b|
      invariant 0 <= i <= |a| && 0 <= j <= |b| && steps == Combine(a[i..], b[j..])
      invariant out + ApplyFrom(base, ToHunks(steps), pos) == MergeHunks(base, a, b)
      decreases |a| - i + |b| - j
    {
      ghost var step, from, i0, j0 := Both(Hunk(0, 0, ""), Hunk(0, 0, "")), pos, i, j;
      var piece;
      if i < |a| && j < |b| && Overlap(a[i], b[j]) {
        var start := if a[i].start < b[j].start then a[i].start else b[j].start;
        var text := a[i].insert + if a[i].insert == b[j].insert then "" else b[j].insert;
        piece := Slice(base, pos, start) + text;
        pos := if a[i].end < b[j].end then b[j].end else a[i].end;
        step := Both(a[i], b[j]);
        assert step.start == start && step.Text() == text;
        i, j := i + 1, j + 1;
      } else {
        var ours := j == |b| || (i < |a| && a[i].start <= b[j].start);
        var first := if ours then a[i] else b[j];
        piece := Slice(base, pos, first.start) + first.insert;
        pos := first.end;
        step := if ours then Ours(first) else Theirs(first);
        assert step.start == first.start && step.Text() == first.insert;
        if ours { i := i + 1; } else { j := j + 1; }
      }
      CombineStep(a, b, i0, j0, step, i, j);
      StepWritten(out, base, steps, from, step, piece, pos);
      out := out + piece;
      steps := steps[1..];
    }
    out := out + Slice(base, pos, |base|);
  }

  /** The first hunk of the merge, and the merge of what is left. */
  lemma CombineSplit(a: seq<Hunk>, b: seq<Hunk>)
    requires a != [] || b != []
    ensures var hs := ToHunks(Combine(a, b));
            if a != [] && b != [] && Overlap(a[0], b[0]) then
              hs != [] && hs[0] == Both(a[0], b[0]).ToHunk() && hs[1..] == ToHunks(Combine(a[1..], b[1..]))
            else if b == [] || (a != [] && a[0].start <= b[0].start) then
              hs != [] && hs[0] == a[0] && hs[1..] == ToHunks(Combine(a[1..], b))
            else
              hs != [] && hs[0] == b[0] && hs[1..] == ToHunks(Combine(a, b[1..]))
  {
    var steps := Combine(a, b);
    var rest := if a != [] && b != [] && Overlap(a[0], b[0]) then Combine(a[1..], b[1..])
                else if b == [] || (a != [] && a[0].start <= b[0].start) then Combine(a[1..], b)
                else Combine(a, b[1..]);
    assert steps[1..] == rest;
  }

  // ---- The early returns change nothing

  lemma {:induction false} CombineWithNothing(a: seq<Hunk>)
    ensures ToHunks(Combine(a, [])) == a && ToHunks(Combine([], a)) == a
  {
    if a != [] {
      CombineWithNothing(a[1..]);
      CombineSplit(a, []);
      CombineSplit([], a);
    }
  }

  lemma {:induction false} CombineWithItself(a: seq<Hunk>)
    ensures ToHunks(Combine(a, a)) == a
  {
    if a != [] {
      CombineWithItself(a[1..]);
      CombineSplit(a, a);
      assert Both(a[0], a[0]).ToHunk() == a[0];
    }
  }

  /** `merge3` is its loop: on the inputs that return early, the loop would have written the same. */
  lemma MergeIsItsLoop(base: string, ours: string, theirs: string)
    ensures Merge(base, ours, theirs) == MergeHunks(base, Diff(base, ours), Diff(base, theirs))
  {
    DiffIsCorrect(base, ours);
    DiffIsCorrect(base, theirs);
    CombineWithNothing(Diff(base, ours));
    CombineWithNothing(Diff(base, theirs));
    CombineWithItself(Diff(base, ours));
  }

  // ---- Which base positions a hunk list keeps

  /** Position `p` is copied when the hunks are applied from `pos` on. */
  ghost predicate KeptFrom(hunks: seq<Hunk>, pos: int, len: nat, p: int)
  {
    if hunks == [] then pos <= p < len
    else pos <= p < hunks[0].start || KeptFrom(hunks[1..], hunks[0].end, len, p)
  }

  ghost predicate Deleted(hunks: seq<Hunk>, p: int)
  {
    exists i :: 0 <= i < |hunks| && hunks[i].start <= p < hunks[i].end
  }

  lemma DeletedFirst(hunks: seq<Hunk>, p: int)
    requires hunks != []
    ensures Deleted(hunks, p) <==> hunks[0].start <= p < hunks[0].end || Deleted(hunks[1..], p)
  {
    if Deleted(hunks[1..], p) {
      var i :| 0 <= i < |hunks[1..]| && hunks[1..][i].start <= p < hunks[1..][i].end;
      assert hunks[i + 1].start <= p < hunks[i + 1].end;
    }
    if Deleted(hunks, p) && !(hunks[0].start <= p < hunks[0].end) {
      var i :| 0 <= i < |hunks| && hunks[i].start <= p < hunks[i].end;
      assert hunks[1..][i - 1].start <= p < hunks[1..][i - 1].end;
    }
  }

  /** Whatever neither side deleted is still there, however the changes overlap. */
  lemma {:induction false} UntouchedIsKept(a: seq<Hunk>, b: seq<Hunk>, pos: int, len: nat, p: int)
    requires Separated(a, len) && Separated(b, len)
    requires pos <= p < len && !Deleted(a, p) && !Deleted(b, p)
    ensures KeptFrom(ToHunks(Combine(a, b)), pos, len, p)
    decreases |a| + |b|
  {
    if a == [] && b == [] {
    } else if a != [] && b != [] && Overlap(a[0], b[0]) {
      DeletedFirst(a, p);
      DeletedFirst(b, p);
      CombineSplit(a, b);
      if p >= Both(a[0], b[0]).start {
        UntouchedIsKept(a[1..], b[1..], Both(a[0], b[0]).end, len, p);
      }
    } else if b == [] || (a != [] && a[0].start <= b[0].start) {
      DeletedFirst(a, p);
      CombineSplit(a, b);
      if p >= a[0].start {
        UntouchedIsKept(a[1..], b, a[0].end, len, p);
      }
    } else {
      DeletedFirst(b, p);
      CombineSplit(a, b);
      if p >= b[0].start {
        UntouchedIsKept(a, b[1..], b[0].end, len, p);
      }
    }
  }

  // ---- Exactly when the merge deletes the union

  /**
   * The loop reaches its unpaired branch with a hunk that ends before where it left off, and so
   * moves backwards.
   */
  ghost predicate Rewinds(a: seq<Hunk>, b: seq<Hunk>, pos: int)
    decreases |a| + |b|
  {
    if a == [] && b == [] then false
    else if a != [] && b != [] && Overlap(a[0], b[0]) then Rewinds(a[1..], b[1..], Both(a[0], b[0]).end)
    else if b == [] || (a != [] && a[0].start <= b[0].start) then
      a[0].end < pos || Rewinds(a[1..], b, a[0].end)
    else
      b[0].end < pos || Rewinds(a, b[1..], b[0].end)
  }

  /** No hunk left on this side starts before `pos`. */
  ghost predicate Ahead(hunks: seq<Hunk>, pos: int)
  {
    hunks == [] || pos <= hunks[0].start
  }

  lemma AheadNotDeleted(hunks: seq<Hunk>, len: nat, p: int)
    requires Separated(hunks, len) && (hunks == [] || p < hunks[0].start)
    ensures !Deleted(hunks, p)
  {
  }

  /** Copied, and therefore deleted by neither side. */
  ghost predicate Spared(a: seq<Hunk>, b: seq<Hunk>, pos: int, p: int)
  {
    pos <= p && !Deleted(a, p) && !Deleted(b, p)
  }

  lemma SparedBefore(a: seq<Hunk>, b: seq<Hunk>, len: nat, pos: int, p: int, first: int)
    requires Separated(a, len) && Separated(b, len) && pos <= p < first && Ahead(a, first) && Ahead(b, first)
    ensures Spared(a, b, pos, p)
  {
    AheadNotDeleted(a, len, p);
    AheadNotDeleted(b, len, p);
  }

  lemma {:induction false} KeptIsNotDeleted(a: seq<Hunk>, b: seq<Hunk>, pos: int, len: nat, p: int)
    requires Separated(a, len) && Separated(b, len) && (Ahead(a, pos) || Ahead(b, pos))
    requires !Rewinds(a, b, pos) && KeptFrom(ToHunks(Combine(a, b)), pos, len, p)
    ensures Spared(a, b, pos, p)
    decreases |a| + |b|
  {
    if a != [] || b != [] {
      CombineSplit(a, b);
      var first := ToHunks(Combine(a, b))[0];
      if pos <= p < first.start {
        SparedBefore(a, b, len, pos, p, first.start);
      } else if a != [] && b != [] && Overlap(a[0], b[0]) {
        AheadRest(a, len);
        AheadRest(b, len);
        KeptIsNotDeleted(a[1..], b[1..], first.end, len, p);
        DeletedFirst(a, p);
        DeletedFirst(b, p);
      } else if b == [] || (a != [] && a[0].start <= b[0].start) {
        AheadRest(a, len);
        KeptIsNotDeleted(a[1..], b, first.end, len, p);
        DeletedFirst(a, p);
      } else {
        AheadRest(b, len);
        KeptIsNotDeleted(a, b[1..], first.end, len, p);
        DeletedFirst(b, p);
      }
    }
  }

  /** `p` is copied although it is deleted, or was before the loop came to these hunks. */
  ghost predicate Revived(a: seq<Hunk>, b: seq<Hunk>, lo: int, pos: int, len: nat, p: int)
  {
    (lo <= p < pos || Deleted(a, p) || Deleted(b, p)) && KeptFrom(ToHunks(Combine(a, b)), pos, len, p)
  }

  lemma PairRevives(a: seq<Hunk>, b: seq<Hunk>, lo: int, pos: int, len: nat, m: Merged, p: int)
    requires a != [] && b != [] && Overlap(a[0], b[0]) && m == Both(a[0], b[0])
    requires Revived(a[1..], b[1..], m.start, m.end, len, p)
    ensures Revived(a, b, lo, pos, len, p)
  {
    CombineSplit(a, b);
    DeletedFirst(a, p);
    DeletedFirst(b, p);
  }

  lemma OursRevives(a: seq<Hunk>, b: seq<Hunk>, lo: int, pos: int, len: nat, p: int)
    requires a != [] && (b == [] || (!Overlap(a[0], b[0]) && a[0].start <= b[0].start))
    requires Revived(a[1..], b, a[0].start, a[0].end, len, p)
    ensures Revived(a, b, lo, pos, len, p)
  {
    CombineSplit(a, b);
    DeletedFirst(a, p);
  }

  lemma TheirsRevives(a: seq<Hunk>, b: seq<Hunk>, lo: int, pos: int, len: nat, p: int)
    requires b != [] && (a == [] || (!Overlap(a[0], b[0]) && b[0].start < a[0].start))
    requires Revived(a, b[1..], b[0].start, b[0].end, len, p)
    ensures Revived(a, b, lo, pos, len, p)
  {
    CombineSplit(a, b);
    DeletedFirst(b, p);
  }

  lemma AheadRest(hunks: seq<Hunk>, len: nat)
    requires hunks != [] && Separated(hunks, len)
    ensures Separated(hunks[1..], len) && Ahead(hunks[1..], hunks[0].end)
    ensures 0 <= hunks[0].start <= hunks[0].end <= len
  {
  }

  /**
   * A loop that rewinds brings back a deleted position. Everything in `[lo, pos)` has been deleted
   * by hunks already consumed, and nothing left starts before `lo`.
   */
  lemma {:induction false} RewindRevives(a: seq<Hunk>, b: seq<Hunk>, lo: int, pos: int, len: nat) returns (p: int)
    requires Separated(a, len) && Separated(b, len) && Ahead(a, lo) && Ahead(b, lo)
    requires (Ahead(a, pos) || Ahead(b, pos)) && pos <= len && Rewinds(a, b, pos)
    ensures Revived(a, b, lo, pos, len, p)
    decreases |a| + |b|
  {
    if a != [] && b != [] && Overlap(a[0], b[0]) {
      var m := Both(a[0], b[0]);
      AheadRest(a, len);
      AheadRest(b, len);
      p := RewindRevives(a[1..], b[1..], m.start, m.end, len);
      PairRevives(a, b, lo, pos, len, m, p);
    } else if b == [] || (a != [] && a[0].start <= b[0].start) {
      AheadRest(a, len);
      if a[0].end < pos {
        p := a[0].end;
        KeptAfter(a, b, pos, len);
        CombineSplit(a, b);
      } else {
        p := RewindRevives(a[1..], b, a[0].start, a[0].end, len);
        OursRevives(a, b, lo, pos, len, p);
      }
    } else {
      AheadRest(b, len);
      if b[0].end < pos {
        p := b[0].end;
        KeptAfter(b, a, pos, len);
        CombineSplit(a, b);
      } else {
        p := RewindRevives(a, b[1..], b[0].start, b[0].end, len);
        TheirsRevives(a, b, lo, pos, len, p);
      }
    }
  }

  /** After moving back to the end of `a`'s first hunk, the position there is copied. */
  lemma KeptAfter(a: seq<Hunk>, b: seq<Hunk>, pos: int, len: nat)
    requires Separated(a, len) && Separated(b, len) && a != [] && a[0].end < pos <= len && Ahead(b, pos)
    ensures KeptFrom(ToHunks(Combine(a[1..], b)), a[0].end, len, a[0].end)
    ensures KeptFrom(ToHunks(Combine(b, a[1..])), a[0].end, len, a[0].end)
  {
    KeptNext(a[1..], b, a[0].end, len);
    KeptNext(b, a[1..], a[0].end, len);
  }

  lemma KeptNext(a: seq<Hunk>, b: seq<Hunk>, p: int, len: nat)
    requires Separated(a, len) && Separated(b, len) && p < len
    requires (a == [] || p < a[0].start) && (b == [] || p < b[0].start)
    ensures KeptFrom(ToHunks(Combine(a, b)), p, len, p)
  {
    if a != [] || b != [] {
      CombineSplit(a, b);
    }
  }

  /**
   * The merge keeps exactly the base positions neither side deleted if, and only if, its loop never
   * moves backwards.
   */
  lemma UnionExactlyWithoutRewind(a: seq<Hunk>, b: seq<Hunk>, len: nat)
    requires Separated(a, len) && Separated(b, len)
    ensures !Rewinds(a, b, 0) <==>
            forall p :: 0 <= p < len ==>
              (KeptFrom(ToHunks(Combine(a, b)), 0, len, p) <==> !Deleted(a, p) && !Deleted(b, p))
  {
    forall p | 0 <= p < len && !Deleted(a, p) && !Deleted(b, p)
      ensures KeptFrom(ToHunks(Combine(a, b)), 0, len, p)
    {
      UntouchedIsKept(a, b, 0, len, p);
    }
    if Rewinds(a, b, 0) {
      var p := RewindRevives(a, b, 0, 0, len);
    } else {
      forall p | 0 <= p < len && KeptFrom(ToHunks(Combine(a, b)), 0, len, p)
        ensures !Deleted(a, p) && !Deleted(b, p)
      {
        KeptIsNotDeleted(a, b, 0, len, p);
      }
    }
  }

  /** Each change touches at most one change of the other side. */
  ghost predicate AtMostOneOverlap(a: seq<Hunk>, b: seq<Hunk>)
  {
    && (forall i, i', j {:trigger Overlap(a[i], b[j]), Overlap(a[i'], b[j])} :: 0 <= i < i' < |a| && 0 <= j < |b|
             ==> !(Overlap(a[i], b[j]) && Overlap(a[i'], b[j])))
    && (forall i, j, j' {:trigger Overlap(a[i], b[j]), Overlap(a[i], b[j'])} :: 0 <= i < |a| && 0 <= j < j' < |b|
             ==> !(Overlap(a[i], b[j]) && Overlap(a[i], b[j'])))
  }

  lemma {:induction false} SingleOverlapsNeverRewind(a: seq<Hunk>, b: seq<Hunk>, pos: int, len: nat)
    requires Separated(a, len) && Separated(b, len) && Ahead(a, pos) && Ahead(b, pos)
    requires AtMostOneOverlap(a, b)
    ensures !Rewinds(a, b, pos)
    decreases |a| + |b|
  {
    if a == [] && b == [] {
    } else if a != [] && b != [] && Overlap(a[0], b[0]) {
      FewerOverlaps(a, b);
      assert |a| > 1 ==> !Overlap(a[1], b[0]) && a[0].end < a[1].start <= a[1].end;
      assert |b| > 1 ==> !Overlap(a[0], b[1]) && b[0].end < b[1].start <= b[1].end;
      SingleOverlapsNeverRewind(a[1..], b[1..], Both(a[0], b[0]).end, len);
    } else if b == [] || (a != [] && a[0].start <= b[0].start) {
      FewerOverlaps(a, b);
      assert |a| > 1 ==> a[0].end < a[1].start;
      SingleOverlapsNeverRewind(a[1..], b, a[0].end, len);
    } else {
      FewerOverlaps(a, b);
      assert |b| > 1 ==> b[0].end < b[1].start;
      SingleOverlapsNeverRewind(a, b[1..], b[0].end, len);
    }
  }

  lemma FewerOverlaps(a: seq<Hunk>, b: seq<Hunk>)
    requires AtMostOneOverlap(a, b)
    ensures a != [] ==> AtMostOneOverlap(a[1..], b)
    ensures b != [] ==> AtMostOneOverlap(a, b[1..])
    ensures a != [] && b != [] ==> AtMostOneOverlap(a[1..], b[1..])
  {
  }
}
