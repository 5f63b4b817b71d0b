/**
 * `diffText` itself (src/core/text.ts), over its frontier arrays and stored trace, computing `Diff`.
 * The search, the walk back and the folding, nested in `diffText`, are a method each.
 */
module DiffArrays {
  import opened EditDistance
  import opened Hunks
  import opened Myers
  import opened Strings
  import opened TextDiff

  /** The array holds round `d` of the frontier, diagonal `k` at `offset + k`. */
  ghost predicate Recorded(p: string, q: string, row: seq<int>, offset: nat, d: int)
  {
    && |row| == 2 * offset + 1 && d < offset
    && (forall i: nat, j: nat :: i + j == d ==> row[offset + i - j] == Furthest(p, q, i, j))
  }

  /** What a round reads from the row before to decide how to enter diagonal `k`. */
  ghost predicate RowDown(row: seq<int>, offset: nat, d: int, k: int)
    requires |row| == 2 * offset + 1 && -d <= k <= d < offset
  {
    k + d == 0 || (k != d && row[offset + k - 1] < row[offset + k + 1])
  }

  /** The row before decides as the frontier does, and holds the cell to come from. */
  lemma RowDecides(p: string, q: string, row: seq<int>, offset: nat, d: int, dels: nat, ins: nat, k: int, down: bool, at: int)
    requires d > 0 && dels + ins == d && Recorded(p, q, row, offset, d - 1) && d < offset && k == dels - ins
    requires down == RowDown(row, offset, d, k) && at == offset + if down then k + 1 else k - 1
    ensures down == Down(p, q, dels, ins) && 0 <= at < |row|
    ensures row[at] == if down then Furthest(p, q, dels, ins - 1) else Furthest(p, q, dels - 1, ins)
  {
    assert ins > 0 ==> row[offset + k + 1] == Furthest(p, q, dels, ins - 1);
    assert dels > 0 ==> row[offset + k - 1] == Furthest(p, q, dels - 1, ins);
  }

  /** Follow equal characters from `(x0, y0)`. */
  method Follow(a: string, b: string, head: nat, n: nat, m: nat, x0: nat, y0: nat, ghost p: string, ghost q: string)
    returns (x: int)
    requires Window(a, head, p) && Window(b, head, q) && n == |p| && m == |q|
    ensures x == Slide(p, q, x0, y0)
  {
    x := x0;
    var y := y0;
    while x < n && y < m && a[head + x] == b[head + y]
      invariant x0 <= x && y == y0 + x - x0
      invariant Slide(p, q, x, y) == Slide(p, q, x0, y0)
    {
      WindowAt(a, head, p, x);
      WindowAt(b, head, q, y);
      x := x + 1;
      y := y + 1;
    }
  }

  /** From where a cell is entered, equal characters lead to the frontier. */
  lemma EntryIs(p: string, q: string, dels: nat, ins: nat, x: int, y: int)
    requires if dels + ins == 0 then x == 0 else x == Entry(p, q, dels, ins)
    requires y == x - (dels - ins)
    ensures x >= 0 && y >= 0 && Slide(p, q, x, y) == Furthest(p, q, dels, ins)
  {
  }

  /** One cell of a round: choose how to enter diagonal `k`, then follow equal characters. */
  method Cell(a: string, b: string, head: nat, n: nat, m: nat, v: array<int>, offset: nat, d: int, k: int,
              ghost p: string, ghost q: string, ghost dels: nat, ghost ins: nat)
    returns (x: int)
    requires Window(a, head, p) && Window(b, head, q) && n == |p| && m == |q|
    requires dels + ins == d && dels - ins == k && d < offset && v.Length == 2 * offset + 1
    requires if d == 0 then v[offset + 1] == 0
             else Recorded(p, q, v[..], offset, d - 1)
    ensures x == Furthest(p, q, dels, ins)
  {
    var down := k + d == 0 || (k != d && v[offset + k - 1] < v[offset + k + 1]);
    var at := offset + if down then k + 1 else k - 1;
    if d > 0 {
      RowDecides(p, q, v[..], offset, d, dels, ins, k, down, at);
    }
    x := if down then v[at] else v[at] + 1;
    var y := x - k;
    EntryIs(p, q, dels, ins, x, y);
    x := Follow(a, b, head, n, m, x, y, p, q);
  }

  /** No round before `d` went past both ends. */
  ghost predicate NoHitBefore(p: string, q: string, d: int)
  {
    forall i: nat, j: nat :: i + j < d ==> !Hit(p, q, i, j)
  }

  /** The cells of round `d` with fewer than `dels` deletions are recorded, and none of them is a hit. */
  ghost predicate RecordedBelow(p: string, q: string, row: seq<int>, offset: nat, d: nat, dels: nat)
  {
    && |row| == 2 * offset + 1 && d < offset
    && forall i: nat, j: nat :: i + j == d && i < dels ==> row[offset + i - j] == Furthest(p, q, i, j) && !Hit(p, q, i, j)
  }

  lemma OneMoreRecorded(p: string, q: string, row: seq<int>, offset: nat, d: nat, dels: nat, ins: nat, at: nat, next: nat, row': seq<int>)
    requires RecordedBelow(p, q, row, offset, d, dels) && dels + ins == d && at == offset + dels - ins && next == dels + 1
    requires row' == row[at := Furthest(p, q, dels, ins)] && !Hit(p, q, dels, ins)
    ensures RecordedBelow(p, q, row', offset, d, next)
  {
  }

  lemma AllRecorded(p: string, q: string, row: seq<int>, offset: nat, d: nat, dels: nat)
    requires RecordedBelow(p, q, row, offset, d, dels) && dels > d && NoHitBefore(p, q, d)
    ensures Recorded(p, q, row, offset, d) && NoHitBefore(p, q, d + 1)
  {
  }

  /** One round of the search: the next frontier, or a hit. */
  method Round(a: string, b: string, head: nat, n: nat, m: nat, v: array<int>, offset: nat, d: nat,
               ghost p: string, ghost q: string)
    returns (next: array<int>, hit: bool)
    requires Window(a, head, p) && Window(b, head, q) && n == |p| && m == |q|
    requires d < offset && v.Length == 2 * offset + 1 && NoHitBefore(p, q, d)
    requires if d == 0 then v[offset + 1] == 0
             else Recorded(p, q, v[..], offset, d - 1)
    ensures fresh(next) && next.Length == v.Length
    ensures hit ==> d == Distance(p, q)
    ensures !hit ==> NoHitBefore(p, q, d + 1) && Recorded(p, q, next[..], offset, d)
  {
    next := new int[v.Length];
    forall i | 0 <= i < v.Length { next[i] := v[i]; }
    hit := false;
    ghost var dels: nat := 0;
    var k := 0 - d;
    while k <= d
      invariant k == 2 * dels - d && dels <= d + 1
      invariant RecordedBelow(p, q, next[..], offset, d, dels)
    {
      ghost var ins, row := d - dels, next[..];
      var x := Cell(a, b, head, n, m, v, offset, d, k, p, q, dels, ins);
      var at := offset + k;
      next[at] := x;
      if x >= n && x - k >= m {
        hit := true;
        FirstHitIsTheCorner(p, q, d, dels, ins);
        return;
      }
      OneMoreRecorded(p, q, row, offset, d, dels, ins, at, dels + 1, next[..]);
      k := k + 2;
      dels := dels + 1;
    }
    AllRecorded(p, q, next[..], offset, d, dels);
  }

  method Search(a: string, b: string, head: nat, n: nat, m: nat, limit: nat, ghost p: string, ghost q: string)
    returns (found: int, trace: seq<seq<int>>)
    requires Window(a, head, p) && Window(b, head, q) && n == |p| && m == |q|
    ensures found == (if Distance(p, q) <= limit then Distance(p, q) else -1)
    ensures |trace| > found && forall e :: 1 <= e <= found ==> Recorded(p, q, trace[e], limit + 1, e - 1)
  {
    var offset := limit + 1;
    var v := new int[2 * limit + 3](_ => 0);
    trace := [];
    found := -1;
    var d := 0;
    while d <= limit && found < 0
      invariant 0 <= d <= limit + 1 && |trace| == d && v.Length == 2 * offset + 1
      invariant found < 0 ==>
        && found == -1 && NoHitBefore(p, q, d)
        && (if d == 0 then v[offset + 1] == 0 else Recorded(p, q, v[..], offset, d - 1))
      invariant found >= 0 ==> found == d - 1 == Distance(p, q)
      invariant forall e :: 1 <= e < d ==> Recorded(p, q, trace[e], offset, e - 1)
    {
      trace := trace + [v[..]];
      var next, hit := Round(a, b, head, n, m, v, offset, d, p, q);
      if hit {
        found := d;
      }
      v := next;
      d := d + 1;
    }
    if found < 0 {
      DistanceHits(p, q);
    }
  }

  ghost function Reversed(edits: seq<Edit>): seq<Edit>
  {
    if edits == [] then [] else [edits[|edits| - 1]] + Reversed(edits[..|edits| - 1])
  }

  lemma CornerStands(p: string, q: string)
    ensures CornerDels(p, q) + CornerIns(p, q) == Distance(p, q) && CornerDels(p, q) - CornerIns(p, q) == |p| - |q|
  {
    DistanceHits(p, q);
  }

  /** One step back: what the stored round says the last edit into diagonal `k` was. */
  method StepBack(prev: seq<int>, offset: nat, d: int, k: int, ghost p: string, ghost q: string,
                  ghost dels: nat, ghost ins: nat)
    returns (e: Edit, ghost dels': nat, ghost ins': nat)
    requires d > 0 && d == dels + ins < offset && k == dels - ins && Recorded(p, q, prev, offset, d - 1)
    ensures dels' + ins' == d - 1
    ensures e.x == Furthest(p, q, dels', ins') && e.y == e.x - dels' + ins'
    ensures Path(p, q, dels, ins) == Path(p, q, dels', ins') + [e]
  {
    ghost var last;
    last, dels', ins' := LastEdit(p, q, dels, ins);
    var down := k + d == 0 || (k != d && prev[offset + k - 1] < prev[offset + k + 1]);
    var prevK := if down then k + 1 else k - 1;
    var at := offset + prevK;
    RowDecides(p, q, prev, offset, d, dels, ins, k, down, at);
    var prevX := prev[at];
    var prevY := prevX - prevK;
    assert prevX == Furthest(p, q, dels', ins') && prevK == dels' - ins';
    assert prevX == last.x && prevY == last.y;
    e := if down then Ins(prevX, prevY) else Del(prevX, prevY);
  }

  /** Recover the path from the corner back through the stored rounds. */
  method WalkBack(n: nat, m: nat, found: nat, trace: seq<seq<int>>, offset: nat, ghost p: string, ghost q: string)
    returns (edits: seq<Edit>)
    requires n == |p| && m == |q| && found == Distance(p, q) < offset && |trace| > found
    requires forall e :: 1 <= e <= found ==> Recorded(p, q, trace[e], offset, e - 1)
    ensures edits == Path(p, q, CornerDels(p, q), CornerIns(p, q))
  {
    CornerStands(p, q);
    edits := [];
    var x: int, y: int, d := n, m, found;
    ghost var dels: nat, ins: nat := CornerDels(p, q), CornerIns(p, q);
    ghost var path := Path(p, q, dels, ins);
    ghost var whole := path;
    while d > 0
      invariant d == dels + ins <= found && x - y == dels - ins
      invariant path == Path(p, q, dels, ins) && path + Reversed(edits) == whole
    {
      var e, dels', ins' := StepBack(trace[d], offset, d, x - y, p, q, dels, ins);
      PushReversed(Path(p, q, dels', ins'), e, edits);
      edits := edits + [e];
      x, y, d := e.x, e.y, d - 1;
      dels, ins := dels', ins';
      path := Path(p, q, dels, ins);
    }
    edits := Reverse(edits);
  }

  lemma PushReversed(path: seq<Edit>, e: Edit, edits: seq<Edit>)
    ensures path + [e] + Reversed(edits) == path + Reversed(edits + [e])
  {
    assert (edits + [e])[..|edits|] == edits;
  }

  method Reverse(s: seq<Edit>) returns (r: seq<Edit>)
    ensures r == Reversed(s)
  {
    r := [];
    for i := 0 to |s|
      invariant r == Reversed(s[..i])
    {
      assert s[..i + 1][..i] == s[..i];
      r := [s[i]] + r;
    }
    assert s[..|s|] == s;
  }

  /** Join neighbouring edits to hunks. */
  method FoldEdits(b: string, head: nat, edits: seq<Edit>) returns (hunks: seq<Hunk>)
    ensures hunks == Closed(Fold(b, head, edits))
  {
    hunks := [];
    var cur, any := Hunk(0, 0, ""), false;
    for i := 0 to |edits|
      invariant Fold(b, head, edits[..i]) == if any then Open(hunks, cur) else Folding.Empty
      invariant !any ==> hunks == []
    {
      assert edits[..i + 1][..i] == edits[..i];
      var e := edits[i];
      var at := head + e.x;
      if !any || cur.end != at {
        if any {
          hunks := hunks + [cur];
        }
        cur, any := Hunk(at, at, ""), true;
      }
      if e.Del? {
        cur := cur.(end := at + 1);
      } else {
        cur := cur.(insert := cur.insert + CharAt(b, head + e.y));
      }
    }
    assert edits[..|edits|] == edits;
    if any {
      hunks := hunks + [cur];
    }
  }

  /** Everything after trimming: whole-middle hunk, or search, walk back and fold. */
  method DiffMiddle(a: string, b: string, head: nat, n: nat, m: nat, ghost p: string, ghost q: string)
    returns (hunks: seq<Hunk>)
    requires Window(a, head, p) && Window(b, head, q) && n == |p| && m == |q|
    ensures hunks == MiddleHunks(b, head, p, q)
  {
    hunks := [Hunk(head, head + n, b[head..head + m])];
    if n == 0 || m == 0 {
      return;
    }
    var limit := if n + m < MAX_EDITS then n + m else MAX_EDITS;
    var found, trace := Search(a, b, head, n, m, limit, p, q);
    if found < 0 {
      return;
    }
    var edits := WalkBack(n, m, found, trace, limit + 1, p, q);
    hunks := FoldEdits(b, head, edits);
  }

  method HeadLength(a: string, b: string) returns (head: nat)
    ensures head == CommonHead(a, b, 0)
  {
    head := 0;
    var max := if |a| < |b| then |a| else |b|;
    while head < max && a[head] == b[head]
      invariant head <= max && a[..head] == b[..head]
      invariant CommonHead(a, b, head) == CommonHead(a, b, 0)
    {
      head := head + 1;
    }
  }

  method TailLength(a: string, b: string, head: nat) returns (tail: nat)
    requires head <= |a| && head <= |b|
    ensures tail == CommonTail(a, b, head, 0)
  {
    tail := 0;
    var max := if |a| < |b| then |a| else |b|;
    ghost var goal := CommonTail(a, b, head, 0);
    while tail < max - head && a[|a| - 1 - tail] == b[|b| - 1 - tail]
      invariant head + tail <= max && SameTail(a, b, tail)
      invariant CommonTail(a, b, head, tail) == goal
    {
      TailStep(a, b, head, tail, tail + 1);
      tail := tail + 1;
    }
  }

  method DiffText(a: string, b: string) returns (hunks: seq<Hunk>)
    ensures hunks == Diff(a, b)
  {
    if a == b {
      return [];
    }
    var head := HeadLength(a, b);
    var tail := TailLength(a, b, head);
    ghost var t := Trim(a, b);
    hunks := DiffMiddle(a, b, head, |a| - head - tail, |b| - head - tail, t.p, t.q);
  }
}
