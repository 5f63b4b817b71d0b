/** `diffText` (src/core/text.ts): the path found by the search, folded into hunks. */
module TextDiff {
  import opened EditDistance
  import opened Hunks
  import opened Myers
  import opened Strings

  /** Past this many edits the middle becomes one hunk. */
  const MAX_EDITS: nat := 2000

  /** One edit of the path, at the point it leaves from. */
  datatype Edit = Del(x: nat, y: nat) | Ins(x: nat, y: nat)

  /** The edits of the path to a frontier cell, first to last. */
  ghost function Path(p: string, q: string, dels: nat, ins: nat): seq<Edit>
    decreases dels + ins
  {
    if dels + ins == 0 then []
    else if Down(p, q, dels, ins) then
      var x := Furthest(p, q, dels, ins - 1);
      Path(p, q, dels, ins - 1) + [Ins(x, x - dels + ins - 1)]
    else
      var x := Furthest(p, q, dels - 1, ins);
      Path(p, q, dels - 1, ins) + [Del(x, x - dels + 1 + ins)]
  }

  function CharAt(s: string, i: nat): string
  {
    if i < |s| then [s[i]] else ""
  }

  /** Hunks finished so far, and the one still being extended. */
  datatype Folding = Empty | Open(done: seq<Hunk>, cur: Hunk)

  function Closed(f: Folding): seq<Hunk>
  {
    if f.Empty? then [] else f.done + [f.cur]
  }

  /** The folding whose current hunk ends at `at`: a new empty one unless it already does. */
  function Reopen(f: Folding, at: nat): (r: Folding)
    ensures r.Open? && r.cur.end == at
  {
    if f.Empty? || f.cur.end != at then Open(Closed(f), Hunk(at, at, "")) else f
  }

  function Extend(b: string, head: nat, h: Hunk, e: Edit): Hunk
  {
    if e.Del? then h.(end := head + e.x + 1) else h.(insert := h.insert + CharAt(b, head + e.y))
  }

  /** An edit at the end of the current hunk extends it; anywhere else it opens a new one. */
  function AddEdit(b: string, head: nat, f: Folding, e: Edit): Folding
  {
    var r := Reopen(f, head + e.x);
    r.(cur := Extend(b, head, r.cur, e))
  }

  function Fold(b: string, head: nat, edits: seq<Edit>): Folding
  {
    if edits == [] then Empty
    else AddEdit(b, head, Fold(b, head, edits[..|edits| - 1]), edits[|edits| - 1])
  }

  function CommonHead(a: string, b: string, i: nat): (r: nat)
    requires i <= |a| && i <= |b| && a[..i] == b[..i]
    ensures i <= r <= |a| && r <= |b| && a[..r] == b[..r]
    decreases |a| - i
  {
    if i < |a| && i < |b| && a[i] == b[i] then
      assert a[..i + 1] == a[..i] + [a[i]] && b[..i + 1] == b[..i] + [b[i]];
      CommonHead(a, b, i + 1)
    else i
  }

  /** The last `t` characters are the same. */
  ghost predicate SameTail(a: string, b: string, t: nat)
  {
    t <= |a| && t <= |b| && a[|a| - t..] == b[|b| - t..]
  }

  lemma TailGrows(a: string, b: string, t: nat, t': nat)
    requires t' == t + 1 && t < |a| && t < |b| && SameTail(a, b, t) && a[|a| - 1 - t] == b[|b| - 1 - t]
    ensures SameTail(a, b, t')
  {
    assert a[|a| - (t + 1)..] == [a[|a| - 1 - t]] + a[|a| - t..];
    assert b[|b| - (t + 1)..] == [b[|b| - 1 - t]] + b[|b| - t..];
  }

  function CommonTail(a: string, b: string, head: nat, t: nat): (r: nat)
    requires head + t <= |a| && head + t <= |b| && SameTail(a, b, t)
    ensures t <= r && head + r <= |a| && head + r <= |b| && SameTail(a, b, r)
    decreases |a| - t
  {
    if head + t < |a| && head + t < |b| && a[|a| - 1 - t] == b[|b| - 1 - t] then
      TailGrows(a, b, t, t + 1);
      CommonTail(a, b, head, t + 1)
    else t
  }

  lemma TailStep(a: string, b: string, head: nat, t: nat, t': nat)
    requires t' == t + 1 && head + t < |a| && head + t < |b|
    requires SameTail(a, b, t) && a[|a| - 1 - t] == b[|b| - 1 - t]
    ensures SameTail(a, b, t') && CommonTail(a, b, head, t') == CommonTail(a, b, head, t)
  {
    TailGrows(a, b, t, t');
  }

  /** How much the texts have in common in front, and what is left of each before the common end. */
  datatype Ends = Ends(head: nat, p: string, q: string)

  function Trim(a: string, b: string): (t: Ends)
    ensures CommonEnds(a, b, t.head, t.p, t.q)
  {
    var head := CommonHead(a, b, 0);
    var tail := CommonTail(a, b, head, 0);
    Ends(head, a[head..|a| - tail], b[head..|b| - tail])
  }

  /** The shortest path's edits, folded. */
  ghost function CornerFolding(b: string, head: nat, p: string, q: string): Folding
  {
    Fold(b, head, Path(p, q, CornerDels(p, q), CornerIns(p, q)))
  }

  /** The hunks for what is left between the common ends: `p` became `q`. */
  ghost function MiddleHunks(b: string, head: nat, p: string, q: string): seq<Hunk>
  {
    if p == "" || q == "" || Distance(p, q) > Min(|p| + |q|, MAX_EDITS) then [Hunk(head, head + |p|, q)]
    else Closed(CornerFolding(b, head, p, q))
  }

  /** What `diffText` returns; `DiffText` below computes it. */
  ghost function Diff(a: string, b: string): seq<Hunk>
  {
    if a == b then []
    else
      var t := Trim(a, b);
      MiddleHunks(b, t.head, t.p, t.q)
  }

  // ---- The folded path spells the new text

  ghost function TextOf(a: string, f: Folding): string
  {
    if f.Empty? then "" else Written(a, f.done) + Slice(a, LeftOff(f.done), f.cur.start) + f.cur.insert
  }

  ghost function EndOf(f: Folding): int
  {
    if f.Empty? then 0 else f.cur.end
  }

  ghost predicate Tidy(f: Folding, len: nat)
  {
    f.Open? ==>
      && Separated(f.done, len)
      && 0 <= f.cur.start <= f.cur.end <= len
      && (f.done != [] ==> LeftOff(f.done) < f.cur.start)
  }

  lemma ClosedFolding(a: string, f: Folding)
    ensures LeftOff(Closed(f)) == EndOf(f)
    ensures Written(a, Closed(f)) == TextOf(a, f)
    ensures f.Open? ==> Cost(Closed(f)) == Cost(f.done) + f.cur.end - f.cur.start + |f.cur.insert|
  {
    if f.Open? {
      assert Closed(f)[..|f.done|] == f.done;
    }
  }

  lemma TidyIsSeparated(f: Folding, len: nat)
    requires Tidy(f, len)
    ensures Separated(Closed(f), len)
  {
    if f.Open? {
      SeparatedSnoc(f.done, f.cur, len);
    }
  }

  /** Where an edit arrives, and what it writes. */
  function After(e: Edit): (nat, nat)
  {
    if e.Del? then (e.x + 1, e.y) else (e.x, e.y + 1)
  }

  function Typed(b: string, head: nat, e: Edit): string
  {
    if e.Del? then "" else CharAt(b, head + e.y)
  }

  lemma ReopenText(a: string, f: Folding, at: nat)
    ensures TextOf(a, Reopen(f, at)) == TextOf(a, f) + Slice(a, EndOf(f), at)
  {
    if Reopen(f, at) != f {
      ClosedFolding(a, f);
      assert TextOf(a, f) + Slice(a, EndOf(f), at) + "" == TextOf(a, f) + Slice(a, EndOf(f), at);
    } else {
      assert TextOf(a, f) + "" == TextOf(a, f);
    }
  }

  lemma ExtendText(a: string, b: string, head: nat, f: Folding, e: Edit)
    requires f.Open?
    ensures TextOf(a, f.(cur := Extend(b, head, f.cur, e))) == TextOf(a, f) + Typed(b, head, e)
  {
    var front := Written(a, f.done) + Slice(a, LeftOff(f.done), f.cur.start);
    assert front + (f.cur.insert + Typed(b, head, e)) == front + f.cur.insert + Typed(b, head, e);
  }

  lemma AddEditText(a: string, b: string, head: nat, f: Folding, e: Edit, f': Folding, i: nat)
    requires f' == AddEdit(b, head, f, e) && i == head + e.x
    ensures TextOf(a, f') == TextOf(a, f) + Slice(a, EndOf(f), i) + Typed(b, head, e)
    ensures EndOf(f') == head + After(e).0
  {
    var r := Reopen(f, i);
    assert f' == r.(cur := Extend(b, head, r.cur, e));
    ReopenText(a, f, i);
    ExtendText(a, b, head, r, e);
  }

  lemma AddEditTidy(a: string, b: string, head: nat, f: Folding, e: Edit)
    requires Tidy(f, |a|) && 0 <= EndOf(f) <= head + e.x && head + After(e).0 <= |a|
    ensures Tidy(AddEdit(b, head, f, e), |a|)
  {
    TidyIsSeparated(f, |a|);
  }

  lemma AddEditCost(a: string, b: string, head: nat, f: Folding, e: Edit)
    requires head + After(e).1 <= |b|
    ensures Cost(Closed(AddEdit(b, head, f, e))) == Cost(Closed(f)) + 1
  {
    ClosedFolding(a, f);
    ClosedFolding(a, Reopen(f, head + e.x));
    ClosedFolding(a, AddEdit(b, head, f, e));
  }

  /** `text` and then `a` from `end` up to `i` is what `b` starts with, up to `j`. */
  ghost predicate Spells(a: string, b: string, text: string, end: int, i: int, j: int)
  {
    0 <= end <= i <= |a| && 0 <= j <= |b| && text + a[end..i] == b[..j]
  }

  lemma SpellsEdit(a: string, b: string, text: string, end: int, i: nat, j: nat, e: Edit, head: nat, len: nat,
                   text': string, end': int, j0: nat, i': nat, j': nat)
    requires Spells(a, b, text, end, i, j) && i == head + e.x && j == head + e.y
    requires end' == head + After(e).0 && i' == end' + len && j0 == head + After(e).1
    requires Match(a, b, end', j0, len) && j' == j0 + len
    requires text' == text + Slice(a, end, i) + Typed(b, head, e)
    ensures Spells(a, b, text', end', i', j')
  {
    assert b[..j0] == b[..j] + Typed(b, head, e);
    assert text' + a[end'..end'] == b[..j0];
    GrowPrefix(text', a, b, end', end', j0, len);
  }

  /** The edits, with runs of equal characters before, between and after them, lead from the start to `(x, y)`. */
  ghost predicate Walk(p: string, q: string, edits: seq<Edit>, x: nat, y: nat)
    requires x <= |p| && y <= |q|
  {
    if edits == [] then x == y && p[..x] == q[..y]
    else
      var e := edits[|edits| - 1];
      var (x', y') := After(e);
      && x' <= x && y' <= y && x - x' == y - y' && Match(p, q, x', y', x - x')
      && Walk(p, q, edits[..|edits| - 1], e.x, e.y)
  }

  lemma WalkExtends(p: string, q: string, edits: seq<Edit>, e: Edit, x: nat, y: nat)
    requires e.x <= |p| && e.y <= |q| && Walk(p, q, edits, e.x, e.y)
    requires x == Slide(p, q, After(e).0, After(e).1) <= |p| && y == After(e).1 + x - After(e).0 <= |q|
    ensures Walk(p, q, edits + [e], x, y)
  {
    SlideMatches(p, q, After(e).0, After(e).1);
    assert (edits + [e])[..|edits|] == edits;
  }

  lemma PathBelow(p: string, q: string, dels: nat, ins: nat) returns (e: Edit)
    requires dels + ins > 0 && Down(p, q, dels, ins)
    ensures ins > 0 && Path(p, q, dels, ins) == Path(p, q, dels, ins - 1) + [e]
    ensures e.x == Furthest(p, q, dels, ins - 1) && e.y == e.x - dels + ins - 1
    ensures Furthest(p, q, dels, ins) == Slide(p, q, After(e).0, After(e).1) >= After(e).0
    ensures After(e).0 - After(e).1 == dels - ins
  {
    var x := EnteredBelow(p, q, dels, ins);
    e := Ins(x, x - dels + ins - 1);
  }

  lemma PathRight(p: string, q: string, dels: nat, ins: nat) returns (e: Edit)
    requires dels + ins > 0 && !Down(p, q, dels, ins)
    ensures dels > 0 && Path(p, q, dels, ins) == Path(p, q, dels - 1, ins) + [e]
    ensures e.x == Furthest(p, q, dels - 1, ins) && e.y == e.x - dels + 1 + ins
    ensures Furthest(p, q, dels, ins) == Slide(p, q, After(e).0, After(e).1) >= After(e).0
    ensures After(e).0 - After(e).1 == dels - ins
  {
    var x := EnteredRight(p, q, dels, ins);
    e := Del(x, x - dels + 1 + ins);
  }

  /** A cell's last edit, the cell that edit came from, and where equal characters lead on from it. */
  lemma LastEdit(p: string, q: string, dels: nat, ins: nat) returns (e: Edit, dels': nat, ins': nat)
    requires 0 < dels + ins
    ensures e.Ins? == Down(p, q, dels, ins)
    ensures if e.Ins? then ins > 0 && dels' == dels && ins' == ins - 1 else dels > 0 && dels' == dels - 1 && ins' == ins
    ensures e.x == Furthest(p, q, dels', ins') && e.y == e.x - dels' + ins'
    ensures Path(p, q, dels, ins) == Path(p, q, dels', ins') + [e]
    ensures Furthest(p, q, dels, ins) == Slide(p, q, After(e).0, After(e).1) >= After(e).0
    ensures After(e).0 - After(e).1 == dels - ins
  {
    if Down(p, q, dels, ins) {
      e := PathBelow(p, q, dels, ins);
      dels', ins' := dels, ins - 1;
    } else {
      e := PathRight(p, q, dels, ins);
      dels', ins' := dels - 1, ins;
    }
  }

  lemma {:induction false} PathWalks(p: string, q: string, dels: nat, ins: nat, x: nat, y: nat, path: seq<Edit>)
    requires x == Furthest(p, q, dels, ins) <= |p| && y == x - dels + ins <= |q| && path == Path(p, q, dels, ins)
    ensures Walk(p, q, path, x, y) && |path| == dels + ins
    decreases dels + ins
  {
    if dels + ins == 0 {
      SlideMatches(p, q, 0, 0);
    } else {
      var e, dels', ins' := LastEdit(p, q, dels, ins);
      var init := Path(p, q, dels', ins');
      PathWalks(p, q, dels', ins', e.x, e.y, init);
      WalkExtends(p, q, init, e, x, y);
    }
  }

  lemma {:induction false} WalkTidy(a: string, b: string, head: nat, p: string, q: string, edits: seq<Edit>, x: nat, y: nat)
    requires head + |p| <= |a| && x <= |p| && y <= |q| && Walk(p, q, edits, x, y)
    ensures Tidy(Fold(b, head, edits), |a|) && 0 <= EndOf(Fold(b, head, edits)) <= head + x
  {
    if edits != [] {
      var e := edits[|edits| - 1];
      WalkTidy(a, b, head, p, q, edits[..|edits| - 1], e.x, e.y);
      AddEditTidy(a, b, head, Fold(b, head, edits[..|edits| - 1]), e);
    }
  }

  lemma {:induction false} WalkCost(a: string, b: string, head: nat, p: string, q: string, edits: seq<Edit>, x: nat, y: nat)
    requires head + |q| <= |b| && x <= |p| && y <= |q| && Walk(p, q, edits, x, y)
    ensures Cost(Closed(Fold(b, head, edits))) == |edits|
  {
    if edits != [] {
      var e := edits[|edits| - 1];
      WalkCost(a, b, head, p, q, edits[..|edits| - 1], e.x, e.y);
      AddEditCost(a, b, head, Fold(b, head, edits[..|edits| - 1]), e);
    }
  }

  lemma WalkTextStep(a: string, b: string, head: nat, p: string, q: string, f: Folding, e: Edit, i: nat, j: nat,
                     f': Folding, x: nat, y: nat, i': nat, j': nat)
    requires Window(a, head, p) && Window(b, head, q) && f' == AddEdit(b, head, f, e)
    requires After(e).0 <= x && x - After(e).0 == y - After(e).1 && Match(p, q, After(e).0, After(e).1, x - After(e).0)
    requires i == head + e.x && j == head + e.y && i' == head + x && j' == head + y
    requires Spells(a, b, TextOf(a, f), EndOf(f), i, j)
    ensures Spells(a, b, TextOf(a, f'), EndOf(f'), i', j')
  {
    var len, end, j0 := x - After(e).0, head + After(e).0, head + After(e).1;
    AddEditText(a, b, head, f, e, f', i);
    WindowsMatch(a, b, head, p, q, After(e).0, After(e).1, len, end, j0);
    SpellsEdit(a, b, TextOf(a, f), EndOf(f), i, j, e, head, len, TextOf(a, f'), end, j0, i', j');
  }

  lemma {:induction false} WalkText(a: string, b: string, head: nat, p: string, q: string, edits: seq<Edit>, f: Folding,
                                    x: nat, y: nat, i: nat, j: nat)
    requires Window(a, head, p) && Window(b, head, q) && a[..head] == b[..head] && i == head + x && j == head + y
    requires x <= |p| && y <= |q| && Walk(p, q, edits, x, y) && f == Fold(b, head, edits)
    ensures Spells(a, b, TextOf(a, f), EndOf(f), i, j)
    decreases edits
  {
    if edits == [] {
      WalkTextStart(a, b, head, p, q, x, i, j);
    } else {
      var e, front := edits[|edits| - 1], edits[..|edits| - 1];
      var f0, i0, j0 := Fold(b, head, front), head + e.x, head + e.y;
      WalkText(a, b, head, p, q, front, f0, e.x, e.y, i0, j0);
      WalkTextStep(a, b, head, p, q, f0, e, i0, j0, f, x, y, i, j);
    }
  }

  lemma WalkTextStart(a: string, b: string, head: nat, p: string, q: string, x: nat, i: nat, j: nat)
    requires Window(a, head, p) && Window(b, head, q) && a[..head] == b[..head] && i == head + x == j
    requires x <= |p| && x <= |q| && p[..x] == q[..x]
    ensures Spells(a, b, "", 0, i, j)
  {
    assert p[0..0 + x] == p[..x] && q[0..0 + x] == q[..x];
    WindowsMatch(a, b, head, p, q, 0, 0, x, head, head);
    assert "" + a[0..head] == b[..head];
    GrowPrefix("", a, b, 0, head, head, x);
  }

  // ---- What a diff is

  /** One hunk replacing everything between the common ends. */
  lemma WholeMiddle(a: string, b: string, head: nat, p: string, q: string)
    requires CommonEnds(a, b, head, p, q)
    ensures var hunks := [Hunk(head, head + |p|, q)];
            Separated(hunks, |a|) && Apply(a, hunks) == b && Cost(hunks) == |p| + |q|
  {
    var h := Hunk(head, head + |p|, q);
    assert [h][1..] == [];
    assert ApplyFrom(a, [], h.end) == a[h.end..];
    assert Slice(a, 0, head) == a[..head];
    assert Apply(a, [h]) == a[..head] + h.insert + a[h.end..];
    assert b == b[..head] + h.insert + b[head + |q|..];
    assert Cost([h][..0]) == 0;
  }

  lemma CornerWalk(p: string, q: string, path: seq<Edit>)
    requires path == Path(p, q, CornerDels(p, q), CornerIns(p, q))
    ensures Walk(p, q, path, |p|, |q|) && |path| == Distance(p, q)
  {
    DistanceHits(p, q);
    HitCostsDistance(p, q, CornerDels(p, q), CornerIns(p, q));
    PathWalks(p, q, CornerDels(p, q), CornerIns(p, q), |p|, |q|, path);
  }

  lemma FoldedText(a: string, b: string, f: Folding, i: nat, j: nat)
    requires i <= |a| && j <= |b| && a[i..] == b[j..]
    requires Spells(a, b, TextOf(a, f), EndOf(f), i, j)
    ensures Apply(a, Closed(f)) == b
  {
    ApplyIsWritten(a, Closed(f));
    ClosedFolding(a, f);
    var tail := |a[i..]|;
    assert a[i..i + tail] == a[i..] && b[j..j + tail] == b[j..] && b[..j + tail] == b;
    GrowPrefix(TextOf(a, f), a, b, EndOf(f), i, j, tail);
  }

  lemma CornerShape(a: string, b: string, head: nat, p: string, q: string)
    requires head + |p| <= |a| && head + |q| <= |b|
    ensures var hunks := Closed(CornerFolding(b, head, p, q));
            Separated(hunks, |a|) && Cost(hunks) == Distance(p, q)
  {
    var path := Path(p, q, CornerDels(p, q), CornerIns(p, q));
    CornerWalk(p, q, path);
    WalkTidy(a, b, head, p, q, path, |p|, |q|);
    TidyIsSeparated(Fold(b, head, path), |a|);
    WalkCost(a, b, head, p, q, path, |p|, |q|);
  }

  lemma FoldedMiddle(a: string, b: string, head: nat, p: string, q: string)
    requires CommonEnds(a, b, head, p, q)
    ensures var hunks := Closed(CornerFolding(b, head, p, q));
            Separated(hunks, |a|) && Apply(a, hunks) == b && Cost(hunks) == Distance(p, q)
  {
    var path, f := Path(p, q, CornerDels(p, q), CornerIns(p, q)), CornerFolding(b, head, p, q);
    var i, j := head + |p|, head + |q|;
    CornerWalk(p, q, path);
    WalkText(a, b, head, p, q, path, f, |p|, |q|, i, j);
    FoldedText(a, b, f, i, j);
    CornerShape(a, b, head, p, q);
  }

  lemma MiddleIsCorrect(a: string, b: string, head: nat, p: string, q: string)
    requires CommonEnds(a, b, head, p, q)
    ensures var hunks := MiddleHunks(b, head, p, q);
            && Separated(hunks, |a|) && Apply(a, hunks) == b
            && Cost(hunks) == if Distance(a, b) <= MAX_EDITS then Distance(a, b) else |p| + |q|
  {
    TrimKeepsDistance(a, b, head, p, q);
    DistFloor(p, q, |p|, |q|);
    if p == "" || q == "" || Distance(p, q) > Min(|p| + |q|, MAX_EDITS) {
      WholeMiddle(a, b, head, p, q);
    } else {
      FoldedMiddle(a, b, head, p, q);
    }
  }

  /** In all three exits, the hunks are in range and in order, and applying them gives the new text. */
  lemma DiffIsCorrect(a: string, b: string)
    ensures Separated(Diff(a, b), |a|) && Apply(a, Diff(a, b)) == b
  {
    if a != b {
      var t := Trim(a, b);
      MiddleIsCorrect(a, b, t.head, t.p, t.q);
    }
  }

  /**
   * The hunks cost exactly the edit distance whenever that is at most `MAX_EDITS`, and otherwise
   * exactly the whole middle between the common ends.
   */
  lemma DiffCost(a: string, b: string)
    ensures Distance(a, b) <= MAX_EDITS ==> Cost(Diff(a, b)) == Distance(a, b)
    ensures Distance(a, b) > MAX_EDITS ==> Cost(Diff(a, b)) == |Trim(a, b).p| + |Trim(a, b).q|
  {
    if a == b {
      DistKeep(a, a, 0, 0, |a|);
    } else {
      var t := Trim(a, b);
      MiddleIsCorrect(a, b, t.head, t.p, t.q);
    }
  }

  /** Between the common ends the texts have no character in common, in any order-keeping way. */
  ghost predicate NothingShared(a: string, b: string)
  {
    var t := Trim(a, b);
    Lcs(t.p, t.q, |t.p|, |t.q|) == 0
  }

  /** The diff edits no more than it must exactly when the search is not given up, or nothing could be kept anyway. */
  lemma DiffIsMinimalExactly(a: string, b: string)
    ensures Cost(Diff(a, b)) == Distance(a, b) <==> Distance(a, b) <= MAX_EDITS || NothingShared(a, b)
  {
    if a == b {
      DistKeep(a, a, 0, 0, |a|);
    } else {
      var t := Trim(a, b);
      MiddleIsCorrect(a, b, t.head, t.p, t.q);
      TrimKeepsDistance(a, b, t.head, t.p, t.q);
      DistanceIsLcs(t.p, t.q, |t.p|, |t.q|);
    }
  }

  /** Where it is minimal, no in-order hunk list that also turns `a` into `b` edits less. */
  lemma DiffIsMinimal(a: string, b: string, hunks: seq<Hunk>)
    requires Distance(a, b) <= MAX_EDITS || NothingShared(a, b)
    requires Ordered(hunks, 0, |a|) && Apply(a, hunks) == b
    ensures Cost(Diff(a, b)) <= Cost(hunks)
    ensures Cost(Diff(a, b)) == |a| + |b| - 2 * Lcs(a, b, |a|, |b|)
  {
    EveryScriptCostsDistance(a, b, hunks);
    DistanceIsLcs(a, b, |a|, |b|);
    DiffIsMinimalExactly(a, b);
  }

  /** Texts that share one character each, at `k`, and nothing else. */
  lemma {:induction false} OneShared(a: string, b: string, k: nat, x: nat, y: nat)
    requires k < |a| && k < |b| && x <= |a| && y <= |b|
    requires forall i, j :: 0 <= i < |a| && 0 <= j < |b| ==> (a[i] == b[j] <==> i == j == k)
    ensures Lcs(a, b, x, y) == if x > k && y > k then 1 else 0
    decreases x + y
  {
    if x > 0 && y > 0 {
      if x - 1 == y - 1 == k {
        OneShared(a, b, k, x - 1, y - 1);
      } else {
        OneShared(a, b, k, x - 1, y);
        OneShared(a, b, k, x, y - 1);
      }
    }
  }

  /** 1003 characters or more of which only the middle one is shared: the diff replaces that one as well. */
  lemma DiffCanOverspend(a: string, b: string, k: nat)
    requires k > 500 && a == seq(2 * k + 1, i => if i == k then 'c' else 'a')
    requires b == seq(2 * k + 1, i => if i == k then 'c' else 'b')
    ensures Distance(a, b) == 4 * k && Distance(a, b) > MAX_EDITS && !NothingShared(a, b)
    ensures Cost(Diff(a, b)) == Distance(a, b) + 2
  {
    assert a[0] == 'a' && a[2 * k] == 'a' && b[0] == 'b' && b[2 * k] == 'b' && a[k] == b[k] == 'c';
    OneShared(a, b, k, |a|, |b|);
    DistanceIsLcs(a, b, |a|, |b|);
    NothingTrimmed(a, b);
    DiffCost(a, b);
  }

  lemma NothingTrimmed(a: string, b: string)
    requires a != "" && b != "" && a[0] != b[0] && a[|a| - 1] != b[|b| - 1]
    ensures Trim(a, b).p == a && Trim(a, b).q == b
  {
  }
}
