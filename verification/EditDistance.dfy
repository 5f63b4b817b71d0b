/**
 * The reference the diff is measured against: the fewest single-character inserts and deletes
 * that turn one text into another, over prefixes of both.
 */
module EditDistance {
  import opened Hunks
  import opened Strings

  ghost function Min(i: int, j: int): int { if i < j then i else j }

  ghost function Max(i: int, j: int): int { if i < j then j else i }

  /** Fewest inserts and deletes turning the first `x` characters of `a` into the first `y` of `b`. */
  ghost function Dist(a: string, b: string, x: nat, y: nat): nat
    requires x <= |a| && y <= |b|
    decreases x + y
  {
    if x == 0 then y
    else if y == 0 then x
    else
      var edit := 1 + Min(Dist(a, b, x - 1, y), Dist(a, b, x, y - 1));
      if a[x - 1] == b[y - 1] then Min(edit, Dist(a, b, x - 1, y - 1)) else edit
  }

  ghost function Distance(a: string, b: string): nat
  {
    Dist(a, b, |a|, |b|)
  }

  /** Length of a longest common subsequence of the two prefixes. */
  ghost function Lcs(a: string, b: string, x: nat, y: nat): nat
    requires x <= |a| && y <= |b|
    decreases x + y
  {
    if x == 0 || y == 0 then 0
    else if a[x - 1] == b[y - 1] then 1 + Lcs(a, b, x - 1, y - 1)
    else Max(Lcs(a, b, x - 1, y), Lcs(a, b, x, y - 1))
  }

  /** One more character on either side changes the distance by at most one. */
  lemma {:induction false} DistSmooth(a: string, b: string, x: nat, y: nat)
    requires x <= |a| && y <= |b|
    ensures x > 0 ==> Dist(a, b, x - 1, y) <= Dist(a, b, x, y) + 1
    ensures y > 0 ==> Dist(a, b, x, y - 1) <= Dist(a, b, x, y) + 1
    ensures x > 0 && y > 0 ==> Dist(a, b, x - 1, y - 1) <= Dist(a, b, x, y) + 2
    decreases x + y
  {
    if x > 0 && y > 0 {
      DistSmooth(a, b, x - 1, y);
      DistSmooth(a, b, x, y - 1);
      DistSmooth(a, b, x - 1, y - 1);
    }
  }

  lemma DistMatch(a: string, b: string, x: nat, y: nat)
    requires 0 < x <= |a| && 0 < y <= |b| && a[x - 1] == b[y - 1]
    ensures Dist(a, b, x, y) == Dist(a, b, x - 1, y - 1)
  {
    DistSmooth(a, b, x - 1, y);
    DistSmooth(a, b, x, y - 1);
  }

  lemma {:induction false} DistanceIsLcs(a: string, b: string, x: nat, y: nat)
    requires x <= |a| && y <= |b|
    ensures Dist(a, b, x, y) == x + y - 2 * Lcs(a, b, x, y)
    decreases x + y
  {
    if x > 0 && y > 0 {
      if a[x - 1] == b[y - 1] {
        DistMatch(a, b, x, y);
        DistanceIsLcs(a, b, x - 1, y - 1);
      } else {
        DistanceIsLcs(a, b, x - 1, y);
        DistanceIsLcs(a, b, x, y - 1);
      }
    }
  }

  // ---- Any hunk list is an edit script

  lemma {:induction false} DistEdits(a: string, b: string, x: nat, y: nat, dels: nat, ins: nat)
    requires x + dels <= |a| && y + ins <= |b|
    ensures Dist(a, b, x + dels, y + ins) <= Dist(a, b, x, y) + dels + ins
    decreases dels + ins
  {
    if dels > 0 {
      DistEdits(a, b, x, y, dels - 1, ins);
    } else if ins > 0 {
      DistEdits(a, b, x, y, dels, ins - 1);
    }
  }

  lemma {:induction false} DistKeep(a: string, b: string, x: nat, y: nat, len: nat)
    requires x + len <= |a| && y + len <= |b| && a[x..x + len] == b[y..y + len]
    ensures Dist(a, b, x + len, y + len) == Dist(a, b, x, y)
  {
    if len > 0 {
      assert a[x..x + len][len - 1] == b[y..y + len][len - 1];
      ShorterMatch(a, b, x, y, len);
      DistKeep(a, b, x, y, len - 1);
      DistMatch(a, b, x + len, y + len);
    }
  }

  lemma KeepSuffix(a: string, b: string, x: nat, y: nat)
    requires x <= |a| && y <= |b| && b[y..] == a[x..]
    ensures Distance(a, b) == Dist(a, b, x, y)
  {
    var keep := |a| - x;
    assert |b| - y == keep;
    assert a[x..x + keep] == a[x..] && b[y..y + keep] == b[y..];
    DistKeep(a, b, x, y, keep);
  }

  lemma HunkCost(a: string, b: string, h: Hunk, rest: string, x: nat, y: nat, spent: int) returns (y': nat)
    requires x <= h.start <= h.end <= |a| && y <= |b|
    requires b[y..] == a[x..h.start] + h.insert + rest
    requires Dist(a, b, x, y) <= spent
    ensures y' <= |b| && b[y'..] == rest
    ensures Dist(a, b, h.end, y') <= spent + h.end - h.start + |h.insert|
  {
    var keep := h.start - x;
    SplitSuffix(b, y, a[x..h.start], h.insert, rest);
    assert a[x..x + keep] == a[x..h.start];
    DistKeep(a, b, x, y, keep);
    DistEdits(a, b, h.start, y + keep, h.end - h.start, |h.insert|);
    y' := y + keep + |h.insert|;
  }

  lemma {:induction false} ScriptCost(a: string, b: string, hunks: seq<Hunk>, x: nat, y: nat, spent: int)
    requires x <= |a| && y <= |b| && Ordered(hunks, x, |a|)
    requires b[y..] == ApplyFrom(a, hunks, x)
    requires Dist(a, b, x, y) <= spent
    ensures Distance(a, b) <= spent + Cost(hunks)
    decreases |hunks|
  {
    if hunks == [] {
      assert Slice(a, x, |a|) == a[x..];
      KeepSuffix(a, b, x, y);
    } else {
      var h := hunks[0];
      assert Slice(a, x, h.start) == a[x..h.start];
      var y' := HunkCost(a, b, h, ApplyFrom(a, hunks[1..], h.end), x, y, spent);
      CostFront(hunks);
      ScriptCost(a, b, hunks[1..], h.end, y', spent + h.end - h.start + |h.insert|);
    }
  }

  /** No ordered hunk list turning `a` into `b` is cheaper than the distance. */
  lemma EveryScriptCostsDistance(a: string, b: string, hunks: seq<Hunk>)
    requires Ordered(hunks, 0, |a|) && Apply(a, hunks) == b
    ensures Distance(a, b) <= Cost(hunks)
  {
    assert b[0..] == b;
    ScriptCost(a, b, hunks, 0, 0, 0);
  }

  // ---- Trimming common ends

  lemma {:induction false} DistFloor(a: string, b: string, x: nat, y: nat)
    requires x <= |a| && y <= |b|
    ensures x - y <= Dist(a, b, x, y) && y - x <= Dist(a, b, x, y) <= x + y
    decreases x + y
  {
    if x > 0 && y > 0 {
      DistFloor(a, b, x - 1, y);
      DistFloor(a, b, x, y - 1);
      DistFloor(a, b, x - 1, y - 1);
    }
  }

  lemma DistWindowEdge(a: string, b: string, h: nat, x: nat, y: nat)
    requires h + x <= |a| && h + y <= |b| && a[..h] == b[..h]
    requires x == 0 || y == 0
    ensures Dist(a, b, h + x, h + y) == x + y
  {
    assert a[0..0 + h] == a[..h] && b[0..0 + h] == b[..h];
    DistKeep(a, b, 0, 0, h);
    DistEdits(a, b, h, h, x, y);
    DistFloor(a, b, h + x, h + y);
  }

  lemma DistStep(a: string, b: string, a': string, b': string, x: nat, y: nat, x': nat, y': nat)
    requires 0 < x <= |a| && 0 < y <= |b| && 0 < x' <= |a'| && 0 < y' <= |b'|
    requires a[x - 1] == a'[x' - 1] && b[y - 1] == b'[y' - 1]
    requires Dist(a, b, x - 1, y) == Dist(a', b', x' - 1, y')
    requires Dist(a, b, x, y - 1) == Dist(a', b', x', y' - 1)
    requires Dist(a, b, x - 1, y - 1) == Dist(a', b', x' - 1, y' - 1)
    ensures Dist(a, b, x, y) == Dist(a', b', x', y')
  {
  }

  /** Behind a common prefix of length `h`, the distance is that of the texts without it. */
  lemma {:induction false} DistWindow(a: string, b: string, h: nat, p: string, q: string, x: nat, y: nat)
    requires Window(a, h, p) && Window(b, h, q) && a[..h] == b[..h]
    requires x <= |p| && y <= |q|
    ensures Dist(a, b, h + x, h + y) == Dist(p, q, x, y)
    decreases x + y
  {
    if x == 0 || y == 0 {
      DistWindowEdge(a, b, h, x, y);
    } else {
      DistWindow(a, b, h, p, q, x - 1, y);
      DistWindow(a, b, h, p, q, x, y - 1);
      DistWindow(a, b, h, p, q, x - 1, y - 1);
      WindowAt(a, h, p, x - 1);
      WindowAt(b, h, q, y - 1);
      DistStep(a, b, p, q, h + x, h + y, x, y);
    }
  }

  /** Trimming a common prefix and a common suffix does not change the distance. */
  lemma TrimKeepsDistance(a: string, b: string, head: nat, p: string, q: string)
    requires CommonEnds(a, b, head, p, q)
    ensures Distance(a, b) == Distance(p, q)
  {
    KeepSuffix(a, b, head + |p|, head + |q|);
    DistWindow(a, b, head, p, q, |p|, |q|);
  }
}
