/**
 * The greedy search inside `diffText` (src/core/text.ts): furthest-reaching points per diagonal.
 *
 * A frontier cell is round `d` and diagonal `k`. Both are fixed by how many deletes and how many
 * inserts a path has made: `d` is their sum and `k` their difference, so cells are indexed by those
 * two counts here. The search never clamps a point to the texts, so it walks the unbounded quadrant;
 * `Reach` is that quadrant. The results are that each cell holds the furthest point of its diagonal,
 * and that the first point past both ends is exactly the corner, after exactly `Distance` edits.
 */
module Myers {
  import opened EditDistance

  /** Follow equal characters from `(x, y)`; the result is the new `x`. */
  function Slide(p: string, q: string, x: nat, y: nat): (r: nat)
    ensures x <= r && (r > x ==> r <= |p| && y + r - x <= |q|)
    decreases if x < |p| then |p| - x else 0
  {
    if x < |p| && y < |q| && p[x] == q[y] then Slide(p, q, x + 1, y + 1) else x
  }

  /** Whether a cell is entered by an insert from the diagonal above rather than by a delete. */
  ghost predicate Down(p: string, q: string, dels: nat, ins: nat)
    requires dels + ins > 0
    decreases dels + ins, 0
  {
    dels == 0 || (ins != 0 && Furthest(p, q, dels - 1, ins) < Furthest(p, q, dels, ins - 1))
  }

  /** Where a cell is entered, before following equal characters. */
  ghost function Entry(p: string, q: string, dels: nat, ins: nat): (x: nat)
    requires dels + ins > 0
    ensures dels - ins <= x
    decreases dels + ins, 1
  {
    if Down(p, q, dels, ins) then Furthest(p, q, dels, ins - 1) else Furthest(p, q, dels - 1, ins) + 1
  }

  /** The frontier value after `dels` deletes and `ins` inserts. */
  ghost function Furthest(p: string, q: string, dels: nat, ins: nat): (x: nat)
    ensures dels - ins <= x
    decreases dels + ins, 2
  {
    var x := if dels + ins == 0 then 0 else Entry(p, q, dels, ins);
    Slide(p, q, x, x - dels + ins)
  }

  lemma EnteredBelow(p: string, q: string, dels: nat, ins: nat) returns (x: nat)
    requires dels + ins > 0 && Down(p, q, dels, ins)
    ensures ins > 0 && x == Furthest(p, q, dels, ins - 1) && Furthest(p, q, dels, ins) == Slide(p, q, x, x - dels + ins)
  {
    x := Entry(p, q, dels, ins);
  }

  lemma EnteredRight(p: string, q: string, dels: nat, ins: nat) returns (x: nat)
    requires dels + ins > 0 && !Down(p, q, dels, ins)
    ensures dels > 0 && x == Furthest(p, q, dels - 1, ins)
    ensures Furthest(p, q, dels, ins) == Slide(p, q, x + 1, x + 1 - dels + ins)
  {
    x := Entry(p, q, dels, ins) - 1;
  }

  /** `(x, y)` can be reached with these edits, running past either text's end if need be. */
  ghost predicate Reach(p: string, q: string, dels: nat, ins: nat, x: nat, y: nat)
    decreases x + y
  {
    || (dels == 0 && ins == 0 && x == 0 && y == 0)
    || (dels > 0 && x > 0 && Reach(p, q, dels - 1, ins, x - 1, y))
    || (ins > 0 && y > 0 && Reach(p, q, dels, ins - 1, x, y - 1))
    || (0 < x <= |p| && 0 < y <= |q| && p[x - 1] == q[y - 1] && Reach(p, q, dels, ins, x - 1, y - 1))
  }

  lemma {:induction false} SlideReach(p: string, q: string, dels: nat, ins: nat, x: nat, y: nat)
    requires Reach(p, q, dels, ins, x, y)
    ensures Reach(p, q, dels, ins, Slide(p, q, x, y), y + Slide(p, q, x, y) - x)
    decreases if x < |p| then |p| - x else 0
  {
    if x < |p| && y < |q| && p[x] == q[y] {
      SlideReach(p, q, dels, ins, x + 1, y + 1);
    }
  }

  lemma {:induction false} SlideStops(p: string, q: string, x: nat, y: nat)
    ensures var s := Slide(p, q, x, y);
            !(s < |p| && y + s - x < |q| && p[s] == q[y + s - x])
    decreases if x < |p| then |p| - x else 0
  {
    if x < |p| && y < |q| && p[x] == q[y] {
      SlideStops(p, q, x + 1, y + 1);
    }
  }

  lemma {:induction false} SlideMatches(p: string, q: string, x: nat, y: nat)
    ensures var len := Slide(p, q, x, y) - x;
            len > 0 ==> p[x..x + len] == q[y..y + len]
    decreases if x < |p| then |p| - x else 0
  {
    if x < |p| && y < |q| && p[x] == q[y] {
      SlideMatches(p, q, x + 1, y + 1);
      var len := Slide(p, q, x, y) - x;
      assert p[x..x + len] == [p[x]] + p[x + 1..x + len];
      assert q[y..y + len] == [q[y]] + q[y + 1..y + len];
    }
  }

  /** Every frontier point is the end of a real path. */
  lemma {:induction false} FurthestIsReached(p: string, q: string, dels: nat, ins: nat)
    ensures Reach(p, q, dels, ins, Furthest(p, q, dels, ins), Furthest(p, q, dels, ins) - dels + ins)
    decreases dels + ins
  {
    if dels == 0 && ins == 0 {
      SlideReach(p, q, 0, 0, 0, 0);
    } else {
      var x := Entry(p, q, dels, ins);
      if Down(p, q, dels, ins) {
        FurthestIsReached(p, q, dels, ins - 1);
      } else {
        FurthestIsReached(p, q, dels - 1, ins);
      }
      SlideReach(p, q, dels, ins, x, x - dels + ins);
    }
  }

  lemma FrontierStops(p: string, q: string, dels: nat, ins: nat)
    ensures var x := Furthest(p, q, dels, ins);
            !(x < |p| && x - dels + ins < |q| && p[x] == q[x - dels + ins])
  {
    if dels == 0 && ins == 0 {
      SlideStops(p, q, 0, 0);
    } else {
      SlideStops(p, q, Entry(p, q, dels, ins), Entry(p, q, dels, ins) - dels + ins);
    }
  }

  /** A cell is entered from the further of its two neighbours. */
  lemma EnteredNoEarlier(p: string, q: string, dels: nat, ins: nat)
    requires dels + ins > 0
    ensures dels > 0 ==> Furthest(p, q, dels - 1, ins) + 1 <= Furthest(p, q, dels, ins)
    ensures ins > 0 ==> Furthest(p, q, dels, ins - 1) <= Furthest(p, q, dels, ins)
  {
    if Down(p, q, dels, ins) {
      var x := EnteredBelow(p, q, dels, ins);
    } else {
      var x := EnteredRight(p, q, dels, ins);
    }
  }

  /** No path gets further along its diagonal than the frontier. */
  lemma {:induction false} FurthestIsMaximal(p: string, q: string, dels: nat, ins: nat, x: nat, y: nat)
    requires Reach(p, q, dels, ins, x, y)
    ensures x - y == dels - ins && x <= Furthest(p, q, dels, ins)
    decreases x + y
  {
    var f := Furthest(p, q, dels, ins);
    if dels == 0 && ins == 0 && x == 0 && y == 0 {
    } else if dels > 0 && x > 0 && Reach(p, q, dels - 1, ins, x - 1, y) {
      FurthestIsMaximal(p, q, dels - 1, ins, x - 1, y);
      EnteredNoEarlier(p, q, dels, ins);
    } else if ins > 0 && y > 0 && Reach(p, q, dels, ins - 1, x, y - 1) {
      FurthestIsMaximal(p, q, dels, ins - 1, x, y - 1);
      EnteredNoEarlier(p, q, dels, ins);
    } else {
      FurthestIsMaximal(p, q, dels, ins, x - 1, y - 1);
      FrontierStops(p, q, dels, ins);
      assert x - 1 == f ==> y - 1 == f - dels + ins;
      assert x <= f;
    }
  }

  /** A path that overshoots could have stopped at the edge, saving exactly the overshoot. */
  lemma {:induction false} Overshoot(p: string, q: string, dels: nat, ins: nat, x: nat, y: nat)
    requires Reach(p, q, dels, ins, x, y)
    ensures x - Min(x, |p|) <= dels && y - Min(y, |q|) <= ins
    ensures Reach(p, q, dels - (x - Min(x, |p|)), ins - (y - Min(y, |q|)), Min(x, |p|), Min(y, |q|))
    decreases x + y
  {
    if dels == 0 && ins == 0 && x == 0 && y == 0 {
    } else if dels > 0 && x > 0 && Reach(p, q, dels - 1, ins, x - 1, y) {
      Overshoot(p, q, dels - 1, ins, x - 1, y);
    } else if ins > 0 && y > 0 && Reach(p, q, dels, ins - 1, x, y - 1) {
      Overshoot(p, q, dels, ins - 1, x, y - 1);
    }
  }

  // ---- Inside the texts, reaching is the edit distance

  lemma {:induction false} ReachCostsDist(p: string, q: string, dels: nat, ins: nat, x: nat, y: nat)
    requires Reach(p, q, dels, ins, x, y) && x <= |p| && y <= |q|
    ensures Dist(p, q, x, y) <= dels + ins
    decreases x + y
  {
    if dels == 0 && ins == 0 && x == 0 && y == 0 {
    } else if dels > 0 && x > 0 && Reach(p, q, dels - 1, ins, x - 1, y) {
      ReachCostsDist(p, q, dels - 1, ins, x - 1, y);
    } else if ins > 0 && y > 0 && Reach(p, q, dels, ins - 1, x, y - 1) {
      ReachCostsDist(p, q, dels, ins - 1, x, y - 1);
    } else {
      ReachCostsDist(p, q, dels, ins, x - 1, y - 1);
    }
  }

  lemma {:induction false} DistIsReached(p: string, q: string, x: nat, y: nat) returns (dels: nat, ins: nat)
    requires x <= |p| && y <= |q|
    ensures dels + ins == Dist(p, q, x, y) && Reach(p, q, dels, ins, x, y)
    decreases x + y
  {
    if x > 0 && (y == 0 || Dist(p, q, x, y) == 1 + Dist(p, q, x - 1, y)) {
      dels, ins := DistIsReached(p, q, x - 1, y);
      dels := dels + 1;
    } else if y > 0 && (x == 0 || Dist(p, q, x, y) == 1 + Dist(p, q, x, y - 1)) {
      dels, ins := DistIsReached(p, q, x, y - 1);
      ins := ins + 1;
    } else if x > 0 {
      dels, ins := DistIsReached(p, q, x - 1, y - 1);
    } else {
      dels, ins := 0, 0;
    }
  }

  /** The test that ends the search: past both ends. */
  ghost predicate Hit(p: string, q: string, dels: nat, ins: nat)
  {
    Furthest(p, q, dels, ins) >= |p| && Furthest(p, q, dels, ins) - dels + ins >= |q|
  }

  /** A hit happens no earlier than the distance, and later by at least what it overshoots. */
  lemma HitCostsDistance(p: string, q: string, dels: nat, ins: nat)
    requires Hit(p, q, dels, ins)
    ensures var x := Furthest(p, q, dels, ins);
            Distance(p, q) + (x - |p|) + (x - dels + ins - |q|) <= dels + ins
  {
    var x := Furthest(p, q, dels, ins);
    FurthestIsReached(p, q, dels, ins);
    Overshoot(p, q, dels, ins, x, x - dels + ins);
    ReachCostsDist(p, q, dels - (x - |p|), ins - (x - dels + ins - |q|), |p|, |q|);
  }

  /** The deletes and the inserts of a shortest path: they sum to the distance and differ by the lengths. */
  ghost function CornerDels(p: string, q: string): nat
  {
    DistFloor(p, q, |p|, |q|);
    (Distance(p, q) + |p| - |q|) / 2
  }

  ghost function CornerIns(p: string, q: string): nat
  {
    DistFloor(p, q, |p|, |q|);
    (Distance(p, q) - |p| + |q|) / 2
  }

  /** Round `Distance` does hit, on the corner's own diagonal. */
  lemma DistanceHits(p: string, q: string)
    ensures CornerDels(p, q) + CornerIns(p, q) == Distance(p, q)
    ensures CornerDels(p, q) - CornerIns(p, q) == |p| - |q|
    ensures Hit(p, q, CornerDels(p, q), CornerIns(p, q))
  {
    var dels, ins := DistIsReached(p, q, |p|, |q|);
    FurthestIsMaximal(p, q, dels, ins, |p|, |q|);
  }

  /**
   * The first hit is the corner itself: if no earlier round hits, then this round is the edit
   * distance, and the diagonal that hits is the corner's, standing exactly on it.
   */
  lemma FirstHitIsTheCorner(p: string, q: string, d: nat, dels: nat, ins: nat)
    requires Hit(p, q, dels, ins) && d == dels + ins
    requires forall i: nat, j: nat :: i + j < d ==> !Hit(p, q, i, j)
    ensures d == Distance(p, q) && Furthest(p, q, dels, ins) == |p|
    ensures dels == CornerDels(p, q) && ins == CornerIns(p, q)
  {
    HitCostsDistance(p, q, dels, ins);
    DistanceHits(p, q);
  }

  /** Frontier values stay within the 32-bit cells they are stored in, for texts shorter than 2^31 - 2000. */
  lemma FrontierBounded(p: string, q: string, dels: nat, ins: nat)
    ensures 0 <= Furthest(p, q, dels, ins) <= |p| + dels
  {
    FurthestIsReached(p, q, dels, ins);
    Overshoot(p, q, dels, ins, Furthest(p, q, dels, ins), Furthest(p, q, dels, ins) - dels + ins);
  }
}
