/** What swapping the sides of a three-way merge changes, and when it deletes the union. */
module MergeLaws {
  import opened EditDistance
  import opened Hunks
  import opened Merge3
  import opened Myers
  import opened TextDiff

  // ---- Swapping the sides

  function Swap(m: Merged): Merged
  {
    m.(ours := m.theirs, theirs := m.ours)
  }

  function SwapAll(steps: seq<Merged>): seq<Merged>
  {
    if steps == [] then [] else [Swap(steps[0])] + SwapAll(steps[1..])
  }

  /**
   * Swapping ours and theirs takes the same steps over the same stretches of base; only the order of
   * two inserts inside one step can differ.
   */
  lemma {:induction false} SidesSwap(a: seq<Hunk>, b: seq<Hunk>)
    ensures Combine(b, a) == SwapAll(Combine(a, b))
    decreases |a| + |b|
  {
    if a != [] || b != [] {
      var steps := Combine(a, b);
      if a != [] && b != [] && Overlap(a[0], b[0]) {
        SidesSwap(a[1..], b[1..]);
        assert steps[1..] == Combine(a[1..], b[1..]);
      } else if b == [] || (a != [] && a[0].start <= b[0].start) {
        SidesSwap(a[1..], b);
        assert steps[1..] == Combine(a[1..], b);
      } else {
        SidesSwap(a, b[1..]);
        assert steps[1..] == Combine(a, b[1..]);
      }
    }
  }

  ghost predicate Disjoint(a: seq<Hunk>, b: seq<Hunk>)
  {
    forall i, j :: 0 <= i < |a| && 0 <= j < |b| ==> !Overlap(a[i], b[j])
  }

  lemma {:induction false} DisjointStaysOrdered(a: seq<Hunk>, b: seq<Hunk>, pos: int, len: nat)
    requires Separated(a, len) && Separated(b, len) && Disjoint(a, b)
    requires 0 <= pos && Ahead(a, pos) && Ahead(b, pos)
    ensures Ordered(ToHunks(Combine(a, b)), pos, len)
    decreases |a| + |b|
  {
    if a != [] || b != [] {
      CombineSplit(a, b);
      assert a != [] && b != [] ==> !Overlap(a[0], b[0]);
      if a != [] && (b == [] || a[0].start <= b[0].start) {
        assert Ahead(a[1..], a[0].end);
        DisjointStaysOrdered(a[1..], b, a[0].end, len);
      } else {
        assert Ahead(b[1..], b[0].end);
        DisjointStaysOrdered(a, b[1..], b[0].end, len);
      }
    }
  }

  lemma HeadOfMultiset(hunks: seq<Hunk>)
    requires hunks != []
    ensures multiset(hunks) == multiset{hunks[0]} + multiset(hunks[1..])
  {
    assert hunks == [hunks[0]] + hunks[1..];
  }

  /** One hunk landing in front of the rest. */
  lemma LandsOne(hs: seq<Hunk>, rest: seq<Hunk>, side: seq<Hunk>, others: multiset<Hunk>)
    requires hs != [] && side != [] && hs[0] == side[0] && hs[1..] == rest
    requires multiset(rest) == multiset(side[1..]) + others
    ensures multiset(hs) == multiset(side) + others
  {
    HeadOfMultiset(hs);
    HeadOfMultiset(side);
  }

  lemma {:induction false} DisjointLandsAll(a: seq<Hunk>, b: seq<Hunk>)
    requires Disjoint(a, b)
    ensures multiset(ToHunks(Combine(a, b))) == multiset(a) + multiset(b)
    decreases |a| + |b|
  {
    if a != [] || b != [] {
      CombineSplit(a, b);
      var hs := ToHunks(Combine(a, b));
      assert a != [] && b != [] ==> !Overlap(a[0], b[0]);
      if a != [] && (b == [] || a[0].start <= b[0].start) {
        DisjointLandsAll(a[1..], b);
        LandsOne(hs, ToHunks(Combine(a[1..], b)), a, multiset(b));
      } else {
        DisjointLandsAll(a, b[1..]);
        LandsOne(hs, ToHunks(Combine(a, b[1..])), b, multiset(a));
      }
    }
  }

  /** Changes that nowhere touch merge to their sorted union: every hunk of both, once, in order. */
  lemma DisjointIsSortedUnion(a: seq<Hunk>, b: seq<Hunk>, len: nat)
    requires Separated(a, len) && Separated(b, len) && Disjoint(a, b)
    ensures var union := ToHunks(Combine(a, b));
            Ordered(union, 0, len) && multiset(union) == multiset(a) + multiset(b)
  {
    DisjointStaysOrdered(a, b, 0, len);
    DisjointLandsAll(a, b);
  }

  lemma {:induction false} DisjointCommutes(a: seq<Hunk>, b: seq<Hunk>)
    requires Disjoint(a, b)
    ensures ToHunks(Combine(b, a)) == ToHunks(Combine(a, b))
    decreases |a| + |b|
  {
    if a != [] || b != [] {
      CombineSplit(a, b);
      CombineSplit(b, a);
      var hs, hs' := ToHunks(Combine(a, b)), ToHunks(Combine(b, a));
      assert hs == [hs[0]] + hs[1..] && hs' == [hs'[0]] + hs'[1..];
      assert a != [] && b != [] ==> !Overlap(a[0], b[0]);
      if a != [] && (b == [] || a[0].start <= b[0].start) {
        DisjointCommutes(a[1..], b);
      } else {
        DisjointCommutes(a, b[1..]);
      }
    }
  }

  /** When the two changes nowhere touch, it does not matter whose side the merge is on. */
  lemma DisjointMergeIsSymmetric(base: string, ours: string, theirs: string)
    requires Disjoint(Diff(base, ours), Diff(base, theirs))
    ensures Merge(base, ours, theirs) == Merge(base, theirs, ours)
  {
    MergeIsItsLoop(base, ours, theirs);
    MergeIsItsLoop(base, theirs, ours);
    DisjointCommutes(Diff(base, ours), Diff(base, theirs));
  }

  // ---- A merge that does rewind

  /** Three characters of which the other text keeps only the middle one. */
  ghost predicate MiddleOnly(p: string, q: string)
  {
    |p| == 3 && |q| == 1 && p[0] != q[0] && p[1] == q[0] && p[2] != q[0]
  }

  lemma ExampleDistance(p: string, q: string)
    requires MiddleOnly(p, q)
    ensures Distance(p, q) == 2
  {
    assert Dist(p, q, 1, 1) == 2;
    assert Dist(p, q, 2, 1) == 1;
  }

  lemma ExampleFrontier(p: string, q: string)
    requires MiddleOnly(p, q)
    ensures Furthest(p, q, 0, 0) == 0 && Furthest(p, q, 1, 0) == 2
  {
    assert Slide(p, q, 0, 0) == 0;
    assert Entry(p, q, 1, 0) == 1;
    assert Slide(p, q, 2, 1) == 2;
  }

  lemma ExamplePath(p: string, q: string)
    requires MiddleOnly(p, q)
    ensures Path(p, q, 2, 0) == [Del(0, 0), Del(2, 1)]
  {
    ExampleFrontier(p, q);
    var e := PathRight(p, q, 1, 0);
    assert Path(p, q, 1, 0) == [Del(0, 0)];
    e := PathRight(p, q, 2, 0);
  }

  lemma ExampleFold(b: string)
    ensures Closed(Fold(b, 0, [Del(0, 0), Del(2, 1)])) == [Hunk(0, 1, ""), Hunk(2, 3, "")]
  {
    assert [Del(0, 0), Del(2, 1)][..1] == [Del(0, 0)] && [Del(0, 0)][..0] == [];
    assert Fold(b, 0, [Del(0, 0)]) == Open([], Hunk(0, 1, ""));
  }

  lemma ExampleTrim(a: string, b: string)
    requires |a| == 4 && |b| == 2 && a[0] != b[0] && a[3] == b[1] && a[2] != b[0]
    ensures CommonHead(a, b, 0) == 0 && CommonTail(a, b, 0, 0) == 1
  {
    assert a[|a| - 1..] == [a[3]] && b[|b| - 1..] == [b[1]];
    assert CommonTail(a, b, 0, 1) == 1;
  }

  /** The diff of "abcd" and "bd" deletes 'a' and 'c'. */
  lemma ExampleDiff(a: string, b: string)
    requires a == "abcd" && b == "bd"
    ensures Diff(a, b) == [Hunk(0, 1, ""), Hunk(2, 3, "")]
  {
    var p, q := a[0..3], b[0..1];
    ExampleTrim(a, b);
    ExampleDistance(p, q);
    ExamplePath(p, q);
    ExampleFold(b);
    assert Trim(a, b) == Ends(0, p, q);
    assert Diff(a, b) == MiddleHunks(b, 0, p, q);
  }

  /** Deleting everything is one hunk. */
  lemma DiffToNothing(base: string)
    requires base != ""
    ensures Diff(base, "") == [Hunk(0, |base|, "")]
  {
    var t := Trim(base, "");
    assert t.head == 0 && t.q == "";
    assert |base[|t.p|..]| == |""[0..]|;
    assert |t.p| == |base|;
    assert base[0..|base|] == base;
  }

  lemma ExampleMerge(base: string, a: seq<Hunk>, b: seq<Hunk>)
    requires base == "abcd" && a == [Hunk(0, 1, ""), Hunk(2, 3, "")] && b == [Hunk(0, 4, "")]
    ensures MergeHunks(base, a, b) == "d" && Rewinds(a, b, 0)
  {
    assert a[1..] == [Hunk(2, 3, "")] && b[1..] == [] && a[1..][1..] == [];
    CombineSplit(a, b);
    CombineSplit(a[1..], []);
    var hs := ToHunks(Combine(a, b));
    assert hs[1..][0] == Hunk(2, 3, "") && hs[1..][1..] == [];
    assert ApplyFrom(base, hs[1..], 4) == ApplyFrom(base, [], 3);
    assert ApplyFrom(base, [], 3) == "d";
  }

  /**
   * "Overlapping changes delete the union" fails when one change overlaps two: ours deletes 'a' and
   * 'c', theirs deletes everything, and yet 'd', which theirs deleted, is in the merge.
   */
  lemma UnionCanFail()
    ensures Merge("abcd", "bd", "") == "d" && Rewinds(Diff("abcd", "bd"), Diff("abcd", ""), 0)
    ensures Deleted(Diff("abcd", ""), 3)
  {
    var base, ours, theirs := "abcd", "bd", "";
    var b := Diff(base, theirs);
    ExampleDiff(base, ours);
    DiffToNothing(base);
    assert b[0].start <= 3 < b[0].end;
    MergeIsItsLoop(base, ours, theirs);
    ExampleMerge(base, Diff(base, ours), b);
  }
}
