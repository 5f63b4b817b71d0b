/**
 * Where a three-way merge puts what the sides typed: every insert whole and in order, what paired changes
 * typed alike once, and nothing else.
 */
module MergeBlocks {
  import opened Hunks
  import opened Merge3
  import opened MergeOrder
  import opened TextDiff

  /** From `p` on, the items are exactly this text as typed. */
  ghost predicate Sits(items: seq<Item>, text: string, p: nat)
  {
    p + |text| <= |items| && forall i :: 0 <= i < |text| ==> items[p + i] == Fresh(text[i])
  }

  /** The hunks' inserts, each in one block, the `k`th at `at[k]`, in order and apart. */
  ghost predicate Placed(items: seq<Item>, hunks: seq<Hunk>, at: seq<nat>)
  {
    && |at| == |hunks|
    && (forall k :: 0 <= k < |hunks| ==> Sits(items, hunks[k].insert, at[k]))
    && (forall j, k :: 0 <= j < k < |hunks| ==> at[j] + |hunks[j].insert| <= at[k])
  }

  /** Item `i` is in the block of the `k`th hunk. */
  ghost predicate InBlock(hunks: seq<Hunk>, at: seq<nat>, k: nat, i: nat)
  {
    k < |hunks| && k < |at| && at[k] <= i < at[k] + |hunks[k].insert|
  }

  ghost predicate InSome(hunks: seq<Hunk>, at: seq<nat>, i: nat)
  {
    exists k: nat :: InBlock(hunks, at, k, i)
  }

  /** Every typed item is in a block. */
  ghost predicate Covered(items: seq<Item>, a: seq<Hunk>, at: seq<nat>, b: seq<Hunk>, at': seq<nat>)
  {
    forall i: nat :: i < |items| && items[i].Fresh? ==> InSome(a, at, i) || InSome(b, at', i)
  }

  /** The merge takes the `j`th change of one side and the `k`th of the other in one step. */
  ghost predicate Paired(a: seq<Hunk>, b: seq<Hunk>, j: nat, k: nat)
    decreases |a| + |b|
  {
    && a != [] && b != []
    && if Overlap(a[0], b[0]) then (if j == 0 || k == 0 then j == k else Paired(a[1..], b[1..], j - 1, k - 1))
       else if a[0].start <= b[0].start then j > 0 && Paired(a[1..], b, j - 1, k)
       else k > 0 && Paired(a, b[1..], j, k - 1)
  }

  /** Paired changes that typed the same have one block; those that did not have ours, then at once theirs. */
  ghost predicate PairsMeet(a: seq<Hunk>, at: seq<nat>, b: seq<Hunk>, at': seq<nat>)
  {
    forall j: nat, k: nat :: Paired(a, b, j, k) ==>
      && j < |a| && j < |at| && k < |b| && k < |at'|
      && if a[j].insert == b[k].insert then at[j] == at'[k] else at'[k] == at[j] + |a[j].insert|
  }

  /** Blocks of the two sides meet only where paired changes typed the same, and then they coincide. */
  ghost predicate SharedIfSame(a: seq<Hunk>, at: seq<nat>, b: seq<Hunk>, at': seq<nat>)
  {
    forall j: nat, k: nat, i: nat :: InBlock(a, at, j, i) && InBlock(b, at', k, i) ==>
      at[j] == at'[k] && a[j].insert == b[k].insert && Overlap(a[j], b[k]) && Paired(a, b, j, k)
  }

  lemma {:induction false} PairedSwaps(a: seq<Hunk>, b: seq<Hunk>, j: nat, k: nat)
    ensures Paired(a, b, j, k) <==> Paired(b, a, k, j)
    decreases |a| + |b|
  {
    if a != [] && b != [] {
      if Overlap(a[0], b[0]) {
        if j > 0 && k > 0 {
          PairedSwaps(a[1..], b[1..], j - 1, k - 1);
        }
      } else if a[0].start <= b[0].start {
        if j > 0 {
          PairedSwaps(a[1..], b, j - 1, k);
        }
      } else if k > 0 {
        PairedSwaps(a, b[1..], j, k - 1);
      }
    }
  }

  /** The next step is of `a`'s first change alone. */
  ghost predicate Leads(a: seq<Hunk>, b: seq<Hunk>)
  {
    a != [] && (b == [] || (!Overlap(a[0], b[0]) && a[0].start <= b[0].start))
  }

  ghost function Shift(at: seq<nat>, n: nat): (r: seq<nat>)
    ensures |r| == |at| && forall k :: 0 <= k < |at| ==> r[k] == at[k] + n
  {
    seq(|at|, k requires 0 <= k < |at| => at[k] + n)
  }

  ghost function With(p: nat, at: seq<nat>, n: nat): (r: seq<nat>)
    ensures |r| == |at| + 1 && r[0] == p && forall k :: 0 < k < |r| ==> r[k] == at[k - 1] + n
  {
    [p] + Shift(at, n)
  }

  // ---- Blocks behind more items

  lemma SitsBehind(pre: seq<Item>, rest: seq<Item>, text: string, p: nat, q: nat)
    requires Sits(rest, text, p) && q == p + |pre|
    ensures Sits(pre + rest, text, q)
  {
    forall i | 0 <= i < |text| ensures (pre + rest)[q + i] == Fresh(text[i]) {
      assert (pre + rest)[q + i] == rest[p + i];
    }
  }

  lemma PlacedBehind(pre: seq<Item>, rest: seq<Item>, hunks: seq<Hunk>, at: seq<nat>)
    requires Placed(rest, hunks, at)
    ensures Placed(pre + rest, hunks, Shift(at, |pre|))
  {
    forall k | 0 <= k < |hunks| ensures Sits(pre + rest, hunks[k].insert, Shift(at, |pre|)[k]) {
      SitsBehind(pre, rest, hunks[k].insert, at[k], Shift(at, |pre|)[k]);
    }
  }

  lemma SitsInFront(pre: seq<Item>, rest: seq<Item>, text: string, p: nat)
    requires Sits(pre, text, p)
    ensures Sits(pre + rest, text, p)
  {
  }

  lemma PlacedWith(pre: seq<Item>, rest: seq<Item>, hunks: seq<Hunk>, p: nat, at: seq<nat>)
    requires hunks != [] && Sits(pre, hunks[0].insert, p) && Placed(rest, hunks[1..], at)
    ensures Placed(pre + rest, hunks, With(p, at, |pre|))
  {
    var all := With(p, at, |pre|);
    SitsInFront(pre, rest, hunks[0].insert, p);
    forall k | 0 < k < |hunks| ensures Sits(pre + rest, hunks[k].insert, all[k]) {
      SitsBehind(pre, rest, hunks[1..][k - 1].insert, at[k - 1], all[k]);
    }
    forall j, k | 0 <= j < k < |hunks| ensures all[j] + |hunks[j].insert| <= all[k] {
      if j > 0 {
        assert at[j - 1] + |hunks[1..][j - 1].insert| <= at[k - 1];
      }
    }
  }

  lemma BlockBehind(hunks: seq<Hunk>, at: seq<nat>, n: nat, k: nat, i: nat)
    requires |at| == |hunks|
    ensures InBlock(hunks, Shift(at, n), k, i) <==> i >= n && InBlock(hunks, at, k, i - n)
  {
  }

  lemma BlockWith(hunks: seq<Hunk>, p: nat, at: seq<nat>, n: nat, k: nat, i: nat)
    requires hunks != [] && |at| == |hunks| - 1
    ensures InBlock(hunks, With(p, at, n), k, i) <==>
            if k == 0 then p <= i < p + |hunks[0].insert| else i >= n && InBlock(hunks[1..], at, k - 1, i - n)
  {
    if 0 < k < |hunks| {
      assert hunks[k] == hunks[1..][k - 1] && With(p, at, n)[k] == at[k - 1] + n;
    }
  }

  // ---- One step of the merge

  /** What a step writes: what it copies from the base, then what it types. */
  lemma StepItems(pos: int, start: int, text: string, pre: seq<Item>, r: nat)
    requires pre == Run(pos, start) + Freshly(text) && r == |Run(pos, start)|
    ensures |pre| == r + |text| && Sits(pre, text, r)
    ensures forall i :: 0 <= i < r ==> pre[i].Copied?
  {
    RunAt(pos, start);
    FreshlySpelled(text);
  }

  lemma {:induction false} FreshlySpelled(s: string)
    ensures |Freshly(s)| == |s| && forall i :: 0 <= i < |s| ==> Freshly(s)[i] == Fresh(s[i])
  {
    if s != "" {
      FreshlySpelled(s[1..]);
    }
  }

  lemma SitsInside(pre: seq<Item>, text: string, r: nat, part: string, off: nat, p: nat)
    requires Sits(pre, text, r) && off + |part| <= |text| && text[off..off + |part|] == part && p == r + off
    ensures Sits(pre, part, p)
  {
    forall i | 0 <= i < |part| ensures pre[p + i] == Fresh(part[i]) {
      assert part[i] == text[off..off + |part|][i] == text[off + i];
      assert pre[r + (off + i)] == Fresh(text[off + i]);
    }
  }

  /** A step of one side. */
  lemma OneSideCovered(pre: seq<Item>, r: nat, rest: seq<Item>, a: seq<Hunk>, at: seq<nat>, b: seq<Hunk>, at': seq<nat>)
    requires a != [] && |at| == |a| - 1 && |at'| == |b| && |pre| == r + |a[0].insert|
    requires forall i :: 0 <= i < r ==> pre[i].Copied?
    requires Covered(rest, a[1..], at, b, at')
    ensures Covered(pre + rest, a, With(r, at, |pre|), b, Shift(at', |pre|))
  {
    var n, all := |pre|, With(r, at, |pre|);
    forall i: nat | i < |pre + rest| && (pre + rest)[i].Fresh?
      ensures InSome(a, all, i) || InSome(b, Shift(at', n), i)
    {
      if i < n {
        BlockWith(a, r, at, n, 0, i);
        assert InBlock(a, all, 0, i);
      } else {
        RestCovered(pre, rest, a[1..], at, b, at', i);
        var m: nat := i - n;
        if k: nat :| InBlock(a[1..], at, k, m) {
          BlockWith(a, r, at, n, k + 1, i);
          assert InBlock(a, all, k + 1, i);
        } else {
          var k: nat :| InBlock(b, at', k, m);
          BlockBehind(b, at', n, k, i);
          assert InBlock(b, Shift(at', n), k, i);
        }
      }
    }
  }

  lemma RestCovered(pre: seq<Item>, rest: seq<Item>, a: seq<Hunk>, at: seq<nat>, b: seq<Hunk>, at': seq<nat>, i: nat)
    requires Covered(rest, a, at, b, at') && |pre| <= i < |pre + rest| && (pre + rest)[i].Fresh?
    ensures InSome(a, at, i - |pre|) || InSome(b, at', i - |pre|)
  {
    var k: nat := i - |pre|;
    assert (pre + rest)[i] == rest[k];
  }

  lemma OneSideShared(n: nat, r: nat, a: seq<Hunk>, at: seq<nat>, b: seq<Hunk>, at': seq<nat>)
    requires Leads(a, b) && |at| == |a| - 1 && |at'| == |b| && n == r + |a[0].insert|
    requires SharedIfSame(a[1..], at, b, at')
    ensures SharedIfSame(a, With(r, at, n), b, Shift(at', n))
  {
    var all, all' := With(r, at, n), Shift(at', n);
    forall j: nat, k: nat, i: nat | InBlock(a, all, j, i) && InBlock(b, all', k, i)
      ensures all[j] == all'[k] && a[j].insert == b[k].insert && Overlap(a[j], b[k]) && Paired(a, b, j, k)
    {
      BlockWith(a, r, at, n, j, i);
      BlockBehind(b, at', n, k, i);
      assert j > 0 && InBlock(a[1..], at, j - 1, i - n) && InBlock(b, at', k, i - n);
      assert a[j] == a[1..][j - 1];
    }
  }

  /** A step of both sides: ours, then theirs unless it is the same. */
  lemma PairCovered(pre: seq<Item>, r: nat, rest: seq<Item>, a: seq<Hunk>, at: seq<nat>, b: seq<Hunk>, at': seq<nat>, s: nat)
    requires a != [] && b != [] && |at| == |a| - 1 && |at'| == |b| - 1 && r <= s <= r + |a[0].insert|
    requires |pre| == s + |b[0].insert| && (s == r ==> |b[0].insert| >= |a[0].insert|)
    requires s == r || s == r + |a[0].insert|
    requires forall i :: 0 <= i < r ==> pre[i].Copied?
    requires Covered(rest, a[1..], at, b[1..], at')
    ensures Covered(pre + rest, a, With(r, at, |pre|), b, With(s, at', |pre|))
  {
    var n, all, all' := |pre|, With(r, at, |pre|), With(s, at', |pre|);
    forall i: nat | i < |pre + rest| && (pre + rest)[i].Fresh? ensures InSome(a, all, i) || InSome(b, all', i) {
      BlockWith(a, r, at, n, 0, i);
      BlockWith(b, s, at', n, 0, i);
      if i < n {
        assert InBlock(a, all, 0, i) || InBlock(b, all', 0, i);
      } else {
        RestCovered(pre, rest, a[1..], at, b[1..], at', i);
        var m: nat := i - n;
        if k: nat :| InBlock(a[1..], at, k, m) {
          BlockWith(a, r, at, n, k + 1, i);
          assert InBlock(a, all, k + 1, i);
        } else {
          var k: nat :| InBlock(b[1..], at', k, m);
          BlockWith(b, s, at', n, k + 1, i);
          assert InBlock(b, all', k + 1, i);
        }
      }
    }
  }

  lemma PairShared(n: nat, r: nat, a: seq<Hunk>, at: seq<nat>, b: seq<Hunk>, at': seq<nat>, s: nat)
    requires a != [] && b != [] && |at| == |a| - 1 && |at'| == |b| - 1 && Overlap(a[0], b[0])
    requires n == s + |b[0].insert| && r + |a[0].insert| <= n
    requires if a[0].insert == b[0].insert then s == r else s == r + |a[0].insert|
    requires SharedIfSame(a[1..], at, b[1..], at')
    ensures SharedIfSame(a, With(r, at, n), b, With(s, at', n))
  {
    var all, all' := With(r, at, n), With(s, at', n);
    forall j: nat, k: nat, i: nat | InBlock(a, all, j, i) && InBlock(b, all', k, i)
      ensures all[j] == all'[k] && a[j].insert == b[k].insert && Overlap(a[j], b[k]) && Paired(a, b, j, k)
    {
      BlockWith(a, r, at, n, j, i);
      BlockWith(b, s, at', n, k, i);
      if j > 0 || k > 0 {
        assert j > 0 && k > 0 && InBlock(a[1..], at, j - 1, i - n) && InBlock(b[1..], at', k - 1, i - n);
        assert a[j] == a[1..][j - 1] && b[k] == b[1..][k - 1];
      }
    }
  }

  /** Both sides' inserts stand where they should, and nothing else was typed. */
  ghost predicate Blocks(items: seq<Item>, a: seq<Hunk>, at: seq<nat>, b: seq<Hunk>, at': seq<nat>)
  {
    Placed(items, a, at) && Placed(items, b, at') && Covered(items, a, at, b, at') && SharedIfSame(a, at, b, at')
  }

  lemma BlocksSwap(items: seq<Item>, a: seq<Hunk>, at: seq<nat>, b: seq<Hunk>, at': seq<nat>)
    requires Blocks(items, a, at, b, at')
    ensures Blocks(items, b, at', a, at)
  {
    forall j: nat, k: nat, i: nat | InBlock(b, at', j, i) && InBlock(a, at, k, i) ensures Paired(b, a, j, k) {
      PairedSwaps(a, b, k, j);
    }
  }

  // ---- Paired changes

  /** A change both sides made identically is paired with itself, whatever else they changed. */
  lemma {:induction false} SameChangeIsPaired(a: seq<Hunk>, b: seq<Hunk>, j: nat, k: nat, len: nat)
    requires Separated(a, len) && Separated(b, len) && j < |a| && k < |b| && a[j] == b[k]
    ensures Paired(a, b, j, k)
    decreases |a| + |b|
  {
    assert j > 0 ==> a[0].end < a[j].start;
    assert k > 0 ==> b[0].end < b[k].start;
    if Overlap(a[0], b[0]) {
      if j > 0 && k > 0 {
        SameChangeIsPaired(a[1..], b[1..], j - 1, k - 1, len);
      }
    } else if a[0].start <= b[0].start {
      SameChangeIsPaired(a[1..], b, j - 1, k, len);
    } else {
      SameChangeIsPaired(a, b[1..], j, k - 1, len);
    }
  }

  lemma PairMeets(a: seq<Hunk>, u: seq<nat>, b: seq<Hunk>, v: seq<nat>, r: nat, s: nat, n: nat)
    requires a != [] && b != [] && Overlap(a[0], b[0]) && |u| == |a| - 1 && |v| == |b| - 1
    requires if a[0].insert == b[0].insert then s == r else s == r + |a[0].insert|
    requires PairsMeet(a[1..], u, b[1..], v)
    ensures PairsMeet(a, With(r, u, n), b, With(s, v, n))
  {
    forall j: nat, k: nat | Paired(a, b, j, k) && j > 0
      ensures 0 < j < |a| && 0 < k < |b| && a[j] == a[1..][j - 1] && b[k] == b[1..][k - 1] && Paired(a[1..], b[1..], j - 1, k - 1)
    {
      assert k > 0 && Paired(a[1..], b[1..], j - 1, k - 1);
    }
  }

  lemma OursMeet(a: seq<Hunk>, u: seq<nat>, b: seq<Hunk>, v: seq<nat>, r: nat, n: nat)
    requires Leads(a, b) && |u| == |a| - 1 && |v| == |b| && PairsMeet(a[1..], u, b, v)
    ensures PairsMeet(a, With(r, u, n), b, Shift(v, n))
  {
    forall j: nat, k: nat | Paired(a, b, j, k) ensures 0 < j < |a| && k < |b| && a[j] == a[1..][j - 1] && Paired(a[1..], b, j - 1, k) {
      assert j > 0 && Paired(a[1..], b, j - 1, k);
    }
  }

  lemma TheirsMeet(a: seq<Hunk>, u: seq<nat>, b: seq<Hunk>, v: seq<nat>, r: nat, n: nat)
    requires Leads(b, a) && (a != [] ==> b[0].start < a[0].start) && |u| == |a| && |v| == |b| - 1 && PairsMeet(a, u, b[1..], v)
    ensures PairsMeet(a, Shift(u, n), b, With(r, v, n))
  {
    forall j: nat, k: nat | Paired(a, b, j, k) ensures j < |a| && 0 < k < |b| && b[k] == b[1..][k - 1] && Paired(a, b[1..], j, k - 1) {
      assert k > 0 && Paired(a, b[1..], j, k - 1);
    }
  }

  lemma PairText(x: Hunk, y: Hunk, text: string, off: nat)
    requires text == x.insert + (if x.insert == y.insert then "" else y.insert)
    requires off == if x.insert == y.insert then 0 else |x.insert|
    ensures text[0..0 + |x.insert|] == x.insert && off + |y.insert| == |text| && text[off..off + |y.insert|] == y.insert
  {
  }

  lemma PairPlaced(pre: seq<Item>, r: nat, text: string, rest: seq<Item>,
                   a: seq<Hunk>, u: seq<nat>, b: seq<Hunk>, v: seq<nat>, off: nat, s: nat)
    requires a != [] && b != [] && Sits(pre, text, r) && s == r + off
    requires text == a[0].insert + (if a[0].insert == b[0].insert then "" else b[0].insert)
    requires off == if a[0].insert == b[0].insert then 0 else |a[0].insert|
    requires Placed(rest, a[1..], u) && Placed(rest, b[1..], v)
    ensures Placed(pre + rest, a, With(r, u, |pre|)) && Placed(pre + rest, b, With(s, v, |pre|))
  {
    PairText(a[0], b[0], text, off);
    SitsInside(pre, text, r, a[0].insert, 0, r);
    SitsInside(pre, text, r, b[0].insert, off, s);
    PlacedWith(pre, rest, a, r, u);
    PlacedWith(pre, rest, b, s, v);
  }

  lemma PairBlocks(pos: int, h: Hunk, pre: seq<Item>, r: nat, rest: seq<Item>,
                   a: seq<Hunk>, u: seq<nat>, b: seq<Hunk>, v: seq<nat>, off: nat, s: nat)
    requires a != [] && b != [] && Overlap(a[0], b[0]) && h == Both(a[0], b[0]).ToHunk() && s == r + off
    requires pre == Run(pos, h.start) + Freshly(h.insert) && r == |Run(pos, h.start)|
    requires off == if a[0].insert == b[0].insert then 0 else |a[0].insert|
    requires Blocks(rest, a[1..], u, b[1..], v)
    ensures Blocks(pre + rest, a, With(r, u, |pre|), b, With(s, v, |pre|))
  {
    StepItems(pos, h.start, h.insert, pre, r);
    PairPlaced(pre, r, h.insert, rest, a, u, b, v, off, s);
    PairCovered(pre, r, rest, a, u, b, v, s);
    PairShared(|pre|, r, a, u, b, v, s);
  }

  lemma OneSideBlocks(pos: int, pre: seq<Item>, r: nat, rest: seq<Item>, a: seq<Hunk>, u: seq<nat>, b: seq<Hunk>, v: seq<nat>)
    requires Leads(a, b) && pre == Run(pos, a[0].start) + Freshly(a[0].insert) && r == |Run(pos, a[0].start)|
    requires Blocks(rest, a[1..], u, b, v)
    ensures Blocks(pre + rest, a, With(r, u, |pre|), b, Shift(v, |pre|))
  {
    StepItems(pos, a[0].start, a[0].insert, pre, r);
    PlacedWith(pre, rest, a, r, u);
    PlacedBehind(pre, rest, b, v);
    OneSideCovered(pre, r, rest, a, u, b, v);
    OneSideShared(|pre|, r, a, u, b, v);
  }

  /** What the rest of the merge writes, and where it puts the rest of the inserts. */
  lemma {:induction false} BlocksOf(a: seq<Hunk>, b: seq<Hunk>, pos: int, len: nat, items: seq<Item>)
    returns (at: seq<nat>, at': seq<nat>)
    requires items == Items(ToHunks(Combine(a, b)), pos, len)
    ensures Blocks(items, a, at, b, at') && PairsMeet(a, at, b, at')
    decreases |a| + |b|
  {
    if a == [] && b == [] {
      at, at' := [], [];
      RunAt(pos, len);
    } else {
      CombineSplit(a, b);
      var hs := ToHunks(Combine(a, b));
      var h, r := hs[0], |Run(pos, hs[0].start)|;
      var pre, rest := Run(pos, h.start) + Freshly(h.insert), Items(hs[1..], h.end, len);
      assert items == pre + rest;
      if a != [] && b != [] && Overlap(a[0], b[0]) {
        var u, v := BlocksOf(a[1..], b[1..], h.end, len, rest);
        var off: nat := if a[0].insert == b[0].insert then 0 else |a[0].insert|;
        var s := r + off;
        PairBlocks(pos, h, pre, r, rest, a, u, b, v, off, s);
        PairMeets(a, u, b, v, r, s, |pre|);
        at, at' := With(r, u, |pre|), With(s, v, |pre|);
      } else if b == [] || (a != [] && a[0].start <= b[0].start) {
        var u, v := BlocksOf(a[1..], b, h.end, len, rest);
        OneSideBlocks(pos, pre, r, rest, a, u, b, v);
        OursMeet(a, u, b, v, r, |pre|);
        at, at' := With(r, u, |pre|), Shift(v, |pre|);
      } else {
        var u, v := BlocksOf(a, b[1..], h.end, len, rest);
        BlocksSwap(rest, a, u, b[1..], v);
        OneSideBlocks(pos, pre, r, rest, b, v, a, u);
        TheirsMeet(a, u, b, v, r, |pre|);
        at, at' := Shift(u, |pre|), With(r, v, |pre|);
        BlocksSwap(pre + rest, b, at', a, at);
      }
    }
  }

  /** And so an identical change lands once. */
  lemma IdenticalChangeLandsOnce(base: string, ours: string, theirs: string, j: nat, k: nat) returns (at: seq<nat>, at': seq<nat>)
    requires j < |Diff(base, ours)| && k < |Diff(base, theirs)| && Diff(base, ours)[j] == Diff(base, theirs)[k]
    ensures Blocks(MergeItems(base, ours, theirs), Diff(base, ours), at, Diff(base, theirs), at') && at[j] == at'[k]
  {
    DiffIsCorrect(base, ours);
    DiffIsCorrect(base, theirs);
    SameChangeIsPaired(Diff(base, ours), Diff(base, theirs), j, k, |base|);
    at, at' := BlocksOf(Diff(base, ours), Diff(base, theirs), 0, |base|, MergeItems(base, ours, theirs));
  }

  /**
   * Nothing typed is lost, scattered, repeated or made up. In the characters that spell the merge,
   * each side's inserts stand whole and in order, and what is not from the base is in one of them.
   * Where the merge pairs a change of each side, the same text lands once, and different texts land
   * ours first; the two sides share a block nowhere else.
   */
  lemma NothingTypedIsLost(base: string, ours: string, theirs: string) returns (at: seq<nat>, at': seq<nat>)
    ensures Spell(base, MergeItems(base, ours, theirs)) == Merge(base, ours, theirs)
    ensures Placed(MergeItems(base, ours, theirs), Diff(base, ours), at)
    ensures Placed(MergeItems(base, ours, theirs), Diff(base, theirs), at')
    ensures Covered(MergeItems(base, ours, theirs), Diff(base, ours), at, Diff(base, theirs), at')
    ensures SharedIfSame(Diff(base, ours), at, Diff(base, theirs), at')
    ensures PairsMeet(Diff(base, ours), at, Diff(base, theirs), at')
  {
    ItemsSpellMerge(base, ours, theirs);
    at, at' := BlocksOf(Diff(base, ours), Diff(base, theirs), 0, |base|, MergeItems(base, ours, theirs));
  }
}
