/** Where every character of a merge comes from: base positions stay in order and appear once. */
module MergeOrder {
  import opened Hunks
  import opened Merge3
  import opened TextDiff

  /** A character of the result: copied from a base position, or typed by one of the sides. */
  datatype Item = Copied(at: int) | Fresh(c: char)

  ghost function Run(i: int, j: int): seq<Item>
    decreases j - i
  {
    if i < j then [Copied(i)] + Run(i + 1, j) else []
  }

  ghost function Freshly(s: string): seq<Item>
  {
    if s == "" then [] else [Fresh(s[0])] + Freshly(s[1..])
  }

  /** What applying the hunks from `pos` on writes, with where each character came from. */
  ghost function Items(hunks: seq<Hunk>, pos: int, len: nat): seq<Item>
  {
    if hunks == [] then Run(pos, len)
    else Run(pos, hunks[0].start) + Freshly(hunks[0].insert) + Items(hunks[1..], hunks[0].end, len)
  }

  ghost function Spell(base: string, items: seq<Item>): string
  {
    if items == [] then "" else SpellOne(base, items[0]) + Spell(base, items[1..])
  }

  ghost function SpellOne(base: string, item: Item): string
  {
    if item.Fresh? then [item.c] else Slice(base, item.at, item.at + 1)
  }

  lemma Reassociate(r: string, s: string, t: string)
    ensures r + (s + t) == r + s + t
  {
  }

  lemma {:induction false} SpellConcat(base: string, s: seq<Item>, t: seq<Item>)
    ensures Spell(base, s + t) == Spell(base, s) + Spell(base, t)
    decreases |s|
  {
    if s == [] {
      assert s + t == t;
    } else {
      SpellConcat(base, s[1..], t);
      assert (s + t)[1..] == s[1..] + t && (s + t)[0] == s[0];
      Reassociate(SpellOne(base, s[0]), Spell(base, s[1..]), Spell(base, t));
    }
  }

  lemma {:induction false} SpellRun(base: string, i: int, j: int)
    requires 0 <= i && 0 <= j <= |base|
    ensures Spell(base, Run(i, j)) == Slice(base, i, j)
    decreases j - i
  {
    if i < j {
      var run := Run(i + 1, j);
      SpellRun(base, i + 1, j);
      assert Run(i, j) == [Copied(i)] + run && ([Copied(i)] + run)[1..] == run;
      assert SpellOne(base, Copied(i)) == [base[i]];
      assert base[i..j] == [base[i]] + base[i + 1..j];
    }
  }

  lemma {:induction false} SpellFreshly(base: string, s: string)
    ensures Spell(base, Freshly(s)) == s
  {
    if s != "" {
      SpellFreshly(base, s[1..]);
      assert Freshly(s)[1..] == Freshly(s[1..]);
    }
  }

  /** Starts never fall, and no hunk ends before it starts: what the merge loop produces. */
  ghost predicate Rising(hunks: seq<Hunk>, lo: int, len: nat)
  {
    hunks == [] ||
    (0 <= lo <= hunks[0].start <= hunks[0].end <= len && Rising(hunks[1..], hunks[0].start, len))
  }

  /** The items spell what applying the hunks gives. */
  lemma {:induction false} ItemsSpellApply(base: string, hunks: seq<Hunk>, pos: int, lo: int)
    requires 0 <= pos && Rising(hunks, lo, |base|)
    ensures Spell(base, Items(hunks, pos, |base|)) == ApplyFrom(base, hunks, pos)
    decreases |hunks|
  {
    if hunks == [] {
      SpellRun(base, pos, |base|);
    } else {
      var h := hunks[0];
      ItemsSpellApply(base, hunks[1..], h.end, h.start);
      SpellRun(base, pos, h.start);
      SpellFreshly(base, h.insert);
      SpellConcat(base, Run(pos, h.start) + Freshly(h.insert), Items(hunks[1..], h.end, |base|));
      SpellConcat(base, Run(pos, h.start), Freshly(h.insert));
    }
  }

  /** Base positions are at least `lo`, strictly increasing: in order, none twice. */
  ghost predicate InOrder(items: seq<Item>, lo: int)
  {
    && (forall i :: 0 <= i < |items| && items[i].Copied? ==> lo <= items[i].at)
    && (forall i, j :: 0 <= i < j < |items| && items[i].Copied? && items[j].Copied? ==> items[i].at < items[j].at)
  }

  lemma {:induction false} RunAt(i: int, j: int)
    ensures |Run(i, j)| == if i < j then j - i else 0
    ensures forall k :: 0 <= k < |Run(i, j)| ==> Run(i, j)[k] == Copied(i + k)
    decreases j - i
  {
    if i < j {
      RunAt(i + 1, j);
    }
  }

  lemma {:induction false} FreshlyTyped(s: string)
    ensures forall k :: 0 <= k < |Freshly(s)| ==> Freshly(s)[k].Fresh?
  {
    if s != "" {
      FreshlyTyped(s[1..]);
    }
  }

  lemma InOrderConcat(s: seq<Item>, t: seq<Item>, lo: int, mid: int)
    requires InOrder(s, lo) && InOrder(t, mid) && lo <= mid
    requires forall i :: 0 <= i < |s| && s[i].Copied? ==> s[i].at < mid
    ensures InOrder(s + t, lo)
  {
  }

  lemma {:induction false} RisingKeepsOrder(hunks: seq<Hunk>, pos: int, lo: int, len: nat)
    requires Rising(hunks, lo, len) && lo <= pos
    ensures InOrder(Items(hunks, pos, len), lo)
    decreases |hunks|
  {
    if hunks == [] {
      RunAt(pos, len);
    } else {
      var h := hunks[0];
      RunAt(pos, h.start);
      FreshlyTyped(h.insert);
      RisingKeepsOrder(hunks[1..], h.end, h.start, len);
      InOrderConcat(Run(pos, h.start), Freshly(h.insert), lo, h.start);
      InOrderConcat(Run(pos, h.start) + Freshly(h.insert), Items(hunks[1..], h.end, len), lo, h.start);
    }
  }

  lemma {:induction false} CombineRises(a: seq<Hunk>, b: seq<Hunk>, lo: int, len: nat)
    requires Separated(a, len) && Separated(b, len) && 0 <= lo && Ahead(a, lo) && Ahead(b, lo)
    ensures Rising(ToHunks(Combine(a, b)), lo, len)
    decreases |a| + |b|
  {
    if a != [] || b != [] {
      CombineSplit(a, b);
      var start := ToHunks(Combine(a, b))[0].start;
      assert |a| > 1 ==> a[0].end < a[1].start;
      assert |b| > 1 ==> b[0].end < b[1].start;
      if a != [] && b != [] && Overlap(a[0], b[0]) {
        CombineRises(a[1..], b[1..], start, len);
      } else if b == [] || (a != [] && a[0].start <= b[0].start) {
        CombineRises(a[1..], b, start, len);
      } else {
        CombineRises(a, b[1..], start, len);
      }
    }
  }

  /** A position is among the items exactly when the hunks keep it. */
  lemma {:induction false} ItemsAreKept(hunks: seq<Hunk>, pos: int, len: nat, p: int)
    ensures Copied(p) in Items(hunks, pos, len) <==> KeptFrom(hunks, pos, len, p)
    decreases |hunks|
  {
    if hunks == [] {
      RunHas(pos, len, p);
    } else {
      RunHas(pos, hunks[0].start, p);
      FreshlyTyped(hunks[0].insert);
      ItemsAreKept(hunks[1..], hunks[0].end, len, p);
    }
  }

  lemma {:induction false} RunHas(i: int, j: int, p: int)
    ensures Copied(p) in Run(i, j) <==> i <= p < j
    decreases j - i
  {
    if i < j {
      RunHas(i + 1, j, p);
    }
  }

  /** The merge, with where each character comes from. */
  ghost function MergeItems(base: string, ours: string, theirs: string): seq<Item>
  {
    Items(ToHunks(Combine(Diff(base, ours), Diff(base, theirs))), 0, |base|)
  }

  /** The items of a merge spell it. */
  lemma ItemsSpellMerge(base: string, ours: string, theirs: string)
    ensures Spell(base, MergeItems(base, ours, theirs)) == Merge(base, ours, theirs)
  {
    var a, b := Diff(base, ours), Diff(base, theirs);
    DiffIsCorrect(base, ours);
    DiffIsCorrect(base, theirs);
    MergeIsItsLoop(base, ours, theirs);
    CombineRises(a, b, 0, |base|);
    ItemsSpellApply(base, ToHunks(Combine(a, b)), 0, 0);
  }

  /**
   * For every base and every two changes of it, the merge has base positions in order and none twice,
   * among them every position that neither diff deletes.
   */
  lemma MergeKeepsBaseInOrder(base: string, ours: string, theirs: string)
    ensures InOrder(MergeItems(base, ours, theirs), 0)
    ensures forall p :: 0 <= p < |base| && !Deleted(Diff(base, ours), p) && !Deleted(Diff(base, theirs), p)
              ==> Copied(p) in MergeItems(base, ours, theirs)
  {
    var a, b := Diff(base, ours), Diff(base, theirs);
    DiffIsCorrect(base, ours);
    DiffIsCorrect(base, theirs);
    var hunks := ToHunks(Combine(a, b));
    CombineRises(a, b, 0, |base|);
    RisingKeepsOrder(hunks, 0, 0, |base|);
    forall p | 0 <= p < |base| && !Deleted(a, p) && !Deleted(b, p)
      ensures Copied(p) in Items(hunks, 0, |base|)
    {
      UntouchedIsKept(a, b, 0, |base|, p);
      ItemsAreKept(hunks, 0, |base|, p);
    }
  }
}
