/** Moving a caret across a change (src/core/text.ts, `mapOffset`). */
module MapOffset {
  import opened DiffArrays
  import opened Hunks
  import opened Merge3
  import opened MergeOrder
  import opened TextDiff

  /** The loop of `mapOffset` over the hunks still ahead. */
  function MapFrom(hunks: seq<Hunk>, offset: int, delta: int): int
  {
    if hunks == [] then offset + delta
    else
      var h := hunks[0];
      if h.end < offset || (h.end == offset && h.start < offset) then
        MapFrom(hunks[1..], offset, delta + |h.insert| - (h.end - h.start))
      else if h.start < offset then h.start + delta + |h.insert|
      else offset + delta
  }

  ghost function Mapped(prev: string, next: string, offset: int): int
  {
    MapFrom(Diff(prev, next), offset, 0)
  }

  /** The loop's next turn. */
  lemma MapNext(hunks: seq<Hunk>, i: nat, next: nat, offset: int, delta: int, h: Hunk, delta': int)
    requires i < |hunks| && next == i + 1 && h == hunks[i] && delta' == delta + |h.insert| - (h.end - h.start)
    ensures MapFrom(hunks[i..], offset, delta)
         == if h.end < offset || (h.end == offset && h.start < offset) then MapFrom(hunks[next..], offset, delta')
            else if h.start < offset then h.start + delta + |h.insert| else offset + delta
  {
    assert hunks[i..][0] == h && hunks[i..][1..] == hunks[next..];
  }

  method MapCaret(prev: string, next: string, offset: int) returns (r: int)
    ensures r == Mapped(prev, next, offset)
  {
    var hunks := DiffText(prev, next);
    var delta := 0;
    var i := 0;
    ghost var goal := MapFrom(hunks, offset, 0);
    assert hunks[0..] == hunks;
    while i < |hunks|
      invariant 0 <= i <= |hunks|
      invariant MapFrom(hunks[i..], offset, delta) == goal
    {
      var h := hunks[i];
      var moved := delta + |h.insert| - (h.end - h.start);
      var after := i + 1;
      MapNext(hunks, i, after, offset, delta, h, moved);
      if h.end < offset || (h.end == offset && h.start < offset) {
        delta := moved;
      } else if h.start < offset {
        return h.start + delta + |h.insert|;
      } else {
        break;
      }
      i := after;
    }
    r := offset + delta;
  }

  lemma {:induction false} MapStaysInside(text: string, hunks: seq<Hunk>, pos: int, offset: int, delta: int)
    requires Ordered(hunks, pos, |text|) && 0 <= pos <= offset <= |text|
    ensures pos + delta <= MapFrom(hunks, offset, delta) <= pos + delta + |ApplyFrom(text, hunks, pos)|
    decreases |hunks|
  {
    if hunks != [] {
      var h := hunks[0];
      if h.end <= offset {
        MapStaysInside(text, hunks[1..], h.end, offset, delta + |h.insert| - (h.end - h.start));
      }
    }
  }

  lemma {:induction false} MapRises(text: string, hunks: seq<Hunk>, pos: int, offset: int, offset': int, delta: int)
    requires Ordered(hunks, pos, |text|) && 0 <= pos <= offset <= offset' <= |text|
    ensures MapFrom(hunks, offset, delta) <= MapFrom(hunks, offset', delta)
    decreases |hunks|
  {
    if hunks != [] {
      var h := hunks[0];
      var delta' := delta + |h.insert| - (h.end - h.start);
      if h.end <= offset {
        MapRises(text, hunks[1..], h.end, offset, offset', delta');
        MapStaysInside(text, hunks[1..], h.end, offset', delta');
      } else if h.end <= offset' {
        MapStaysInside(text, hunks[1..], h.end, offset', delta');
      }
    }
  }

  lemma {:induction false} MapFollowsCopy(hunks: seq<Hunk>, pos: int, len: nat, offset: int, delta: int, i: int)
    requires Ordered(hunks, pos, len) && 0 <= pos < offset <= len && !Deleted(hunks, offset - 1)
    requires i == MapFrom(hunks, offset, delta) - 1 - pos - delta
    ensures 0 <= i < |Items(hunks, pos, len)| && Items(hunks, pos, len)[i] == Copied(offset - 1)
    decreases |hunks|
  {
    if hunks == [] {
      RunAt(pos, len);
    } else {
      var h := hunks[0];
      DeletedFirst(hunks, offset - 1);
      RunAt(pos, h.start);
      FreshlyLength(h.insert);
      if h.end < offset {
        var delta' := delta + |h.insert| - (h.end - h.start);
        MapFollowsCopy(hunks[1..], h.end, len, offset, delta', MapFrom(hunks[1..], offset, delta') - 1 - h.end - delta');
      }
    }
  }

  lemma {:induction false} FreshlyLength(s: string)
    ensures |Freshly(s)| == |s|
  {
    if s != "" {
      FreshlyLength(s[1..]);
    }
  }

  lemma {:induction false} SpellAt(base: string, items: seq<Item>, i: nat)
    requires i < |items|
    requires forall k :: 0 <= k < |items| && items[k].Copied? ==> 0 <= items[k].at < |base|
    ensures |Spell(base, items)| == |items|
    ensures items[i].Copied? ==> Spell(base, items)[i] == base[items[i].at]
    decreases |items|
  {
    if |items| > 1 {
      SpellAt(base, items[1..], if i == 0 then 0 else i - 1);
    }
  }

  lemma {:induction false} ItemsInBase(hunks: seq<Hunk>, pos: int, len: nat)
    requires Ordered(hunks, pos, len) && 0 <= pos
    ensures forall k :: 0 <= k < |Items(hunks, pos, len)| && Items(hunks, pos, len)[k].Copied?
              ==> 0 <= Items(hunks, pos, len)[k].at < len
    decreases |hunks|
  {
    if hunks == [] {
      RunAt(pos, len);
    } else {
      RunAt(pos, hunks[0].start);
      FreshlyTyped(hunks[0].insert);
      ItemsInBase(hunks[1..], hunks[0].end, len);
    }
  }

  lemma {:induction false} OrderedRises(hunks: seq<Hunk>, pos: int, len: nat)
    requires Ordered(hunks, pos, len) && 0 <= pos
    ensures Rising(hunks, pos, len)
    decreases |hunks|
  {
    if hunks != [] {
      OrderedRises(hunks[1..], hunks[0].end, len);
      RisingFrom(hunks[1..], hunks[0].start, hunks[0].end, len);
    }
  }

  lemma RisingFrom(hunks: seq<Hunk>, lo: int, hi: int, len: nat)
    requires 0 <= lo <= hi && Rising(hunks, hi, len)
    ensures Rising(hunks, lo, len)
  {
  }

  /** A caret inside the old text lands inside the new one, and carets never cross. */
  lemma MapIsMonotone(prev: string, next: string, offset: int, offset': int)
    requires 0 <= offset <= offset' <= |prev|
    ensures 0 <= Mapped(prev, next, offset) <= Mapped(prev, next, offset') <= |next|
  {
    DiffIsCorrect(prev, next);
    SeparatedIsOrdered(Diff(prev, next), 0, |prev|);
    MapStaysInside(prev, Diff(prev, next), 0, offset, 0);
    MapStaysInside(prev, Diff(prev, next), 0, offset', 0);
    MapRises(prev, Diff(prev, next), 0, offset, offset', 0);
  }

  /**
   * If the diff keeps the character before the caret, that very character (not merely an equal one)
   * is before the mapped caret.
   */
  lemma CaretFollowsItsCharacter(prev: string, next: string, offset: int)
    requires 0 < offset <= |prev| && !Deleted(Diff(prev, next), offset - 1)
    ensures var items, last := Items(Diff(prev, next), 0, |prev|), Mapped(prev, next, offset) - 1;
            && Spell(prev, items) == next
            && 0 <= last < |items| == |next| && items[last] == Copied(offset - 1) && next[last] == prev[offset - 1]
  {
    DiffIsCorrect(prev, next);
    CaretOn(prev, Diff(prev, next), offset, Items(Diff(prev, next), 0, |prev|), Mapped(prev, next, offset) - 1);
  }

  lemma CaretOn(prev: string, hunks: seq<Hunk>, offset: int, items: seq<Item>, last: int)
    requires 0 < offset <= |prev| && !Deleted(hunks, offset - 1) && Separated(hunks, |prev|)
    requires items == Items(hunks, 0, |prev|) && last == MapFrom(hunks, offset, 0) - 1
    ensures Spell(prev, items) == Apply(prev, hunks) && |items| == |Spell(prev, items)|
    ensures 0 <= last < |items| && items[last] == Copied(offset - 1) && Spell(prev, items)[last] == prev[offset - 1]
  {
    SeparatedIsOrdered(hunks, 0, |prev|);
    OrderedRises(hunks, 0, |prev|);
    ItemsSpellApply(prev, hunks, 0, 0);
    MapFollowsCopy(hunks, 0, |prev|, offset, 0, last);
    ItemsInBase(hunks, 0, |prev|);
    SpellAt(prev, items, last);
  }
}
