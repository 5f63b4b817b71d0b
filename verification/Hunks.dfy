/** Text changes as hunks, and applying them (src/core/text.ts). */
module Hunks {
  import opened Strings

  /** One change: the characters from `start` up to `end` give way to `insert`. */
  datatype Hunk = Hunk(start: int, end: int, insert: string)

  /** Where JavaScript's `slice` puts an index: negative counts from the end, past the end stops there. */
  function Clamp(len: nat, i: int): (r: nat)
    ensures r <= len
    ensures 0 <= i <= len ==> r == i
  {
    if i < 0 then (if len + i < 0 then 0 else len + i) else if i < len then i else len
  }

  /** `s.slice(i, j)`: empty when the bounds cross. */
  function Slice(s: string, i: int, j: int): string
  {
    var lo, hi := Clamp(|s|, i), Clamp(|s|, j);
    if lo < hi then s[lo..hi] else ""
  }

  function ApplyFrom(text: string, hunks: seq<Hunk>, pos: int): string
  {
    if hunks == [] then Slice(text, pos, |text|)
    else Slice(text, pos, hunks[0].start) + hunks[0].insert + ApplyFrom(text, hunks[1..], hunks[0].end)
  }

  /** The text after all of the hunks. */
  function Apply(text: string, hunks: seq<Hunk>): string
  {
    ApplyFrom(text, hunks, 0)
  }

  method ApplyHunks(text: string, hunks: seq<Hunk>) returns (out: string)
    ensures out == Apply(text, hunks)
  {
    out := "";
    var pos := 0;
    for i := 0 to |hunks|
      invariant out + ApplyFrom(text, hunks[i..], pos) == Apply(text, hunks)
    {
      var h := hunks[i];
      assert hunks[i..][1..] == hunks[i + 1..];
      out := out + (Slice(text, pos, h.start) + h.insert);
      pos := h.end;
    }
    out := out + Slice(text, pos, |text|);
  }

  /** In range, in order, and with at least one kept position between any two. */
  ghost predicate Separated(hunks: seq<Hunk>, len: nat)
  {
    && (forall i :: 0 <= i < |hunks| ==> 0 <= hunks[i].start <= hunks[i].end <= len)
    && (forall i, j :: 0 <= i < j < |hunks| ==> hunks[i].end < hunks[j].start)
  }

  /** In range and never running backwards from `pos`: what the server demands of a client's hunks. */
  ghost predicate Ordered(hunks: seq<Hunk>, pos: int, len: nat)
  {
    hunks == [] ||
    (0 <= pos <= hunks[0].start <= hunks[0].end <= len && Ordered(hunks[1..], hunks[0].end, len))
  }

  lemma {:induction false} SeparatedIsOrdered(hunks: seq<Hunk>, pos: int, len: nat)
    requires Separated(hunks, len) && 0 <= pos
    requires hunks != [] ==> pos <= hunks[0].start
    ensures Ordered(hunks, pos, len)
  {
    if hunks != [] {
      SeparatedIsOrdered(hunks[1..], hunks[0].end, len);
    }
  }

  lemma SeparatedSnoc(hunks: seq<Hunk>, h: Hunk, len: nat)
    requires Separated(hunks, len) && 0 <= h.start <= h.end <= len
    requires hunks != [] ==> hunks[|hunks| - 1].end < h.start
    ensures Separated(hunks + [h], len)
  {
    var hs := hunks + [h];
    forall i, j | 0 <= i < j < |hs| ensures hs[i].end < hs[j].start {
      if j == |hunks| && i < j - 1 {
        assert hunks[i].end < hunks[j - 1].start;
      }
    }
  }

  /** Characters a hunk list deletes plus characters it inserts. */
  ghost function Cost(hunks: seq<Hunk>): int
  {
    if hunks == [] then 0
    else Cost(hunks[..|hunks| - 1]) + hunks[|hunks| - 1].end - hunks[|hunks| - 1].start + |hunks[|hunks| - 1].insert|
  }

  lemma {:induction false} CostFront(hunks: seq<Hunk>)
    requires hunks != []
    ensures Cost(hunks) == hunks[0].end - hunks[0].start + |hunks[0].insert| + Cost(hunks[1..])
  {
    var n := |hunks|;
    if n > 1 {
      CostFront(hunks[..n - 1]);
      assert hunks[..n - 1][1..] == hunks[1..][..n - 2];
    }
  }

  // What a prefix of the hunks has written, and where it left off.

  ghost function Written(text: string, hunks: seq<Hunk>): string
  {
    if hunks == [] then ""
    else
      var init, h := hunks[..|hunks| - 1], hunks[|hunks| - 1];
      Written(text, init) + Slice(text, LeftOff(init), h.start) + h.insert
  }

  ghost function LeftOff(hunks: seq<Hunk>): int
  {
    if hunks == [] then 0 else hunks[|hunks| - 1].end
  }

  lemma {:induction false} WrittenThenRest(text: string, hunks: seq<Hunk>, k: nat)
    requires k <= |hunks|
    ensures Apply(text, hunks) == Written(text, hunks[..k]) + ApplyFrom(text, hunks[k..], LeftOff(hunks[..k]))
  {
    if k == 0 {
      assert hunks[0..] == hunks;
    } else {
      var h, w := hunks[k - 1], Written(text, hunks[..k - 1]);
      var s, r := Slice(text, LeftOff(hunks[..k - 1]), h.start), ApplyFrom(text, hunks[k..], h.end);
      WrittenThenRest(text, hunks, k - 1);
      assert Written(text, hunks[..k]) == w + s + h.insert by { assert hunks[..k][..k - 1] == hunks[..k - 1]; }
      assert ApplyFrom(text, hunks[k - 1..], LeftOff(hunks[..k - 1])) == s + h.insert + r by {
        assert hunks[k - 1..][1..] == hunks[k..];
      }
      Regroup(w, s, h.insert, r);
    }
  }

  lemma ApplyIsWritten(text: string, hunks: seq<Hunk>)
    ensures Apply(text, hunks) == Written(text, hunks) + Slice(text, LeftOff(hunks), |text|)
  {
    WrittenThenRest(text, hunks, |hunks|);
    assert hunks[..|hunks|] == hunks;
  }
}
