/** Hybrid logical clocks and their string encoding (src/core/hlc.ts). */
module Hlc {
  import opened Options

  datatype HLC = HLC(ms: int, counter: int, nodeId: string)

  const MS_PAD: nat := 19
  const COUNTER_PAD: nat := 4
  const COUNTER_MAX := 9999
  const MAX_CLOCK_DRIFT_MS := 300_000

  function CreateHlc(nodeId: string): HLC { HLC(0, 0, nodeId) }

  /** Roll the clock forward by a millisecond rather than let the counter outgrow its padding. */
  function Normalize(ms: int, counter: int, nodeId: string): HLC
  {
    if counter > COUNTER_MAX then HLC(ms + 1, 0, nodeId) else HLC(ms, counter, nodeId)
  }

  function Max(i: int, j: int): int { if i < j then j else i }

  /** Stamp a local event; `wall` is the wall clock's reading. */
  function SendHlc(local: HLC, wall: int): HLC
  {
    var ms := Max(wall, local.ms);
    Normalize(ms, if ms == local.ms then local.counter + 1 else 0, local.nodeId)
  }

  function ReceiveHlc(local: HLC, remote: HLC, wall: int): HLC
  {
    var clamped := if remote.ms < wall + MAX_CLOCK_DRIFT_MS then remote.ms else wall + MAX_CLOCK_DRIFT_MS;
    var ms := Max(Max(wall, local.ms), clamped);
    var counter :=
      if ms == local.ms && ms == clamped then Max(local.counter, remote.counter) + 1
      else if ms == local.ms then local.counter + 1
      else if ms == clamped then remote.counter + 1
      else 0;
    Normalize(ms, counter, local.nodeId)
  }

  /** Causal order, the node deciding ties. */
  predicate Before(a: HLC, b: HLC)
  {
    a.ms < b.ms || (a.ms == b.ms && (a.counter < b.counter ||
      (a.counter == b.counter && CompareHlc(a.nodeId, b.nodeId) < 0)))
  }

  /** Strictly later in time and counter, whatever the nodes. */
  predicate Above(a: HLC, b: HLC)
  {
    b.ms < a.ms || (b.ms == a.ms && b.counter < a.counter)
  }

  // ---- The string encoding

  function Digit(n: nat): char
    requires n < 10
  {
    '0' + n as char
  }

  /** `String(n)` for an integer that is not negative. */
  function Decimal(n: nat): string
  {
    if n < 10 then [Digit(n)] else Decimal(n / 10) + [Digit(n % 10)]
  }

  function Zeros(n: nat): string
  {
    if n == 0 then "" else "0" + Zeros(n - 1)
  }

  function PadStart(s: string, width: nat): string
  {
    if |s| < width then Zeros(width - |s|) + s else s
  }

  function PackHlc(h: HLC): string
    requires h.ms >= 0 && h.counter >= 0
  {
    PadStart(Decimal(h.ms), MS_PAD) + "." + PadStart(Decimal(h.counter), COUNTER_PAD) + "." + h.nodeId
  }

  /** Index of the first dot at or after `from`, or -1. */
  function IndexOfDot(s: string, from: nat): int
    requires from <= |s|
    ensures IndexOfDot(s, from) == -1 || from <= IndexOfDot(s, from) < |s|
    decreases |s| - from
  {
    if from == |s| then -1 else if s[from] == '.' then from else IndexOfDot(s, from + 1)
  }

  /**
   * `Number(s)` on decimal digits (the empty string is 0). Signs, spaces, exponents and the like, which
   * `Number` reads and no packed clock has, count as not finite here.
   */
  function ParseNumber(s: string): Option<nat>
  {
    if s == "" then Some(0)
    else
      var c := s[|s| - 1];
      match ParseNumber(s[..|s| - 1])
      case None => None
      case Some(n) => if '0' <= c <= '9' then Some(10 * n + (c - '0') as nat) else None
  }

  function UnpackHlc(packed: string): Option<HLC>
  {
    var firstDot := IndexOfDot(packed, 0);
    var secondDot := if firstDot < 0 then -1 else IndexOfDot(packed, firstDot + 1);
    if firstDot < 0 || secondDot < 0 then None
    else
      var ms, counter := ParseNumber(packed[..firstDot]), ParseNumber(packed[firstDot + 1..secondDot]);
      var nodeId := packed[secondDot + 1..];
      if ms.None? || counter.None? || nodeId == "" then None else Some(HLC(ms.value, counter.value, nodeId))
  }

  /** String order, character by character: -1, 0 or 1. */
  function CompareHlc(a: string, b: string): int
  {
    if a == "" && b == "" then 0
    else if a == "" then -1
    else if b == "" then 1
    else if a[0] < b[0] then -1
    else if b[0] < a[0] then 1
    else CompareHlc(a[1..], b[1..])
  }

  // ---- String order is a total order

  lemma {:induction false} CompareFlips(a: string, b: string)
    ensures CompareHlc(a, b) == -CompareHlc(b, a)
    ensures CompareHlc(a, b) == 0 <==> a == b
    decreases |a|
  {
    if a != "" && b != "" {
      CompareFlips(a[1..], b[1..]);
      assert a == [a[0]] + a[1..] && b == [b[0]] + b[1..];
    }
  }

  lemma {:induction false} CompareChains(a: string, b: string, c: string)
    requires CompareHlc(a, b) <= 0 && CompareHlc(b, c) <= 0
    ensures CompareHlc(a, c) <= 0
    ensures CompareHlc(a, c) == 0 ==> a == b == c
    decreases |a|
  {
    CompareFlips(a, b);
    CompareFlips(b, c);
    CompareFlips(a, c);
    if a != "" && b != "" && c != "" && a[0] == b[0] == c[0] {
      CompareChains(a[1..], b[1..], c[1..]);
      assert a == [a[0]] + a[1..] && b == [b[0]] + b[1..] && c == [c[0]] + c[1..];
    }
  }

  lemma {:induction false} CompareConcat(a: string, a': string, b: string, b': string)
    requires |a| == |b|
    ensures CompareHlc(a + a', b + b') == if a == b then CompareHlc(a', b') else CompareHlc(a, b)
    decreases |a|
  {
    if a == "" {
      assert a + a' == a' && b + b' == b';
    } else {
      CompareConcat(a[1..], a', b[1..], b');
      assert (a + a')[1..] == a[1..] + a' && (b + b')[1..] == b[1..] + b';
      assert a == [a[0]] + a[1..] && b == [b[0]] + b[1..];
    }
  }

  // ---- Padded numbers

  function Pow10(w: nat): nat
  {
    if w == 0 then 1 else 10 * Pow10(w - 1)
  }

  /** The last `w` digits of `n`. */
  function Fixed(n: nat, w: nat): (s: string)
    ensures |s| == w
  {
    if w == 0 then "" else Fixed(n / 10, w - 1) + [Digit(n % 10)]
  }

  lemma {:induction false} FixedZero(w: nat)
    ensures Fixed(0, w) == Zeros(w)
  {
    if w > 0 {
      FixedZero(w - 1);
      ZerosSnoc(w - 1);
    }
  }

  lemma {:induction false} ZerosSnoc(n: nat)
    ensures Zeros(n) + "0" == Zeros(n + 1)
  {
    if n > 0 {
      ZerosSnoc(n - 1);
      assert Zeros(n) + "0" == "0" + (Zeros(n - 1) + "0");
    }
  }

  lemma {:induction false} PadIsFixed(n: nat, w: nat)
    requires w > 0 && n < Pow10(w)
    ensures |Decimal(n)| <= w && PadStart(Decimal(n), w) == Fixed(n, w)
    decreases w
  {
    assert Pow10(1) == 10;
    if n < 10 {
      FixedZero(w - 1);
      assert Fixed(n, w) == Zeros(w - 1) + [Digit(n)];
      assert w == 1 ==> Zeros(0) + [Digit(n)] == [Digit(n)];
    } else {
      assert Pow10(w - 1) > n / 10;
      PadIsFixed(n / 10, w - 1);
      var s := Decimal(n / 10);
      if |s| < w - 1 {
        assert Zeros(w - 1 - |s|) + s + [Digit(n % 10)] == Zeros(w - 1 - |s|) + (s + [Digit(n % 10)]);
      }
    }
  }

  lemma {:induction false} FixedInOrder(n: nat, m: nat, w: nat)
    requires n < Pow10(w) && m < Pow10(w)
    ensures CompareHlc(Fixed(n, w), Fixed(m, w)) == if n < m then -1 else if n == m then 0 else 1
  {
    if w > 0 {
      FixedInOrder(n / 10, m / 10, w - 1);
      CompareFlips(Fixed(n / 10, w - 1), Fixed(m / 10, w - 1));
      CompareConcat(Fixed(n / 10, w - 1), [Digit(n % 10)], Fixed(m / 10, w - 1), [Digit(m % 10)]);
      CompareDigits(n % 10, m % 10);
    }
  }

  lemma CompareDigits(i: nat, j: nat)
    requires i < 10 && j < 10
    ensures CompareHlc([Digit(i)], [Digit(j)]) == if i < j then -1 else if i == j then 0 else 1
  {
    assert [Digit(i)][1..] == "" && [Digit(j)][1..] == "";
  }

  /** A clock whose fields fit their padding. */
  predicate Fits(h: HLC)
  {
    0 <= h.ms < Pow10(MS_PAD) && 0 <= h.counter <= COUNTER_MAX
  }

  lemma CounterFits(counter: nat)
    requires counter <= COUNTER_MAX
    ensures counter < Pow10(COUNTER_PAD)
  {
    assert Pow10(4) == 10 * Pow10(3) && Pow10(3) == 10 * Pow10(2) && Pow10(2) == 10 * Pow10(1);
  }

  lemma PackedShape(h: HLC)
    requires Fits(h)
    ensures PackHlc(h) == Fixed(h.ms, MS_PAD) + ("." + (Fixed(h.counter, COUNTER_PAD) + ("." + h.nodeId)))
  {
    CounterFits(h.counter);
    PadIsFixed(h.ms, MS_PAD);
    PadIsFixed(h.counter, COUNTER_PAD);
    var m, c, n := Fixed(h.ms, MS_PAD), Fixed(h.counter, COUNTER_PAD), h.nodeId;
    Join(m, c, n);
  }

  lemma Join(m: string, c: string, n: string)
    ensures m + "." + c + "." + n == m + ("." + (c + ("." + n)))
  {
    assert m + "." + c + "." + n == m + ("." + (c + ("." + n)));
  }

  /** String order is causal order: packed clocks compare as time, then counter, then node. */
  lemma StringOrderIsCausalOrder(a: HLC, b: HLC)
    requires Fits(a) && Fits(b)
    ensures CompareHlc(PackHlc(a), PackHlc(b)) < 0 <==> Before(a, b)
    ensures PackHlc(a) == PackHlc(b) <==> a == b
  {
    PackedShape(a);
    PackedShape(b);
    CounterFits(a.counter);
    CounterFits(b.counter);
    FixedInOrder(a.ms, b.ms, MS_PAD);
    FixedInOrder(a.counter, b.counter, COUNTER_PAD);
    var ra, rb := Fixed(a.counter, COUNTER_PAD) + ("." + a.nodeId), Fixed(b.counter, COUNTER_PAD) + ("." + b.nodeId);
    CompareConcat(Fixed(a.ms, MS_PAD), "." + ra, Fixed(b.ms, MS_PAD), "." + rb);
    CompareConcat(".", ra, ".", rb);
    CompareConcat(Fixed(a.counter, COUNTER_PAD), "." + a.nodeId, Fixed(b.counter, COUNTER_PAD), "." + b.nodeId);
    CompareConcat(".", a.nodeId, ".", b.nodeId);
    CompareFlips(Fixed(a.ms, MS_PAD), Fixed(b.ms, MS_PAD));
    CompareFlips(Fixed(a.counter, COUNTER_PAD), Fixed(b.counter, COUNTER_PAD));
    CompareFlips(a.nodeId, b.nodeId);
    CompareFlips(PackHlc(a), PackHlc(b));
  }

  lemma {:induction false} FixedParses(n: nat, w: nat)
    requires n < Pow10(w)
    ensures ParseNumber(Fixed(n, w)) == Some(n)
    ensures forall i :: 0 <= i < w ==> '0' <= Fixed(n, w)[i] <= '9'
  {
    if w > 0 {
      FixedParses(n / 10, w - 1);
      assert Fixed(n, w)[..w - 1] == Fixed(n / 10, w - 1);
    }
  }

  lemma {:induction false} FirstDot(s: string, from: nat, at: nat)
    requires from <= at < |s| && s[at] == '.'
    requires forall i :: from <= i < at ==> s[i] != '.'
    ensures IndexOfDot(s, from) == at
    decreases at - from
  {
    if from < at {
      FirstDot(s, from + 1, at);
    }
  }

  lemma TakeApart(m: string, c: string, n: string, s: string)
    requires |m| == 19 && |c| == 4 && s == m + ("." + (c + ("." + n)))
    ensures |s| == 25 + |n| && s[19] == '.' && s[24] == '.'
    ensures s[..19] == m && s[20..24] == c && s[25..] == n
  {
    var t := c + ("." + n);
    assert s[20..] == t && s[..19] == m;
    assert t[..4] == c && t[5..] == n && t[4] == '.';
    assert s[20..24] == s[20..][..4] && s[25..] == s[20..][5..];
    assert s[24] == s[20..][4];
  }

  lemma DotAtEnd(s: string, from: nat, at: nat)
    requires from <= at < |s| && s[at] == '.' && '.' !in s[from..at]
    ensures IndexOfDot(s, from) == at
  {
    forall i | from <= i < at ensures s[i] != '.' {
      assert s[from..at][i - from] == s[i];
    }
    FirstDot(s, from, at);
  }

  lemma FixedHasNoDot(n: nat, w: nat)
    requires n < Pow10(w)
    ensures '.' !in Fixed(n, w)
  {
    FixedParses(n, w);
  }

  lemma PackedFields(h: HLC)
    requires Fits(h)
    ensures var s := PackHlc(h);
            && |s| == 25 + |h.nodeId| && IndexOfDot(s, 0) == 19 && IndexOfDot(s, 20) == 24
            && s[..19] == Fixed(h.ms, MS_PAD) && s[20..24] == Fixed(h.counter, COUNTER_PAD) && s[25..] == h.nodeId
  {
    var m, c, s := Fixed(h.ms, MS_PAD), Fixed(h.counter, COUNTER_PAD), PackHlc(h);
    PackedShape(h);
    CounterFits(h.counter);
    TakeApart(m, c, h.nodeId, s);
    FixedHasNoDot(h.ms, MS_PAD);
    FixedHasNoDot(h.counter, COUNTER_PAD);
    assert s[0..19] == s[..19];
    DotAtEnd(s, 0, 19);
    DotAtEnd(s, 20, 24);
  }

  /** Packing then unpacking gives the clock back, even when the node's name has dots in it. */
  lemma PackRoundTrips(h: HLC)
    requires Fits(h) && h.nodeId != ""
    ensures UnpackHlc(PackHlc(h)) == Some(h)
  {
    PackedFields(h);
    CounterFits(h.counter);
    FixedParses(h.ms, MS_PAD);
    FixedParses(h.counter, COUNTER_PAD);
  }
}
