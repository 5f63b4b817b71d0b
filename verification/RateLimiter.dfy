/** The fixed-window rate limiter (src/server/enforcement.ts, `createRateLimiter`). */
module RateLimiter {
  import opened Options

  datatype Bucket = Bucket(count: int, resetAt: int)

  type Buckets = map<string, Bucket>

  /** Limits; 0 stands for none. */
  datatype Limits = Limits(opsPerSecond: nat, opsPerMinute: nat)

  datatype Config = Config(global: Limits, perTable: map<string, Limits>)

  const SECOND := 1000
  const MINUTE := 60_000

  function GlobalKey(userId: string, clientId: string): string
  {
    userId + ":" + clientId
  }

  function TableKey(userId: string, clientId: string, table: string): string
  {
    userId + ":" + clientId + ":" + table
  }

  function BucketAt(buckets: Buckets, k: string): Option<Bucket>
  {
    if k in buckets then Some(buckets[k]) else None
  }

  predicate Passes(bucket: Option<Bucket>, limit: nat, now: int)
  {
    limit == 0 || bucket.None? || now >= bucket.value.resetAt || bucket.value.count < limit
  }

  function Counted(bucket: Option<Bucket>, limit: nat, windowMs: int, now: int): Option<Bucket>
  {
    if limit == 0 then bucket
    else if bucket.None? || now >= bucket.value.resetAt then Some(Bucket(1, now + windowMs))
    else Some(Bucket(bucket.value.count + 1, bucket.value.resetAt))
  }

  function Fresh(buckets: Buckets, now: int): Buckets
  {
    map k | k in buckets && now < buckets[k].resetAt :: buckets[k]
  }

  datatype State = State(seconds: Buckets, minutes: Buckets, lastCleanup: int)

  function Cleaned(s: State, now: int): State
  {
    if now - s.lastCleanup < 60_000 then s else State(Fresh(s.seconds, now), Fresh(s.minutes, now), now)
  }

  /** One bucket an operation is held against: in the minute or the second map, its key and its limit. */
  datatype Probe = Probe(minute: bool, key: string, limit: nat)

  function WindowOf(p: Probe): int { if p.minute then MINUTE else SECOND }

  function TableLimits(config: Config, table: Option<string>): Option<Limits>
  {
    if table.Some? && table.value != "" && table.value in config.perTable then Some(config.perTable[table.value]) else None
  }

  /** The buckets an operation is held against, in the order they are checked and recorded. */
  function Probes(config: Config, userId: string, clientId: string, table: Option<string>): seq<Probe>
  {
    var gk := GlobalKey(userId, clientId);
    [Probe(false, gk, config.global.opsPerSecond), Probe(true, gk, config.global.opsPerMinute)]
    + match TableLimits(config, table)
      case None => []
      case Some(limits) =>
        var tk := TableKey(userId, clientId, table.value);
        [Probe(false, tk, limits.opsPerSecond), Probe(true, tk, limits.opsPerMinute)]
  }

  function Held(s: State, p: Probe): Option<Bucket>
  {
    BucketAt(if p.minute then s.minutes else s.seconds, p.key)
  }

  predicate PassesAll(s: State, probes: seq<Probe>, now: int)
  {
    forall i :: 0 <= i < |probes| ==> Passes(Held(s, probes[i]), probes[i].limit, now)
  }

  function PutBucket(buckets: Buckets, k: string, bucket: Option<Bucket>): Buckets
  {
    if bucket.Some? then buckets[k := bucket.value] else buckets
  }

  function RecordOne(s: State, p: Probe, now: int): State
  {
    var bucket := Counted(Held(s, p), p.limit, WindowOf(p), now);
    if p.minute then s.(minutes := PutBucket(s.minutes, p.key, bucket)) else s.(seconds := PutBucket(s.seconds, p.key, bucket))
  }

  function RecordAll(s: State, probes: seq<Probe>, now: int): State
    decreases |probes|
  {
    if probes == [] then s else RecordAll(RecordOne(s, probes[0], now), probes[1..], now)
  }

  lemma RecordPair(s: State, probes: seq<Probe>, now: int)
    requires |probes| >= 2
    ensures RecordAll(s, probes, now) == RecordAll(RecordOne(RecordOne(s, probes[0], now), probes[1], now), probes[2..], now)
  {
    assert probes[1..][1..] == probes[2..];
  }

  class RateLimiter {
    const config: Config
    var secondBuckets: Buckets
    var minuteBuckets: Buckets
    var lastCleanup: int

    ghost function View(): State
      reads this
    {
      State(secondBuckets, minuteBuckets, lastCleanup)
    }

    constructor (config: Config, now: int)
      ensures View() == State(map[], map[], now) && this.config == config
    {
      this.config := config;
      secondBuckets, minuteBuckets, lastCleanup := map[], map[], now;
    }

    method CleanupStale(now: int)
      modifies this
      ensures View() == Cleaned(old(View()), now)
    {
      if now - lastCleanup < 60_000 {
        return;
      }
      lastCleanup := now;
      secondBuckets := map k | k in secondBuckets && now < secondBuckets[k].resetAt :: secondBuckets[k];
      minuteBuckets := map k | k in minuteBuckets && now < minuteBuckets[k].resetAt :: minuteBuckets[k];
    }

    static method CheckBucket(buckets: Buckets, k: string, limit: nat, now: int) returns (ok: bool)
      ensures ok == Passes(BucketAt(buckets, k), limit, now)
    {
      if limit == 0 {
        return true;
      }
      ok := !(k in buckets && now < buckets[k].resetAt && buckets[k].count >= limit);
    }

    static method RecordBucket(buckets: Buckets, k: string, limit: nat, windowMs: int, now: int) returns (r: Buckets)
      ensures r == PutBucket(buckets, k, Counted(BucketAt(buckets, k), limit, windowMs, now))
    {
      if limit == 0 {
        assert k in buckets ==> buckets[k := buckets[k]] == buckets;
        return buckets;
      }
      if k !in buckets || now >= buckets[k].resetAt {
        r := buckets[k := Bucket(1, now + windowMs)];
      } else {
        r := buckets[k := Bucket(buckets[k].count + 1, buckets[k].resetAt)];
      }
    }

    method Check(userId: string, clientId: string, table: Option<string>, now: int) returns (ok: bool)
      modifies this
      ensures View() == Cleaned(old(View()), now)
      ensures ok == PassesAll(View(), Probes(config, userId, clientId, table), now)
    {
      CleanupStale(now);
      ghost var probes := Probes(config, userId, clientId, table);
      var gk := GlobalKey(userId, clientId);
      ok := CheckBucket(secondBuckets, gk, config.global.opsPerSecond, now);
      assert probes[0] == Probe(false, gk, config.global.opsPerSecond);
      if !ok { return; }
      ok := CheckBucket(minuteBuckets, gk, config.global.opsPerMinute, now);
      assert probes[1] == Probe(true, gk, config.global.opsPerMinute);
      if !ok { return; }
      var limits := TableLimits(config, table);
      if limits.Some? {
        var tk := TableKey(userId, clientId, table.value);
        ok := CheckBucket(secondBuckets, tk, limits.value.opsPerSecond, now);
        assert probes[2] == Probe(false, tk, limits.value.opsPerSecond);
        if !ok { return; }
        ok := CheckBucket(minuteBuckets, tk, limits.value.opsPerMinute, now);
        assert probes[3] == Probe(true, tk, limits.value.opsPerMinute);
      }
    }

    method Record(userId: string, clientId: string, table: Option<string>, now: int)
      modifies this
      ensures View() == Cleaned(RecordAll(old(View()), Probes(config, userId, clientId, table), now), now)
    {
      ghost var before, probes := View(), Probes(config, userId, clientId, table);
      var gk := GlobalKey(userId, clientId);
      secondBuckets := RecordBucket(secondBuckets, gk, config.global.opsPerSecond, SECOND, now);
      minuteBuckets := RecordBucket(minuteBuckets, gk, config.global.opsPerMinute, MINUTE, now);
      ghost var middle := View();
      RecordPair(before, probes, now);
      assert middle == RecordOne(RecordOne(before, probes[0], now), probes[1], now);
      var limits := TableLimits(config, table);
      if limits.Some? {
        var tk := TableKey(userId, clientId, table.value);
        secondBuckets := RecordBucket(secondBuckets, tk, limits.value.opsPerSecond, SECOND, now);
        minuteBuckets := RecordBucket(minuteBuckets, tk, limits.value.opsPerMinute, MINUTE, now);
        assert View() == RecordOne(RecordOne(middle, probes[2], now), probes[3], now);
        RecordPair(middle, probes[2..], now);
        assert probes[2..][2..] == [];
      }
      assert View() == RecordAll(before, probes, now);
      CleanupStale(now);
    }
  }

  // ---- Whole histories

  /** An operation held to the limits: checked, and recorded if every check passes. */
  datatype Attempt = Attempt(userId: string, clientId: string, table: Option<string>, checkAt: int, recordAt: int)

  function ProbesOf(config: Config, a: Attempt): seq<Probe>
  {
    Probes(config, a.userId, a.clientId, a.table)
  }

  predicate Admits(config: Config, s: State, a: Attempt)
  {
    PassesAll(s, ProbesOf(config, a), a.checkAt)
  }

  /** The limiter after an attempt, cleaning up as it goes. */
  function AfterCleaning(config: Config, s: State, a: Attempt): State
  {
    var s1 := Cleaned(s, a.checkAt);
    if Admits(config, s1, a) then Cleaned(RecordAll(s1, ProbesOf(config, a), a.recordAt), a.recordAt) else s1
  }

  /** The limiter after an attempt, never cleaning up. */
  function AfterKeeping(config: Config, s: State, a: Attempt): State
  {
    if Admits(config, s, a) then RecordAll(s, ProbesOf(config, a), a.recordAt) else s
  }

  /** Which attempts are admitted, in order. */
  function DecisionsCleaning(config: Config, s: State, attempts: seq<Attempt>): seq<bool>
    decreases |attempts|
  {
    if attempts == [] then []
    else [Admits(config, Cleaned(s, attempts[0].checkAt), attempts[0])]
         + DecisionsCleaning(config, AfterCleaning(config, s, attempts[0]), attempts[1..])
  }

  function DecisionsKeeping(config: Config, s: State, attempts: seq<Attempt>): seq<bool>
    decreases |attempts|
  {
    if attempts == [] then []
    else [Admits(config, s, attempts[0])] + DecisionsKeeping(config, AfterKeeping(config, s, attempts[0]), attempts[1..])
  }

  /** Each attempt is recorded no earlier than it is checked, and checked no earlier than the one before was recorded. */
  ghost predicate InTime(attempts: seq<Attempt>, from: int)
    decreases |attempts|
  {
    attempts == [] ||
    (from <= attempts[0].checkAt <= attempts[0].recordAt && InTime(attempts[1..], attempts[0].recordAt))
  }

  // ---- Cleanup never changes a decision

  /** A bucket as far as anyone asking at `now` or later can tell. */
  function LiveAt(bucket: Option<Bucket>, now: int): Option<Bucket>
  {
    if bucket.Some? && now < bucket.value.resetAt then bucket else None
  }

  /** The two states tell the same from `now` on. */
  ghost predicate Alike(s: State, t: State, now: int)
  {
    forall p: Probe :: LiveAt(Held(s, p), now) == LiveAt(Held(t, p), now)
  }

  lemma CleanedIsAlike(s: State, now: int)
    ensures Alike(Cleaned(s, now), s, now)
  {
  }

  lemma AlikeLater(s: State, t: State, now: int, later: int)
    requires Alike(s, t, now) && now <= later
    ensures Alike(s, t, later)
  {
    forall p: Probe ensures LiveAt(Held(s, p), later) == LiveAt(Held(t, p), later) {
      assert LiveAt(Held(s, p), now) == LiveAt(Held(t, p), now);
    }
  }

  lemma AlikePasses(s: State, t: State, now: int, probes: seq<Probe>)
    requires Alike(s, t, now)
    ensures PassesAll(s, probes, now) == PassesAll(t, probes, now)
  {
    forall i | 0 <= i < |probes|
      ensures Passes(Held(s, probes[i]), probes[i].limit, now) == Passes(Held(t, probes[i]), probes[i].limit, now)
    {
      assert LiveAt(Held(s, probes[i]), now) == LiveAt(Held(t, probes[i]), now);
    }
  }

  lemma AlikeRecords(s: State, t: State, now: int, p: Probe)
    requires Alike(s, t, now)
    ensures Alike(RecordOne(s, p, now), RecordOne(t, p, now), now)
  {
    assert LiveAt(Held(s, p), now) == LiveAt(Held(t, p), now);
    forall q: Probe ensures LiveAt(Held(RecordOne(s, p, now), q), now) == LiveAt(Held(RecordOne(t, p, now), q), now) {
      assert LiveAt(Held(s, q), now) == LiveAt(Held(t, q), now);
    }
  }

  lemma {:induction false} AlikeRecordsAll(s: State, t: State, now: int, probes: seq<Probe>)
    requires Alike(s, t, now)
    ensures Alike(RecordAll(s, probes, now), RecordAll(t, probes, now), now)
    decreases |probes|
  {
    if probes != [] {
      AlikeRecords(s, t, now, probes[0]);
      AlikeRecordsAll(RecordOne(s, probes[0], now), RecordOne(t, probes[0], now), now, probes[1..]);
    }
  }

  lemma AlikeChain(s: State, t: State, u: State, now: int)
    requires Alike(s, t, now) && Alike(t, u, now)
    ensures Alike(s, u, now)
  {
    forall p: Probe ensures LiveAt(Held(s, p), now) == LiveAt(Held(u, p), now) {
      assert LiveAt(Held(s, p), now) == LiveAt(Held(t, p), now);
    }
  }

  /** Dropping stale buckets, whenever it happens, never changes which operations are admitted. */
  lemma {:induction false} CleanupNeverDecides(config: Config, s: State, t: State, attempts: seq<Attempt>, from: int)
    requires Alike(s, t, from) && InTime(attempts, from)
    ensures DecisionsCleaning(config, s, attempts) == DecisionsKeeping(config, t, attempts)
    decreases |attempts|
  {
    if attempts != [] {
      var a := attempts[0];
      var probes, s1 := ProbesOf(config, a), Cleaned(s, a.checkAt);
      AlikeLater(s, t, from, a.checkAt);
      CleanedIsAlike(s, a.checkAt);
      AlikeChain(s1, s, t, a.checkAt);
      AlikePasses(s1, t, a.checkAt, probes);
      AlikeLater(s1, t, a.checkAt, a.recordAt);
      if Admits(config, s1, a) {
        var s2, t2 := RecordAll(s1, probes, a.recordAt), RecordAll(t, probes, a.recordAt);
        AlikeRecordsAll(s1, t, a.recordAt, probes);
        CleanedIsAlike(s2, a.recordAt);
        AlikeChain(Cleaned(s2, a.recordAt), s2, t2, a.recordAt);
      }
      CleanupNeverDecides(config, AfterCleaning(config, s, a), AfterKeeping(config, t, a), attempts[1..], a.recordAt);
    }
  }

  // ---- The bound

  /** How many of the times fall in `[lo, hi)`. */
  function Count(times: seq<int>, lo: int, hi: int): nat
  {
    if times == [] then 0
    else Count(times[..|times| - 1], lo, hi) + if lo <= times[|times| - 1] < hi then 1 else 0
  }

  /** How many fall in the half-open interval of one window length from `lo`. */
  function InWindow(times: seq<int>, lo: int, windowMs: int): nat
  {
    Count(times, lo, lo + windowMs)
  }

  lemma {:induction false} CountSplits(times: seq<int>, lo: int, mid: int, hi: int)
    requires lo <= mid <= hi
    ensures Count(times, lo, hi) == Count(times, lo, mid) + Count(times, mid, hi)
  {
    if times != [] {
      CountSplits(times[..|times| - 1], lo, mid, hi);
    }
  }

  lemma {:induction false} CountNarrows(times: seq<int>, lo: int, hi: int, lo': int, hi': int)
    requires lo <= lo' && hi' <= hi
    ensures Count(times, lo', hi') <= Count(times, lo, hi)
  {
    if times != [] {
      CountNarrows(times[..|times| - 1], lo, hi, lo', hi');
    }
  }

  lemma {:induction false} CountNone(times: seq<int>, lo: int, hi: int)
    requires forall i :: 0 <= i < |times| ==> times[i] < lo || hi <= times[i]
    ensures Count(times, lo, hi) == 0
  {
    if times != [] {
      CountNone(times[..|times| - 1], lo, hi);
    }
  }

  /**
   * What the bucket says about the times recorded under one limit: its own window holds at most the
   * limit, fewer than that came after it opened, and fewer than that within one window before it.
   */
  ghost predicate Holds(bucket: Bucket, times: seq<int>, limit: nat, windowMs: int)
  {
    var start, end := bucket.resetAt - windowMs, bucket.resetAt;
    && (forall i :: 0 <= i < |times| ==> times[i] < end)
    && Count(times, start, end) <= bucket.count && Count(times, start, end) <= limit
    && Count(times, start + 1, end) <= bucket.count - 1 && Count(times, start + 1, end) < limit
    && (forall lo :: start - windowMs < lo <= start ==> Count(times, lo, start) < limit)
  }

  /** And so no window at all holds twice the limit. */
  ghost predicate Bounded(bucket: Option<Bucket>, times: seq<int>, limit: nat, windowMs: int)
  {
    && (bucket.None? ==> times == [])
    && (bucket.Some? ==> Holds(bucket.value, times, limit, windowMs))
    && (forall lo :: InWindow(times, lo, windowMs) < 2 * limit)
  }

  /** A record under another limit that shares the bucket only makes it fuller. */
  lemma OthersStayBounded(bucket: Option<Bucket>, times: seq<int>, limit: nat, windowMs: int, other: nat, now: int)
    requires windowMs > 0 && limit > 0 && Bounded(bucket, times, limit, windowMs)
    requires bucket.Some? ==> bucket.value.resetAt - windowMs <= now
    ensures Bounded(Counted(bucket, other, windowMs, now), times, limit, windowMs)
  {
    if other != 0 && bucket.Some? && now >= bucket.value.resetAt {
      NextWindow(bucket.value, times, limit, windowMs, now);
    }
  }

  /** A new window starting at `now`: it holds none of the old times, and at most the limit came within one window before it. */
  lemma NextWindow(bucket: Bucket, times: seq<int>, limit: nat, windowMs: int, now: int)
    requires windowMs > 0 && limit > 0 && Bounded(Some(bucket), times, limit, windowMs) && now >= bucket.resetAt
    ensures Count(times, now, now + windowMs) == 0 && Count(times, now + 1, now + windowMs) == 0
    ensures forall lo :: now - windowMs < lo <= now ==> Count(times, lo, now) < limit
  {
    CountNone(times, now, now + windowMs);
    CountNone(times, now + 1, now + windowMs);
    var start, end := bucket.resetAt - windowMs, bucket.resetAt;
    forall lo | now - windowMs < lo <= now ensures Count(times, lo, now) < limit {
      if lo <= end {
        CountSplits(times, lo, end, now);
        CountNone(times, end, now);
        CountNarrows(times, start + 1, end, lo, end);
      } else {
        CountNone(times, lo, now);
      }
    }
  }

  lemma CountSnoc(times: seq<int>, now: int, lo: int, hi: int)
    ensures Count(times + [now], lo, hi) == Count(times, lo, hi) + if lo <= now < hi then 1 else 0
  {
    assert (times + [now])[..|times|] == times;
  }

  /** A window that has passed: the next operation opens a new one. */
  lemma OpenedStaysBounded(bucket: Bucket, times: seq<int>, limit: nat, windowMs: int, now: int, lo: int)
    requires windowMs > 0 && limit > 0 && Bounded(Some(bucket), times, limit, windowMs) && now >= bucket.resetAt
    ensures InWindow(times + [now], lo, windowMs) < 2 * limit
  {
    CountSnoc(times, now, lo, lo + windowMs);
    assert InWindow(times, lo, windowMs) < 2 * limit;
    NextWindow(bucket, times, limit, windowMs, now);
    if lo <= now < lo + windowMs {
      CountSplits(times, lo, now, lo + windowMs);
      CountNarrows(times, now, now + windowMs, now, lo + windowMs);
    }
  }

  /** A window still open, with room left: one more operation in it. */
  lemma FilledStaysBounded(bucket: Bucket, times: seq<int>, limit: nat, windowMs: int, now: int, lo: int)
    requires windowMs > 0 && limit > 0 && Bounded(Some(bucket), times, limit, windowMs)
    requires bucket.resetAt - windowMs <= now < bucket.resetAt && bucket.count < limit
    ensures InWindow(times + [now], lo, windowMs) < 2 * limit
  {
    var start, end := bucket.resetAt - windowMs, bucket.resetAt;
    CountSnoc(times, now, lo, lo + windowMs);
    assert InWindow(times, lo, windowMs) < 2 * limit;
    if lo <= now < lo + windowMs {
      if lo <= start {
        CountSplits(times, lo, start, lo + windowMs);
        CountNarrows(times, start, end, start, lo + windowMs);
      } else {
        CountSplits(times, lo, end, lo + windowMs);
        CountNone(times, end, lo + windowMs);
        CountNarrows(times, start, end, lo, end);
      }
    }
  }

  /** A bucket opened at `now` by this operation. */
  lemma OpenedHolds(times: seq<int>, limit: nat, windowMs: int, now: int, later: int, end: int)
    requires windowMs > 0 && limit > 0 && (forall i :: 0 <= i < |times| ==> times[i] <= now)
    requires later == now + 1 && end == now + windowMs
    requires Count(times, now, end) == 0 && Count(times, later, end) == 0
    requires forall lo :: now - windowMs < lo <= now ==> Count(times, lo, now) < limit
    ensures Holds(Bucket(1, end), times + [now], limit, windowMs)
  {
    CountSnoc(times, now, now, end);
    CountSnoc(times, now, later, end);
    assert end - windowMs == now;
    forall lo | now - windowMs < lo <= now ensures Count(times + [now], lo, now) < limit {
      CountSnoc(times, now, lo, now);
    }
  }

  /** An open bucket with one operation more. */
  lemma FilledHolds(bucket: Bucket, times: seq<int>, limit: nat, windowMs: int, now: int)
    requires windowMs > 0 && Holds(bucket, times, limit, windowMs)
    requires bucket.resetAt - windowMs <= now < bucket.resetAt && bucket.count < limit
    ensures Holds(bucket.(count := bucket.count + 1), times + [now], limit, windowMs)
  {
    var start, end := bucket.resetAt - windowMs, bucket.resetAt;
    CountSnoc(times, now, start, end);
    CountSnoc(times, now, start + 1, end);
    forall lo | start - windowMs < lo <= start ensures Count(times + [now], lo, start) < limit {
      CountSnoc(times, now, lo, start);
    }
  }

  /** Recording an operation that passed keeps every window interval within bounds. */
  lemma RecordStaysBounded(bucket: Option<Bucket>, times: seq<int>, limit: nat, windowMs: int, checkAt: int, now: int)
    requires windowMs > 0 && limit > 0 && Bounded(bucket, times, limit, windowMs)
    requires Passes(bucket, limit, checkAt) && checkAt <= now
    requires bucket.Some? ==> bucket.value.count >= 0 && bucket.value.resetAt - windowMs <= now
    ensures Bounded(Counted(bucket, limit, windowMs, now), times + [now], limit, windowMs)
  {
    if bucket.None? {
      OpenedHolds(times, limit, windowMs, now, now + 1, now + windowMs);
      forall lo ensures InWindow(times + [now], lo, windowMs) < 2 * limit {
        CountSnoc(times, now, lo, lo + windowMs);
      }
    } else if now >= bucket.value.resetAt {
      NextWindow(bucket.value, times, limit, windowMs, now);
      OpenedHolds(times, limit, windowMs, now, now + 1, now + windowMs);
      forall lo ensures InWindow(times + [now], lo, windowMs) < 2 * limit {
        OpenedStaysBounded(bucket.value, times, limit, windowMs, now, lo);
      }
    } else {
      FilledHolds(bucket.value, times, limit, windowMs, now);
      forall lo ensures InWindow(times + [now], lo, windowMs) < 2 * limit {
        FilledStaysBounded(bucket.value, times, limit, windowMs, now, lo);
      }
    }
  }

  /** Both are counted in the same bucket. */
  predicate SameSlot(p: Probe, q: Probe)
  {
    p.minute == q.minute && p.key == q.key
  }

  ghost predicate DistinctSlots(probes: seq<Probe>)
  {
    forall i, j :: 0 <= i < j < |probes| ==> !SameSlot(probes[i], probes[j])
  }

  /** An operation is never counted twice in one bucket, whatever colons its names hold. */
  lemma ProbesAreDistinct(config: Config, a: Attempt)
    ensures DistinctSlots(ProbesOf(config, a))
  {
    if TableLimits(config, a.table).Some? {
      assert |TableKey(a.userId, a.clientId, a.table.value)| > |GlobalKey(a.userId, a.clientId)|;
    }
  }

  lemma RecordOneAt(s: State, q: Probe, now: int, p: Probe)
    ensures Held(RecordOne(s, q, now), p)
         == if SameSlot(p, q) then Counted(Held(s, p), q.limit, WindowOf(p), now) else Held(s, p)
  {
  }

  lemma {:induction false} RecordElsewhere(s: State, probes: seq<Probe>, now: int, p: Probe)
    requires forall i :: 0 <= i < |probes| ==> !SameSlot(p, probes[i])
    ensures Held(RecordAll(s, probes, now), p) == Held(s, p)
    decreases |probes|
  {
    if probes != [] {
      RecordOneAt(s, probes[0], now, p);
      RecordElsewhere(RecordOne(s, probes[0], now), probes[1..], now, p);
    }
  }

  /** Recording touches a bucket once, under the one probe that is counted there. */
  lemma {:induction false} RecordAllAt(s: State, probes: seq<Probe>, now: int, p: Probe, i: nat)
    requires DistinctSlots(probes) && i < |probes| && SameSlot(p, probes[i])
    ensures Held(RecordAll(s, probes, now), p) == Counted(Held(s, p), probes[i].limit, WindowOf(p), now)
    decreases |probes|
  {
    RecordOneAt(s, probes[0], now, p);
    if i == 0 {
      forall j | 0 <= j < |probes[1..]| ensures !SameSlot(p, probes[1..][j]) {
        assert !SameSlot(probes[0], probes[j + 1]);
      }
      RecordElsewhere(RecordOne(s, probes[0], now), probes[1..], now, p);
    } else {
      assert !SameSlot(probes[0], probes[i]);
      RecordAllAt(RecordOne(s, probes[0], now), probes[1..], now, p, i - 1);
    }
  }

  /** When operations counted under a probe were recorded. */
  function TimesOf(config: Config, s: State, attempts: seq<Attempt>, p: Probe): seq<int>
    decreases |attempts|
  {
    if attempts == [] then []
    else
      (if Admits(config, s, attempts[0]) && p in ProbesOf(config, attempts[0]) then [attempts[0].recordAt] else [])
      + TimesOf(config, AfterKeeping(config, s, attempts[0]), attempts[1..], p)
  }

  ghost predicate Sound(s: State, p: Probe, times: seq<int>, from: int)
  {
    && Bounded(Held(s, p), times, p.limit, WindowOf(p))
    && (Held(s, p).Some? ==> Held(s, p).value.count >= 0 && Held(s, p).value.resetAt - WindowOf(p) <= from)
  }

  /** The attempt counts against this probe. */
  lemma CountedStaysSound(config: Config, s: State, p: Probe, times: seq<int>, from: int, a: Attempt, probes: seq<Probe>, i: nat)
    requires p.limit > 0 && Sound(s, p, times, from) && from <= a.checkAt <= a.recordAt
    requires probes == ProbesOf(config, a) && i < |probes| && probes[i] == p && Admits(config, s, a)
    ensures Sound(AfterKeeping(config, s, a), p, times + [a.recordAt], a.recordAt)
  {
    ProbesAreDistinct(config, a);
    assert Passes(Held(s, probes[i]), probes[i].limit, a.checkAt);
    RecordAllAt(s, probes, a.recordAt, p, i);
    RecordStaysBounded(Held(s, p), times, p.limit, WindowOf(p), a.checkAt, a.recordAt);
  }

  /** The attempt counts against another probe in the same slot. */
  lemma CollidingStaysSound(config: Config, s: State, p: Probe, times: seq<int>, from: int, a: Attempt, probes: seq<Probe>, i: nat)
    requires p.limit > 0 && Sound(s, p, times, from) && from <= a.checkAt <= a.recordAt
    requires probes == ProbesOf(config, a) && i < |probes| && p !in probes && SameSlot(p, probes[i]) && Admits(config, s, a)
    ensures Sound(AfterKeeping(config, s, a), p, times, a.recordAt)
  {
    ProbesAreDistinct(config, a);
    RecordAllAt(s, probes, a.recordAt, p, i);
    OthersStayBounded(Held(s, p), times, p.limit, WindowOf(p), probes[i].limit, a.recordAt);
  }

  lemma AttemptStaysSound(config: Config, s: State, p: Probe, times: seq<int>, from: int, a: Attempt)
    requires p.limit > 0 && Sound(s, p, times, from) && from <= a.checkAt <= a.recordAt
    ensures var times' := times + if Admits(config, s, a) && p in ProbesOf(config, a) then [a.recordAt] else [];
            Sound(AfterKeeping(config, s, a), p, times', a.recordAt)
  {
    var probes := ProbesOf(config, a);
    assert times + [] == times;
    if Admits(config, s, a) {
      if i :| 0 <= i < |probes| && probes[i] == p {
        CountedStaysSound(config, s, p, times, from, a, probes, i);
      } else if i :| 0 <= i < |probes| && SameSlot(p, probes[i]) {
        CollidingStaysSound(config, s, p, times, from, a, probes, i);
      } else {
        RecordElsewhere(s, probes, a.recordAt, p);
      }
    }
  }

  lemma {:induction false} HistoryStaysSound(config: Config, s: State, p: Probe, times: seq<int>, from: int, attempts: seq<Attempt>)
    requires p.limit > 0 && Sound(s, p, times, from) && InTime(attempts, from)
    ensures forall lo :: InWindow(times + TimesOf(config, s, attempts, p), lo, WindowOf(p)) < 2 * p.limit
    decreases |attempts|
  {
    if attempts == [] {
      assert times + [] == times;
    } else {
      var a := attempts[0];
      var here := if Admits(config, s, a) && p in ProbesOf(config, a) then [a.recordAt] else [];
      var after, sofar := AfterKeeping(config, s, a), times + here;
      var rest := TimesOf(config, after, attempts[1..], p);
      AttemptStaysSound(config, s, p, times, from, a);
      HistoryStaysSound(config, after, p, sofar, a.recordAt, attempts[1..]);
      assert TimesOf(config, s, attempts, p) == here + rest;
      assert times + TimesOf(config, s, attempts, p) == sofar + rest;
    }
  }

  /** When operations counted under a probe were recorded, by a limiter that does clean up. */
  function TimesOfCleaning(config: Config, s: State, attempts: seq<Attempt>, p: Probe): seq<int>
    decreases |attempts|
  {
    if attempts == [] then []
    else
      (if Admits(config, Cleaned(s, attempts[0].checkAt), attempts[0]) && p in ProbesOf(config, attempts[0])
       then [attempts[0].recordAt] else [])
      + TimesOfCleaning(config, AfterCleaning(config, s, attempts[0]), attempts[1..], p)
  }

  lemma {:induction false} SameDecisionsSameTimes(config: Config, s: State, t: State, attempts: seq<Attempt>, p: Probe)
    requires DecisionsCleaning(config, s, attempts) == DecisionsKeeping(config, t, attempts)
    ensures TimesOfCleaning(config, s, attempts, p) == TimesOf(config, t, attempts, p)
    decreases |attempts|
  {
    if attempts != [] {
      var ds, dt := DecisionsCleaning(config, s, attempts), DecisionsKeeping(config, t, attempts);
      assert ds[0] == dt[0];
      assert ds[1..] == DecisionsCleaning(config, AfterCleaning(config, s, attempts[0]), attempts[1..]);
      assert dt[1..] == DecisionsKeeping(config, AfterKeeping(config, t, attempts[0]), attempts[1..]);
      SameDecisionsSameTimes(config, AfterCleaning(config, s, attempts[0]), AfterKeeping(config, t, attempts[0]), attempts[1..], p);
    }
  }

  /**
   * Over any history from a new limiter, no interval of one window length (a second, or a minute)
   * holds twice the limit of operations counted under it: for a user's client as a whole
   * and for each of its tables, even where keys collide and whenever stale buckets are dropped.
   */
  lemma NoWindowHoldsTwiceTheLimit(config: Config, attempts: seq<Attempt>, start: int, p: Probe)
    requires p.limit > 0 && InTime(attempts, start)
    ensures forall lo :: InWindow(TimesOfCleaning(config, State(map[], map[], start), attempts, p), lo, WindowOf(p)) < 2 * p.limit
  {
    var s := State(map[], map[], start);
    CleanupNeverDecides(config, s, s, attempts, start);
    SameDecisionsSameTimes(config, s, s, attempts, p);
    HistoryStaysSound(config, s, p, [], start, attempts);
    assert [] + TimesOf(config, s, attempts, p) == TimesOf(config, s, attempts, p);
  }
}
