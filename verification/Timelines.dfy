/** The throughput timeline (store/memory/memory.go, Timeline; web/handler.go,
timeline). */
module Timelines {
  import opened Int64
  import opened Records
  import opened Partition

  const MAX_BUCKETS := 10_000
  const MINUTE := 60_000_000_000

  datatype Bucket = Bucket(start: Time, completed: nat, failed: nat)

  /** `Panics` is the run-time failure of allocating a slice of negative capacity. */
  datatype Outcome = Buckets(list: seq<Bucket>) | RangeTooLarge | Panics

  /** Go's integer division, which truncates toward zero. */
  function TruncDiv(a: int, b: int): int
    requires b > 0
  {
    if a >= 0 then a / b else -((-a) / b)
  }

  function TimeSlot(t: Time, width: int): int
    requires width > 0
  {
    TruncDiv(t - UNIX_EPOCH, width)
  }

  predicate CountsSince(j: Job, since: Time) {
    Terminal(j.state) && LastActive(j) >= since
  }

  /** The rows a timeline counts as completed, and as failed. */
  ghost function CompletedKeys(jobs: map<string, Job>, since: Time): set<string> {
    set k | k in jobs && CountsSince(jobs[k], since) && jobs[k].state == Completed
  }

  ghost function FailedKeys(jobs: map<string, Job>, since: Time): set<string> {
    set k | k in jobs && CountsSince(jobs[k], since) && jobs[k].state in FAILURE_STATES
  }

  function SlotAt(jobs: map<string, Job>, width: int): string -> int
    requires width > 0
  {
    k => if k in jobs then TimeSlot(LastActive(jobs[k]), width) else 0
  }

  ghost function BucketAt(jobs: map<string, Job>, since: Time, width: int, slot: int): Bucket
    requires width > 0
  {
    Bucket(UNIX_EPOCH + slot * width,
           |Class(CompletedKeys(jobs, since), SlotAt(jobs, width), slot)|,
           |Class(FailedKeys(jobs, since), SlotAt(jobs, width), slot)|)
  }

  function Width(bucket: int): (w: int)
    ensures w > 0
  {
    if bucket <= 0 then MINUTE else bucket
  }

  /** What time.Since yields: an int64 of nanoseconds, saturated. */
  function Span(since: Time, at: Time): int {
    if at - since >= TWO_63 then TWO_63 - 1 else if at - since < -TWO_63 then -TWO_63 else at - since
  }

  predicate Refused(since: Time, width: int, checkedAt: Time)
    requires width > 0
  {
    TruncDiv(Span(since, checkedAt), width) > MAX_BUCKETS
  }

  /** The buckets of a range that is not refused. */
  ghost function Filled(jobs: map<string, Job>, since: Time, width: int, now: Time): Outcome
    requires width > 0
  {
    var first, last := TimeSlot(since, width), TimeSlot(now, width);
    if last - first + 1 < 0 then Panics
    else Buckets(seq(last - first + 1, i => BucketAt(jobs, since, width, first + i)))
  }

  ghost function TimelineOf(jobs: map<string, Job>, since: Time, bucket: int, checkedAt: Time, now: Time): Outcome {
    if since == 0 then Buckets([])
    else if Refused(since, Width(bucket), checkedAt) then RangeTooLarge
    else Filled(jobs, since, Width(bucket), now)
  }

  // ---- Arithmetic -------------------------------------------------------------------

  lemma MulCancel(w: int, x: int, y: int)
    requires w > 0
    ensures w * x < w * y <==> x < y
    ensures w * x <= w * y <==> x <= y
  {
    assert w * (y - x) == w * y - w * x;
  }

  lemma DivMonotone(a: int, b: int, w: int)
    requires w > 0 && a <= b
    ensures a / w <= b / w
  {
    assert a == w * (a / w) + a % w && b == w * (b / w) + b % w;
    MulCancel(w, a / w, b / w + 1);
  }

  lemma TruncMonotone(a: int, b: int, w: int)
    requires w > 0 && a <= b
    ensures TruncDiv(a, w) <= TruncDiv(b, w)
  {
    if a >= 0 {
      DivMonotone(a, b, w);
    } else if b < 0 {
      DivMonotone(-b, -a, w);
    } else {
      DivMonotone(0, b, w);
      DivMonotone(0, -a, w);
    }
  }

  /** A truncated quotient, multiplied back, is less than one divisor away. */
  lemma TruncNear(a: int, w: int)
    requires w > 0
    ensures -w < a - w * TruncDiv(a, w) < w
    ensures a >= 0 ==> w * TruncDiv(a, w) <= a
    ensures a <= 0 ==> a <= w * TruncDiv(a, w)
  {
    assert a == w * (a / w) + a % w && -a == w * ((-a) / w) + (-a) % w;
    assert w * -((-a) / w) == -(w * ((-a) / w));
  }

  lemma SpanBound(a: int, b: int, w: int, n: nat)
    requires w > 0 && a <= b && TruncDiv(b - a, w) <= n
    ensures 0 <= TruncDiv(b, w) - TruncDiv(a, w) <= n + 1
  {
    TruncMonotone(a, b, w);
    TruncNear(a, w);
    TruncNear(b, w);
    TruncNear(b - a, w);
    var q, d := TruncDiv(b - a, w), TruncDiv(b, w) - TruncDiv(a, w);
    MulCancel(w, q, n);
    assert b - a < w * n + w;
    assert w * d == w * TruncDiv(b, w) - w * TruncDiv(a, w);
    assert w * d < w * (n + 2) by { assert w * (n + 2) == w * n + w + w; }
    MulCancel(w, d, n + 2);
  }

  // ---- What the timeline promises ------------------------------------------------------

  lemma TruncAtLeast(a: int, w: int, n: nat)
    requires w > 0
    ensures TruncDiv(a, w) > n <==> a >= w * (n + 1)
  {
    TruncNear(a, w);
    MulCancel(w, TruncDiv(a, w), n + 1);
    MulCancel(w, n, TruncDiv(a, w) - 1);
    if a < 0 {
      DivMonotone(0, -a, w);
    }
    assert w * (n + 1) == w * n + w && w * (TruncDiv(a, w) + 1) == w * TruncDiv(a, w) + w;
    MulCancel(w, n + 1, TruncDiv(a, w) + 1);
  }

  /** The range check sees a saturated span, so it refuses a range if and only if it reaches
      one bucket more than the limit and such a range fits a duration at all. */
  lemma RefusedIff(since: Time, width: int, checkedAt: Time)
    requires width > 0
    ensures Refused(since, width, checkedAt) <==>
      checkedAt - since >= width * (MAX_BUCKETS + 1) && width * (MAX_BUCKETS + 1) < TWO_63
  {
    TruncAtLeast(Span(since, checkedAt), width, MAX_BUCKETS);
  }

  /** When the call fails: a range past the bucket limit is refused, and a `since` more
      than one whole slot past now panics; neither happens otherwise. */
  lemma TimelineFailsIff(jobs: map<string, Job>, since: Time, bucket: int, checkedAt: Time, now: Time)
    ensures var w, out := Width(bucket), TimelineOf(jobs, since, bucket, checkedAt, now);
      var limit := w * (MAX_BUCKETS + 1);
      && (out.RangeTooLarge? <==> since != 0 && limit < TWO_63 && checkedAt - since >= limit)
      && (out.Panics? <==> since != 0 && !out.RangeTooLarge? && TimeSlot(since, w) > TimeSlot(now, w) + 1)
      && (since <= now ==> !out.Panics?)
  {
    var w := Width(bucket);
    RefusedIff(since, w, checkedAt);
    if since <= now {
      TruncMonotone(since - UNIX_EPOCH, now - UNIX_EPOCH, w);
    }
  }

  /** Buckets are contiguous, in order, one per slot; a single clock reading never yields more
      than the limit plus two, unless buckets are so wide that no span a duration can hold is
      refused, and the range spans more slots than that. */
  lemma TimelineBounded(jobs: map<string, Job>, since: Time, bucket: int, now: Time)
    requires since <= now
    ensures var out := TimelineOf(jobs, since, bucket, now, now);
      out.Buckets? ==>
        && (now - since < TWO_63 || Width(bucket) * (MAX_BUCKETS + 1) < TWO_63 ==> |out.list| <= MAX_BUCKETS + 2)
        && (|out.list| > MAX_BUCKETS + 2 <==>
              && since != 0 && Width(bucket) * (MAX_BUCKETS + 1) >= TWO_63
              && TimeSlot(now, Width(bucket)) - TimeSlot(since, Width(bucket)) > MAX_BUCKETS + 1)
        && (since != 0 ==> |out.list| > 0)
        && forall i :: 0 < i < |out.list| ==> out.list[i].start == out.list[i - 1].start + Width(bucket)
  {
    var w := Width(bucket);
    var out := TimelineOf(jobs, since, bucket, now, now);
    if since != 0 && out.Buckets? {
      TruncMonotone(since - UNIX_EPOCH, now - UNIX_EPOCH, w);
      RefusedIff(since, w, now);
      if now - since < TWO_63 || w * (MAX_BUCKETS + 1) < TWO_63 {
        TruncAtLeast(now - since, w, MAX_BUCKETS);
        SpanBound(since - UNIX_EPOCH, now - UNIX_EPOCH, w, MAX_BUCKETS);
      }
      var first := TimeSlot(since, w);
      forall i | 0 < i < |out.list| ensures out.list[i].start == out.list[i - 1].start + w {
        assert out.list[i] == BucketAt(jobs, since, w, first + i);
        assert out.list[i - 1] == BucketAt(jobs, since, w, first + (i - 1));
        assert (first + i) * w == (first + (i - 1)) * w + w;
      }
    }
  }

  /** From 1677 to 2026 is longer than a duration: with buckets of ten days and a half the
      saturated span passes the check, and the limit is overrun. */
  lemma SaturatedSpanOverruns(jobs: map<string, Job>)
    ensures var since, now := UNIX_EPOCH - 9_223_000_000_000_000_000, UNIX_EPOCH + 1_770_000_000_000_000_000;
      var out := TimelineOf(jobs, since, 922_300_000_000_000, now, now);
      out.Buckets? && |out.list| > MAX_BUCKETS + 2
  {}

  function SumCompleted(list: seq<Bucket>): nat {
    if |list| == 0 then 0 else SumCompleted(list[..|list| - 1]) + list[|list| - 1].completed
  }

  function SumFailed(list: seq<Bucket>): nat {
    if |list| == 0 then 0 else SumFailed(list[..|list| - 1]) + list[|list| - 1].failed
  }

  function Range(first: int, n: nat): (ks: seq<int>)
    ensures |ks| == n && forall i :: 0 <= i < n ==> ks[i] == first + i
  {
    seq(n, i => first + i)
  }

  lemma {:induction false} SumsAreSizes(jobs: map<string, Job>, since: Time, width: int, first: int, list: seq<Bucket>)
    requires width > 0
    requires forall i :: 0 <= i < |list| ==> list[i] == BucketAt(jobs, since, width, first + i)
    ensures SumCompleted(list) == SumSizes(CompletedKeys(jobs, since), SlotAt(jobs, width), Range(first, |list|))
    ensures SumFailed(list) == SumSizes(FailedKeys(jobs, since), SlotAt(jobs, width), Range(first, |list|))
    decreases |list|
  {
    if |list| > 0 {
      var m := |list| - 1;
      SumsAreSizes(jobs, since, width, first, list[..m]);
      assert Range(first, |list|)[..m] == Range(first, m);
    }
  }

  ghost function UpTo(jobs: map<string, Job>, keys: set<string>, width: int, last: int): set<string>
    requires width > 0
  {
    set k | k in keys && SlotAt(jobs, width)(k) <= last
  }

  /** Timeline exactness: the buckets count every completed row and every failure-state
      row active since the cutoff, except those in a slot past now's. */
  lemma TimelineConserves(jobs: map<string, Job>, since: Time, bucket: int, checkedAt: Time, now: Time)
    requires since != 0 && since <= now
    ensures var out := TimelineOf(jobs, since, bucket, checkedAt, now);
      var w := Width(bucket);
      out.Buckets? ==>
        && SumCompleted(out.list) == |UpTo(jobs, CompletedKeys(jobs, since), w, TimeSlot(now, w))|
        && SumFailed(out.list) == |UpTo(jobs, FailedKeys(jobs, since), w, TimeSlot(now, w))|
  {
    var out, w := TimelineOf(jobs, since, bucket, checkedAt, now), Width(bucket);
    if out.Buckets? {
      var first, last := TimeSlot(since, w), TimeSlot(now, w);
      TruncMonotone(since - UNIX_EPOCH, now - UNIX_EPOCH, w);
      SumsAreSizes(jobs, since, w, first, out.list);
      InRange(jobs, CompletedKeys(jobs, since), since, w, last);
      InRange(jobs, FailedKeys(jobs, since), since, w, last);
      SizesAddUp(CompletedKeys(jobs, since), SlotAt(jobs, w), Range(first, |out.list|));
      SizesAddUp(FailedKeys(jobs, since), SlotAt(jobs, w), Range(first, |out.list|));
    }
  }

  lemma InRange(jobs: map<string, Job>, keys: set<string>, since: Time, w: int, last: int)
    requires w > 0 && TimeSlot(since, w) <= last
    requires forall k :: k in keys ==> k in jobs && CountsSince(jobs[k], since)
    ensures var first := TimeSlot(since, w);
      Classified(keys, SlotAt(jobs, w), Range(first, last - first + 1)) == UpTo(jobs, keys, w, last)
  {
    var first := TimeSlot(since, w);
    var ks := Range(first, last - first + 1);
    forall k | k in keys ensures SlotAt(jobs, w)(k) in ks <==> SlotAt(jobs, w)(k) <= last {
      var slot := SlotAt(jobs, w)(k);
      TruncMonotone(since - UNIX_EPOCH, LastActive(jobs[k]) - UNIX_EPOCH, w);
      if slot <= last {
        assert ks[slot - first] == slot;
      }
    }
  }

  // ---- What a bucket holds ----------------------------------------------------------------

  /** The instants a slot stands for: division truncates, so slot 0 reaches to both sides of
      1970, and earlier slots lie the other way round. */
  predicate Spans(slot: int, w: int, t: Time) {
    var start := UNIX_EPOCH + slot * w;
    if slot > 0 then start <= t < start + w
    else if slot < 0 then start - w < t <= start
    else start - w < t < start + w
  }

  lemma QuotientIff(a: nat, w: int, q: int)
    requires w > 0
    ensures a / w == q <==> q * w <= a < q * w + w
  {
    var r := a / w;
    assert a == w * r + a % w;
    assert w * (r + 1) == w * r + w && w * (q + 1) == w * q + w;
    MulCancel(w, r, q + 1);
    MulCancel(w, q, r + 1);
  }

  lemma SlotSpans(t: Time, w: int, slot: int)
    requires w > 0
    ensures TimeSlot(t, w) == slot <==> Spans(slot, w, t)
  {
    var a := t - UNIX_EPOCH;
    assert (-slot) * w == -(slot * w);
    if a >= 0 {
      QuotientIff(a, w, slot);
      MulCancel(w, slot, -1);
    } else {
      QuotientIff(-a, w, -slot);
      MulCancel(w, 1, slot);
    }
  }

  /** The rows in one of the given states, last active within a slot and not before `since`. */
  ghost function EndedIn(jobs: map<string, Job>, states: set<State>, since: Time, w: int, slot: int): set<string> {
    set k | k in jobs && jobs[k].state in states && LastActive(jobs[k]) >= since && Spans(slot, w, LastActive(jobs[k]))
  }

  lemma ClassSpans(jobs: map<string, Job>, keys: set<string>, states: set<State>, since: Time, w: int, slot: int)
    requires w > 0
    requires keys == set k | k in jobs && jobs[k].state in states && LastActive(jobs[k]) >= since
    ensures Class(keys, SlotAt(jobs, w), slot) == EndedIn(jobs, states, since, w, slot)
  {
    forall k | k in jobs ensures SlotAt(jobs, w)(k) == slot <==> Spans(slot, w, LastActive(jobs[k])) {
      SlotSpans(LastActive(jobs[k]), w, slot);
    }
  }

  /** A bucket counts the rows that were last active in its span and not before `since`: those
      completed, and those that ended in any other named way. */
  lemma BucketHolds(jobs: map<string, Job>, since: Time, width: int, slot: int)
    requires width > 0
    ensures var b := BucketAt(jobs, since, width, slot);
      && b.start == UNIX_EPOCH + slot * width
      && b.completed == |EndedIn(jobs, {Completed}, since, width, slot)|
      && b.failed == |EndedIn(jobs, {Failed, Cancelled, Discarded, Abandoned, Interrupted}, since, width, slot)|
  {
    ClassSpans(jobs, CompletedKeys(jobs, since), {Completed}, since, width, slot);
    ClassSpans(jobs, FailedKeys(jobs, since), {Failed, Cancelled, Discarded, Abandoned, Interrupted}, since, width, slot);
  }

  /** Without a bucket width the buckets are minutes; up to 10000 whole buckets are allowed. */
  lemma TimelineDefaults(jobs: map<string, Job>, since: Time, bucket: int, checkedAt: Time, now: Time)
    requires since != 0
    ensures bucket <= 0 ==>
      TimelineOf(jobs, since, bucket, checkedAt, now) == TimelineOf(jobs, since, 60_000_000_000, checkedAt, now)
    ensures 0 < bucket < 922_000_000_000_000 ==>
      (TimelineOf(jobs, since, bucket, checkedAt, now).RangeTooLarge? <==> checkedAt - since >= 10_001 * bucket)
  {
    TimelineFailsIff(jobs, since, bucket, checkedAt, now);
  }

  // ---- The sparkline ----------------------------------------------------------------------

  datatype Bar = Bar(completedPct: nat, failedPct: nat)

  datatype View = View(completed: nat, failed: nat, peak: nat, bars: seq<Bar>)

  function Percent(n: nat, peak: nat): nat
    requires peak > 0
  {
    n * 100 / peak
  }

  /** The percentage of the peak, rounded down. */
  predicate PercentOf(n: nat, peak: nat, pct: nat) {
    pct * peak <= n * 100 < (pct + 1) * peak
  }

  lemma PercentIs(n: nat, peak: nat)
    requires peak > 0
    ensures PercentOf(n, peak, Percent(n, peak))
  {
    assert n * 100 == peak * Percent(n, peak) + n * 100 % peak;
  }

  lemma PercentBound(c: nat, f: nat, peak: nat)
    requires 0 < peak && c + f <= peak
    ensures Percent(c, peak) + Percent(f, peak) <= 100
    ensures c + f == peak ==> Percent(c, peak) + Percent(f, peak) >= 99
  {
    var x, y := Percent(c, peak), Percent(f, peak);
    assert c * 100 == peak * x + c * 100 % peak && f * 100 == peak * y + f * 100 % peak;
    assert peak * (x + y) == peak * x + peak * y;
    MulCancel(peak, x + y, 101);
    MulCancel(peak, 98, x + y);
  }

  /** The peak is the tallest bucket. */
  ghost predicate IsPeak(buckets: seq<Bucket>, peak: nat) {
    && (forall b :: b in buckets ==> b.completed + b.failed <= peak)
    && (peak > 0 ==> exists b :: b in buckets && b.completed + b.failed == peak)
  }

  method Totals(buckets: seq<Bucket>) returns (completed: nat, failed: nat, peak: nat)
    ensures completed == SumCompleted(buckets) && failed == SumFailed(buckets)
    ensures IsPeak(buckets, peak)
  {
    completed, failed, peak := 0, 0, 0;
    for i := 0 to |buckets|
      invariant completed == SumCompleted(buckets[..i]) && failed == SumFailed(buckets[..i])
      invariant IsPeak(buckets[..i], peak)
    {
      assert buckets[..i + 1] == buckets[..i] + [buckets[i]];
      completed := completed + buckets[i].completed;
      failed := failed + buckets[i].failed;
      var total := buckets[i].completed + buckets[i].failed;
      if total > peak {
        peak := total;
      }
      assert buckets[i] in buckets[..i + 1];
    }
    assert buckets[..|buckets|] == buckets;
  }

  /** A bar scaled to the peak: inside its frame, and filling it up to rounding when
      its bucket is the tallest. */
  ghost predicate Fits(b: Bucket, bar: Bar, peak: nat)
    requires peak > 0
  {
    && bar == Bar(Percent(b.completed, peak), Percent(b.failed, peak))
    && PercentOf(b.completed, peak, bar.completedPct) && PercentOf(b.failed, peak, bar.failedPct)
    && bar.completedPct + bar.failedPct <= 100
    && (b.completed + b.failed == peak ==> bar.completedPct + bar.failedPct >= 99)
  }

  /** Totals are the bucket sums, the peak is the tallest bucket, no bar is drawn
      taller than its frame, and the tallest fills it up to rounding. */
  method Sparkline(buckets: seq<Bucket>) returns (view: View)
    ensures view.completed == SumCompleted(buckets) && view.failed == SumFailed(buckets)
    ensures IsPeak(buckets, view.peak)
    ensures |view.bars| == if view.peak == 0 then 0 else |buckets|
    ensures forall i :: 0 <= i < |view.bars| ==>
      Fits(buckets[i], view.bars[i], view.peak)
  {
    var completed, failed, peak := Totals(buckets);
    var bars: seq<Bar> := [];
    if peak != 0 {
      for i := 0 to |buckets|
        invariant |bars| == i
        invariant forall j :: 0 <= j < i ==>
          Fits(buckets[j], bars[j], peak)
      {
        assert buckets[i] in buckets;
        PercentBound(buckets[i].completed, buckets[i].failed, peak);
        PercentIs(buckets[i].completed, peak);
        PercentIs(buckets[i].failed, peak);
        bars := bars + [Bar(Percent(buckets[i].completed, peak), Percent(buckets[i].failed, peak))];
      }
    }
    view := View(completed, failed, peak, bars);
  }
}
