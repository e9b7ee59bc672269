/** Timeline in the SQL backends (store/sqlite/sqlite.go, store/postgres/postgres.go),
against the reference timeline.  The GROUP BY query is a function of the jobs table. */
module SqlTimelines {
  import opened Bands
  import opened Int64
  import opened Records
  import opened Names
  import opened Partition
  import opened Timelines
  import opened SqlStore

  /** Postgres raises a division by zero; SQLite yields a NULL slot, which the scan refuses. */
  datatype Reply = Reply(out: Outcome) | DivisionByZero

  function Active(r: Row): int {
    Greatest(r.finishedAt, r.enqueuedAt)
  }

  /** WHERE state_rank = 3 AND MAX(finished_at, enqueued_at) >= start. */
  predicate Selected(r: Row, start: int) {
    r.stateRank == 3 && Active(r) >= start
  }

  ghost function Done(rows: map<string, Row>, start: int): set<string> {
    set k | k in rows && Selected(rows[k], start) && rows[k].state == Completed
  }

  ghost function Bad(rows: map<string, Row>, start: int): set<string> {
    set k | k in rows && Selected(rows[k], start) && rows[k].state in FAILURE_STATES
  }

  function GroupOf(rows: map<string, Row>, width: int): string -> int
    requires width > 0
  {
    k => if k in rows then TruncDiv(Active(rows[k]), width) else 0
  }

  ghost function SqlBucketAt(rows: map<string, Row>, start: int, width: int, slot: int): Bucket
    requires width > 0
  {
    Bucket(FromUnix(slot * width),
           |Class(Done(rows, start), GroupOf(rows, width), slot)|,
           |Class(Bad(rows, start), GroupOf(rows, width), slot)|)
  }

  ghost predicate SelectsSome(rows: map<string, Row>, start: int) {
    exists k :: k in rows && Selected(rows[k], start)
  }

  /** The buckets of a range that is not refused, in slots of `width` microseconds. */
  ghost function SqlFilled(rows: map<string, Row>, since: Time, width: int, now: Time): Reply
    requires width > 0
  {
    var start := Unix(since);
    var first, last := TruncDiv(start, width), TruncDiv(Unix(now), width);
    if last - first + 1 < 0 then Reply(Panics)
    else Reply(Buckets(seq(last - first + 1, i => SqlBucketAt(rows, start, width, first + i))))
  }

  ghost function SqlTimelineOf(rows: map<string, Row>, since: Time, bucket: int, checkedAt: Time, now: Time): Reply {
    var width, start := Width(bucket) / 1000, Unix(since);
    if Refused(since, Width(bucket), checkedAt) then Reply(RangeTooLarge)
    else if start == 0 then Reply(Buckets([]))
    else if width == 0 then (if SelectsSome(rows, start) then DivisionByZero else Reply(Panics))
    else SqlFilled(rows, since, width, now)
  }

  /** When the call fails.  A range past the limit is refused, as in the reference.  Otherwise,
      and unless `since` is stored as unset, it fails if and only if the bucket is shorter than
      a microsecond, where the width is cut to 0 and either the query or the fill divides by
      it, or `since` lies more than a slot past now. */
  lemma SqlTimelineFailsIff(rows: map<string, Row>, since: Time, bucket: int, checkedAt: Time, now: Time)
    ensures var w, out := Width(bucket), SqlTimelineOf(rows, since, bucket, checkedAt, now);
      var limit := w * (MAX_BUCKETS + 1);
      var refused := limit < TWO_63 && checkedAt - since >= limit;
      && (out == Reply(RangeTooLarge) <==> refused)
      && (out == DivisionByZero <==> !refused && Unix(since) != 0 && 0 < bucket < 1000 && SelectsSome(rows, Unix(since)))
      && (out == DivisionByZero || out == Reply(Panics) <==>
            !refused && Unix(since) != 0 &&
            (0 < bucket < 1000 || TruncDiv(Unix(since), w / 1000) > TruncDiv(Unix(now), w / 1000) + 1))
  {
    RefusedIff(since, Width(bucket), checkedAt);
  }

  /** The rows of SELECT ... GROUP BY slot, as the map the driver reads them into. */
  ghost predicate Grouped(rows: map<string, Row>, start: int, width: int, seen: map<int, Bucket>)
    requires width > 0
  {
    forall slot :: (if slot in seen then seen[slot] == SqlBucketAt(rows, start, width, slot)
                    else SqlBucketAt(rows, start, width, slot) == Bucket(FromUnix(slot * width), 0, 0))
  }

  /** The fill loop: quiet slots are listed too. */
  method Fill(ghost rows: map<string, Row>, seen: map<int, Bucket>, ghost start: int, width: int, first: int, last: int)
    returns (list: seq<Bucket>)
    requires width > 0 && first <= last + 1 && Grouped(rows, start, width, seen)
    ensures |list| == last - first + 1
    ensures forall i :: 0 <= i < |list| ==> list[i] == SqlBucketAt(rows, start, width, first + i)
  {
    list := [];
    for slot := first to last + 1
      invariant |list| == slot - first
      invariant forall i :: 0 <= i < |list| ==> list[i] == SqlBucketAt(rows, start, width, first + i)
    {
      assert first + |list| == slot;
      if slot in seen {
        list := list + [seen[slot]];
      } else {
        list := list + [Bucket(FromUnix(slot * width), 0, 0)];
      }
    }
  }

  /** `seen` is None when the query fails. */
  method Timeline(ghost rows: map<string, Row>, seen: Option<map<int, Bucket>>,
                  since: Time, bucket: int, checkedAt: Time, now: Time)
    returns (reply: Reply)
    requires if Width(bucket) < 1000 then seen.None? <==> SelectsSome(rows, Unix(since))
             else seen.Some? && Grouped(rows, Unix(since), Width(bucket) / 1000, seen.value)
    ensures reply == SqlTimelineOf(rows, since, bucket, checkedAt, now)
  {
    if TruncDiv(Span(since, checkedAt), Width(bucket)) > MAX_BUCKETS {
      return Reply(RangeTooLarge);
    }
    var width, start := Width(bucket) / 1000, Unix(since);
    if start == 0 {
      return Reply(Buckets([]));
    }
    if seen.None? {
      return DivisionByZero;
    }
    if width == 0 {
      return Reply(Panics);
    }
    var first, last := TruncDiv(start, width), TruncDiv(Unix(now), width);
    if last - first + 1 < 0 {
      return Reply(Panics);
    }
    var list := Fill(rows, seen.value, start, width, first, last);
    reply := Reply(Buckets(list));
    assert list == seq(last - first + 1, i => SqlBucketAt(rows, start, width, first + i));
  }

  // ---- Slots ------------------------------------------------------------------------------

  lemma DivUnique(x: int, w: int, q: int, r: int)
    requires w > 0 && x == w * q + r && 0 <= r < w
    ensures x / w == q
  {
    assert x == w * (x / w) + x % w;
    MulCancel(w, q, x / w + 1);
    MulCancel(w, x / w, q + 1);
    assert w * (q + 1) == w * q + w && w * (x / w + 1) == w * (x / w) + w;
  }

  lemma DivTwice(x: nat, w: int)
    requires w > 0 && w % 1000 == 0
    ensures x / 1000 / (w / 1000) == x / w
  {
    var v, q := w / 1000, x / 1000;
    var r, s := q / v, q % v;
    assert q == v * r + s;
    assert x == w * r + (1000 * s + x % 1000) by {
      assert w * r == 1000 * (v * r);
    }
    DivUnique(x, w, r, 1000 * s + x % 1000);
  }

  /** Microsecond slots are nanosecond slots when buckets are whole microseconds. */
  lemma SlotAgrees(t: Time, w: int)
    requires w > 0 && w % 1000 == 0 && t >= UNIX_EPOCH
    ensures Unix(t) >= 0 && TruncDiv(Unix(t), w / 1000) == TimeSlot(t, w)
  {
    DivTwice(t - UNIX_EPOCH, w);
  }

  // ---- Agreement ------------------------------------------------------------------------------

  /** The counted rows last active within the microsecond before `since`: SQL counts them, the
      reference does not. */
  ghost function BlurredRows(jobs: map<string, Job>, since: Time, states: set<State>): set<string> {
    set k | k in jobs && jobs[k].state in states && Terminal(jobs[k].state) && Blurred(LastActive(jobs[k]), since)
  }

  lemma SelectedIff(j: Job, since: Time)
    requires MicroJob(j)
    ensures Selected(Encode(j), Unix(since)) <==>
      CountsSince(j, since) || (Terminal(j.state) && Blurred(LastActive(j), since))
    ensures Active(Encode(j)) == Unix(LastActive(j))
  {
    LastActiveColumn(j);
    CutoffAgreesIff(LastActive(j), since);
  }

  lemma DoneIs(jobs: map<string, Job>, since: Time)
    requires CleanJobs(jobs)
    ensures Done(EncodeJobs(jobs), Unix(since)) == CompletedKeys(jobs, since) + BlurredRows(jobs, since, {Completed})
    ensures Bad(EncodeJobs(jobs), Unix(since)) == FailedKeys(jobs, since) + BlurredRows(jobs, since, FAILURE_STATES)
  {
    forall k | k in jobs
      ensures Selected(EncodeJobs(jobs)[k], Unix(since)) <==>
        CountsSince(jobs[k], since) || (Terminal(jobs[k].state) && Blurred(LastActive(jobs[k]), since))
    {
      SelectedIff(jobs[k], since);
    }
  }

  /** A counted row falls in the same slot; a blurred one falls in the first. */
  lemma GroupAgrees(jobs: map<string, Job>, k: string, since: Time, w: int)
    requires CleanJobs(jobs) && k in jobs && w > 0 && w % 1000 == 0 && since >= UNIX_EPOCH + 1000
    requires LastActive(jobs[k]) >= since || Blurred(LastActive(jobs[k]), since)
    ensures GroupOf(EncodeJobs(jobs), w / 1000)(k) == SlotAt(jobs, w)(k)
    ensures Blurred(LastActive(jobs[k]), since) ==> SlotAt(jobs, w)(k) == TimeSlot(since, w)
  {
    var t := LastActive(jobs[k]);
    LastActiveColumn(jobs[k]);
    SlotAgrees(t, w);
    if Blurred(t, since) {
      assert Unix(since) == Unix(t);
      SlotAgrees(since, w);
    }
  }

  /** One kind of row, in one slot. */
  lemma ClassAgrees(jobs: map<string, Job>, keys: set<string>, extra: set<string>, since: Time, w: int, slot: int)
    requires CleanJobs(jobs) && w > 0 && w % 1000 == 0 && since >= UNIX_EPOCH + 1000
    requires forall k :: k in keys ==> k in jobs && LastActive(jobs[k]) >= since
    requires forall k :: k in extra ==> k in jobs && Blurred(LastActive(jobs[k]), since)
    ensures |Class(keys + extra, GroupOf(EncodeJobs(jobs), w / 1000), slot)|
         == |Class(keys, SlotAt(jobs, w), slot)| + if slot == TimeSlot(since, w) then |extra| else 0
  {
    var mine, theirs := SlotAt(jobs, w), GroupOf(EncodeJobs(jobs), w / 1000);
    forall k | k in keys + extra
      ensures theirs(k) == mine(k) && (k in extra ==> mine(k) == TimeSlot(since, w))
    {
      GroupAgrees(jobs, k, since, w);
    }
    ClassGrows(keys, extra, mine, theirs, TimeSlot(since, w), slot);
  }

  lemma ClassGrows(keys: set<string>, extra: set<string>, mine: string -> int, theirs: string -> int, first: int, slot: int)
    requires keys !! extra
    requires forall k :: k in keys + extra ==> theirs(k) == mine(k) && (k in extra ==> mine(k) == first)
    ensures |Class(keys + extra, theirs, slot)| == |Class(keys, mine, slot)| + if slot == first then |extra| else 0
  {
    var before, after := Class(keys, mine, slot), Class(keys + extra, theirs, slot);
    if slot == first {
      assert after == before + extra;
    } else {
      assert after == before;
    }
  }

  /** Bucket by bucket: SQL's first bucket also counts the blurred rows, and the bucket that
      starts 1970 starts at the zero time there. */
  lemma BucketAgrees(jobs: map<string, Job>, since: Time, w: int, slot: int)
    requires CleanJobs(jobs) && w > 0 && w % 1000 == 0 && since >= UNIX_EPOCH + 1000 && slot >= 0
    ensures var sql, ref := SqlBucketAt(EncodeJobs(jobs), Unix(since), w / 1000, slot), BucketAt(jobs, since, w, slot);
      var first := slot == TimeSlot(since, w);
      && (sql.start == ref.start <==> slot >= 1)
      && sql.completed == ref.completed + (if first then |BlurredRows(jobs, since, {Completed})| else 0)
      && sql.failed == ref.failed + (if first then |BlurredRows(jobs, since, FAILURE_STATES)| else 0)
  {
    DoneIs(jobs, since);
    ClassAgrees(jobs, CompletedKeys(jobs, since), BlurredRows(jobs, since, {Completed}), since, w, slot);
    ClassAgrees(jobs, FailedKeys(jobs, since), BlurredRows(jobs, since, FAILURE_STATES), since, w, slot);
    BucketStarts(w, slot);
  }

  lemma BucketStarts(w: int, slot: int)
    requires w > 0 && w % 1000 == 0 && slot >= 0
    ensures FromUnix(slot * (w / 1000)) == if slot == 0 then 0 else UNIX_EPOCH + slot * w
    ensures slot == 0 ==> slot * w == 0
  {
    assert slot * (w / 1000) * 1000 == slot * w by { assert w == w / 1000 * 1000; }
    MulCancel(w / 1000, 0, slot);
  }

  /** The whole microseconds of a bucket. */
  function Whole(bucket: int): int {
    Width(bucket) / 1000 * 1000
  }

  /** For every bucket of a microsecond or more.  A range that is not refused, SQL fills as the
      reference fills it with the bucket cut to whole microseconds, exactly when that has no
      bucket, or when no counted row lies in the microsecond before `since` and `since` is past
      the first bucket of 1970 (whose start is stored as unset). */
  lemma SqlTimelineFillsIff(jobs: map<string, Job>, since: Time, bucket: int, checkedAt: Time, now: Time)
    requires CleanJobs(jobs) && Width(bucket) >= 1000
    requires since >= UNIX_EPOCH + 1000 && now >= UNIX_EPOCH
    ensures var sql := SqlTimelineOf(EncodeJobs(jobs), since, bucket, checkedAt, now);
      var ref := Filled(jobs, since, Whole(bucket), now);
      if Refused(since, Width(bucket), checkedAt) then sql == Reply(RangeTooLarge)
      else sql == Reply(ref) <==>
        (ref.Buckets? && ref.list != [] ==>
          BlurredRows(jobs, since, {Completed} + FAILURE_STATES) == {} && TimeSlot(since, Whole(bucket)) >= 1)
  {
    var w := Whole(bucket);
    SameRange(since, w, now);
    var ref, sql := Filled(jobs, since, w, now), SqlFilled(EncodeJobs(jobs), since, w / 1000, now);
    if ref.Buckets? {
      SameLists(jobs, since, w, TimeSlot(since, w), ref.list, sql.out.list);
    }
  }

  /** So for buckets of whole microseconds the two timelines are equal exactly when they have no
      bucket, or no counted row lies in the microsecond before `since` and `since` is past the
      first bucket of 1970. */
  lemma SqlTimelineAgreesIff(jobs: map<string, Job>, since: Time, bucket: int, checkedAt: Time, now: Time)
    requires CleanJobs(jobs) && Width(bucket) % 1000 == 0
    requires since >= UNIX_EPOCH + 1000 && now >= UNIX_EPOCH
    ensures var ref := TimelineOf(jobs, since, bucket, checkedAt, now);
      SqlTimelineOf(EncodeJobs(jobs), since, bucket, checkedAt, now) == Reply(ref) <==>
        (ref.Buckets? && ref.list != [] ==>
          BlurredRows(jobs, since, {Completed} + FAILURE_STATES) == {} && TimeSlot(since, Width(bucket)) >= 1)
  {
    WholeIsWidth(bucket);
    SqlTimelineFillsIff(jobs, since, bucket, checkedAt, now);
    var ref := TimelineOf(jobs, since, bucket, checkedAt, now);
    if Refused(since, Width(bucket), checkedAt) {
      assert ref == RangeTooLarge;
    } else {
      assert ref == Filled(jobs, since, Whole(bucket), now);
    }
  }

  lemma WholeIsWidth(bucket: int)
    requires Width(bucket) % 1000 == 0
    ensures Whole(bucket) == Width(bucket) >= 1000
  {}

  /** A bucket of, say, 1500 ns is cut to 1000 ns in SQL, so from two buckets on the timelines
      never agree. */
  lemma FractionalBucketsDiffer(jobs: map<string, Job>, since: Time, bucket: int, checkedAt: Time, now: Time)
    requires bucket > 1000 && bucket % 1000 != 0
    requires since >= UNIX_EPOCH + 1000 && now >= UNIX_EPOCH
    requires var ref := TimelineOf(jobs, since, bucket, checkedAt, now); ref.Buckets? && |ref.list| >= 2
    ensures SqlTimelineOf(EncodeJobs(jobs), since, bucket, checkedAt, now)
         != Reply(TimelineOf(jobs, since, bucket, checkedAt, now))
  {
    var ref, sql := TimelineOf(jobs, since, bucket, checkedAt, now), SqlTimelineOf(EncodeJobs(jobs), since, bucket, checkedAt, now);
    var w := Whole(bucket);
    SameRange(since, w, now);
    TruncMonotone(0, since - UNIX_EPOCH, w);
    TruncMonotone(0, since - UNIX_EPOCH, bucket);
    if sql == Reply(ref) {
      var first, slot := TimeSlot(since, bucket), TimeSlot(since, w);
      assert ref.list[0] == BucketAt(jobs, since, bucket, first + 0) && ref.list[1] == BucketAt(jobs, since, bucket, first + 1);
      assert sql.out.list[0] == SqlBucketAt(EncodeJobs(jobs), Unix(since), w / 1000, slot + 0);
      assert sql.out.list[1] == SqlBucketAt(EncodeJobs(jobs), Unix(since), w / 1000, slot + 1);
      StartsApart(bucket, first);
      SqlStartsApart(w / 1000, slot);
    }
  }

  lemma StartsApart(w: int, slot: int)
    requires w > 0 && slot >= 0
    ensures (slot + 1) * w == slot * w + w && slot * w >= 0
  {
    MulCancel(w, -1, slot);
  }

  lemma SqlStartsApart(v: int, slot: int)
    requires v > 0 && slot >= 0
    ensures FromUnix((slot + 1) * v) == UNIX_EPOCH + slot * v * 1000 + v * 1000
    ensures FromUnix(slot * v) == if slot == 0 then 0 else UNIX_EPOCH + slot * v * 1000
  {
    StartsApart(v, slot);
    MulCancel(v, 0, slot);
  }

  /** A concrete difference: a job that finished at a whole second, seen from half a microsecond
      later, is counted by SQL and not by the reference. */
  lemma SqlCountsBlurredRow(j: Job)
    requires j.state == Completed && MicroJob(j) && j.pattern == NormalizeName(j.name)
    requires j.enqueuedAt == 0 && j.finishedAt == UNIX_EPOCH + 1_000_000_000
    ensures var jobs, since := map[j.key := j], j.finishedAt + 500;
      SqlTimelineOf(EncodeJobs(jobs), since, 1_000_000_000, since, since)
      != Reply(TimelineOf(jobs, since, 1_000_000_000, since, since))
  {
    var jobs, since := map[j.key := j], j.finishedAt + 500;
    SqlTimelineAgreesIff(jobs, since, 1_000_000_000, since, since);
    assert j.key in BlurredRows(jobs, since, {Completed} + FAILURE_STATES);
  }

  lemma SameRange(since: Time, w: int, now: Time)
    requires w > 0 && w % 1000 == 0 && since >= UNIX_EPOCH + 1000 && now >= UNIX_EPOCH
    ensures Unix(since) >= 1
    ensures TruncDiv(Unix(since), w / 1000) == TimeSlot(since, w) && TruncDiv(Unix(now), w / 1000) == TimeSlot(now, w)
  {
    SlotAgrees(since, w);
    SlotAgrees(now, w);
  }

  /** SQL has at least what the reference has, bucket by bucket; more in the first if rows are
      blurred. */
  lemma SameLists(jobs: map<string, Job>, since: Time, w: int, first: int, ref: seq<Bucket>, sql: seq<Bucket>)
    requires CleanJobs(jobs) && w > 0 && w % 1000 == 0 && since >= UNIX_EPOCH + 1000
    requires first == TimeSlot(since, w) && Lists(jobs, since, w, first, ref, sql)
    ensures sql == ref <==> ref == [] || (BlurredRows(jobs, since, {Completed} + FAILURE_STATES) == {} && first >= 1)
  {
    LaterSame(jobs, since, w, first, ref, sql);
    if |ref| > 0 {
      FirstBuckets(jobs, since, w);
      FirstOf(jobs, since, w, first, ref, sql);
    }
    SameFromSecond(ref, sql);
  }

  /** Two fills of the same slots, the reference's and SQL's. */
  ghost predicate Lists(jobs: map<string, Job>, since: Time, w: int, first: int, ref: seq<Bucket>, sql: seq<Bucket>)
    requires w > 0 && w / 1000 > 0
  {
    && |ref| == |sql|
    && (forall i :: 0 <= i < |ref| ==> ref[i] == BucketAt(jobs, since, w, first + i))
    && (forall i :: 0 <= i < |sql| ==> sql[i] == SqlBucketAt(EncodeJobs(jobs), Unix(since), w / 1000, first + i))
  }

  lemma FirstOf(jobs: map<string, Job>, since: Time, w: int, first: int, ref: seq<Bucket>, sql: seq<Bucket>)
    requires w > 0 && w / 1000 > 0 && Lists(jobs, since, w, first, ref, sql) && |ref| > 0
    ensures ref[0] == BucketAt(jobs, since, w, first)
    ensures sql[0] == SqlBucketAt(EncodeJobs(jobs), Unix(since), w / 1000, first)
  {
    assert first + 0 == first;
  }

  lemma LaterSame(jobs: map<string, Job>, since: Time, w: int, first: int, ref: seq<Bucket>, sql: seq<Bucket>)
    requires CleanJobs(jobs) && w > 0 && w % 1000 == 0 && since >= UNIX_EPOCH + 1000
    requires first == TimeSlot(since, w) && Lists(jobs, since, w, first, ref, sql)
    ensures |ref| == |sql| && forall i :: 0 < i < |ref| ==> sql[i] == ref[i]
  {
    forall i | 0 < i < |ref| ensures sql[i] == ref[i] {
      LaterBuckets(jobs, since, w, first + i);
    }
  }

  lemma SameFromSecond(ref: seq<Bucket>, sql: seq<Bucket>)
    requires |ref| == |sql| && forall i :: 0 < i < |ref| ==> sql[i] == ref[i]
    ensures sql == ref <==> ref == [] || sql[0] == ref[0]
  {}

  lemma LaterBuckets(jobs: map<string, Job>, since: Time, w: int, slot: int)
    requires CleanJobs(jobs) && w > 0 && w % 1000 == 0 && since >= UNIX_EPOCH + 1000
    requires slot > TimeSlot(since, w)
    ensures SqlBucketAt(EncodeJobs(jobs), Unix(since), w / 1000, slot) == BucketAt(jobs, since, w, slot)
  {
    TruncMonotone(0, since - UNIX_EPOCH, w);
    BucketAgrees(jobs, since, w, slot);
  }

  lemma FirstBuckets(jobs: map<string, Job>, since: Time, w: int)
    requires CleanJobs(jobs) && w > 0 && w % 1000 == 0 && since >= UNIX_EPOCH + 1000
    ensures var first := TimeSlot(since, w);
      SqlBucketAt(EncodeJobs(jobs), Unix(since), w / 1000, first) == BucketAt(jobs, since, w, first)
      <==> BlurredRows(jobs, since, {Completed} + FAILURE_STATES) == {} && first >= 1
  {
    var c, f := BlurredRows(jobs, since, {Completed}), BlurredRows(jobs, since, FAILURE_STATES);
    assert BlurredRows(jobs, since, {Completed} + FAILURE_STATES) == c + f;
    TruncMonotone(0, since - UNIX_EPOCH, w);
    BucketAgrees(jobs, since, w, TimeSlot(since, w));
  }

  /** With no `since` the reference answers with no buckets; SQL checks the range first, and
      refuses every bucket too short for the longest span a duration can hold. */
  lemma SqlZeroSince(jobs: map<string, Job>, bucket: int, checkedAt: Time, now: Time)
    requires checkedAt >= TWO_63
    ensures TimelineOf(jobs, 0, bucket, checkedAt, now) == Buckets([])
    ensures SqlTimelineOf(EncodeJobs(jobs), 0, bucket, checkedAt, now)
         == if Width(bucket) * (MAX_BUCKETS + 1) < TWO_63 then Reply(RangeTooLarge) else Reply(Buckets([]))
  {
    TruncAtLeast(TWO_63 - 1, Width(bucket), MAX_BUCKETS);
  }
}
