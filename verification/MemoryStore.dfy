/** The reference store (store/memory/memory.go): three maps updated in place.

A `range` over a map visits its keys in an unspecified order; the loops below pick
an arbitrary remaining key each time, so what they prove holds for every order. */
module MemoryStores {
  import opened Bands
  import opened Records
  import opened Merging
  import opened History
  import HistoryRuns
  import opened Filters
  import Listing
  import Tallies
  import opened Timelines

  class MemoryStore {
    var jobs: map<string, Job>
    var attempts: map<string, seq<Attempt>>
    var epochs: map<string, Time>

    ghost function Value(): Db
      reads this
    {
      Db(jobs, attempts, epochs)
    }

    ghost predicate Valid()
      reads this
    {
      HistoryRuns.Indexed(Value())
    }

    constructor ()
      ensures Valid() && Value() == EMPTY
    {
      jobs, attempts, epochs := map[], map[], map[];
    }

    // ---- Writes ------------------------------------------------------------------

    method UpsertJobs(batch: seq<Job>)
      requires Valid()
      modifies this
      ensures Valid() && Value() == Apply(old(Value()), Upsert(batch))
    {
      HistoryRuns.ApplyIndexed(Value(), Upsert(batch));
      for i := 0 to |batch|
        invariant Value() == old(Value()).(jobs := UpsertAll(old(jobs), batch[..i]))
      {
        assert batch[..i + 1][..i] == batch[..i];
        var incoming := Prepare(batch[i]);
        if incoming.key !in jobs {
          jobs := jobs[incoming.key := incoming];
        } else {
          var merged := MergeRecord(jobs[incoming.key], incoming);
          jobs := jobs[incoming.key := merged];
        }
      }
      assert batch[..|batch|] == batch;
    }

    method SaveAttempts(batch: seq<Attempt>)
      requires Valid()
      modifies this
      ensures Valid() && Value() == Apply(old(Value()), Save(batch))
    {
      HistoryRuns.ApplyIndexed(Value(), Save(batch));
      for i := 0 to |batch|
        invariant Value() == old(Value()).(attempts := SaveAll(old(attempts), batch[..i]))
      {
        assert batch[..i + 1][..i] == batch[..i];
        var key := AttemptKey(batch[i]);
        var placed := PlaceRecord(List(attempts, key), batch[i]);
        attempts := attempts[key := placed];
      }
      assert batch[..|batch|] == batch;
    }

    /** The inner scan: replace the record of the same slot, or append. */
    static method PlaceRecord(list: seq<Attempt>, incoming: Attempt) returns (out: seq<Attempt>)
      ensures out == Place(list, incoming)
    {
      var i := 0;
      while i < |list|
        invariant 0 <= i <= Find(list, SlotOf(incoming))
      {
        var existing := list[i];
        if existing.attempt == incoming.attempt && existing.startedAt == incoming.startedAt {
          var record := incoming;
          if record.err == "" {
            record := record.(err := existing.err);
          }
          if record.finishedAt == 0 {
            record := record.(finishedAt := existing.finishedAt);
          }
          return list[i := record];
        }
        i := i + 1;
      }
      return list + [incoming];
    }

    method Heartbeat(epoch: string, seenAt: Time)
      requires Valid()
      modifies this
      ensures Valid() && Value() == Apply(old(Value()), Beat(epoch, seenAt))
    {
      epochs := epochs[epoch := seenAt];
    }

    method ReconcileEpoch(epoch: string, staleAfter: int, now: Time) returns (changed: nat)
      requires Valid()
      modifies this
      ensures Valid() && Value() == Apply(old(Value()), ReconcileAt(epoch, now - staleAfter))
      ensures changed == HistoryRuns.Changed(old(jobs), jobs)
    {
      var cutoff := now - staleAfter;
      HistoryRuns.ApplyIndexed(Value(), ReconcileAt(epoch, cutoff));
      HistoryRuns.ReconcileCounts(Value(), epoch, cutoff);
      changed := InterruptOrphans(epoch, cutoff);
    }

    method InterruptOrphans(epoch: string, cutoff: Time) returns (changed: nat)
      modifies this`jobs
      ensures Value() == Reconcile(old(Value()), epoch, cutoff)
      ensures changed == |OrphanKeys(old(Value()), epoch, cutoff)|
    {
      ghost var orphans := OrphanKeys(Value(), epoch, cutoff);
      changed := 0;
      var todo := jobs.Keys;
      assert orphans - todo == {};
      InterruptNone(jobs);
      while todo != {}
        invariant todo <= old(jobs).Keys
        invariant jobs == Interrupt(old(jobs), orphans - todo)
        invariant changed == |orphans - todo|
        decreases |todo|
      {
        var key :| key in todo;
        InterruptNext(old(jobs), orphans, todo, key);
        var one := InterruptOrphan(key, epoch, cutoff);
        changed := changed + one;
        todo := todo - {key};
      }
      assert orphans - todo == orphans;
    }

    /** One turn of the range. */
    method InterruptOrphan(key: string, epoch: string, cutoff: Time) returns (changed: nat)
      requires key in jobs
      modifies this`jobs
      ensures var job := old(jobs)[key];
        if Orphaned(epochs, epoch, cutoff, job)
        then changed == 1 && jobs == old(jobs)[key := job.(state := Interrupted)]
        else changed == 0 && jobs == old(jobs)
    {
      var job := jobs[key];
      if job.epoch == epoch || Terminal(job.state) {
        return 0;
      }
      if job.epoch in epochs && epochs[job.epoch] != 0 && !(epochs[job.epoch] < cutoff) {
        return 0;
      }
      jobs := jobs[key := job.(state := Interrupted)];
      return 1;
    }

    method PruneJobs(before: Time, states: seq<State>) returns (removed: nat)
      requires Valid()
      modifies this
      ensures Valid() && Value() == Apply(old(Value()), PruneAt(before, set s | s in states))
      ensures removed == |old(jobs)| - |jobs|
    {
      var wanted := set s | s in states;
      HistoryRuns.ApplyIndexed(Value(), PruneAt(before, wanted));
      HistoryRuns.PruneCounts(Value(), before, wanted);
      HistoryRuns.PruneExact(Value(), before, wanted);
      if before == 0 {
        return 0;
      }
      removed := DeleteAged(before, wanted);
    }

    method DeleteAged(before: Time, wanted: set<State>) returns (removed: nat)
      requires before != 0
      modifies this`jobs, this`attempts
      ensures Value() == Prune(old(Value()), before, wanted)
      ensures removed == |AgedKeys(old(jobs), before, wanted)|
    {
      ghost var gone := AgedKeys(jobs, before, wanted);
      removed := 0;
      var todo := jobs.Keys;
      assert gone - todo == {};
      while todo != {}
        invariant todo <= old(jobs).Keys
        invariant jobs == old(jobs) - (gone - todo) && attempts == old(attempts) - (gone - todo)
        invariant removed == |gone - todo|
        decreases |todo|
      {
        var key :| key in todo;
        MinusNext(old(jobs), gone, todo, key);
        MinusNext(old(attempts), gone, todo, key);
        var one := DeleteIfAged(key, before, wanted);
        removed := removed + one;
        todo := todo - {key};
      }
      assert gone - todo == gone;
    }

    /** One turn of the range. */
    method DeleteIfAged(key: string, before: Time, wanted: set<State>) returns (removed: nat)
      requires key in jobs
      modifies this`jobs, this`attempts
      ensures if Aged(old(jobs)[key], before, wanted)
        then removed == 1 && jobs == old(jobs) - {key} && attempts == old(attempts) - {key}
        else removed == 0 && jobs == old(jobs) && attempts == old(attempts)
    {
      var job := jobs[key];
      if !Terminal(job.state) || !(LastActive(job) < before) {
        return 0;
      }
      if |wanted| > 0 && job.state !in wanted {
        return 0;
      }
      jobs := jobs - {key};
      attempts := attempts - {key};
      return 1;
    }

    // ---- Reads ---------------------------------------------------------------------

    /** Matching rows, each once, in the arbitrary order of the map. */
    method Matching(filter: Filter) returns (found: seq<Job>)
      requires Keyed(jobs)
      ensures multiset(found) == multiset(MatchingRows(jobs, filter))
      ensures |found| == |MatchingKeys(jobs, filter)|
    {
      var terms := Fields(Lower(filter.search));
      found := [];
      var todo := jobs.Keys;
      ghost var keys := MatchingKeys(jobs, filter);
      assert keys - todo == {} && Rows(jobs, {}) == {};
      while todo != {}
        invariant todo <= jobs.Keys
        invariant multiset(found) == multiset(Rows(jobs, keys - todo))
        decreases |todo|
      {
        var key :| key in todo;
        MatchNext(jobs, keys, todo, key);
        var skip := Skips(filter, terms, jobs[key]);
        if !skip {
          found := found + [jobs[key]];
        }
        todo := todo - {key};
      }
      assert keys - todo == keys;
      RowsCount(jobs, keys);
      assert |multiset(found)| == |multiset(Rows(jobs, keys))|;
    }

    /** The chain of early `continue`s. */
    static method Skips(filter: Filter, terms: seq<string>, job: Job) returns (skip: bool)
      requires terms == Fields(Lower(filter.search))
      ensures skip <==> !Matches(filter, job)
    {
      if filter.queue != "" && job.queue != filter.queue {
        return true;
      }
      if filter.name != "" && job.name != filter.name {
        return true;
      }
      if filter.pattern != "" && job.pattern != filter.pattern {
        return true;
      }
      if |filter.states| > 0 && job.state !in filter.states {
        return true;
      }
      if filter.before != 0 && job.enqueuedAt > filter.before {
        return true;
      }
      return !MatchesTerms(job, terms) || !MatchesAttribute(job, filter);
    }

    method CountJobs(filter: Filter) returns (total: nat)
      requires Valid()
      ensures total == |MatchingKeys(jobs, filter)|
    {
      var found := Matching(filter);
      total := |found|;
    }

    ghost function Listed(filter: Filter): seq<Job>
      requires Valid()
      reads this
    {
      RowsDistinct(jobs, MatchingKeys(jobs, filter));
      Listing.NewestFirst(MatchingRows(jobs, filter))
    }

    /** One page of the listing, whatever order the map was walked in; None is the run-time
        failure of slicing at a negative offset. */
    method Jobs(filter: Filter) returns (page: Option<seq<Job>>)
      requires Valid()
      ensures page == if filter.offset < 0 then None
                      else Some(Listing.PageOf(Listed(filter), filter.offset, filter.limit))
      ensures page.Some? ==> Listing.Descending(page.value) && forall j :: j in page.value ==> Matches(filter, j)
    {
      var found := Matching(filter);
      RowsDistinct(jobs, MatchingKeys(jobs, filter));
      found := Listing.SortNewestFirst(found, MatchingRows(jobs, filter));
      page := Listing.TakePage(found, filter.offset, filter.limit);
      if filter.offset >= 0 {
        PageMatches(found, MatchingRows(jobs, filter), filter);
      }
    }

    /** The largest groups of a complete grouping of the matching rows. */
    method GroupJobs(filter: Filter, limit: int) returns (groups: seq<Tallies.Group>, ghost all: seq<Tallies.Group>)
      requires Valid()
      ensures Tallies.Grouping(MatchingRows(jobs, filter), all)
      ensures Tallies.SumCounts(all) == |MatchingKeys(jobs, filter)|
      ensures groups <= all && Tallies.LargestFirst(groups)
      ensures |groups| == (var n := if limit <= 0 || limit > 200 then 50 else limit; if |all| > n then n else |all|)
      ensures forall i, j :: 0 <= i < |groups| <= j < |all| ==> all[j].count <= groups[i].count
      ensures Tallies.Summary(MatchingRows(jobs, filter), groups)
    {
      var most := if limit <= 0 || limit > 200 then 50 else limit;
      var found := Matching(filter);
      ghost var rows := MatchingRows(jobs, filter);
      var tally := Tallies.Tally(found, rows);
      groups := Tallies.RankGroups(rows, tally);
      all := groups;
      Tallies.GroupingConserves(rows, all);
      RowsCount(jobs, MatchingKeys(jobs, filter));
      if |groups| > most {
        groups := groups[..most];
      }
      Tallies.Summarizes(rows, all, groups);
    }

    method Counts() returns (counts: map<State, nat>)
      ensures Tallies.CountsOf(jobs, counts)
    {
      counts := map[];
      var todo := jobs.Keys;
      assert jobs.Keys - todo == {};
      while todo != {}
        invariant todo <= jobs.Keys
        invariant Tallies.Counted(jobs, jobs.Keys - todo, counts)
        decreases |todo|
      {
        var key :| key in todo;
        var state := jobs[key].state;
        Tallies.CountedStep(jobs, jobs.Keys - todo, counts, key);
        DeleteNext(jobs.Keys, todo, key);
        counts := counts[state := (if state in counts then counts[state] else 0) + 1];
        todo := todo - {key};
      }
      assert jobs.Keys - todo == jobs.Keys;
    }

    method Timeline(since: Time, bucket: int, checkedAt: Time, now: Time) returns (out: Outcome)
      ensures out == TimelineOf(jobs, since, bucket, checkedAt, now)
    {
      var width := Width(bucket);
      if since == 0 {
        return Buckets([]);
      }
      if TruncDiv(Span(since, checkedAt), width) > MAX_BUCKETS {
        return RangeTooLarge;
      }
      var counts := CountSlots(since, width);
      var first, last := TimeSlot(since, width), TimeSlot(now, width);
      if last - first + 1 < 0 {
        return Panics;
      }
      var list: seq<Bucket> := [];
      for slot := first to last + 1
        invariant |list| == slot - first
        invariant forall i :: 0 <= i < |list| ==> list[i] == BucketAt(jobs, since, width, first + i)
      {
        if slot in counts {
          list := list + [counts[slot]];
        } else {
          list := list + [Bucket(UNIX_EPOCH + slot * width, 0, 0)];
        }
      }
      out := Buckets(list);
    }

    method CountSlots(since: Time, width: int) returns (counts: map<int, Bucket>)
      requires width > 0
      ensures forall slot :: slot in counts ==> counts[slot] == BucketAt(jobs, since, width, slot)
      ensures forall slot :: slot !in counts ==>
        BucketAt(jobs, since, width, slot) == Bucket(UNIX_EPOCH + slot * width, 0, 0)
    {
      counts := map[];
      var todo := jobs.Keys;
      assert jobs.Keys - todo == {};
      NothingSlotted(jobs, since, width);
      while todo != {}
        invariant todo <= jobs.Keys
        invariant Slotted(jobs, jobs.Keys - todo, since, width, counts)
        decreases |todo|
      {
        var key :| key in todo;
        counts := CountRow(counts, key, since, width, jobs.Keys - todo);
        DeleteNext(jobs.Keys, todo, key);
        todo := todo - {key};
      }
      assert jobs.Keys - todo == jobs.Keys;
      AllSlotted(jobs, since, width, counts);
    }

    method CountRow(before: map<int, Bucket>, key: string, since: Time, width: int, ghost done: set<string>)
      returns (counts: map<int, Bucket>)
      requires width > 0 && key in jobs && key !in done && Slotted(jobs, done, since, width, before)
      ensures Slotted(jobs, done + {key}, since, width, counts)
    {
      counts := before;
      var job := jobs[key];
      var seen := LastActive(job);
      if Terminal(job.state) && !(seen < since) {
        var slot := TimeSlot(seen, width);
        var found := if slot in counts then counts[slot] else Bucket(UNIX_EPOCH + slot * width, 0, 0);
        if job.state == Completed {
          found := found.(completed := found.completed + 1);
        } else if job.state in FAILURE_STATES {
          found := found.(failed := found.failed + 1);
        }
        SlottedStep(jobs, done, since, width, counts, key, found);
        counts := counts[slot := found];
      } else {
        SlottedSkip(jobs, done, since, width, counts, key);
      }
    }
  }

  // ---- One turn of each loop ---------------------------------------------------------

  lemma InterruptNone(jobs: map<string, Job>)
    ensures Interrupt(jobs, {}) == jobs
  {}

  lemma InterruptNext(jobs: map<string, Job>, orphans: set<string>, todo: set<string>, key: string)
    requires key in todo && todo <= jobs.Keys
    ensures Interrupt(jobs, orphans - todo)[key] == jobs[key]
    ensures Interrupt(jobs, orphans - (todo - {key})) ==
      if key in orphans then Interrupt(jobs, orphans - todo)[key := jobs[key].(state := Interrupted)]
      else Interrupt(jobs, orphans - todo)
    ensures |orphans - (todo - {key})| == |orphans - todo| + if key in orphans then 1 else 0
  {
    DeleteNext(orphans, todo, key);
  }

  lemma PageMatches(list: seq<Job>, rows: set<Job>, filter: Filter)
    requires Listing.DistinctKeys(rows) && list == Listing.NewestFirst(rows)
    requires filter.offset >= 0 && forall j :: j in rows ==> Matches(filter, j)
    ensures var page := Listing.PageOf(list, filter.offset, filter.limit);
      Listing.Descending(page) && forall j :: j in page ==> Matches(filter, j)
  {
    Listing.ListingIff(list, rows);
    Listing.EnumeratesMembers(list, rows);
    Listing.PageShows(list, filter.offset, filter.limit);
  }

  lemma MatchNext(jobs: map<string, Job>, keys: set<string>, todo: set<string>, key: string)
    requires Keyed(jobs) && key in todo && todo <= jobs.Keys && keys <= jobs.Keys
    ensures multiset(Rows(jobs, keys - (todo - {key}))) ==
      if key in keys then multiset(Rows(jobs, keys - todo)) + multiset{jobs[key]} else multiset(Rows(jobs, keys - todo))
  {
    DeleteNext(keys, todo, key);
    if key in keys {
      RowsInsert(jobs, keys - todo, key);
    }
  }

  lemma MinusNext<V>(m: map<string, V>, gone: set<string>, todo: set<string>, key: string)
    requires key in todo
    ensures m - (gone - (todo - {key})) == if key in gone then m - (gone - todo) - {key} else m - (gone - todo)
    ensures |gone - (todo - {key})| == |gone - todo| + if key in gone then 1 else 0
  {
    DeleteNext(gone, todo, key);
    assert m - ((gone - todo) + {key}) == m - (gone - todo) - {key};
  }

  lemma DeleteNext(gone: set<string>, todo: set<string>, key: string)
    requires key in todo
    ensures gone - (todo - {key}) == if key in gone then (gone - todo) + {key} else gone - todo
    ensures |gone - (todo - {key})| == |gone - todo| + if key in gone then 1 else 0
  {
    if key in gone {
      assert gone - (todo - {key}) == (gone - todo) + {key};
    } else {
      assert gone - (todo - {key}) == gone - todo;
    }
  }

  /** The bucket of a slot, counting the rows visited so far only. */
  ghost function PartialBucket(jobs: map<string, Job>, done: set<string>, since: Time, width: int, slot: int): Bucket
    requires width > 0
  {
    Bucket(UNIX_EPOCH + slot * width,
           |Partition.Class(CompletedKeys(jobs, since) * done, SlotAt(jobs, width), slot)|,
           |Partition.Class(FailedKeys(jobs, since) * done, SlotAt(jobs, width), slot)|)
  }

  ghost predicate Slotted(jobs: map<string, Job>, done: set<string>, since: Time, width: int, counts: map<int, Bucket>)
    requires width > 0
  {
    forall slot :: PartialBucket(jobs, done, since, width, slot)
      == if slot in counts then counts[slot] else Bucket(UNIX_EPOCH + slot * width, 0, 0)
  }

  lemma NothingSlotted(jobs: map<string, Job>, since: Time, width: int)
    requires width > 0
    ensures Slotted(jobs, {}, since, width, map[])
  {
    forall slot ensures PartialBucket(jobs, {}, since, width, slot) == Bucket(UNIX_EPOCH + slot * width, 0, 0) {
      assert Partition.Class(CompletedKeys(jobs, since) * {}, SlotAt(jobs, width), slot) == {};
      assert Partition.Class(FailedKeys(jobs, since) * {}, SlotAt(jobs, width), slot) == {};
    }
  }

  lemma AllSlotted(jobs: map<string, Job>, since: Time, width: int, counts: map<int, Bucket>)
    requires width > 0 && Slotted(jobs, jobs.Keys, since, width, counts)
    ensures forall slot :: slot in counts ==> counts[slot] == BucketAt(jobs, since, width, slot)
    ensures forall slot :: slot !in counts ==>
      BucketAt(jobs, since, width, slot) == Bucket(UNIX_EPOCH + slot * width, 0, 0)
  {
    assert CompletedKeys(jobs, since) * jobs.Keys == CompletedKeys(jobs, since);
    assert FailedKeys(jobs, since) * jobs.Keys == FailedKeys(jobs, since);
    forall slot ensures BucketAt(jobs, since, width, slot) == PartialBucket(jobs, jobs.Keys, since, width, slot) {}
  }

  lemma ClassGrows(jobs: map<string, Job>, keys: set<string>, done: set<string>, key: string, width: int, slot: int)
    requires width > 0 && key !in done
    ensures |Partition.Class(keys * (done + {key}), SlotAt(jobs, width), slot)|
         == |Partition.Class(keys * done, SlotAt(jobs, width), slot)|
            + (if key in keys && SlotAt(jobs, width)(key) == slot then 1 else 0)
  {
    if key in keys {
      assert keys * (done + {key}) == keys * done + {key};
      Partition.ClassInsert(keys * done, SlotAt(jobs, width), key, slot);
    } else {
      assert keys * (done + {key}) == keys * done;
    }
  }

  lemma PartialBucketGrows(jobs: map<string, Job>, done: set<string>, since: Time, width: int, key: string, slot: int)
    requires width > 0 && key in jobs && key !in done
    ensures var b := PartialBucket(jobs, done, since, width, slot);
      var here := TimeSlot(LastActive(jobs[key]), width) == slot;
      PartialBucket(jobs, done + {key}, since, width, slot)
      == Bucket(b.start,
                b.completed + (if here && key in CompletedKeys(jobs, since) then 1 else 0),
                b.failed + (if here && key in FailedKeys(jobs, since) then 1 else 0))
  {
    ClassGrows(jobs, CompletedKeys(jobs, since), done, key, width, slot);
    ClassGrows(jobs, FailedKeys(jobs, since), done, key, width, slot);
  }

  lemma SlottedStep(jobs: map<string, Job>, done: set<string>, since: Time, width: int,
                    counts: map<int, Bucket>, key: string, found: Bucket)
    requires width > 0 && key in jobs && key !in done && Slotted(jobs, done, since, width, counts)
    requires CountsSince(jobs[key], since)
    requires var slot := TimeSlot(LastActive(jobs[key]), width);
      var was := if slot in counts then counts[slot] else Bucket(UNIX_EPOCH + slot * width, 0, 0);
      found == if jobs[key].state == Completed then was.(completed := was.completed + 1)
               else if jobs[key].state in FAILURE_STATES then was.(failed := was.failed + 1) else was
    ensures Slotted(jobs, done + {key}, since, width, counts[TimeSlot(LastActive(jobs[key]), width) := found])
  {
    forall slot {:trigger PartialBucket(jobs, done + {key}, since, width, slot)}
      ensures PartialBucket(jobs, done + {key}, since, width, slot)
        == if slot == TimeSlot(LastActive(jobs[key]), width) then found
           else if slot in counts then counts[slot] else Bucket(UNIX_EPOCH + slot * width, 0, 0)
    {
      PartialBucketGrows(jobs, done, since, width, key, slot);
    }
  }

  lemma SlottedSkip(jobs: map<string, Job>, done: set<string>, since: Time, width: int,
                    counts: map<int, Bucket>, key: string)
    requires width > 0 && key in jobs && key !in done && Slotted(jobs, done, since, width, counts)
    requires !CountsSince(jobs[key], since)
    ensures Slotted(jobs, done + {key}, since, width, counts)
  {
    forall slot {:trigger PartialBucket(jobs, done + {key}, since, width, slot)}
      ensures PartialBucket(jobs, done + {key}, since, width, slot) == PartialBucket(jobs, done, since, width, slot)
    {
      PartialBucketGrows(jobs, done, since, width, key, slot);
    }
  }

  lemma RowsDistinct(jobs: map<string, Job>, keys: set<string>)
    requires Keyed(jobs)
    ensures Listing.DistinctKeys(Rows(jobs, keys))
  {}
}
