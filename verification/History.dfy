/** The value of a history store and its write operations.

These are the specifications that the in-memory class (MemoryStore) is proved to
implement and that the SQL statements (SqlStore) are proved to simulate. */
module History {
  import opened Bands
  import opened Records
  import opened Merging

  datatype Db = Db(
    jobs: map<string, Job>,
    attempts: map<string, seq<Attempt>>,
    epochs: map<string, Time>)

  const EMPTY := Db(map[], map[], map[])

  function Get<K, V>(m: map<K, V>, k: K): Option<V> {
    if k in m then Some(m[k]) else None
  }

  // ---- UpsertJobs -------------------------------------------------------------

  function UpsertOne(jobs: map<string, Job>, j: Job): map<string, Job> {
    var p := Prepare(j);
    jobs[p.key := Absorb(Merge, Get(jobs, p.key), p).value]
  }

  function UpsertAll(jobs: map<string, Job>, batch: seq<Job>): map<string, Job> {
    FoldLeft(UpsertOne, jobs, batch)
  }

  // ---- SaveAttempts -----------------------------------------------------------

  datatype Slot = Slot(attempt: int, startedAt: Time)

  function SlotOf(a: Attempt): Slot {
    Slot(a.attempt, a.startedAt)
  }

  /** Position of the first record in a slot, or the length when there is none. */
  function Find(list: seq<Attempt>, s: Slot): (i: nat)
    ensures i <= |list|
    ensures i < |list| ==> SlotOf(list[i]) == s
    ensures forall j :: 0 <= j < i ==> SlotOf(list[j]) != s
  {
    if |list| == 0 then 0
    else
      var i := Find(list[..|list| - 1], s);
      if i < |list| - 1 || SlotOf(list[|list| - 1]) == s then i else |list|
  }

  function Place(list: seq<Attempt>, a: Attempt): seq<Attempt> {
    var i := Find(list, SlotOf(a));
    if i < |list| then list[i := MergeAttempt(list[i], a)] else list + [a]
  }

  function List(attempts: map<string, seq<Attempt>>, k: string): seq<Attempt> {
    if k in attempts then attempts[k] else []
  }

  function SaveOne(attempts: map<string, seq<Attempt>>, a: Attempt): map<string, seq<Attempt>> {
    attempts[AttemptKey(a) := Place(List(attempts, AttemptKey(a)), a)]
  }

  function SaveAll(attempts: map<string, seq<Attempt>>, batch: seq<Attempt>): map<string, seq<Attempt>> {
    FoldLeft(SaveOne, attempts, batch)
  }

  // ---- ReconcileEpoch -----------------------------------------------------------

  /** An epoch that has beaten, was not retired, and beat no earlier than `cutoff`. */
  predicate Beating(epochs: map<string, Time>, epoch: string, cutoff: Time) {
    epoch in epochs && epochs[epoch] != 0 && epochs[epoch] >= cutoff
  }

  predicate Orphaned(epochs: map<string, Time>, self: string, cutoff: Time, j: Job) {
    j.epoch != self && !Terminal(j.state) && !Beating(epochs, j.epoch, cutoff)
  }

  function OrphanKeys(db: Db, self: string, cutoff: Time): set<string> {
    set k | k in db.jobs && Orphaned(db.epochs, self, cutoff, db.jobs[k])
  }

  function Interrupt(jobs: map<string, Job>, keys: set<string>): map<string, Job> {
    map k | k in jobs :: if k in keys then jobs[k].(state := Interrupted) else jobs[k]
  }

  function Reconcile(db: Db, self: string, cutoff: Time): Db {
    db.(jobs := Interrupt(db.jobs, OrphanKeys(db, self, cutoff)))
  }

  // ---- Prune ----------------------------------------------------------------------

  predicate Aged(j: Job, before: Time, states: set<State>) {
    Terminal(j.state) && LastActive(j) < before && (states == {} || j.state in states)
  }

  function AgedKeys(jobs: map<string, Job>, before: Time, states: set<State>): set<string> {
    if before == 0 then {} else set k | k in jobs && Aged(jobs[k], before, states)
  }

  function Prune(db: Db, before: Time, states: set<State>): Db {
    var gone := AgedKeys(db.jobs, before, states);
    db.(jobs := db.jobs - gone, attempts := db.attempts - gone)
  }

  // ---- Any sequence of store calls -----------------------------------------------------

  /** One call; each runs under the store's lock, so a run is a sequence of them. */
  datatype Op =
    | Upsert(jobs: seq<Job>)
    | Save(attempts: seq<Attempt>)
    | Beat(epoch: string, seenAt: Time)
    | ReconcileAt(self: string, cutoff: Time)
    | PruneAt(before: Time, states: set<State>)

  function Apply(db: Db, op: Op): Db {
    match op
    case Upsert(batch) => db.(jobs := UpsertAll(db.jobs, batch))
    case Save(batch) => db.(attempts := SaveAll(db.attempts, batch))
    case Beat(epoch, seenAt) => db.(epochs := db.epochs[epoch := seenAt])
    case ReconcileAt(self, cutoff) => Reconcile(db, self, cutoff)
    case PruneAt(before, states) => Prune(db, before, states)
  }

  function Run(db: Db, ops: seq<Op>): Db {
    FoldLeft(Apply, db, ops)
  }

  // ---- Batching ----------------------------------------------------------------------------

  function Flatten<T>(batches: seq<seq<T>>): seq<T> {
    if |batches| == 0 then []
    else Flatten(batches[..|batches| - 1]) + batches[|batches| - 1]
  }

  function UpsertBatches(jobs: map<string, Job>, batches: seq<seq<Job>>): map<string, Job> {
    FoldLeft(UpsertAll, jobs, batches)
  }

  lemma {:induction false} BatchingIrrelevant(jobs: map<string, Job>, batches: seq<seq<Job>>)
    ensures UpsertBatches(jobs, batches) == UpsertAll(jobs, Flatten(batches))
  {
    if |batches| > 0 {
      var m := |batches| - 1;
      BatchingIrrelevant(jobs, batches[..m]);
      FoldLeftConcat(UpsertOne, jobs, Flatten(batches[..m]), batches[m]);
    }
  }

  // ---- Rows are independent ------------------------------------------------------------------

  /** The prepared events of a stream that land on one key. */
  function Own(k: string, batch: seq<Job>): (own: seq<Job>)
    ensures forall j :: j in own <==> exists i :: 0 <= i < |batch| && JobKey(batch[i]) == k && j == Prepare(batch[i])
  {
    if |batch| == 0 then []
    else
      var m := |batch| - 1;
      assert batch == batch[..m] + [batch[m]];
      Own(k, batch[..m]) + if JobKey(batch[m]) == k then [Prepare(batch[m])] else []
  }

  /** Each row is the fold of the events that carry its key, and of nothing else. */
  lemma {:induction false} UpsertProjects(jobs: map<string, Job>, batch: seq<Job>, k: string)
    ensures Get(UpsertAll(jobs, batch), k) == Fold(Merge, Get(jobs, k), Own(k, batch))
  {
    if |batch| > 0 {
      var m := |batch| - 1;
      UpsertProjects(jobs, batch[..m], k);
      var own := Own(k, batch);
      if JobKey(batch[m]) == k {
        assert own[..|own| - 1] == Own(k, batch[..m]);
      } else {
        assert own == Own(k, batch[..m]);
      }
    }
  }

  lemma SameMap<K, V>(m: map<K, V>, n: map<K, V>)
    requires forall k :: Get(m, k) == Get(n, k)
    ensures m == n
  {
    assert forall k :: k in m <==> Get(m, k).Some?;
    assert forall k :: k in n <==> Get(n, k).Some?;
    assert forall k :: k in m ==> Some(m[k]) == Get(m, k) && Some(n[k]) == Get(n, k);
  }

  /** Re-delivering a whole batch of job records leaves the store as it was. */
  lemma UpsertReplay(jobs: map<string, Job>, batch: seq<Job>)
    ensures UpsertAll(UpsertAll(jobs, batch), batch) == UpsertAll(jobs, batch)
  {
    var once := UpsertAll(jobs, batch);
    MergeIsBand();
    forall k ensures Get(UpsertAll(once, batch), k) == Get(once, k) {
      UpsertProjects(jobs, batch, k);
      UpsertProjects(once, batch, k);
      FoldReplay(Merge, Get(jobs, k), Own(k, batch));
    }
    SameMap(UpsertAll(once, batch), once);
  }

  /** Events that share a key agree with one another. */
  ghost predicate CoherentTraffic(events: seq<Job>) {
    forall x, y :: x in events && y in events && JobKey(x) == JobKey(y) ==> Agree(Prepare(x), Prepare(y))
  }

  lemma OwnSameEvents(xs: seq<Job>, ys: seq<Job>, k: string)
    requires CoherentTraffic(xs)
    requires forall x :: x in xs <==> x in ys
    ensures Coherent(Agree, Own(k, xs))
    ensures forall j :: j in Own(k, xs) <==> j in Own(k, ys)
  {
    forall j ensures j in Own(k, xs) <==> j in Own(k, ys) {
      if j in Own(k, xs) {
        var i :| 0 <= i < |xs| && JobKey(xs[i]) == k && j == Prepare(xs[i]);
        assert xs[i] in ys;
      }
      if j in Own(k, ys) {
        var i :| 0 <= i < |ys| && JobKey(ys[i]) == k && j == Prepare(ys[i]);
        assert ys[i] in xs;
      }
    }
  }

  /** Order tolerance of the whole store: two deliveries of the same coherent events,
      permuted, repeated and cut into batches in any way, leave the same rows. */
  lemma DeliveryOrderTolerant(deliveryA: seq<seq<Job>>, deliveryB: seq<seq<Job>>)
    requires CoherentTraffic(Flatten(deliveryA))
    requires forall x :: x in Flatten(deliveryA) <==> x in Flatten(deliveryB)
    ensures UpsertBatches(map[], deliveryA) == UpsertBatches(map[], deliveryB)
  {
    var xs, ys := Flatten(deliveryA), Flatten(deliveryB);
    BatchingIrrelevant(map[], deliveryA);
    BatchingIrrelevant(map[], deliveryB);
    forall k ensures Get(UpsertAll(map[], xs), k) == Get(UpsertAll(map[], ys), k) {
      UpsertProjects(map[], xs, k);
      UpsertProjects(map[], ys, k);
      OwnSameEvents(xs, ys, k);
      RowOrderTolerant(Own(k, xs), Own(k, ys));
    }
    SameMap(UpsertAll(map[], xs), UpsertAll(map[], ys));
  }

  /** The prepared events of one submission. */
  function OfSubmission(epoch: string, queue: string, id: string, batch: seq<Job>): seq<Job> {
    if |batch| == 0 then []
    else
      var j := batch[|batch| - 1];
      OfSubmission(epoch, queue, id, batch[..|batch| - 1])
      + if j.epoch == epoch && j.queue == queue && j.id == id then [Prepare(j)] else []
  }

  predicate ColonFree(j: Job) {
    ':' !in j.epoch && ':' !in j.queue
  }

  lemma {:induction false} OwnIsOfSubmission(j: Job, batch: seq<Job>)
    requires ColonFree(j) && forall x :: x in batch ==> ColonFree(x)
    ensures Own(JobKey(j), batch) == OfSubmission(j.epoch, j.queue, j.id, batch)
  {
    if |batch| > 0 {
      var x := batch[|batch| - 1];
      assert x in batch;
      OwnIsOfSubmission(j, batch[..|batch| - 1]);
      if JobKey(x) == JobKey(j) {
        KeyInjective(x.epoch, x.queue, x.id, j.epoch, j.queue, j.id);
      }
    }
  }

  /** With colon-free epochs and queues, the traffic of every other submission leaves
      no trace on a row. */
  lemma SubmissionIsolated(jobs: map<string, Job>, batch: seq<Job>, j: Job)
    requires ColonFree(j) && forall x :: x in batch ==> ColonFree(x)
    ensures Get(UpsertAll(jobs, batch), JobKey(j))
         == Fold(Merge, Get(jobs, JobKey(j)), OfSubmission(j.epoch, j.queue, j.id, batch))
  {
    UpsertProjects(jobs, batch, JobKey(j));
    OwnIsOfSubmission(j, batch);
  }

  // ---- Attempt lists ----------------------------------------------------------------------------

  /** At most one record per attempt number and start. */
  ghost predicate UniqueSlots(list: seq<Attempt>) {
    forall i, j :: 0 <= i < j < |list| ==> SlotOf(list[i]) != SlotOf(list[j])
  }

  function PlaceAll(list: seq<Attempt>, batch: seq<Attempt>): seq<Attempt> {
    FoldLeft(Place, list, batch)
  }

  function OwnAttempts(k: string, batch: seq<Attempt>): seq<Attempt> {
    if |batch| == 0 then []
    else
      var a := batch[|batch| - 1];
      OwnAttempts(k, batch[..|batch| - 1]) + if AttemptKey(a) == k then [a] else []
  }

  function InSlot(s: Slot, batch: seq<Attempt>): seq<Attempt> {
    if |batch| == 0 then []
    else
      var a := batch[|batch| - 1];
      InSlot(s, batch[..|batch| - 1]) + if SlotOf(a) == s then [a] else []
  }

  function Lookup(list: seq<Attempt>, s: Slot): Option<Attempt> {
    var i := Find(list, s);
    if i < |list| then Some(list[i]) else None
  }

  lemma {:induction false} SaveProjects(attempts: map<string, seq<Attempt>>, batch: seq<Attempt>, k: string)
    ensures List(SaveAll(attempts, batch), k) == PlaceAll(List(attempts, k), OwnAttempts(k, batch))
    ensures k in SaveAll(attempts, batch) <==> k in attempts || OwnAttempts(k, batch) != []
  {
    if |batch| > 0 {
      var m := |batch| - 1;
      SaveProjects(attempts, batch[..m], k);
      var own := OwnAttempts(k, batch);
      if AttemptKey(batch[m]) == k {
        assert own[..|own| - 1] == OwnAttempts(k, batch[..m]);
      } else {
        assert own == OwnAttempts(k, batch[..m]);
      }
    }
  }

  lemma PlaceOne(list: seq<Attempt>, a: Attempt, s: Slot)
    requires UniqueSlots(list)
    ensures UniqueSlots(Place(list, a))
    ensures Lookup(Place(list, a), s) ==
            if s == SlotOf(a) then Absorb(MergeAttempt, Lookup(list, s), a) else Lookup(list, s)
  {
    var i, out := Find(list, SlotOf(a)), Place(list, a);
    assert forall j :: 0 <= j < |list| ==> SlotOf(out[j]) == SlotOf(list[j]);
    var f, g := Find(list, s), Find(out, s);
    if s == SlotOf(a) {
      assert SlotOf(out[i]) == s;
      assert g == i;
    } else if f < |list| {
      assert SlotOf(out[f]) == s;
      assert g == f;
    } else {
      assert g == |out|;
    }
  }

  lemma {:induction false} PlaceAllLookup(list: seq<Attempt>, batch: seq<Attempt>, s: Slot)
    requires UniqueSlots(list)
    ensures UniqueSlots(PlaceAll(list, batch))
    ensures Lookup(PlaceAll(list, batch), s) == Fold(MergeAttempt, Lookup(list, s), InSlot(s, batch))
  {
    if |batch| > 0 {
      var m := |batch| - 1;
      PlaceAllLookup(list, batch[..m], s);
      PlaceOne(PlaceAll(list, batch[..m]), batch[m], s);
      var own := InSlot(s, batch);
      if SlotOf(batch[m]) == s {
        assert own[..|own| - 1] == InSlot(s, batch[..m]);
      } else {
        assert own == InSlot(s, batch[..m]);
      }
    }
  }

  /** Placing keeps every slot where it is and adds the record's own. */
  lemma PlaceSlots(list: seq<Attempt>, a: Attempt, slot: Slot)
    ensures |list| <= |Place(list, a)|
    ensures forall i :: 0 <= i < |list| ==> SlotOf(Place(list, a)[i]) == SlotOf(list[i])
    ensures Lookup(list, slot).Some? || slot == SlotOf(a) ==> Lookup(Place(list, a), slot).Some?
  {
    var i := Find(list, slot);
    if i < |list| || slot == SlotOf(a) {
      assert SlotOf(Place(list, a)[i]) == slot;
    }
  }

  /** Slots never move once taken, and every slot of the batch ends up taken. */
  lemma {:induction false} PlaceAllSlots(list: seq<Attempt>, batch: seq<Attempt>)
    ensures |list| <= |PlaceAll(list, batch)|
    ensures forall i :: 0 <= i < |list| ==> SlotOf(PlaceAll(list, batch)[i]) == SlotOf(list[i])
    ensures forall a :: a in batch ==> Lookup(PlaceAll(list, batch), SlotOf(a)).Some?
  {
    if |batch| > 0 {
      var m := |batch| - 1;
      PlaceAllSlots(list, batch[..m]);
      var before := PlaceAll(list, batch[..m]);
      PlaceSlots(before, batch[m], SlotOf(batch[m]));
      forall a | a in batch ensures Lookup(Place(before, batch[m]), SlotOf(a)).Some? {
        assert a in batch[..m] || a == batch[m];
        PlaceSlots(before, batch[m], SlotOf(a));
      }
      assert PlaceAll(list, batch) == Place(before, batch[m]);
    }
  }

  lemma {:induction false} PlaceKnownKeepsLength(list: seq<Attempt>, batch: seq<Attempt>)
    requires forall a :: a in batch ==> Lookup(list, SlotOf(a)).Some?
    ensures |PlaceAll(list, batch)| == |list|
  {
    if |batch| > 0 {
      var m := |batch| - 1;
      PlaceKnownKeepsLength(list, batch[..m]);
      PlaceAllSlots(list, batch[..m]);
      var mid, i := PlaceAll(list, batch[..m]), Find(list, SlotOf(batch[m]));
      assert batch[m] in batch;
      assert SlotOf(mid[i]) == SlotOf(batch[m]);
    }
  }

  lemma PlaceReplay(list: seq<Attempt>, batch: seq<Attempt>)
    requires UniqueSlots(list)
    ensures PlaceAll(PlaceAll(list, batch), batch) == PlaceAll(list, batch)
  {
    var once := PlaceAll(list, batch);
    var twice := PlaceAll(once, batch);
    PlaceAllLookup(list, batch, Slot(0, 0));
    PlaceAllLookup(once, batch, Slot(0, 0));
    PlaceAllSlots(list, batch);
    PlaceKnownKeepsLength(once, batch);
    PlaceAllSlots(once, batch);
    MergeAttemptIsBand();
    forall i | 0 <= i < |once| ensures twice[i] == once[i] {
      var s := SlotOf(once[i]);
      PlaceAllLookup(list, batch, s);
      PlaceAllLookup(once, batch, s);
      FoldReplay(MergeAttempt, Lookup(list, s), InSlot(s, batch));
      assert Find(once, s) == i && Find(twice, s) == i;
    }
  }

  ghost predicate UniqueAttempts(db: Db) {
    forall k :: k in db.attempts ==> UniqueSlots(db.attempts[k])
  }

  /** Re-delivering a whole batch of attempts leaves the store as it was. */
  lemma SaveReplay(db: Db, batch: seq<Attempt>)
    requires UniqueAttempts(db)
    ensures SaveAll(SaveAll(db.attempts, batch), batch) == SaveAll(db.attempts, batch)
  {
    var once := SaveAll(db.attempts, batch);
    var twice := SaveAll(once, batch);
    forall k ensures Get(twice, k) == Get(once, k) {
      SaveProjects(db.attempts, batch, k);
      SaveProjects(once, batch, k);
      PlaceReplay(List(db.attempts, k), OwnAttempts(k, batch));
    }
    SameMap(twice, once);
  }

  // ---- The order of attempts ----------------------------------------------------------------------

  /** Records of one attempt agree with one another. */
  ghost predicate CoherentAttempts(batch: seq<Attempt>) {
    forall a, b :: a in batch && b in batch && AttemptKey(a) == AttemptKey(b) && SlotOf(a) == SlotOf(b) ==>
      AttemptsAgree(a, b)
  }

  lemma {:induction false} OwnAttemptsMembers(k: string, batch: seq<Attempt>, a: Attempt)
    ensures a in OwnAttempts(k, batch) <==> a in batch && AttemptKey(a) == k
  {
    if |batch| > 0 {
      OwnAttemptsMembers(k, batch[..|batch| - 1], a);
      assert batch == batch[..|batch| - 1] + [batch[|batch| - 1]];
    }
  }

  lemma {:induction false} InSlotMembers(s: Slot, batch: seq<Attempt>, a: Attempt)
    ensures a in InSlot(s, batch) <==> a in batch && SlotOf(a) == s
  {
    if |batch| > 0 {
      InSlotMembers(s, batch[..|batch| - 1], a);
      assert batch == batch[..|batch| - 1] + [batch[|batch| - 1]];
    }
  }

  lemma SlotMembers(k: string, s: Slot, batch: seq<Attempt>)
    ensures forall a :: a in InSlot(s, OwnAttempts(k, batch)) <==> a in batch && AttemptKey(a) == k && SlotOf(a) == s
  {
    forall a ensures a in InSlot(s, OwnAttempts(k, batch)) <==> a in batch && AttemptKey(a) == k && SlotOf(a) == s {
      InSlotMembers(s, OwnAttempts(k, batch), a);
      OwnAttemptsMembers(k, batch, a);
    }
  }

  lemma {:induction false} SaveBatching(attempts: map<string, seq<Attempt>>, batches: seq<seq<Attempt>>)
    ensures FoldLeft(SaveAll, attempts, batches) == SaveAll(attempts, Flatten(batches))
  {
    if |batches| > 0 {
      var m := |batches| - 1;
      SaveBatching(attempts, batches[..m]);
      FoldLeftConcat(SaveOne, attempts, Flatten(batches[..m]), batches[m]);
    }
  }

  /** What a delivery of attempts records for one attempt of one job. */
  function Recorded(delivery: seq<seq<Attempt>>, k: string, s: Slot): Option<Attempt> {
    Lookup(List(FoldLeft(SaveAll, map[], delivery), k), s)
  }

  lemma RecordedIs(delivery: seq<seq<Attempt>>, k: string, s: Slot)
    ensures Recorded(delivery, k, s) == Fold(MergeAttempt, None, InSlot(s, OwnAttempts(k, Flatten(delivery))))
  {
    SaveBatching(map[], delivery);
    SaveProjects(map[], Flatten(delivery), k);
    PlaceAllLookup([], OwnAttempts(k, Flatten(delivery)), s);
  }

  /** Order tolerance of attempts: two deliveries of the same coherent records, permuted,
      repeated and cut into batches in any way, record the same for every attempt of every job
      (only the order of a list, which is that of first arrivals, may differ). */
  lemma AttemptsOrderTolerant(deliveryA: seq<seq<Attempt>>, deliveryB: seq<seq<Attempt>>, k: string, s: Slot)
    requires CoherentAttempts(Flatten(deliveryA))
    requires forall a :: a in Flatten(deliveryA) <==> a in Flatten(deliveryB)
    ensures Recorded(deliveryA, k, s) == Recorded(deliveryB, k, s)
  {
    var xs, ys := InSlot(s, OwnAttempts(k, Flatten(deliveryA))), InSlot(s, OwnAttempts(k, Flatten(deliveryB)));
    RecordedIs(deliveryA, k, s);
    RecordedIs(deliveryB, k, s);
    SlotMembers(k, s, Flatten(deliveryA));
    SlotMembers(k, s, Flatten(deliveryB));
    MergeAttemptIsBand();
    AttemptsAgreeIsCompatible();
    FoldOrderTolerant(MergeAttempt, AttemptsAgree, xs, ys);
  }
}
