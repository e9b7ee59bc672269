/** The SQL backends (store/sqlite/sqlite.go, store/postgres/postgres.go) as a
simulation of the reference store.

Each statement is a row or table function.  The two drivers issue the same
statements up to spelling: SQLite's two-argument MAX is Postgres's GREATEST, and
'{}' is '{}'::jsonb.  JSON encoding is left out: the attributes column is the map it
encodes, '{}' being the empty map. */
module SqlStore {
  import opened Bands
  import opened Records
  import opened Names
  import opened Merging
  import opened History

  // ---- Instants as microsecond columns --------------------------------------------------

  /** Microseconds since 1970, with 0 for the zero time. */
  function Unix(t: Time): int {
    if t == 0 then 0 else (t - UNIX_EPOCH) / 1000
  }

  function FromUnix(us: int): Time {
    if us == 0 then 0 else UNIX_EPOCH + us * 1000
  }

  /** The instants a column can hold exactly: zero, or whole microseconds after 1970. */
  predicate Micro(t: Time) {
    t == 0 || (t > UNIX_EPOCH && (t - UNIX_EPOCH) % 1000 == 0)
  }

  lemma UnixRoundTrip(t: Time)
    requires Micro(t)
    ensures FromUnix(Unix(t)) == t
    ensures Unix(t) >= 0 && (Unix(t) == 0 <==> t == 0)
  {}

  lemma FromUnixRoundTrip(us: int)
    requires us >= 0
    ensures Micro(FromUnix(us)) && Unix(FromUnix(us)) == us
  {}

  lemma UnixOrder(a: Time, b: Time)
    requires Micro(a) && Micro(b)
    ensures a < b <==> Unix(a) < Unix(b)
    ensures a == b <==> Unix(a) == Unix(b)
  {}

  /** Cutoffs are not cut to microseconds before they are compared.  This is when rounding
      them down loses `t < cutoff`: the cutoff falls inside the microsecond that starts at
      t, or t is unset and the cutoff is not after 1970's first microsecond. */
  predicate Blurred(t: Time, cutoff: Time) {
    if t == 0 then 0 < cutoff < UNIX_EPOCH + 1000 else t < cutoff < t + 1000
  }

  lemma CutoffAgreesIff(t: Time, cutoff: Time)
    requires Micro(t)
    ensures Unix(t) < Unix(cutoff) <==> t < cutoff && !Blurred(t, cutoff)
    ensures Micro(cutoff) ==> !Blurred(t, cutoff)
  {}

  // ---- The jobs table ---------------------------------------------------------------------

  datatype Row = Row(
    key: string, id: string, epoch: string, queue: string, name: string, pattern: string,
    state: State, stateRank: nat, err: string, rootId: string, parentId: string,
    attributes: map<string, string>,
    enqueuedAt: int, startedAt: int, finishedAt: int, waitUs: int, execUs: int, attempt: int,
    pgDone: int, pgTotal: int, pgStage: string, pgAt: int)

  /** The row a job is stored as. */
  function Encode(j: Job): Row {
    Row(j.key, j.id, j.epoch, j.queue, j.name, j.pattern,
        j.state, Rank(j.state), j.err, j.rootId, j.parent, j.attributes,
        Unix(j.enqueuedAt), Unix(j.startedAt), Unix(j.finishedAt), j.waitUs, j.execUs, j.attempt,
        j.progress.completed, j.progress.total, j.progress.stage, Unix(j.progress.at))
  }

  /** scanJob: the job a row is read back as. */
  function Decode(r: Row): Job {
    Job(r.key, r.id, r.epoch, r.queue, r.name, r.state, r.err, r.pattern, r.rootId, r.parentId, r.attributes,
        FromUnix(r.enqueuedAt), FromUnix(r.startedAt), FromUnix(r.finishedAt), r.waitUs, r.execUs, r.attempt,
        Progress(r.pgDone, r.pgTotal, r.pgStage, FromUnix(r.pgAt)))
  }

  predicate MicroJob(j: Job) {
    Micro(j.enqueuedAt) && Micro(j.startedAt) && Micro(j.finishedAt) && Micro(j.progress.at)
  }

  /** Reading back what was written. */
  lemma EncodeRoundTrip(j: Job)
    requires MicroJob(j)
    ensures Decode(Encode(j)) == j
  {
    UnixRoundTrip(j.enqueuedAt);
    UnixRoundTrip(j.startedAt);
    UnixRoundTrip(j.finishedAt);
    UnixRoundTrip(j.progress.at);
  }

  function Greatest(a: int, b: int): int {
    if a >= b then a else b
  }

  /** INSERT ... ON CONFLICT(key) DO UPDATE: `jobs` is the stored row, `excluded` the
      one that could not be inserted. */
  function OnConflict(jobs: Row, excluded: Row): Row {
    Row(
      jobs.key, jobs.id, jobs.epoch,
      if jobs.queue == "" then excluded.queue else jobs.queue,
      if jobs.name == "" then excluded.name else jobs.name,
      if jobs.pattern == "" then excluded.pattern else jobs.pattern,
      if excluded.stateRank > jobs.stateRank then excluded.state else jobs.state,
      Greatest(jobs.stateRank, excluded.stateRank),
      if excluded.err != "" then excluded.err else jobs.err,
      if jobs.rootId == "" then excluded.rootId else jobs.rootId,
      if jobs.parentId == "" then excluded.parentId else jobs.parentId,
      if excluded.attributes != map[] then excluded.attributes else jobs.attributes,
      if jobs.enqueuedAt == 0 then excluded.enqueuedAt else jobs.enqueuedAt,
      if jobs.startedAt == 0 then excluded.startedAt else jobs.startedAt,
      if excluded.finishedAt != 0 then excluded.finishedAt else jobs.finishedAt,
      if excluded.waitUs != 0 then excluded.waitUs else jobs.waitUs,
      if excluded.execUs != 0 then excluded.execUs else jobs.execUs,
      Greatest(jobs.attempt, excluded.attempt),
      if excluded.pgAt > jobs.pgAt then excluded.pgDone else jobs.pgDone,
      if excluded.pgAt > jobs.pgAt then excluded.pgTotal else jobs.pgTotal,
      if excluded.pgAt > jobs.pgAt then excluded.pgStage else jobs.pgStage,
      Greatest(jobs.pgAt, excluded.pgAt))
  }

  /** Filling a blank pattern keeps it the pattern of the name, because only a blank name
      has a blank one. */
  lemma MergeKeepsClean(a: Job, b: Job)
    requires MicroJob(a) && MicroJob(b)
    requires a.pattern == NormalizeName(a.name) && b.pattern == NormalizeName(b.name)
    ensures MicroJob(Merge(a, b)) && Merge(a, b).pattern == NormalizeName(Merge(a, b).name)
    ensures a.pattern == "" <==> a.name == ""
  {
    NormalizeBounds(a.name);
  }

  /** The conflict clause computes the reference merge, column by column. */
  lemma ConflictIsMerge(a: Job, b: Job)
    requires MicroJob(a) && MicroJob(b) && (a.pattern == "" <==> a.name == "")
    ensures OnConflict(Encode(a), Encode(b)) == Encode(Merge(a, b))
  {
    ConflictTexts(a, b);
    ConflictTimes(a, b);
    ConflictProgress(a, b);
  }

  lemma ConflictTexts(a: Job, b: Job)
    requires a.pattern == "" <==> a.name == ""
    ensures var l, r := OnConflict(Encode(a), Encode(b)), Encode(Merge(a, b));
      && l.key == r.key && l.id == r.id && l.epoch == r.epoch && l.queue == r.queue
      && l.name == r.name && l.pattern == r.pattern && l.state == r.state && l.stateRank == r.stateRank
      && l.err == r.err && l.rootId == r.rootId && l.parentId == r.parentId && l.attributes == r.attributes
  {}

  lemma ConflictTimes(a: Job, b: Job)
    requires MicroJob(a) && MicroJob(b)
    ensures var l, r := OnConflict(Encode(a), Encode(b)), Encode(Merge(a, b));
      && l.enqueuedAt == r.enqueuedAt && l.startedAt == r.startedAt && l.finishedAt == r.finishedAt
      && l.waitUs == r.waitUs && l.execUs == r.execUs && l.attempt == r.attempt
  {
    FirstColumn(a.enqueuedAt, b.enqueuedAt);
    FirstColumn(a.startedAt, b.startedAt);
    LastColumn(a.finishedAt, b.finishedAt);
  }

  lemma ConflictProgress(a: Job, b: Job)
    requires MicroJob(a) && MicroJob(b)
    ensures var l, r := OnConflict(Encode(a), Encode(b)), Encode(Merge(a, b));
      l.pgDone == r.pgDone && l.pgTotal == r.pgTotal && l.pgStage == r.pgStage && l.pgAt == r.pgAt
  {
    UnixOrder(a.progress.at, b.progress.at);
  }

  lemma FirstColumn(a: Time, b: Time)
    requires Micro(a)
    ensures (if Unix(a) == 0 then Unix(b) else Unix(a)) == Unix(First(0, a, b))
  {
    UnixRoundTrip(a);
  }

  lemma LastColumn(a: Time, b: Time)
    requires Micro(b)
    ensures (if Unix(b) != 0 then Unix(b) else Unix(a)) == Unix(Last(0, a, b))
  {
    UnixRoundTrip(b);
  }

  // ---- The whole database --------------------------------------------------------------------

  datatype AttemptId = AttemptId(jobKey: string, attempt: int, startedAt: int)

  datatype AttemptRow = AttemptRow(jobId: string, state: State, err: string, finishedAt: int)

  datatype Sql = Sql(
    jobs: map<string, Row>,
    attempts: map<AttemptId, AttemptRow>,
    epochs: map<string, int>)

  function SqlUpsertOne(jobs: map<string, Row>, j: Job): map<string, Row> {
    var r := Encode(Prepare(j));
    jobs[r.key := if r.key in jobs then OnConflict(jobs[r.key], r) else r]
  }

  function SqlSaveOne(attempts: map<AttemptId, AttemptRow>, a: Attempt): map<AttemptId, AttemptRow> {
    var id := AttemptId(AttemptKey(a), a.attempt, Unix(a.startedAt));
    var r := AttemptRow(a.jobId, a.state, a.err, Unix(a.finishedAt));
    attempts[id := if id in attempts then
      AttemptRow(attempts[id].jobId, r.state,
                 if r.err != "" then r.err else attempts[id].err,
                 if r.finishedAt != 0 then r.finishedAt else attempts[id].finishedAt)
      else r]
  }

  /** WHERE epoch != self AND state_rank < 3 AND epoch NOT IN (SELECT ... ). */
  function SqlOrphans(db: Sql, self: string, cutoff: int): set<string> {
    set k | k in db.jobs
      && db.jobs[k].epoch != self
      && db.jobs[k].stateRank < 3
      && !(db.jobs[k].epoch in db.epochs && db.epochs[db.jobs[k].epoch] > 0 && db.epochs[db.jobs[k].epoch] >= cutoff)
  }

  /** SET state = 'interrupted', state_rank = 3. */
  function Interrupted3(r: Row): Row {
    r.(state := Interrupted, stateRank := 3)
  }

  function SqlInterrupt(jobs: map<string, Row>, keys: set<string>): map<string, Row> {
    map k | k in jobs :: if k in keys then Interrupted3(jobs[k]) else jobs[k]
  }

  function SqlReconcile(db: Sql, self: string, cutoff: int): Sql {
    db.(jobs := SqlInterrupt(db.jobs, SqlOrphans(db, self, cutoff)))
  }

  /** WHERE state_rank = 3 AND MAX(finished_at, enqueued_at) < cutoff [AND state IN (...)]. */
  function SqlAged(jobs: map<string, Row>, cutoff: int, states: set<State>): set<string> {
    set k | k in jobs
      && cutoff != 0
      && jobs[k].stateRank == 3
      && Greatest(jobs[k].finishedAt, jobs[k].enqueuedAt) < cutoff
      && (states == {} || jobs[k].state in states)
  }

  function SqlPrune(db: Sql, cutoff: int, states: set<State>): Sql {
    var gone := SqlAged(db.jobs, cutoff, states);
    db.(jobs := db.jobs - gone,
        attempts := map id | id in db.attempts && id.jobKey !in gone :: db.attempts[id])
  }

  function SqlApply(db: Sql, op: Op): Sql {
    match op
    case Upsert(batch) => db.(jobs := FoldLeft(SqlUpsertOne, db.jobs, batch))
    case Save(batch) => db.(attempts := FoldLeft(SqlSaveOne, db.attempts, batch))
    case Beat(epoch, seenAt) => db.(epochs := db.epochs[epoch := Unix(seenAt)])
    case ReconcileAt(self, cutoff) => SqlReconcile(db, self, Unix(cutoff))
    case PruneAt(before, states) => SqlPrune(db, Unix(before), states)
  }

  /** The number of rows an operation reports, in either store. */
  function Reported(db: Db, op: Op): nat {
    match op
    case ReconcileAt(self, cutoff) => |OrphanKeys(db, self, cutoff)|
    case PruneAt(before, states) => |AgedKeys(db.jobs, before, states)|
    case _ => 0
  }

  function SqlReported(db: Sql, op: Op): nat {
    match op
    case ReconcileAt(self, cutoff) => |SqlOrphans(db, self, Unix(cutoff))|
    case PruneAt(before, states) => |SqlAged(db.jobs, Unix(before), states)|
    case _ => 0
  }

  // ---- The abstraction -------------------------------------------------------------------------

  predicate CleanAttempt(a: Attempt) {
    Micro(a.startedAt) && Micro(a.finishedAt) && ':' !in a.epoch && ':' !in a.queue
  }

  /** Operations whose stored instants fit the columns and whose attempt keys are
      unambiguous. */
  predicate Clean(op: Op) {
    match op
    case Upsert(batch) => forall j :: j in batch ==> MicroJob(j)
    case Save(batch) => forall a :: a in batch ==> CleanAttempt(a)
    case Beat(_, seenAt) => Micro(seenAt)
    case _ => true
  }

  /** The rows an operation touches in the reference store and spares in SQL, because the
      cutoff is blurred. */
  function Spared(db: Db, op: Op): set<string> {
    match op
    case ReconcileAt(self, cutoff) => SparedOrphans(db, self, cutoff)
    case PruneAt(before, states) => SparedAged(db.jobs, before, states)
    case _ => {}
  }

  function SparedOrphans(db: Db, self: string, cutoff: Time): set<string> {
    set k | k in OrphanKeys(db, self, cutoff) && BlurredBeat(db.epochs, db.jobs[k].epoch, cutoff)
  }

  predicate BlurredBeat(epochs: map<string, Time>, epoch: string, cutoff: Time) {
    epoch in epochs && epochs[epoch] != 0 && Blurred(epochs[epoch], cutoff)
  }

  function SparedAged(jobs: map<string, Job>, before: Time, states: set<State>): set<string> {
    set k | k in AgedKeys(jobs, before, states) && Blurred(LastActive(jobs[k]), before)
  }

  ghost predicate CleanJobs(jobs: map<string, Job>) {
    forall k :: k in jobs ==> MicroJob(jobs[k]) && jobs[k].pattern == NormalizeName(jobs[k].name)
  }

  ghost function EncodeJobs(jobs: map<string, Job>): map<string, Row> {
    map k | k in jobs :: Encode(jobs[k])
  }

  ghost predicate CleanList(k: string, list: seq<Attempt>) {
    UniqueSlots(list) && forall a :: a in list ==> CleanAttempt(a) && AttemptKey(a) == k
  }

  ghost function EncodeAttempt(a: Option<Attempt>): Option<AttemptRow> {
    if a.Some? then Some(AttemptRow(a.value.jobId, a.value.state, a.value.err, Unix(a.value.finishedAt))) else None
  }

  /** One job's attempt rows against its attempt list, slot by slot. */
  ghost predicate AttemptsMatch(list: seq<Attempt>, k: string, rows: map<AttemptId, AttemptRow>) {
    && (forall n, t :: Micro(t) ==>
          Get(rows, AttemptId(k, n, Unix(t))) == EncodeAttempt(Lookup(list, Slot(n, t))))
    && (forall id :: id in rows && id.jobKey == k ==> id.startedAt >= 0)
  }

  ghost predicate AllMatch(attempts: map<string, seq<Attempt>>, rows: map<AttemptId, AttemptRow>) {
    forall k :: CleanList(k, List(attempts, k)) && AttemptsMatch(List(attempts, k), k, rows)
  }

  ghost predicate Simulates(db: Db, sql: Sql) {
    && CleanJobs(db.jobs)
    && sql.jobs == EncodeJobs(db.jobs)
    && AllMatch(db.attempts, sql.attempts)
    && (forall e :: e in db.epochs ==> Micro(db.epochs[e]))
    && sql.epochs == map e | e in db.epochs :: Unix(db.epochs[e])
  }

  // ---- Statement by statement --------------------------------------------------------------------

  lemma UpsertOneKeepsClean(jobs: map<string, Job>, j: Job)
    requires CleanJobs(jobs) && MicroJob(j)
    ensures CleanJobs(UpsertOne(jobs, j))
  {
    var p := Prepare(j);
    if p.key in jobs {
      MergeKeepsClean(jobs[p.key], p);
    }
  }

  lemma UpsertedRow(stored: Option<Job>, p: Job)
    requires MicroJob(p) && p.pattern == NormalizeName(p.name)
    requires stored.Some? ==> MicroJob(stored.value) && stored.value.pattern == NormalizeName(stored.value.name)
    ensures Encode(Absorb(Merge, stored, p).value)
         == if stored.Some? then OnConflict(Encode(stored.value), Encode(p)) else Encode(p)
  {
    if stored.Some? {
      ConflictIsMerge(stored.value, p);
    }
  }

  lemma UpsertOneSimulates(jobs: map<string, Job>, j: Job)
    requires CleanJobs(jobs) && MicroJob(j)
    ensures CleanJobs(UpsertOne(jobs, j))
    ensures SqlUpsertOne(EncodeJobs(jobs), j) == EncodeJobs(UpsertOne(jobs, j))
  {
    UpsertOneKeepsClean(jobs, j);
    var p := Prepare(j);
    UpsertedRow(Get(jobs, p.key), p);
    EncodeUpdate(jobs, p.key, Absorb(Merge, Get(jobs, p.key), p).value);
  }

  lemma EncodeUpdate(jobs: map<string, Job>, k: string, j: Job)
    ensures EncodeJobs(jobs[k := j]) == EncodeJobs(jobs)[k := Encode(j)]
  {}

  lemma {:induction false} UpsertSimulates(jobs: map<string, Job>, batch: seq<Job>)
    requires CleanJobs(jobs) && forall j :: j in batch ==> MicroJob(j)
    ensures CleanJobs(UpsertAll(jobs, batch))
    ensures FoldLeft(SqlUpsertOne, EncodeJobs(jobs), batch) == EncodeJobs(UpsertAll(jobs, batch))
  {
    if |batch| > 0 {
      var m := |batch| - 1;
      UpsertSimulates(jobs, batch[..m]);
      assert batch[m] in batch;
      UpsertOneSimulates(UpsertAll(jobs, batch[..m]), batch[m]);
    }
  }

  lemma SaveOneSimulates(list: seq<Attempt>, rows: map<AttemptId, AttemptRow>, a: Attempt)
    requires CleanAttempt(a) && CleanList(AttemptKey(a), list) && AttemptsMatch(list, AttemptKey(a), rows)
    ensures CleanList(AttemptKey(a), Place(list, a))
    ensures AttemptsMatch(Place(list, a), AttemptKey(a), SqlSaveOne(rows, a))
  {
    var k, out, after := AttemptKey(a), Place(list, a), SqlSaveOne(rows, a);
    PlaceOne(list, a, SlotOf(a));
    UnixRoundTrip(a.startedAt);
    UnixRoundTrip(a.finishedAt);
    var i := Find(list, SlotOf(a));
    if i < |list| {
      assert list[i] in list;
      KeyInjective(a.epoch, a.queue, a.jobId, list[i].epoch, list[i].queue, list[i].jobId);
    }
    forall x | x in out ensures CleanAttempt(x) && AttemptKey(x) == k {
      var n :| 0 <= n < |out| && out[n] == x;
      if n < |list| { assert list[n] in list; }
    }
    forall n, t | Micro(t)
      ensures Get(after, AttemptId(k, n, Unix(t))) == EncodeAttempt(Lookup(out, Slot(n, t)))
    {
      PlaceOne(list, a, Slot(n, t));
      UnixOrder(t, a.startedAt);
      assert Get(rows, AttemptId(k, n, Unix(t))) == EncodeAttempt(Lookup(list, Slot(n, t)));
    }
  }

  lemma SaveOneFrame(list: seq<Attempt>, k: string, rows: map<AttemptId, AttemptRow>, a: Attempt)
    requires AttemptKey(a) != k && AttemptsMatch(list, k, rows)
    ensures AttemptsMatch(list, k, SqlSaveOne(rows, a))
  {
    var after := SqlSaveOne(rows, a);
    forall n, t | Micro(t)
      ensures Get(after, AttemptId(k, n, Unix(t))) == EncodeAttempt(Lookup(list, Slot(n, t)))
    {
      assert Get(after, AttemptId(k, n, Unix(t))) == Get(rows, AttemptId(k, n, Unix(t)));
    }
  }

  lemma {:induction false} SaveSimulates(attempts: map<string, seq<Attempt>>, rows: map<AttemptId, AttemptRow>, batch: seq<Attempt>)
    requires AllMatch(attempts, rows) && forall a :: a in batch ==> CleanAttempt(a)
    ensures AllMatch(SaveAll(attempts, batch), FoldLeft(SqlSaveOne, rows, batch))
  {
    if |batch| > 0 {
      var m := |batch| - 1;
      SaveSimulates(attempts, rows, batch[..m]);
      assert batch[m] in batch;
      SaveStep(SaveAll(attempts, batch[..m]), FoldLeft(SqlSaveOne, rows, batch[..m]), batch[m]);
    }
  }

  lemma SaveStep(attempts: map<string, seq<Attempt>>, rows: map<AttemptId, AttemptRow>, a: Attempt)
    requires AllMatch(attempts, rows) && CleanAttempt(a)
    ensures AllMatch(SaveOne(attempts, a), SqlSaveOne(rows, a))
  {
    forall k
      ensures CleanList(k, List(SaveOne(attempts, a), k))
      ensures AttemptsMatch(List(SaveOne(attempts, a), k), k, SqlSaveOne(rows, a))
    {
      assert CleanList(k, List(attempts, k)) && AttemptsMatch(List(attempts, k), k, rows);
      if k == AttemptKey(a) {
        SaveOneSimulates(List(attempts, k), rows, a);
      } else {
        SaveOneFrame(List(attempts, k), k, rows, a);
      }
    }
  }

  lemma OrphansSimulate(db: Db, sql: Sql, self: string, cutoff: Time)
    requires sql.jobs == EncodeJobs(db.jobs)
    requires forall e :: e in db.epochs ==> Micro(db.epochs[e])
    requires sql.epochs == map e | e in db.epochs :: Unix(db.epochs[e])
    ensures SqlOrphans(sql, self, Unix(cutoff)) == OrphanKeys(db, self, cutoff) - SparedOrphans(db, self, cutoff)
  {
    forall e | e in db.epochs
      ensures db.epochs[e] != 0 <==> sql.epochs[e] > 0
      ensures Unix(cutoff) > sql.epochs[e] <==> db.epochs[e] < cutoff && !Blurred(db.epochs[e], cutoff)
    {
      UnixRoundTrip(db.epochs[e]);
      CutoffAgreesIff(db.epochs[e], cutoff);
    }
  }

  lemma InterruptSimulates(jobs: map<string, Job>, keys: set<string>)
    ensures EncodeJobs(Interrupt(jobs, keys)) == SqlInterrupt(EncodeJobs(jobs), keys)
  {
    var left, right := EncodeJobs(Interrupt(jobs, keys)), SqlInterrupt(EncodeJobs(jobs), keys);
    assert left.Keys == right.Keys;
    forall k | k in jobs ensures left[k] == right[k] {
      EncodeInterrupted(jobs[k]);
    }
  }

  lemma EncodeInterrupted(j: Job)
    ensures Encode(j.(state := Interrupted)) == Interrupted3(Encode(j))
  {}

  lemma InterruptClean(jobs: map<string, Job>, keys: set<string>)
    requires CleanJobs(jobs)
    ensures CleanJobs(Interrupt(jobs, keys))
  {
    var after := Interrupt(jobs, keys);
    forall k | k in after ensures MicroJob(after[k]) && after[k].pattern == NormalizeName(after[k].name) {
      assert after[k].name == jobs[k].name && after[k].pattern == jobs[k].pattern;
    }
  }

  /** Interrupting the same rows on both sides. */
  lemma InterruptBoth(db: Db, sql: Sql, keys: set<string>)
    requires Simulates(db, sql)
    ensures Simulates(db.(jobs := Interrupt(db.jobs, keys)), sql.(jobs := SqlInterrupt(sql.jobs, keys)))
  {
    InterruptSimulates(db.jobs, keys);
    InterruptClean(db.jobs, keys);
  }

  lemma ReconcileSimulates(db: Db, sql: Sql, self: string, cutoff: Time)
    requires Simulates(db, sql) && SparedOrphans(db, self, cutoff) == {}
    ensures Simulates(Reconcile(db, self, cutoff), SqlReconcile(sql, self, Unix(cutoff)))
  {
    OrphansSimulate(db, sql, self, cutoff);
    assert SqlOrphans(sql, self, Unix(cutoff)) == OrphanKeys(db, self, cutoff);
    InterruptBoth(db, sql, OrphanKeys(db, self, cutoff));
  }

  lemma AgedSimulates(jobs: map<string, Job>, before: Time, states: set<State>)
    requires CleanJobs(jobs)
    ensures SqlAged(EncodeJobs(jobs), Unix(before), states)
         == AgedKeys(jobs, before, states) - SparedAged(jobs, before, states)
  {
    forall k | k in jobs
      ensures Unix(before) != 0 && Greatest(Unix(jobs[k].finishedAt), Unix(jobs[k].enqueuedAt)) < Unix(before)
         <==> before != 0 && LastActive(jobs[k]) < before && !Blurred(LastActive(jobs[k]), before)
    {
      LastActiveColumn(jobs[k]);
      CutoffAgreesIff(LastActive(jobs[k]), before);
    }
  }

  lemma LastActiveColumn(j: Job)
    requires MicroJob(j)
    ensures Micro(LastActive(j)) && Greatest(Unix(j.finishedAt), Unix(j.enqueuedAt)) == Unix(LastActive(j)) >= 0
  {
    UnixOrder(j.enqueuedAt, j.finishedAt);
    UnixRoundTrip(LastActive(j));
  }

  lemma PruneAttempts(attempts: map<string, seq<Attempt>>, rows: map<AttemptId, AttemptRow>, gone: set<string>, k: string)
    requires CleanList(k, List(attempts, k)) && AttemptsMatch(List(attempts, k), k, rows)
    ensures CleanList(k, List(attempts - gone, k))
    ensures AttemptsMatch(List(attempts - gone, k), k, map id | id in rows && id.jobKey !in gone :: rows[id])
  {
    var left := map id | id in rows && id.jobKey !in gone :: rows[id];
    forall n, t | Micro(t)
      ensures Get(left, AttemptId(k, n, Unix(t))) == EncodeAttempt(Lookup(List(attempts - gone, k), Slot(n, t)))
    {
      assert Get(rows, AttemptId(k, n, Unix(t))) == EncodeAttempt(Lookup(List(attempts, k), Slot(n, t)));
    }
  }

  lemma PruneSimulates(db: Db, sql: Sql, before: Time, states: set<State>)
    requires Simulates(db, sql) && SparedAged(db.jobs, before, states) == {}
    ensures Simulates(Prune(db, before, states), SqlPrune(sql, Unix(before), states))
  {
    AgedSimulates(db.jobs, before, states);
    assert SqlAged(sql.jobs, Unix(before), states) == AgedKeys(db.jobs, before, states);
    DeleteBoth(db, sql, AgedKeys(db.jobs, before, states));
  }

  /** Deleting the same rows, with their attempts, on both sides. */
  lemma DeleteBoth(db: Db, sql: Sql, gone: set<string>)
    requires Simulates(db, sql)
    ensures Simulates(db.(jobs := db.jobs - gone, attempts := db.attempts - gone),
                      sql.(jobs := sql.jobs - gone,
                           attempts := map id | id in sql.attempts && id.jobKey !in gone :: sql.attempts[id]))
  {
    EncodeMinus(db.jobs, gone);
    PruneAllAttempts(db.attempts, sql.attempts, gone);
  }

  lemma PruneAllAttempts(attempts: map<string, seq<Attempt>>, rows: map<AttemptId, AttemptRow>, gone: set<string>)
    requires AllMatch(attempts, rows)
    ensures AllMatch(attempts - gone, map id | id in rows && id.jobKey !in gone :: rows[id])
  {
    var left := map id | id in rows && id.jobKey !in gone :: rows[id];
    forall k ensures CleanList(k, List(attempts - gone, k)) && AttemptsMatch(List(attempts - gone, k), k, left) {
      assert CleanList(k, List(attempts, k)) && AttemptsMatch(List(attempts, k), k, rows);
      PruneAttempts(attempts, rows, gone, k);
    }
  }

  lemma EncodeMinus(jobs: map<string, Job>, gone: set<string>)
    ensures EncodeJobs(jobs - gone) == EncodeJobs(jobs) - gone
  {}

  /** One operation keeps the two stores in step. */
  lemma StepSimulates(db: Db, sql: Sql, op: Op)
    requires Simulates(db, sql) && Clean(op) && Spared(db, op) == {}
    ensures Simulates(Apply(db, op), SqlApply(sql, op))
  {
    match op
    case Upsert(batch) => UpsertSimulates(db.jobs, batch);
    case Save(batch) => SaveSimulates(db.attempts, sql.attempts, batch);
    case Beat(_, _) =>
    case ReconcileAt(self, cutoff) => ReconcileSimulates(db, sql, self, cutoff);
    case PruneAt(before, states) => PruneSimulates(db, sql, before, states);
  }

  lemma MinusSize(a: set<string>, b: set<string>)
    requires b <= a
    ensures |a - b| == |a| - |b|
  {
    assert a == (a - b) + b;
  }

  /** The counts differ by the spared rows, and by nothing else. */
  lemma CountsDifferBySpared(db: Db, sql: Sql, op: Op)
    requires Simulates(db, sql)
    ensures SqlReported(sql, op) == Reported(db, op) - |Spared(db, op)|
  {
    match op
    case ReconcileAt(self, cutoff) => OrphanCount(db, sql, self, cutoff);
    case PruneAt(before, states) => AgedCount(db, sql, before, states);
    case _ =>
  }

  lemma OrphanCount(db: Db, sql: Sql, self: string, cutoff: Time)
    requires Simulates(db, sql)
    ensures SqlReported(sql, ReconcileAt(self, cutoff))
         == Reported(db, ReconcileAt(self, cutoff)) - |Spared(db, ReconcileAt(self, cutoff))|
  {
    OrphansSimulate(db, sql, self, cutoff);
    MinusSize(OrphanKeys(db, self, cutoff), SparedOrphans(db, self, cutoff));
  }

  lemma AgedCount(db: Db, sql: Sql, before: Time, states: set<State>)
    requires Simulates(db, sql)
    ensures SqlReported(sql, PruneAt(before, states))
         == Reported(db, PruneAt(before, states)) - |Spared(db, PruneAt(before, states))|
  {
    AgedSimulates(db.jobs, before, states);
    MinusSize(AgedKeys(db.jobs, before, states), SparedAged(db.jobs, before, states));
  }

  /** A cutoff in whole microseconds spares nothing. */
  lemma MicroSparesNothing(db: Db, sql: Sql, op: Op)
    requires Simulates(db, sql)
    requires op.ReconcileAt? ==> Micro(op.cutoff)
    requires op.PruneAt? ==> Micro(op.before)
    ensures Spared(db, op) == {}
  {
    match op
    case ReconcileAt(self, cutoff) =>
      forall e | e in db.epochs ensures !BlurredBeat(db.epochs, e, cutoff) {
        CutoffAgreesIff(db.epochs[e], cutoff);
      }
    case PruneAt(before, states) =>
      forall k | k in db.jobs ensures !Blurred(LastActive(db.jobs[k]), before) {
        LastActiveColumn(db.jobs[k]);
        CutoffAgreesIff(LastActive(db.jobs[k]), before);
      }
    case _ =>
  }

  const SQL_EMPTY := Sql(map[], map[], map[])

  lemma EmptySimulates()
    ensures Simulates(EMPTY, SQL_EMPTY)
  {}

  /** No operation of the run has a cutoff inside the microsecond of a row it would touch. */
  ghost predicate Sharp(ops: seq<Op>) {
    forall i :: 0 <= i < |ops| ==> SharpAfter(ops[..i], ops[i])
  }

  ghost predicate SharpAfter(ops: seq<Op>, op: Op) {
    Clean(op) && Spared(Run(EMPTY, ops), op) == {}
  }

  lemma SharpStep(ops: seq<Op>)
    requires |ops| > 0
    ensures var m := |ops| - 1;
      Sharp(ops) <==> Sharp(ops[..m]) && SharpAfter(ops[..m], ops[m])
  {
    var m := |ops| - 1;
    forall i | 0 <= i < m ensures SharpAfter(ops[..m][..i], ops[..m][i]) <==> SharpAfter(ops[..i], ops[i]) {
      assert ops[..m][..i] == ops[..i];
    }
  }

  /** The SQL backends refine the reference store: after any sequence of upserts, attempt
      saves, heartbeats, reconciles and prunes the tables encode the reference maps. */
  lemma {:induction false} SqlSimulatesReference(ops: seq<Op>)
    requires Sharp(ops)
    ensures Simulates(Run(EMPTY, ops), FoldLeft(SqlApply, SQL_EMPTY, ops))
  {
    if |ops| == 0 {
      EmptySimulates();
    } else {
      var m := |ops| - 1;
      SharpStep(ops);
      SqlSimulatesReference(ops[..m]);
      StepSimulates(Run(EMPTY, ops[..m]), FoldLeft(SqlApply, SQL_EMPTY, ops[..m]), ops[m]);
    }
  }

  /** Whatever operation comes next, both stores report the same number of rows exactly when
      its cutoff is sharp too. */
  lemma SqlReportsTheSameIff(ops: seq<Op>, next: Op)
    requires Sharp(ops) && Clean(next)
    ensures SqlReported(FoldLeft(SqlApply, SQL_EMPTY, ops), next) == Reported(Run(EMPTY, ops), next)
       <==> Sharp(ops + [next])
  {
    SqlSimulatesReference(ops);
    CountsDifferBySpared(Run(EMPTY, ops), FoldLeft(SqlApply, SQL_EMPTY, ops), next);
    var all := ops + [next];
    assert all[..|ops|] == ops && all[|ops|] == next;
    SharpStep(all);
  }

  predicate MicroOp(op: Op) {
    && Clean(op)
    && (op.ReconcileAt? ==> Micro(op.cutoff))
    && (op.PruneAt? ==> Micro(op.before))
  }

  /** Runs whose every instant is in whole microseconds are sharp. */
  lemma {:induction false} MicroRunsAreSharp(ops: seq<Op>)
    requires forall op :: op in ops ==> MicroOp(op)
    ensures Sharp(ops)
  {
    if |ops| > 0 {
      var m := |ops| - 1;
      MicroRunsAreSharp(ops[..m]);
      SqlSimulatesReference(ops[..m]);
      assert ops[m] in ops;
      MicroSparesNothing(Run(EMPTY, ops[..m]), FoldLeft(SqlApply, SQL_EMPTY, ops[..m]), ops[m]);
      SharpStep(ops);
    }
  }

  /** A row read back from SQL is the row of the reference store. */
  lemma SqlReadsBack(ops: seq<Op>, k: string)
    requires Sharp(ops)
    ensures var sql, db := FoldLeft(SqlApply, SQL_EMPTY, ops), Run(EMPTY, ops);
      && (k in sql.jobs <==> k in db.jobs)
      && (k in db.jobs ==> Decode(sql.jobs[k]) == db.jobs[k])
  {
    SqlSimulatesReference(ops);
    SimulatesReadsBack(Run(EMPTY, ops), FoldLeft(SqlApply, SQL_EMPTY, ops), k);
  }

  /** A concrete difference: a job that finished at a whole second is removed by a prune whose
      cutoff lies half a microsecond later, and kept by the SQL statement. */
  lemma SqlPruneSpares(j: Job)
    requires j.state == Completed && MicroJob(j) && j.pattern == NormalizeName(j.name)
    requires j.enqueuedAt == 0 && j.finishedAt == UNIX_EPOCH + 1_000_000_000
    ensures var jobs, cutoff := map[j.key := j], j.finishedAt + 500;
      AgedKeys(jobs, cutoff, {}) == {j.key} && SqlAged(EncodeJobs(jobs), Unix(cutoff), {}) == {}
  {
    var jobs, cutoff := map[j.key := j], j.finishedAt + 500;
    AgedSimulates(jobs, cutoff, {});
    assert SparedAged(jobs, cutoff, {}) == {j.key};
  }

  // ---- Instants with nanoseconds -------------------------------------------------------------------

  /** What a column keeps of an instant. */
  function CutTime(t: Time): Time {
    FromUnix(Unix(t))
  }

  /** Unset, or from 1970 on. */
  predicate Dated(t: Time) {
    t == 0 || t >= UNIX_EPOCH
  }

  lemma CutIsMicro(t: Time)
    requires Dated(t)
    ensures Micro(CutTime(t)) && Unix(CutTime(t)) == Unix(t)
    ensures Micro(t) ==> CutTime(t) == t
    ensures t != 0 ==> 0 <= t - UNIX_EPOCH - Unix(t) * 1000 < 1000
  {
    FromUnixRoundTrip(Unix(t));
  }

  function CutJob(j: Job): Job {
    j.(enqueuedAt := CutTime(j.enqueuedAt), startedAt := CutTime(j.startedAt), finishedAt := CutTime(j.finishedAt),
       progress := j.progress.(at := CutTime(j.progress.at)))
  }

  predicate DatedJob(j: Job) {
    Dated(j.enqueuedAt) && Dated(j.startedAt) && Dated(j.finishedAt) && Dated(j.progress.at)
  }

  function CutAttempt(a: Attempt): Attempt {
    a.(startedAt := CutTime(a.startedAt), finishedAt := CutTime(a.finishedAt))
  }

  predicate DatedAttempt(a: Attempt) {
    Dated(a.startedAt) && Dated(a.finishedAt) && ':' !in a.epoch && ':' !in a.queue
  }

  function CutJobs(batch: seq<Job>): seq<Job> {
    if |batch| == 0 then [] else CutJobs(batch[..|batch| - 1]) + [CutJob(batch[|batch| - 1])]
  }

  function CutAttempts(batch: seq<Attempt>): seq<Attempt> {
    if |batch| == 0 then [] else CutAttempts(batch[..|batch| - 1]) + [CutAttempt(batch[|batch| - 1])]
  }

  /** The operation with all its instants cut to microseconds. */
  function Cut(op: Op): Op {
    match op
    case Upsert(batch) => Upsert(CutJobs(batch))
    case Save(batch) => Save(CutAttempts(batch))
    case Beat(epoch, seenAt) => Beat(epoch, CutTime(seenAt))
    case ReconcileAt(self, cutoff) => ReconcileAt(self, CutTime(cutoff))
    case PruneAt(before, states) => PruneAt(CutTime(before), states)
  }

  predicate DatedOp(op: Op) {
    match op
    case Upsert(batch) => forall j :: j in batch ==> DatedJob(j)
    case Save(batch) => forall a :: a in batch ==> DatedAttempt(a)
    case Beat(_, seenAt) => Dated(seenAt)
    case ReconcileAt(_, cutoff) => Dated(cutoff)
    case PruneAt(before, _) => Dated(before)
  }

  lemma CutOneJob(jobs: map<string, Row>, j: Job)
    requires DatedJob(j)
    ensures MicroJob(CutJob(j)) && SqlUpsertOne(jobs, CutJob(j)) == SqlUpsertOne(jobs, j)
  {
    CutIsMicro(j.enqueuedAt);
    CutIsMicro(j.startedAt);
    CutIsMicro(j.finishedAt);
    CutIsMicro(j.progress.at);
    assert Encode(Prepare(CutJob(j))) == Encode(Prepare(j));
  }

  lemma CutOneAttempt(rows: map<AttemptId, AttemptRow>, a: Attempt)
    requires DatedAttempt(a)
    ensures CleanAttempt(CutAttempt(a)) && SqlSaveOne(rows, CutAttempt(a)) == SqlSaveOne(rows, a)
  {
    CutIsMicro(a.startedAt);
    CutIsMicro(a.finishedAt);
  }

  lemma {:induction false} CutUpserts(jobs: map<string, Row>, batch: seq<Job>)
    requires forall j :: j in batch ==> DatedJob(j)
    ensures forall j :: j in CutJobs(batch) ==> MicroJob(j)
    ensures FoldLeft(SqlUpsertOne, jobs, CutJobs(batch)) == FoldLeft(SqlUpsertOne, jobs, batch)
  {
    if |batch| > 0 {
      var m := |batch| - 1;
      assert batch[m] in batch;
      CutUpserts(jobs, batch[..m]);
      CutOneJob(FoldLeft(SqlUpsertOne, jobs, batch[..m]), batch[m]);
      assert CutJobs(batch)[..|CutJobs(batch)| - 1] == CutJobs(batch[..m]);
    }
  }

  lemma {:induction false} CutSaves(rows: map<AttemptId, AttemptRow>, batch: seq<Attempt>)
    requires forall a :: a in batch ==> DatedAttempt(a)
    ensures forall a :: a in CutAttempts(batch) ==> CleanAttempt(a)
    ensures FoldLeft(SqlSaveOne, rows, CutAttempts(batch)) == FoldLeft(SqlSaveOne, rows, batch)
  {
    if |batch| > 0 {
      var m := |batch| - 1;
      assert batch[m] in batch;
      CutSaves(rows, batch[..m]);
      CutOneAttempt(FoldLeft(SqlSaveOne, rows, batch[..m]), batch[m]);
      assert CutAttempts(batch)[..|CutAttempts(batch)| - 1] == CutAttempts(batch[..m]);
    }
  }

  /** The tables see no more than the microseconds: an operation and its cut are the same
      statement, to the rows and to the count it reports. */
  lemma CutIsInvisible(db: Sql, op: Op)
    requires DatedOp(op)
    ensures MicroOp(Cut(op))
    ensures SqlApply(db, Cut(op)) == SqlApply(db, op) && SqlReported(db, Cut(op)) == SqlReported(db, op)
  {
    match op
    case Upsert(batch) => CutUpserts(db.jobs, batch);
    case Save(batch) => CutSaves(db.attempts, batch);
    case Beat(_, seenAt) => CutIsMicro(seenAt);
    case ReconcileAt(_, cutoff) => CutIsMicro(cutoff);
    case PruneAt(before, _) => CutIsMicro(before);
  }

  /** Instants that stay set when they are cut. */
  predicate Resolved(t: Time) {
    t == 0 || t >= UNIX_EPOCH + 1000
  }

  predicate ResolvedJob(j: Job) {
    Resolved(j.enqueuedAt) && Resolved(j.startedAt) && Resolved(j.finishedAt) && Resolved(j.progress.at)
  }

  /** What the cut costs a row: merging cut records gives the cut of the merged record unless
      two different progress reports of the job fall into one microsecond, where the later one
      wins in memory and the one stored first wins in SQL. */
  lemma CutCommutesIff(a: Job, b: Job)
    requires ResolvedJob(a) && ResolvedJob(b)
    ensures Merge(CutJob(a), CutJob(b)) == CutJob(Merge(a, b)) <==>
      !(a.progress.at < b.progress.at && CutJob(a).progress.at == CutJob(b).progress.at
        && CutJob(a).progress != CutJob(b).progress)
  {
    CutOrder(a.progress.at, b.progress.at);
    CutIsMicro(a.enqueuedAt);
    CutIsMicro(a.startedAt);
    CutIsMicro(b.finishedAt);
  }

  lemma CutOrder(s: Time, t: Time)
    requires Resolved(s) && Resolved(t)
    ensures CutTime(s) < CutTime(t) ==> s < t
    ensures s < t ==> CutTime(s) <= CutTime(t)
  {}

  function CutAll(ops: seq<Op>): (cut: seq<Op>)
    ensures |cut| == |ops|
  {
    if |ops| == 0 then [] else CutAll(ops[..|ops| - 1]) + [Cut(ops[|ops| - 1])]
  }

  lemma {:induction false} CutRun(ops: seq<Op>)
    requires forall op :: op in ops ==> DatedOp(op)
    ensures FoldLeft(SqlApply, SQL_EMPTY, CutAll(ops)) == FoldLeft(SqlApply, SQL_EMPTY, ops)
    ensures forall op :: op in CutAll(ops) ==> MicroOp(op)
  {
    if |ops| > 0 {
      var m := |ops| - 1;
      assert ops[m] in ops;
      CutRun(ops[..m]);
      CutIsInvisible(FoldLeft(SqlApply, SQL_EMPTY, ops[..m]), ops[m]);
      assert CutAll(ops)[..m] == CutAll(ops[..m]);
    }
  }

  lemma CutSimulates(ops: seq<Op>)
    requires forall op :: op in ops ==> DatedOp(op)
    ensures Sharp(CutAll(ops)) && Simulates(Run(EMPTY, CutAll(ops)), FoldLeft(SqlApply, SQL_EMPTY, ops))
  {
    CutRun(ops);
    MicroRunsAreSharp(CutAll(ops));
    SqlSimulatesReference(CutAll(ops));
  }

  lemma CutReports(db: Db, sql: Sql, next: Op)
    requires Simulates(db, sql) && DatedOp(next)
    ensures SqlReported(sql, next) == Reported(db, Cut(next))
  {
    CutIsInvisible(sql, next);
    MicroSparesNothing(db, sql, Cut(next));
    CountsDifferBySpared(db, sql, Cut(next));
  }

  lemma SimulatesReadsBack(db: Db, sql: Sql, k: string)
    requires Simulates(db, sql)
    ensures k in sql.jobs <==> k in db.jobs
    ensures k in db.jobs ==> Decode(sql.jobs[k]) == db.jobs[k]
  {
    if k in db.jobs {
      EncodeRoundTrip(db.jobs[k]);
    }
  }

  /** The SQL backends refine the reference store on every run, whatever nanoseconds its
      instants carry: the tables encode the reference store fed with the operations cut to
      microseconds, the next call reports the same number of rows, and each row reads back. */
  lemma SqlRunsTheCutReference(ops: seq<Op>, next: Op, k: string)
    requires DatedOp(next) && forall op :: op in ops ==> DatedOp(op)
    ensures var sql, db := FoldLeft(SqlApply, SQL_EMPTY, ops), Run(EMPTY, CutAll(ops));
      && Simulates(db, sql)
      && SqlReported(sql, next) == Reported(db, Cut(next))
      && (k in sql.jobs <==> k in db.jobs)
      && (k in db.jobs ==> Decode(sql.jobs[k]) == db.jobs[k])
  {
    var sql, db := FoldLeft(SqlApply, SQL_EMPTY, ops), Run(EMPTY, CutAll(ops));
    CutSimulates(ops);
    CutReports(db, sql, next);
    SimulatesReadsBack(db, sql, k);
  }
}
