/** The sink as a concurrent protocol (sink/sink.go).

Hook goroutines, one writer, Start and Close interleave freely.  Each channel
operation, atomic counter update, mutex section and store call is one step, so an
event below is one step of one goroutine; a run is any sequence of enabled events.
`offer` is two steps, because its check of `done` and its send are two selects. */
module SinkProtocol {
  import opened Bands
  import opened Records
  import opened History

  datatype Record = JobRecord(job: Job) | AttemptRecord(attempt: Attempt)

  function JobsOf(records: seq<Record>): seq<Job> {
    if |records| == 0 then []
    else
      var last := records[|records| - 1];
      JobsOf(records[..|records| - 1]) + if last.JobRecord? then [last.job] else []
  }

  function AttemptsOf(records: seq<Record>): seq<Attempt> {
    if |records| == 0 then []
    else
      var last := records[|records| - 1];
      AttemptsOf(records[..|records| - 1]) + if last.AttemptRecord? then [last.attempt] else []
  }

  /** Writing one record on its own. */
  function ApplyRecord(db: Db, r: Record): Db {
    match r
    case JobRecord(job) => Apply(db, Upsert([job]))
    case AttemptRecord(attempt) => Apply(db, Save([attempt]))
  }

  /** The simple form of the whole sink: accepted records, applied one at a time. */
  function ApplyRecords(db: Db, records: seq<Record>): Db {
    FoldLeft(ApplyRecord, db, records)
  }

  /** One entry of a store's log: a record of this sink, or a call made by anyone else. */
  datatype Entry = Mine(record: Record) | Theirs(op: Op)

  function ApplyEntry(db: Db, entry: Entry): Db {
    match entry
    case Mine(record) => ApplyRecord(db, record)
    case Theirs(op) => Apply(db, op)
  }

  function Replay(db: Db, log: seq<Entry>): Db {
    FoldLeft(ApplyEntry, db, log)
  }

  function Owns(records: seq<Record>): (log: seq<Entry>)
    ensures |log| == |records| && forall i :: 0 <= i < |log| ==> log[i] == Mine(records[i])
  {
    seq(|records|, i requires 0 <= i < |records| => Mine(records[i]))
  }

  /** The sink's own records in a log, in order. */
  function OwnRecords(log: seq<Entry>): seq<Record> {
    if |log| == 0 then []
    else
      var last := log[|log| - 1];
      OwnRecords(log[..|log| - 1]) + if last.Mine? then [last.record] else []
  }

  // ---- The state ---------------------------------------------------------------------

  datatype Config = Config(buffer: nat, batchSize: nat)

  ghost predicate ValidConfig(c: Config) {
    c.buffer > 0 && c.batchSize > 0
  }

  /** Where the writer goes once a flush is over. */
  datatype After = Resume | Drain | Finish

  datatype Writer =
    | Unlaunched
    | Looping
    | FlushJobs(after: After)      // about to call UpsertJobs
    | FlushAttempts(after: After)  // about to call SaveAttempts
    | Draining
    | Stopped

  datatype Closer = NotClosed | ReadFlag(started: bool) | Waiting(started: bool) | Returned(started: bool)

  /** What a run has done so far; the program keeps none of it. */
  datatype Past = Past(
    offered: nat, rejected: nat,
    accepted: seq<Record>, flushed: seq<Record>, committed: seq<Record>,
    base: Db, log: seq<Entry>,           // the store at launch, and what happened to it since
    straddlers: map<nat, Record>,        // in flight when `done` closed
    early: seq<Record>, late: seq<nat>)  // accepted by then; hooks that sent after it

  datatype State = State(
    channel: seq<Record>, inFlight: map<nat, Record>,
    done: bool, starting: bool, started: bool,
    writer: Writer, batch: seq<Record>,
    dropped: nat, written: nat,
    db: Db, closer: Closer,
    past: Past)

  function Init(db: Db): State {
    State([], map[], false, false, false, Unlaunched, [], 0, 0, db, NotClosed,
          Past(0, 0, [], [], [], db, [], map[], [], []))
  }

  datatype Event =
    | OfferCheck(hook: nat, record: Record)
    | OfferSend(hook: nat)
    | StartCheck
    | StartCall(op: Op)          // a store call made by Start: heartbeat or reconcile
    | StartFail
    | StartLaunch
    | Receive
    | Tick
    | SeeDone
    | DrainReceive
    | DrainEmpty
    | WriteJobs(ok: bool)
    | WriteAttempts(ok: bool)
    | Elsewhere(op: Op)          // a store call by the beat or retention loop, or by another process
    | CloseRead
    | CloseDone
    | CloseReturn

  predicate Enabled(s: State, e: Event) {
    match e
    case OfferCheck(hook, _) => hook !in s.inFlight
    case OfferSend(hook) => hook in s.inFlight
    case StartCheck => !s.starting && !s.started && !s.done
    case StartCall(op) => s.starting && (op.Beat? || op.ReconcileAt?)
    case StartFail => s.starting
    case StartLaunch => s.starting
    case Receive => s.writer.Looping? && |s.channel| > 0
    case Tick => s.writer.Looping?
    case SeeDone => s.writer.Looping? && s.done
    case DrainReceive => s.writer.Draining? && |s.channel| > 0
    case DrainEmpty => s.writer.Draining? && |s.channel| == 0
    case WriteJobs(_) => s.writer.FlushJobs?
    case WriteAttempts(_) => s.writer.FlushAttempts?
    case Elsewhere(_) => true
    case CloseRead => s.closer.NotClosed? && !s.starting  // Close takes the mutex Start holds
    case CloseDone => s.closer.ReadFlag?
    case CloseReturn => s.closer.Waiting? && (s.closer.started ==> s.writer.Stopped?)
  }

  /** Taking one record into the batch, flushing when it is full. */
  function Take(c: Config, s: State, after: After): State
    requires |s.channel| > 0
  {
    var batch := s.batch + [s.channel[0]];
    s.(channel := s.channel[1..], batch := batch,
       writer := if |batch| >= c.batchSize then FlushJobs(after) else s.writer)
  }

  function AfterFlush(after: After): Writer {
    match after
    case Resume => Looping
    case Drain => Draining
    case Finish => Stopped
  }

  /** The first select of an offer. */
  function Checked(s: State, hook: nat, record: Record): State {
    var t := s.(past := s.past.(offered := s.past.offered + 1));
    if s.done then t.(dropped := s.dropped + 1) else t.(inFlight := s.inFlight[hook := record])
  }

  /** Its second select. */
  function Sent(c: Config, s: State, hook: nat): State
    requires hook in s.inFlight
  {
    var record, t := s.inFlight[hook], s.(inFlight := s.inFlight - {hook});
    if |s.channel| < c.buffer
    then t.(channel := s.channel + [record],
            past := s.past.(accepted := s.past.accepted + [record],
                            late := if s.done then s.past.late + [hook] else s.past.late))
    else t.(dropped := s.dropped + 1)
  }

  /** The two store calls of a flush; a refused call has no effect on the store. */
  function JobsWritten(s: State, ok: bool): State
    requires s.writer.FlushJobs?
  {
    var jobs := JobsOf(s.batch);
    var t := s.(writer := FlushAttempts(s.writer.after));
    if ok
    then t.(db := s.db.(jobs := UpsertAll(s.db.jobs, jobs)), written := s.written + |jobs|,
            past := s.past.(committed := s.past.committed + JobRecords(s.batch),
                            log := s.past.log + Owns(JobRecords(s.batch))))
    else t.(past := s.past.(rejected := s.past.rejected + |jobs|))
  }

  function AttemptsWritten(s: State, ok: bool): State
    requires s.writer.FlushAttempts?
  {
    var attempts := AttemptsOf(s.batch);
    var t := s.(writer := AfterFlush(s.writer.after), batch := []);
    var h := s.past.(flushed := s.past.flushed + s.batch);
    if ok
    then t.(db := s.db.(attempts := SaveAll(s.db.attempts, attempts)), written := s.written + |attempts|,
            past := h.(committed := s.past.committed + AttemptRecords(s.batch),
                       log := s.past.log + Owns(AttemptRecords(s.batch))))
    else t.(past := h.(rejected := s.past.rejected + |attempts|))
  }

  function Next(c: Config, s: State, e: Event): State
    requires Enabled(s, e)
  {
    match e
    case OfferCheck(hook, record) => Checked(s, hook, record)
    case OfferSend(hook) => Sent(c, s, hook)
    case StartCheck => s.(starting := true)
    case StartCall(op) => s.(db := Apply(s.db, op))
    case StartFail => s.(starting := false)
    case StartLaunch => s.(starting := false, started := true, writer := Looping, past := s.past.(base := s.db))
    case Receive => Take(c, s, Resume)
    case Tick => if |s.batch| == 0 then s else s.(writer := FlushJobs(Resume))
    case SeeDone => s.(writer := Draining)
    case DrainReceive => Take(c, s, Drain)
    case DrainEmpty => s.(writer := if |s.batch| == 0 then Stopped else FlushJobs(Finish))
    case WriteJobs(ok) => JobsWritten(s, ok)
    case WriteAttempts(ok) => AttemptsWritten(s, ok)
    case Elsewhere(op) => s.(db := Apply(s.db, op), past := if s.started then s.past.(log := s.past.log + [Theirs(op)]) else s.past)
    case CloseRead => s.(closer := ReadFlag(s.started))
    case CloseDone => s.(done := true, closer := Waiting(s.closer.started),
                         past := s.past.(straddlers := s.inFlight, early := s.past.accepted))
    case CloseReturn => s.(closer := Returned(s.closer.started))
  }

  /** The job records of a batch, and its attempt records, in order. */
  function JobRecords(records: seq<Record>): seq<Record> {
    if |records| == 0 then []
    else
      var last := records[|records| - 1];
      JobRecords(records[..|records| - 1]) + if last.JobRecord? then [last] else []
  }

  function AttemptRecords(records: seq<Record>): seq<Record> {
    if |records| == 0 then []
    else
      var last := records[|records| - 1];
      AttemptRecords(records[..|records| - 1]) + if last.AttemptRecord? then [last] else []
  }

  /** The state after a run, when every event in it was enabled. */
  function Exec(c: Config, s: State, events: seq<Event>): Option<State> {
    if |events| == 0 then Some(s)
    else
      var front := Exec(c, s, events[..|events| - 1]);
      if front.Some? && Enabled(front.value, events[|events| - 1])
      then Some(Next(c, front.value, events[|events| - 1])) else None
  }

  // ---- Splitting a batch ----------------------------------------------------------------

  lemma {:induction false} SplitConcat(a: seq<Record>, b: seq<Record>)
    ensures JobsOf(a + b) == JobsOf(a) + JobsOf(b)
    ensures AttemptsOf(a + b) == AttemptsOf(a) + AttemptsOf(b)
    decreases |b|
  {
    if |b| == 0 {
      assert a + b == a;
    } else {
      assert (a + b)[..|a + b| - 1] == a + b[..|b| - 1];
      SplitConcat(a, b[..|b| - 1]);
    }
  }

  lemma {:induction false} SplitSizes(a: seq<Record>)
    ensures |JobsOf(a)| + |AttemptsOf(a)| == |a|
  {
    if |a| > 0 {
      SplitSizes(a[..|a| - 1]);
    }
  }

  lemma SplitOne(r: Record)
    ensures JobsOf([r]) == (if r.JobRecord? then [r.job] else [])
    ensures AttemptsOf([r]) == (if r.AttemptRecord? then [r.attempt] else [])
  {
    assert [r][..0] == [];
  }

  lemma {:induction false} SplitJobRecords(a: seq<Record>)
    ensures JobsOf(JobRecords(a)) == JobsOf(a) && AttemptsOf(JobRecords(a)) == []
  {
    if |a| > 0 {
      var m := |a| - 1;
      SplitJobRecords(a[..m]);
      SplitOne(a[m]);
      SplitConcat(JobRecords(a[..m]), [a[m]]);
      if a[m].AttemptRecord? {
        assert JobRecords(a) == JobRecords(a[..m]);
      }
    }
  }

  lemma {:induction false} SplitAttemptRecords(a: seq<Record>)
    ensures JobsOf(AttemptRecords(a)) == [] && AttemptsOf(AttemptRecords(a)) == AttemptsOf(a)
  {
    if |a| > 0 {
      var m := |a| - 1;
      SplitAttemptRecords(a[..m]);
      SplitOne(a[m]);
      SplitConcat(AttemptRecords(a[..m]), [a[m]]);
      if a[m].JobRecord? {
        assert AttemptRecords(a) == AttemptRecords(a[..m]);
      }
    }
  }

  lemma SplitRecords(a: seq<Record>)
    ensures JobsOf(JobRecords(a)) == JobsOf(a) && AttemptsOf(JobRecords(a)) == []
    ensures JobsOf(AttemptRecords(a)) == [] && AttemptsOf(AttemptRecords(a)) == AttemptsOf(a)
  {
    SplitJobRecords(a);
    SplitAttemptRecords(a);
  }

  lemma WriteOne(db: Db, r: Record)
    ensures ApplyRecord(db, r) ==
      if r.JobRecord? then db.(jobs := UpsertOne(db.jobs, r.job)) else db.(attempts := SaveOne(db.attempts, r.attempt))
  {
    match r
    case JobRecord(j) => FoldLeftOne(UpsertOne, db.jobs, j);
    case AttemptRecord(a) => FoldLeftOne(SaveOne, db.attempts, a);
  }

  /** The store after all the jobs and all the attempts of some records. */
  function Written(db: Db, records: seq<Record>): Db {
    Db(UpsertAll(db.jobs, JobsOf(records)), SaveAll(db.attempts, AttemptsOf(records)), db.epochs)
  }

  lemma {:induction false} JobsTable(db: Db, records: seq<Record>)
    ensures ApplyRecords(db, records).jobs == UpsertAll(db.jobs, JobsOf(records))
  {
    if |records| > 0 {
      var m := |records| - 1;
      JobsTable(db, records[..m]);
      WriteOne(ApplyRecords(db, records[..m]), records[m]);
      if records[m].JobRecord? {
        FoldLeftSnoc(UpsertOne, db.jobs, JobsOf(records[..m]), records[m].job);
      } else {
        assert JobsOf(records) == JobsOf(records[..m]);
      }
    }
  }

  lemma {:induction false} AttemptsTable(db: Db, records: seq<Record>)
    ensures ApplyRecords(db, records).attempts == SaveAll(db.attempts, AttemptsOf(records))
    ensures ApplyRecords(db, records).epochs == db.epochs
  {
    if |records| > 0 {
      var m := |records| - 1;
      AttemptsTable(db, records[..m]);
      WriteOne(ApplyRecords(db, records[..m]), records[m]);
      if records[m].AttemptRecord? {
        FoldLeftSnoc(SaveOne, db.attempts, AttemptsOf(records[..m]), records[m].attempt);
      } else {
        assert AttemptsOf(records) == AttemptsOf(records[..m]);
      }
    }
  }

  /** Job and attempt records touch different tables, so applying records one at a
      time is applying all the jobs and all the attempts, in any grouping. */
  lemma OneAtATime(db: Db, records: seq<Record>)
    ensures ApplyRecords(db, records) == Written(db, records)
  {
    JobsTable(db, records);
    AttemptsTable(db, records);
  }

  // ---- The invariant ----------------------------------------------------------------------

  /** Records of the current batch that no store call has answered for yet. */
  function Pending(s: State): nat {
    if s.writer.FlushAttempts? then |AttemptsOf(s.batch)| else |s.batch|
  }

  ghost predicate InOrder(s: State) {
    s.past.accepted == s.past.flushed + s.batch + s.channel
  }

  ghost predicate AllCounted(s: State) {
    s.past.offered == s.dropped + s.written + s.past.rejected + Pending(s) + |s.channel| + |s.inFlight|
  }

  ghost predicate Conserved(s: State) {
    InOrder(s) && AllCounted(s)
  }

  ghost predicate Bounded(c: Config, s: State) {
    && |s.channel| <= c.buffer
    && |s.batch| <= c.batchSize
    && (s.writer.Looping? || s.writer.Draining? ==> |s.batch| < c.batchSize)
    && (s.writer.FlushJobs? || s.writer.FlushAttempts? ==> |s.batch| > 0)
    && (s.writer.Unlaunched? || s.writer.Stopped? ==> s.batch == [])
  }

  predicate PastDrain(w: Writer) {
    w.Stopped? || ((w.FlushJobs? || w.FlushAttempts?) && w.after.Finish?)
  }

  predicate InDrain(w: Writer) {
    PastDrain(w) || w.Draining? || ((w.FlushJobs? || w.FlushAttempts?) && w.after.Drain?)
  }

  ghost predicate Shutdown(s: State) {
    && s.started == !s.writer.Unlaunched?
    && (s.starting ==> !s.started)
    && (InDrain(s.writer) ==> s.done)
    && (s.done <==> s.closer.Waiting? || s.closer.Returned?)
    && (!s.closer.NotClosed? && s.closer.started ==> s.started)
    && (s.closer.Returned? && s.closer.started ==> s.writer.Stopped?)
  }

  function RecordsOf(sent: map<nat, Record>, hooks: seq<nat>): (records: seq<Record>)
    requires forall h :: h in hooks ==> h in sent
    ensures |records| == |hooks| && forall i :: 0 <= i < |hooks| ==> records[i] == sent[hooks[i]]
  {
    seq(|hooks|, i requires 0 <= i < |hooks| => sent[hooks[i]])
  }

  ghost predicate Distinct(hooks: seq<nat>) {
    forall i, j :: 0 <= i < j < |hooks| ==> hooks[i] != hooks[j]
  }

  /** After `done` closes no new offer gets past its first select: each hook still in
      flight is a straddler, each straddler sends once at most, and once the channel has
      been found empty it holds late sends only. */
  ghost predicate Straddling(inFlight: map<nat, Record>, straddlers: map<nat, Record>,
                             early: seq<Record>, late: seq<nat>, accepted: seq<Record>)
  {
    && (forall h :: h in inFlight ==> h in straddlers && straddlers[h] == inFlight[h])
    && (forall h :: h in late ==> h in straddlers && h !in inFlight)
    && Distinct(late)
    && accepted == early + RecordsOf(straddlers, late)
  }

  ghost predicate LateSends(s: State) {
    if s.done then
      && Straddling(s.inFlight, s.past.straddlers, s.past.early, s.past.late, s.past.accepted)
      && (PastDrain(s.writer) ==> |s.channel| <= |s.past.late|)
    else s.past.late == []
  }

  /** The store is the log replayed from the launch, one record at a time. */
  ghost predicate Holds(s: State) {
    if s.writer.Unlaunched?
    then s.past.committed == [] && s.past.flushed == [] && s.past.log == [] && s.past.rejected == 0
    else s.db == Replay(s.past.base, s.past.log) && OwnRecords(s.past.log) == s.past.committed
  }

  /** While no write has failed, the committed records are the flushed ones, table by
      table. */
  ghost predicate Faithful(s: State) {
    s.past.rejected == 0 ==>
      && JobsOf(s.past.committed) == JobsOf(s.past.flushed) + (if s.writer.FlushAttempts? then JobsOf(s.batch) else [])
      && AttemptsOf(s.past.committed) == AttemptsOf(s.past.flushed)
  }

  ghost predicate Inv(c: Config, s: State) {
    Conserved(s) && Bounded(c, s) && Shutdown(s) && LateSends(s) && Holds(s) && Faithful(s)
  }

  lemma SendKeepsSize(m: map<nat, Record>, hook: nat)
    requires hook in m
    ensures |m - {hook}| == |m| - 1
  {
    assert m.Keys == (m - {hook}).Keys + {hook};
    assert |m.Keys| == |(m - {hook}).Keys| + 1;
  }

  lemma CheckConserves(s: State, hook: nat, record: Record)
    requires Conserved(s) && hook !in s.inFlight
    ensures Conserved(Checked(s, hook, record))
  {
    assert s.inFlight[hook := record] - {hook} == s.inFlight;
    SendKeepsSize(s.inFlight[hook := record], hook);
  }

  lemma SendInOrder(c: Config, s: State, hook: nat)
    requires InOrder(s) && hook in s.inFlight
    ensures InOrder(Sent(c, s, hook))
  {
    AppendLast(s.past.flushed, s.batch, s.channel, s.inFlight[hook]);
  }

  lemma AppendLast(a: seq<Record>, b: seq<Record>, c: seq<Record>, r: Record)
    ensures a + b + (c + [r]) == a + b + c + [r]
  {}

  lemma SendCounted(c: Config, s: State, hook: nat)
    requires AllCounted(s) && hook in s.inFlight
    ensures AllCounted(Sent(c, s, hook))
  {
    SendKeepsSize(s.inFlight, hook);
    assert Pending(Sent(c, s, hook)) == Pending(s);
  }

  lemma TakeConserves(c: Config, s: State, after: After)
    requires Conserved(s) && |s.channel| > 0 && (s.writer.Looping? || s.writer.Draining?)
    ensures Conserved(Take(c, s, after))
  {
    var t := Take(c, s, after);
    assert t.past.flushed + t.batch + t.channel == s.past.accepted;
  }

  lemma WriteJobsConserves(s: State, ok: bool)
    requires Conserved(s) && s.writer.FlushJobs?
    ensures Conserved(JobsWritten(s, ok))
  {
    SplitSizes(s.batch);
  }

  lemma WriteAttemptsConserves(s: State, ok: bool)
    requires Conserved(s) && s.writer.FlushAttempts?
    ensures Conserved(AttemptsWritten(s, ok))
  {
    assert (s.past.flushed + s.batch) + [] + s.channel == s.past.accepted;
  }

  lemma StepConserves(c: Config, s: State, e: Event)
    requires Conserved(s) && Shutdown(s) && Enabled(s, e)
    ensures Conserved(Next(c, s, e))
  {
    match e
    case OfferCheck(hook, record) => CheckConserves(s, hook, record);
    case OfferSend(hook) => SendInOrder(c, s, hook); SendCounted(c, s, hook);
    case Receive => TakeConserves(c, s, Resume);
    case DrainReceive => TakeConserves(c, s, Drain);
    case WriteJobs(ok) => WriteJobsConserves(s, ok);
    case WriteAttempts(ok) => WriteAttemptsConserves(s, ok);
    case _ =>
  }

  /** The writer's own steps. */
  predicate OfWriter(e: Event) {
    || e.Receive? || e.Tick? || e.SeeDone? || e.DrainReceive? || e.DrainEmpty?
    || e.WriteJobs? || e.WriteAttempts?
  }

  lemma WriterBounded(c: Config, s: State, e: Event)
    requires ValidConfig(c) && Bounded(c, s) && Shutdown(s) && Enabled(s, e) && OfWriter(e)
    ensures Bounded(c, Next(c, s, e))
  {
    match e
    case Receive =>
    case DrainReceive =>
    case WriteJobs(_) =>
    case WriteAttempts(_) =>
    case _ =>
  }

  lemma OtherBounded(c: Config, s: State, e: Event)
    requires ValidConfig(c) && Bounded(c, s) && Shutdown(s) && Enabled(s, e) && !OfWriter(e)
    ensures Bounded(c, Next(c, s, e))
  {}

  lemma StepBounded(c: Config, s: State, e: Event)
    requires ValidConfig(c) && Bounded(c, s) && Shutdown(s) && Enabled(s, e)
    ensures Bounded(c, Next(c, s, e))
  {
    if OfWriter(e) {
      WriterBounded(c, s, e);
    } else {
      OtherBounded(c, s, e);
    }
  }

  lemma WriterShutdown(c: Config, s: State, e: Event)
    requires Shutdown(s) && Enabled(s, e) && OfWriter(e)
    ensures Shutdown(Next(c, s, e))
  {}

  lemma OtherShutdown(c: Config, s: State, e: Event)
    requires Shutdown(s) && Enabled(s, e) && !OfWriter(e)
    ensures Shutdown(Next(c, s, e))
  {}

  lemma StepShutdown(c: Config, s: State, e: Event)
    requires Shutdown(s) && Enabled(s, e)
    ensures Shutdown(Next(c, s, e))
  {
    if OfWriter(e) {
      WriterShutdown(c, s, e);
    } else {
      OtherShutdown(c, s, e);
    }
  }

  lemma RecordsAppend(sent: map<nat, Record>, hooks: seq<nat>, hook: nat)
    requires (forall h :: h in hooks ==> h in sent) && hook in sent
    ensures RecordsOf(sent, hooks + [hook]) == RecordsOf(sent, hooks) + [sent[hook]]
  {}

  /** An offer caught between its two selects when `done` closed may still send, or be shed. */
  lemma StraddlerSends(inFlight: map<nat, Record>, straddlers: map<nat, Record>,
                       early: seq<Record>, late: seq<nat>, accepted: seq<Record>, hook: nat)
    requires Straddling(inFlight, straddlers, early, late, accepted) && hook in inFlight
    ensures Straddling(inFlight - {hook}, straddlers, early, late + [hook], accepted + [inFlight[hook]])
    ensures Straddling(inFlight - {hook}, straddlers, early, late, accepted)
  {
    RecordsAppend(straddlers, late, hook);
    forall h | h in late + [hook] ensures h in straddlers && h !in inFlight - {hook} {
      assert h in late || h == hook;
    }
    assert accepted + [inFlight[hook]] == early + RecordsOf(straddlers, late + [hook]);
  }

  lemma DoneStraddles(inFlight: map<nat, Record>, accepted: seq<Record>)
    ensures Straddling(inFlight, inFlight, accepted, [], accepted)
  {
    assert accepted + RecordsOf(inFlight, []) == accepted;
  }

  lemma TakeLateSends(c: Config, s: State, after: After)
    requires LateSends(s) && |s.channel| > 0 && !PastDrain(s.writer) && !after.Finish?
    ensures LateSends(Take(c, s, after))
  {}

  lemma WritesLateSends(s: State, ok: bool)
    requires LateSends(s)
    ensures s.writer.FlushJobs? ==> LateSends(JobsWritten(s, ok))
    ensures s.writer.FlushAttempts? ==> LateSends(AttemptsWritten(s, ok))
  {}

  lemma WriterLateSends(c: Config, s: State, e: Event)
    requires LateSends(s) && Enabled(s, e) && OfWriter(e)
    ensures LateSends(Next(c, s, e))
  {
    match e
    case Receive => TakeLateSends(c, s, Resume);
    case DrainReceive => TakeLateSends(c, s, Drain);
    case WriteJobs(ok) => WritesLateSends(s, ok);
    case WriteAttempts(ok) => WritesLateSends(s, ok);
    case _ =>
  }

  lemma OtherLateSends(c: Config, s: State, e: Event)
    requires LateSends(s) && Shutdown(s) && Enabled(s, e) && !OfWriter(e)
    ensures LateSends(Next(c, s, e))
  {
    match e
    case OfferSend(hook) =>
      if s.done {
        StraddlerSends(s.inFlight, s.past.straddlers, s.past.early, s.past.late, s.past.accepted, hook);
      }
    case CloseDone => DoneStraddles(s.inFlight, s.past.accepted);
    case _ =>
  }

  lemma StepLateSends(c: Config, s: State, e: Event)
    requires LateSends(s) && Shutdown(s) && Enabled(s, e)
    ensures LateSends(Next(c, s, e))
  {
    if OfWriter(e) {
      WriterLateSends(c, s, e);
    } else {
      OtherLateSends(c, s, e);
    }
  }

  lemma {:induction false} ReplayOwns(db: Db, records: seq<Record>)
    ensures Replay(db, Owns(records)) == ApplyRecords(db, records)
    ensures OwnRecords(Owns(records)) == records
  {
    if |records| > 0 {
      var m := |records| - 1;
      ReplayOwns(db, records[..m]);
      assert Owns(records)[..m] == Owns(records[..m]);
      assert records[..m] + [records[m]] == records;
    }
  }

  lemma {:induction false} OwnConcat(a: seq<Entry>, b: seq<Entry>)
    ensures OwnRecords(a + b) == OwnRecords(a) + OwnRecords(b)
    decreases |b|
  {
    if |b| == 0 {
      assert a + b == a;
    } else {
      assert (a + b)[..|a + b| - 1] == a + b[..|b| - 1];
      OwnConcat(a, b[..|b| - 1]);
    }
  }

  /** Appending own records to the log writes them one at a time. */
  lemma LogOwns(base: Db, log: seq<Entry>, records: seq<Record>)
    ensures Replay(base, log + Owns(records)) == ApplyRecords(Replay(base, log), records)
    ensures OwnRecords(log + Owns(records)) == OwnRecords(log) + records
  {
    FoldLeftConcat(ApplyEntry, base, log, Owns(records));
    ReplayOwns(Replay(base, log), records);
    OwnConcat(log, Owns(records));
  }

  lemma WriteJobsHolds(s: State, ok: bool)
    requires Holds(s) && s.writer.FlushJobs?
    ensures Holds(JobsWritten(s, ok))
  {
    LogOwns(s.past.base, s.past.log, JobRecords(s.batch));
    OneAtATime(s.db, JobRecords(s.batch));
    SplitRecords(s.batch);
  }

  lemma WriteAttemptsHolds(s: State, ok: bool)
    requires Holds(s) && s.writer.FlushAttempts?
    ensures Holds(AttemptsWritten(s, ok))
  {
    LogOwns(s.past.base, s.past.log, AttemptRecords(s.batch));
    OneAtATime(s.db, AttemptRecords(s.batch));
    SplitRecords(s.batch);
  }

  lemma ElsewhereHolds(base: Db, log: seq<Entry>, op: Op)
    ensures Replay(base, log + [Theirs(op)]) == Apply(Replay(base, log), op)
    ensures OwnRecords(log + [Theirs(op)]) == OwnRecords(log)
  {
    assert (log + [Theirs(op)])[..|log|] == log;
    assert OwnRecords(log) + [] == OwnRecords(log);
  }

  lemma WriterHolds(c: Config, s: State, e: Event)
    requires Holds(s) && Shutdown(s) && Enabled(s, e) && OfWriter(e)
    ensures Holds(Next(c, s, e))
  {
    match e
    case WriteJobs(ok) => WriteJobsHolds(s, ok);
    case WriteAttempts(ok) => WriteAttemptsHolds(s, ok);
    case _ =>
  }

  lemma OtherHolds(c: Config, s: State, e: Event)
    requires Holds(s) && Shutdown(s) && Enabled(s, e) && !OfWriter(e)
    ensures Holds(Next(c, s, e))
  {
    match e
    case Elsewhere(op) => ElsewhereHolds(s.past.base, s.past.log, op);
    case _ =>
  }

  lemma StepHolds(c: Config, s: State, e: Event)
    requires Holds(s) && Shutdown(s) && Enabled(s, e)
    ensures Holds(Next(c, s, e))
  {
    if OfWriter(e) {
      WriterHolds(c, s, e);
    } else {
      OtherHolds(c, s, e);
    }
  }

  lemma WriteJobsFaithful(s: State, ok: bool)
    requires Faithful(s) && s.writer.FlushJobs?
    ensures Faithful(JobsWritten(s, ok))
  {
    var jobs, attempts := JobsOf(s.past.committed), AttemptsOf(s.past.committed);
    SplitRecords(s.batch);
    SplitConcat(s.past.committed, JobRecords(s.batch));
    assert JobsOf(s.past.flushed) + [] == JobsOf(s.past.flushed) && attempts + [] == attempts;
    assert |JobsOf(s.batch)| == 0 ==> jobs + JobsOf(s.batch) == jobs;
  }

  lemma WriteAttemptsFaithful(s: State, ok: bool)
    requires Faithful(s) && s.writer.FlushAttempts?
    ensures Faithful(AttemptsWritten(s, ok))
  {
    var jobs, attempts := JobsOf(s.past.committed), AttemptsOf(s.past.committed);
    SplitRecords(s.batch);
    SplitConcat(s.past.committed, AttemptRecords(s.batch));
    SplitConcat(s.past.flushed, s.batch);
    assert jobs + [] == jobs && JobsOf(s.past.flushed + s.batch) + [] == JobsOf(s.past.flushed + s.batch);
    assert |AttemptsOf(s.batch)| == 0 ==> attempts + AttemptsOf(s.batch) == attempts;
  }

  lemma WriterFaithful(c: Config, s: State, e: Event)
    requires Faithful(s) && Enabled(s, e) && OfWriter(e)
    ensures Faithful(Next(c, s, e))
  {
    match e
    case WriteJobs(ok) => WriteJobsFaithful(s, ok);
    case WriteAttempts(ok) => WriteAttemptsFaithful(s, ok);
    case _ =>
  }

  lemma OtherFaithful(c: Config, s: State, e: Event)
    requires Faithful(s) && Shutdown(s) && Enabled(s, e) && !OfWriter(e)
    ensures Faithful(Next(c, s, e))
  {}

  lemma StepFaithful(c: Config, s: State, e: Event)
    requires Faithful(s) && Shutdown(s) && Enabled(s, e)
    ensures Faithful(Next(c, s, e))
  {
    if OfWriter(e) {
      WriterFaithful(c, s, e);
    } else {
      OtherFaithful(c, s, e);
    }
  }

  lemma StepInv(c: Config, s: State, e: Event)
    requires ValidConfig(c) && Inv(c, s) && Enabled(s, e)
    ensures Inv(c, Next(c, s, e))
  {
    StepConserves(c, s, e);
    StepBounded(c, s, e);
    StepShutdown(c, s, e);
    StepLateSends(c, s, e);
    StepHolds(c, s, e);
    StepFaithful(c, s, e);
  }

  /** The invariant holds in every reachable state. */
  lemma {:induction false} RunInv(c: Config, db: Db, events: seq<Event>, s: State)
    requires ValidConfig(c) && Exec(c, Init(db), events) == Some(s)
    ensures Inv(c, s)
    decreases |events|
  {
    if |events| > 0 {
      var m := |events| - 1;
      var front := Exec(c, Init(db), events[..m]).value;
      RunInv(c, db, events[..m], front);
      StepInv(c, front, events[m]);
    }
  }

  // ---- What the sink promises --------------------------------------------------------------

  /** Event conservation, in every reachable state: each offer was dropped, written,
      refused by the store, or is still in the batch, the channel or between its two
      selects; the accepted records are, in order, those flushed, batched and buffered;
      and neither buffer outgrows its limit. */
  lemma EventsConserved(c: Config, db: Db, events: seq<Event>, s: State)
    requires ValidConfig(c) && Exec(c, Init(db), events) == Some(s)
    ensures s.past.offered == s.dropped + s.written + s.past.rejected + Pending(s) + |s.channel| + |s.inFlight|
    ensures s.past.accepted == s.past.flushed + s.batch + s.channel
    ensures |s.channel| <= c.buffer && |s.batch| <= c.batchSize
  {
    RunInv(c, db, events, s);
  }

  ghost predicate Alone(log: seq<Entry>) {
    forall entry :: entry in log ==> entry.Mine?
  }

  lemma {:induction false} AloneReplays(db: Db, log: seq<Entry>)
    requires Alone(log)
    ensures Replay(db, log) == ApplyRecords(db, OwnRecords(log))
  {
    if |log| > 0 {
      var m := |log| - 1;
      assert log[m] in log;
      AloneReplays(db, log[..m]);
      assert OwnRecords(log)[..|OwnRecords(log)| - 1] == OwnRecords(log[..m]);
    }
  }

  /** The calls made on the store before the writer is launched: those of Start, and those of
      others. */
  function CallsBefore(events: seq<Event>): seq<Op> {
    if |events| == 0 then []
    else
      var before, e := events[..|events| - 1], events[|events| - 1];
      CallsBefore(before) + if StartLaunch !in before && (e.StartCall? || e.Elsewhere?) then [e.op] else []
  }

  lemma BaseStep(c: Config, s: State, e: Event)
    requires Shutdown(s) && Enabled(s, e)
    ensures Next(c, s, e).started <==> s.started || e == StartLaunch
    ensures s.started ==> e != StartLaunch && Next(c, s, e).past.base == s.past.base
    ensures !s.started && e == StartLaunch ==> Next(c, s, e).past.base == s.db
    ensures !s.started && e != StartLaunch ==>
      Next(c, s, e).db == if e.StartCall? || e.Elsewhere? then Apply(s.db, e.op) else s.db
  {
    match e
    case OfferSend(_) =>
    case WriteJobs(_) =>
    case WriteAttempts(_) =>
    case _ =>
  }

  /** The store found at launch is the one the run began with, after every call made until
      then: Start's own heartbeat and reconcile, and everyone else's. */
  lemma {:induction false} LaunchFinds(c: Config, db: Db, events: seq<Event>, s: State)
    requires Exec(c, Init(db), events) == Some(s)
    ensures Shutdown(s) && (s.started <==> StartLaunch in events)
    ensures (if s.started then s.past.base else s.db) == Run(db, CallsBefore(events))
    decreases |events|
  {
    if |events| > 0 {
      var m := |events| - 1;
      var mid, e := Exec(c, Init(db), events[..m]).value, events[m];
      LaunchFinds(c, db, events[..m], mid);
      StepShutdown(c, mid, e);
      BaseStep(c, mid, e);
      assert events == events[..m] + [e];
      CallsGrow(db, events[..m], e);
    }
  }

  lemma CallsGrow(db: Db, events: seq<Event>, e: Event)
    ensures Run(db, CallsBefore(events + [e])) ==
      if StartLaunch !in events && (e.StartCall? || e.Elsewhere?)
      then Apply(Run(db, CallsBefore(events)), e.op) else Run(db, CallsBefore(events))
  {
    assert (events + [e])[..|events|] == events;
    if StartLaunch !in events && (e.StartCall? || e.Elsewhere?) {
      FoldLeftSnoc(Apply, db, CallsBefore(events), e.op);
    } else {
      assert CallsBefore(events) + [] == CallsBefore(events);
    }
  }

  /** Refinement.  Whatever else happens to the store meanwhile (heartbeats, retention, the
      calls of other processes), it is at every moment what applying the committed records
      one at a time, in between those other calls, makes of the store found at launch.  With
      no write refused the committed records are the flushed ones, table by table, however
      the batches were cut; and with the store to itself, the sink leaves what applying the
      flushed records one at a time leaves. */
  lemma SinkRefinesOneAtATime(c: Config, db: Db, events: seq<Event>, s: State)
    requires ValidConfig(c) && Exec(c, Init(db), events) == Some(s)
    requires s.started
    ensures s.db == Replay(s.past.base, s.past.log) && OwnRecords(s.past.log) == s.past.committed
    ensures s.past.rejected == 0 && !s.writer.FlushAttempts? ==>
      JobsOf(s.past.committed) == JobsOf(s.past.flushed) && AttemptsOf(s.past.committed) == AttemptsOf(s.past.flushed)
    ensures s.past.rejected == 0 && !s.writer.FlushAttempts? && Alone(s.past.log) ==> s.db == ApplyRecords(s.past.base, s.past.flushed)
  {
    RunInv(c, db, events, s);
    OneAtATime(s.past.base, s.past.committed);
    OneAtATime(s.past.base, s.past.flushed);
    assert JobsOf(s.past.flushed) + [] == JobsOf(s.past.flushed);
    if Alone(s.past.log) {
      AloneReplays(s.past.base, s.past.log);
    }
  }
}
