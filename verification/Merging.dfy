/** Folding an incoming record into a stored one (store/memory/memory.go). */
module Merging {
  import opened Bands
  import opened Records

  /** Keep the stored value once it is set. */
  function First<T(==)>(blank: T, stored: T, incoming: T): T {
    if stored == blank then incoming else stored
  }

  /** Let a set incoming value win. */
  function Last<T(==)>(blank: T, stored: T, incoming: T): T {
    if incoming == blank then stored else incoming
  }

  function Merge(a: Job, b: Job): Job {
    Job(
      a.key, a.id, a.epoch,
      First("", a.queue, b.queue),
      First("", a.name, b.name),
      if Rank(b.state) > Rank(a.state) then b.state else a.state,
      Last("", a.err, b.err),
      if a.name == "" then b.pattern else a.pattern,
      First("", a.rootId, b.rootId),
      First("", a.parent, b.parent),
      Last(map[], a.attributes, b.attributes),
      First(0, a.enqueuedAt, b.enqueuedAt),
      First(0, a.startedAt, b.startedAt),
      Last(0, a.finishedAt, b.finishedAt),
      Last(0, a.waitUs, b.waitUs),
      Last(0, a.execUs, b.execUs),
      if b.attempt > a.attempt then b.attempt else a.attempt,
      if b.progress.at > a.progress.at then b.progress else a.progress)
  }

  /** The source's field-by-field update of its by-value copy: what the job is, how it
      stands, its times and its counters. */
  method MergeRecord(existing: Job, incoming: Job) returns (out: Job)
    ensures out == Merge(existing, incoming)
  {
    var state, queue, name, pattern := MergeIdentity(existing, incoming);
    var err, rootId, parent, attributes := MergeDetails(existing, incoming);
    var enqueuedAt, startedAt, finishedAt := MergeTimes(existing, incoming);
    var waitUs, execUs, attempt, progress := MergeCounters(existing, incoming);
    out := existing.(state := state, queue := queue, name := name, pattern := pattern,
                     err := err, rootId := rootId, parent := parent, attributes := attributes,
                     enqueuedAt := enqueuedAt, startedAt := startedAt, finishedAt := finishedAt,
                     waitUs := waitUs, execUs := execUs, attempt := attempt, progress := progress);
  }

  method MergeIdentity(existing: Job, incoming: Job) returns (state: State, queue: string, name: string, pattern: string)
    ensures var m := Merge(existing, incoming);
      state == m.state && queue == m.queue && name == m.name && pattern == m.pattern
  {
    state, queue, name, pattern := existing.state, existing.queue, existing.name, existing.pattern;
    if Rank(incoming.state) > Rank(state) {
      state := incoming.state;
    }
    if queue == "" {
      queue := incoming.queue;
    }
    if name == "" {
      name, pattern := incoming.name, incoming.pattern;
    }
  }

  method MergeDetails(existing: Job, incoming: Job)
    returns (err: string, rootId: string, parent: string, attributes: map<string, string>)
    ensures var m := Merge(existing, incoming);
      err == m.err && rootId == m.rootId && parent == m.parent && attributes == m.attributes
  {
    err, rootId, parent, attributes := existing.err, existing.rootId, existing.parent, existing.attributes;
    if incoming.err != "" {
      err := incoming.err;
    }
    if rootId == "" {
      rootId := incoming.rootId;
    }
    if parent == "" {
      parent := incoming.parent;
    }
    if |incoming.attributes| > 0 {
      attributes := incoming.attributes;
    }
  }

  method MergeTimes(existing: Job, incoming: Job) returns (enqueuedAt: Time, startedAt: Time, finishedAt: Time)
    ensures var m := Merge(existing, incoming);
      enqueuedAt == m.enqueuedAt && startedAt == m.startedAt && finishedAt == m.finishedAt
  {
    enqueuedAt, startedAt, finishedAt := existing.enqueuedAt, existing.startedAt, existing.finishedAt;
    if enqueuedAt == 0 {
      enqueuedAt := incoming.enqueuedAt;
    }
    if startedAt == 0 {
      startedAt := incoming.startedAt;
    }
    if incoming.finishedAt != 0 {
      finishedAt := incoming.finishedAt;
    }
  }

  method MergeCounters(existing: Job, incoming: Job) returns (waitUs: int, execUs: int, attempt: int, progress: Progress)
    ensures var m := Merge(existing, incoming);
      waitUs == m.waitUs && execUs == m.execUs && attempt == m.attempt && progress == m.progress
  {
    waitUs, execUs, attempt, progress := existing.waitUs, existing.execUs, existing.attempt, existing.progress;
    if incoming.waitUs != 0 {
      waitUs := incoming.waitUs;
    }
    if incoming.execUs != 0 {
      execUs := incoming.execUs;
    }
    if incoming.attempt > attempt {
      attempt := incoming.attempt;
    }
    if incoming.progress.at > progress.at {
      progress := incoming.progress;
    }
  }

  /** Merging is associative and idempotent on all records: a band. */
  lemma MergeIsBand()
    ensures Associative(Merge) && Idempotent(Merge)
  {}

  // ---- When order does not matter -------------------------------------------

  predicate SetValuesAgree<T(==)>(blank: T, a: T, b: T) {
    a != blank && b != blank ==> a == b
  }

  /** Two records of one submission that say nothing contradictory: no two distinct
      states of one rank (so at most one terminal state), set values of a field
      agree, and equal progress instants carry equal progress. */
  predicate Agree(a: Job, b: Job) {
    && a.key == b.key && a.id == b.id && a.epoch == b.epoch
    && (Rank(a.state) == Rank(b.state) ==> a.state == b.state)
    && SetValuesAgree("", a.queue, b.queue)
    && SetValuesAgree("", a.name, b.name)
    && (a.name == b.name ==> a.pattern == b.pattern)
    && SetValuesAgree("", a.err, b.err)
    && SetValuesAgree("", a.rootId, b.rootId)
    && SetValuesAgree("", a.parent, b.parent)
    && SetValuesAgree(map[], a.attributes, b.attributes)
    && SetValuesAgree(0, a.enqueuedAt, b.enqueuedAt)
    && SetValuesAgree(0, a.startedAt, b.startedAt)
    && SetValuesAgree(0, a.finishedAt, b.finishedAt)
    && SetValuesAgree(0, a.waitUs, b.waitUs)
    && SetValuesAgree(0, a.execUs, b.execUs)
    && (a.progress.at == b.progress.at ==> a.progress == b.progress)
  }

  /** Exactly the agreeing pairs commute. */
  lemma MergeCommutesIff(a: Job, b: Job)
    ensures Merge(a, b) == Merge(b, a) <==> Agree(a, b)
  {}

  lemma MergeStaysInFamily(a: Job, b: Job, c: Job)
    requires Agree(a, b) && Agree(a, c) && Agree(b, c)
    ensures Agree(Merge(a, b), c)
  {}

  lemma AgreeIsCompatible()
    ensures Compatible(Merge, Agree)
  {
    forall x, y | Agree(x, y) ensures Agree(y, x) && Merge(x, y) == Merge(y, x) {
      MergeCommutesIff(x, y);
    }
    forall x, y, z | Agree(x, y) && Agree(x, z) && Agree(y, z) ensures Agree(Merge(x, y), z) {
      MergeStaysInFamily(x, y, z);
    }
  }

  /** Order tolerance: a coherent set of events of one job yields one row, however
      the events are permuted and repeated. */
  lemma RowOrderTolerant(xs: seq<Job>, ys: seq<Job>)
    requires Coherent(Agree, xs)
    requires forall x :: x in xs <==> x in ys
    ensures Fold(Merge, None, xs) == Fold(Merge, None, ys)
  {
    MergeIsBand();
    AgreeIsCompatible();
    FoldOrderTolerant(Merge, Agree, xs, ys);
  }

  // ---- What a row never gives up ---------------------------------------------

  /** `b` is a later view of row `a`. */
  ghost predicate Later(a: Job, b: Job) {
    && a.key == b.key && a.id == b.id && a.epoch == b.epoch
    && Rank(a.state) <= Rank(b.state)
    && (Terminal(a.state) ==> b.state == a.state)
    && a.attempt <= b.attempt
    && a.progress.at <= b.progress.at
    && (a.progress.at == b.progress.at ==> a.progress == b.progress)
    && (a.queue != "" ==> b.queue == a.queue)
    && (a.name != "" ==> b.name == a.name && b.pattern == a.pattern)
    && (a.rootId != "" ==> b.rootId == a.rootId)
    && (a.parent != "" ==> b.parent == a.parent)
    && (a.enqueuedAt != 0 ==> b.enqueuedAt == a.enqueuedAt)
    && (a.startedAt != 0 ==> b.startedAt == a.startedAt)
    && (a.finishedAt != 0 ==> b.finishedAt != 0)
    && (a.err != "" ==> b.err != "")
    && (a.attributes != map[] ==> b.attributes != map[])
  }

  lemma LaterIsTransitive(a: Job, b: Job, c: Job)
    requires Later(a, b) && Later(b, c)
    ensures Later(a, c)
  {}

  lemma MergeAdvances(a: Job, b: Job)
    ensures Later(a, Merge(a, b))
  {}

  // ---- Attempts ---------------------------------------------------------------

  /** Same job, attempt number and start: the incoming record replaces the stored
      one, keeping the stored error and finish where it has none. */
  function MergeAttempt(a: Attempt, b: Attempt): Attempt {
    b.(err := if b.err == "" then a.err else b.err,
       finishedAt := if b.finishedAt == 0 then a.finishedAt else b.finishedAt)
  }

  lemma MergeAttemptIsBand()
    ensures Associative(MergeAttempt) && Idempotent(MergeAttempt)
  {}

  /** Two records of one attempt that say nothing contradictory. */
  predicate AttemptsAgree(a: Attempt, b: Attempt) {
    && a.jobId == b.jobId && a.epoch == b.epoch && a.queue == b.queue
    && a.attempt == b.attempt && a.startedAt == b.startedAt
    && a.state == b.state
    && SetValuesAgree("", a.err, b.err)
    && SetValuesAgree(0, a.finishedAt, b.finishedAt)
  }

  /** Exactly the agreeing pairs commute; unlike a job's, an attempt's state has no rank, so
      two states of one attempt never do. */
  lemma MergeAttemptCommutesIff(a: Attempt, b: Attempt)
    ensures MergeAttempt(a, b) == MergeAttempt(b, a) <==> AttemptsAgree(a, b)
  {}

  lemma AttemptsAgreeIsCompatible()
    ensures Compatible(MergeAttempt, AttemptsAgree)
  {
    forall x, y | AttemptsAgree(x, y) ensures AttemptsAgree(y, x) && MergeAttempt(x, y) == MergeAttempt(y, x) {
      MergeAttemptCommutesIff(x, y);
    }
  }

  /** A start event that arrives after the attempt's end turns it back to active, though its
      finish time stays. */
  lemma LateStartReopens(end: Attempt)
    requires end.state == Completed && end.finishedAt != 0
    ensures var start := end.(state := Active, err := "", finishedAt := 0);
      && MergeAttempt(start, end) == end
      && MergeAttempt(end, start) == end.(state := Active)
  {}
}
