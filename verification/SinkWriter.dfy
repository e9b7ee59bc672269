/** The writer's own code (sink/sink.go, offer, flush and the drain of run), run
without interference.  Whether the store accepts a call is a parameter. */
module SinkWriters {
  import opened Bands
  import opened Records
  import opened History
  import opened SinkProtocol
  import opened MemoryStores

  class Sink {
    const buffer: nat
    const batchSize: nat
    const store: MemoryStore
    var events: seq<Record>
    var batch: seq<Record>
    var done: bool
    var dropped: nat
    var written: nat

    ghost predicate Valid()
      reads this, store
    {
      && batchSize > 0 && store.Valid()
      && |events| <= buffer && |batch| <= batchSize
    }

    constructor (store: MemoryStore, buffer: nat, batchSize: nat)
      requires store.Valid() && batchSize > 0
      ensures Valid() && this.store == store && this.buffer == buffer && this.batchSize == batchSize
      ensures events == [] && batch == [] && !done && dropped == 0 && written == 0
    {
      this.store, this.buffer, this.batchSize := store, buffer, batchSize;
      events, batch, done, dropped, written := [], [], false, 0, 0;
    }

    /** Never blocks: a record is buffered or counted as dropped. */
    method Offer(record: Record)
      requires Valid()
      modifies this`events, this`dropped
      ensures Valid()
      ensures if old(done) || old(|events|) == buffer
        then dropped == old(dropped) + 1 && events == old(events)
        else dropped == old(dropped) && events == old(events) + [record]
    {
      if done {
        dropped := dropped + 1;
        return;
      }
      if |events| < buffer {
        events := events + [record];
      } else {
        dropped := dropped + 1;
      }
    }

    /** The two lists a batch is written as. */
    method Separate(batch: seq<Record>) returns (jobs: seq<Job>, attempts: seq<Attempt>)
      ensures jobs == JobsOf(batch) && attempts == AttemptsOf(batch)
    {
      jobs, attempts := [], [];
      for i := 0 to |batch|
        invariant jobs == JobsOf(batch[..i]) && attempts == AttemptsOf(batch[..i])
      {
        assert batch[..i + 1][..i] == batch[..i];
        match batch[i]
        case JobRecord(job) => jobs := jobs + [job];
        case AttemptRecord(attempt) => attempts := attempts + [attempt];
      }
      assert batch[..|batch|] == batch;
    }

    /** One flush, with the store's answers to its two calls: what was accepted is written as
        if record by record, and counted; the batch is given up either way. */
    method Flush(answer: Answer)
      requires Valid()
      modifies this`batch, this`written, store
      ensures Valid() && batch == []
      ensures store.Value() == ApplyRecords(old(store.Value()), Accepted(old(batch), answer))
      ensures written == old(written) + |Accepted(old(batch), answer)|
    {
      AcceptedFacts(store.Value(), batch, answer);
      if |batch| == 0 {
        return;
      }
      var jobs, attempts := Separate(batch);
      if answer.jobs {
        store.UpsertJobs(jobs);
        written := written + |jobs|;
      }
      if answer.attempts {
        store.SaveAttempts(attempts);
        written := written + |attempts|;
      }
      batch := [];
    }

    /** One receive, and the flush of a batch that it fills. */
    method Receive(answer: Answer) returns (full: bool)
      requires Valid() && |batch| < batchSize && |events| > 0
      modifies this`events, this`batch, this`written, store
      ensures Valid() && |batch| < batchSize && events == old(events)[1..]
      ensures var taken := old(batch) + [old(events)[0]];
        var accepted := if full then Accepted(taken, answer) else [];
        && batch == (if full then [] else taken)
        && store.Value() == ApplyRecords(old(store.Value()), accepted)
        && written == old(written) + |accepted|
    {
      batch, events := batch + [events[0]], events[1..];
      full := |batch| >= batchSize;
      if full {
        Flush(answer);
      }
    }

    /** The drain that follows Close.  Whatever the batch size, everything buffered is cut into
        batches in order and each is flushed; with no refusal, all of it reaches the store. */
    method Drain(answers: nat -> Answer) returns (ghost cuts: seq<seq<Record>>)
      requires Valid() && |batch| < batchSize  // a full batch is flushed at once
      modifies this`events, this`batch, this`written, store
      ensures Valid() && events == [] && batch == []
      ensures Flatten(cuts) == old(batch) + old(events)
      ensures store.Value() == ApplyRecords(old(store.Value()), AcceptedOf(cuts, answers))
      ensures written == old(written) + |AcceptedOf(cuts, answers)|
      ensures (forall n :: answers(n) == Answer(true, true)) ==>
        && store.Value() == ApplyRecords(old(store.Value()), old(batch) + old(events))
        && written == old(written) + old(|batch|) + old(|events|)
    {
      cuts := [];
      ghost var db, todo := store.Value(), batch + events;
      var flushes := 0;
      while |events| > 0
        invariant Valid() && |batch| < batchSize && flushes == |cuts|
        invariant Flatten(cuts) + (batch + events) == todo
        invariant store.Value() == ApplyRecords(db, AcceptedOf(cuts, answers))
        invariant written == old(written) + |AcceptedOf(cuts, answers)|
        decreases |events|
      {
        ghost var pending, waiting := batch, events;
        var full := Receive(answers(flushes));
        Shift(Flatten(cuts), pending, waiting);
        if full {
          CutStep(db, cuts, pending + [waiting[0]], answers);
          cuts, flushes := cuts + [pending + [waiting[0]]], flushes + 1;
        }
      }
      CutStep(db, cuts, batch, answers);
      cuts := cuts + [batch];
      Flush(answers(flushes));
      if forall n :: answers(n) == Answer(true, true) {
        AllAccepted(db, cuts, answers);
      }
    }
  }

  /** The store's answers to the two calls of a flush. */
  datatype Answer = Answer(jobs: bool, attempts: bool)

  /** The records of a batch that the store took, in the order it took them. */
  function Accepted(batch: seq<Record>, answer: Answer): seq<Record> {
    (if answer.jobs then JobRecords(batch) else []) + (if answer.attempts then AttemptRecords(batch) else [])
  }

  function AcceptedOf(cuts: seq<seq<Record>>, answers: nat -> Answer): seq<Record> {
    if |cuts| == 0 then []
    else AcceptedOf(cuts[..|cuts| - 1], answers) + Accepted(cuts[|cuts| - 1], answers(|cuts| - 1))
  }

  lemma {:induction false} RecordCounts(batch: seq<Record>)
    ensures |JobRecords(batch)| == |JobsOf(batch)| && |AttemptRecords(batch)| == |AttemptsOf(batch)|
  {
    if |batch| > 0 {
      RecordCounts(batch[..|batch| - 1]);
    }
  }

  lemma AcceptedFacts(db: Db, batch: seq<Record>, answer: Answer)
    ensures var mid := if answer.jobs then Apply(db, Upsert(JobsOf(batch))) else db;
      ApplyRecords(db, Accepted(batch, answer)) == if answer.attempts then Apply(mid, Save(AttemptsOf(batch))) else mid
    ensures |Accepted(batch, answer)|
         == (if answer.jobs then |JobsOf(batch)| else 0) + (if answer.attempts then |AttemptsOf(batch)| else 0)
    ensures |batch| == 0 ==> Accepted(batch, answer) == []
  {
    var jobs := if answer.jobs then JobRecords(batch) else [];
    var attempts := if answer.attempts then AttemptRecords(batch) else [];
    FoldLeftConcat(ApplyRecord, db, jobs, attempts);
    TableByTable(db, batch);
    TableByTable(ApplyRecords(db, jobs), batch);
    RecordCounts(batch);
  }

  lemma TableByTable(db: Db, batch: seq<Record>)
    ensures ApplyRecords(db, JobRecords(batch)) == Apply(db, Upsert(JobsOf(batch)))
    ensures ApplyRecords(db, AttemptRecords(batch)) == Apply(db, Save(AttemptsOf(batch)))
  {
    SplitRecords(batch);
    OneAtATime(db, JobRecords(batch));
    OneAtATime(db, AttemptRecords(batch));
  }

  /** A batch that the store takes is written as if record by record. */
  lemma WholeBatch(db: Db, batch: seq<Record>)
    ensures ApplyRecords(db, Accepted(batch, Answer(true, true))) == ApplyRecords(db, batch)
    ensures |Accepted(batch, Answer(true, true))| == |batch|
  {
    AcceptedFacts(db, batch, Answer(true, true));
    OneAtATime(db, batch);
    SplitSizes(batch);
  }

  lemma CutStep(db: Db, cuts: seq<seq<Record>>, cut: seq<Record>, answers: nat -> Answer)
    ensures Flatten(cuts + [cut]) == Flatten(cuts) + cut
    ensures AcceptedOf(cuts + [cut], answers) == AcceptedOf(cuts, answers) + Accepted(cut, answers(|cuts|))
    ensures ApplyRecords(db, AcceptedOf(cuts + [cut], answers))
         == ApplyRecords(ApplyRecords(db, AcceptedOf(cuts, answers)), Accepted(cut, answers(|cuts|)))
  {
    assert (cuts + [cut])[..|cuts|] == cuts;
    FoldLeftConcat(ApplyRecord, db, AcceptedOf(cuts, answers), Accepted(cut, answers(|cuts|)));
  }

  /** The cuts are written as their records are, one at a time. */
  ghost predicate Whole(db: Db, cuts: seq<seq<Record>>, answers: nat -> Answer) {
    && ApplyRecords(db, AcceptedOf(cuts, answers)) == ApplyRecords(db, Flatten(cuts))
    && |AcceptedOf(cuts, answers)| == |Flatten(cuts)|
  }

  lemma WholeStep(db: Db, cuts: seq<seq<Record>>, cut: seq<Record>, answers: nat -> Answer)
    requires Whole(db, cuts, answers) && answers(|cuts|) == Answer(true, true)
    ensures Whole(db, cuts + [cut], answers)
  {
    CutStep(db, cuts, cut, answers);
    WholeBatch(ApplyRecords(db, Flatten(cuts)), cut);
    FoldLeftConcat(ApplyRecord, db, Flatten(cuts), cut);
  }

  lemma {:induction false} AllAccepted(db: Db, cuts: seq<seq<Record>>, answers: nat -> Answer)
    requires forall n :: answers(n) == Answer(true, true)
    ensures Whole(db, cuts, answers)
  {
    if |cuts| == 0 {
      assert Whole(db, [], answers);
    } else {
      var front, last := cuts[..|cuts| - 1], cuts[|cuts| - 1];
      assert front + [last] == cuts && answers(|front|) == Answer(true, true);
      AllAccepted(db, front, answers);
      WholeStep(db, front, last, answers);
    }
  }

  /** Moving one record along keeps the order of all of them. */
  lemma Shift(flushed: seq<Record>, pending: seq<Record>, waiting: seq<Record>)
    requires |waiting| > 0
    ensures flushed + ((pending + [waiting[0]]) + waiting[1..]) == flushed + (pending + waiting)
    ensures (flushed + (pending + [waiting[0]])) + ([] + waiting[1..]) == flushed + (pending + waiting)
  {
    assert waiting == [waiting[0]] + waiting[1..];
  }
}
