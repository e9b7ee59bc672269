/** A sink at work in a store that other processes share: the two protocols, step by step.

A joint step is a step of this sink, a step of the shared store, or one of each; the sink's
writer commits the jobs of a batch exactly when the shared store takes them as a write of
this sink's epoch.  Both protocols are otherwise free. */
module SharedSinks {
  import opened Bands
  import opened Records
  import opened History
  import Sink = SinkProtocol
  import Shared = SharedStore

  datatype Step = Step(sink: Option<Sink.Event>, shared: Option<Shared.Event>)

  datatype Joint = Joint(sink: Sink.State, world: Shared.World)

  predicate IsWrite(e: string, ev: Option<Shared.Event>) {
    ev.Some? && ev.value.Write? && ev.value.epoch == e
  }

  predicate CanStep(e: string, j: Joint, step: Step) {
    && (step.sink.Some? ==> Sink.Enabled(j.sink, step.sink.value))
    && (step.shared.Some? ==> Shared.Enabled(j.world, step.shared.value))
    && (step.sink == Some(Sink.WriteJobs(true)) <==> IsWrite(e, step.shared))
    && (IsWrite(e, step.shared) ==> step.shared.value.jobs == Sink.JobsOf(j.sink.batch))
  }

  function NextJoint(c: Sink.Config, limits: Shared.Config, e: string, j: Joint, step: Step): Joint
    requires CanStep(e, j, step)
  {
    Joint(if step.sink.Some? then Sink.Next(c, j.sink, step.sink.value) else j.sink,
          if step.shared.Some? then Shared.Next(limits, j.world, step.shared.value) else j.world)
  }

  function Exec(c: Sink.Config, limits: Shared.Config, e: string, j: Joint, steps: seq<Step>): Option<Joint> {
    if |steps| == 0 then Some(j)
    else
      var front := Exec(c, limits, e, j, steps[..|steps| - 1]);
      if front.Some? && CanStep(e, front.value, steps[|steps| - 1])
      then Some(NextJoint(c, limits, e, front.value, steps[|steps| - 1])) else None
  }

  function SinkEvents(steps: seq<Step>): seq<Sink.Event> {
    if |steps| == 0 then []
    else
      var last := steps[|steps| - 1];
      SinkEvents(steps[..|steps| - 1]) + if last.sink.Some? then [last.sink.value] else []
  }

  function SharedEvents(steps: seq<Step>): seq<Shared.Event> {
    if |steps| == 0 then []
    else
      var last := steps[|steps| - 1];
      SharedEvents(steps[..|steps| - 1]) + if last.shared.Some? then [last.shared.value] else []
  }

  lemma ExecSink(c: Sink.Config, s: Sink.State, events: seq<Sink.Event>, mid: Sink.State, e: Sink.Event)
    requires Sink.Exec(c, s, events) == Some(mid) && Sink.Enabled(mid, e)
    ensures Sink.Exec(c, s, events + [e]) == Some(Sink.Next(c, mid, e))
  {
    assert (events + [e])[..|events|] == events;
  }

  lemma ExecShared(c: Shared.Config, w: Shared.World, events: seq<Shared.Event>, mid: Shared.World, ev: Shared.Event)
    requires Shared.Exec(c, w, events) == Some(mid) && Shared.Enabled(mid, ev)
    ensures Shared.Exec(c, w, events + [ev]) == Some(Shared.Next(c, mid, ev))
  {
    assert (events + [ev])[..|events|] == events;
  }

  /** Each side of a joint run is a run of its own protocol. */
  lemma {:induction false} Projects(c: Sink.Config, limits: Shared.Config, e: string, j: Joint, steps: seq<Step>, end: Joint)
    requires Exec(c, limits, e, j, steps) == Some(end)
    ensures Sink.Exec(c, j.sink, SinkEvents(steps)) == Some(end.sink)
    ensures Shared.Exec(limits, j.world, SharedEvents(steps)) == Some(end.world)
    decreases |steps|
  {
    if |steps| > 0 {
      var m := |steps| - 1;
      var front := Exec(c, limits, e, j, steps[..m]).value;
      Projects(c, limits, e, j, steps[..m], front);
      var step := steps[m];
      if step.sink.Some? {
        ExecSink(c, j.sink, SinkEvents(steps[..m]), front.sink, step.sink.value);
      } else {
        assert SinkEvents(steps) == SinkEvents(steps[..m]);
      }
      if step.shared.Some? {
        ExecShared(limits, j.world, SharedEvents(steps[..m]), front.world, step.shared.value);
      } else {
        assert SharedEvents(steps) == SharedEvents(steps[..m]);
      }
    }
  }

  // ---- What reaches the sink's rows -------------------------------------------------------------

  /** A change to the rows of one epoch: one record of its own, or a prune. */
  datatype Change = Put(job: Job) | Remove(before: Time, states: set<State>)

  function ApplyChange(rows: map<string, Job>, change: Change): map<string, Job> {
    match change
    case Put(job) => UpsertOne(rows, job)
    case Remove(before, states) => rows - AgedKeys(rows, before, states)
  }

  function Puts(jobs: seq<Job>): seq<Change> {
    if |jobs| == 0 then [] else Puts(jobs[..|jobs| - 1]) + [Put(jobs[|jobs| - 1])]
  }

  /** The changes a shared run makes to the rows of `e`, record by record. */
  function Changes(e: string, events: seq<Shared.Event>): seq<Change> {
    if |events| == 0 then []
    else
      Changes(e, events[..|events| - 1]) +
      match events[|events| - 1]
      case Write(e', jobs) => if e' == e then Puts(jobs) else []
      case Retention(before, states) => [Remove(before, states)]
      case _ => []
  }

  function JobsPut(changes: seq<Change>): seq<Job> {
    if |changes| == 0 then []
    else
      var last := changes[|changes| - 1];
      JobsPut(changes[..|changes| - 1]) + if last.Put? then [last.job] else []
  }

  lemma {:induction false} PutsAreUpserts(rows: map<string, Job>, jobs: seq<Job>)
    ensures FoldLeft(ApplyChange, rows, Puts(jobs)) == UpsertAll(rows, jobs)
    ensures JobsPut(Puts(jobs)) == jobs
  {
    if |jobs| > 0 {
      var m := |jobs| - 1;
      PutsAreUpserts(rows, jobs[..m]);
      assert Puts(jobs)[..|Puts(jobs)| - 1] == Puts(jobs[..m]);
      assert jobs[..m] + [jobs[m]] == jobs;
    }
  }

  lemma {:induction false} JobsPutConcat(a: seq<Change>, b: seq<Change>)
    ensures JobsPut(a + b) == JobsPut(a) + JobsPut(b)
    decreases |b|
  {
    if |b| == 0 {
      assert a + b == a;
    } else {
      assert (a + b)[..|a + b| - 1] == a + b[..|b| - 1];
      JobsPutConcat(a, b[..|b| - 1]);
    }
  }

  lemma OneEvent(e: string, ev: Shared.Event)
    ensures Changes(e, [ev]) ==
      if IsWrite(e, Some(ev)) then Puts(ev.jobs) else if ev.Retention? then [Remove(ev.before, ev.states)] else []
  {
    assert [ev][..0] == [];
  }

  lemma OneEventApplied(e: string, rows: map<string, Job>, ev: Shared.Event)
    ensures FoldLeft(ApplyChange, rows, Changes(e, [ev])) == Shared.Solo(e)(rows, ev)
  {
    OneEvent(e, ev);
    if IsWrite(e, Some(ev)) {
      PutsAreUpserts(rows, ev.jobs);
    } else if ev.Retention? {
      FoldLeftOne(ApplyChange, rows, Remove(ev.before, ev.states));
    }
  }

  lemma ChangeStep(e: string, rows: map<string, Job>, changes: seq<Change>, ev: Shared.Event)
    ensures FoldLeft(ApplyChange, rows, changes + Changes(e, [ev]))
         == Shared.Solo(e)(FoldLeft(ApplyChange, rows, changes), ev)
  {
    FoldLeftConcat(ApplyChange, rows, changes, Changes(e, [ev]));
    OneEventApplied(e, FoldLeft(ApplyChange, rows, changes), ev);
  }

  /** Batches do not matter: what a shared run does to the rows of `e` it does record by
      record. */
  lemma {:induction false} ChangesAreSolo(e: string, events: seq<Shared.Event>)
    ensures FoldLeft(Shared.Solo(e), map[], events) == FoldLeft(ApplyChange, map[], Changes(e, events))
  {
    if |events| > 0 {
      var m := |events| - 1;
      ChangesAreSolo(e, events[..m]);
      ChangeStep(e, map[], Changes(e, events[..m]), events[m]);
      ChangesSnoc(e, events[..m], events[m]);
      assert events[..m] + [events[m]] == events;
    }
  }

  lemma ChangesSnoc(e: string, events: seq<Shared.Event>, ev: Shared.Event)
    ensures Changes(e, events + [ev]) == Changes(e, events) + Changes(e, [ev])
  {
    assert (events + [ev])[..|events|] == events && [ev][..0] == [];
  }

  // ---- The records put are the records committed -------------------------------------------------

  lemma CommitStep(c: Sink.Config, s: Sink.State, e: Sink.Event)
    requires Sink.Enabled(s, e)
    ensures Sink.JobsOf(Sink.Next(c, s, e).past.committed)
         == Sink.JobsOf(s.past.committed) + if e == Sink.WriteJobs(true) then Sink.JobsOf(s.batch) else []
  {
    var jobs := Sink.JobsOf(s.past.committed);
    assert jobs + [] == jobs;
    match e
    case WriteJobs(_) =>
      Sink.SplitRecords(s.batch);
      Sink.SplitConcat(s.past.committed, Sink.JobRecords(s.batch));
    case WriteAttempts(_) =>
      Sink.SplitRecords(s.batch);
      Sink.SplitConcat(s.past.committed, Sink.AttemptRecords(s.batch));
    case OfferSend(_) =>
    case _ =>
  }

  lemma JointStep(c: Sink.Config, limits: Shared.Config, e: string, j: Joint, step: Step, events: seq<Shared.Event>)
    requires CanStep(e, j, step)
    requires JobsPut(Changes(e, events)) == Sink.JobsOf(j.sink.past.committed)
    ensures var after := if step.shared.Some? then events + [step.shared.value] else events;
      JobsPut(Changes(e, after)) == Sink.JobsOf(NextJoint(c, limits, e, j, step).sink.past.committed)
  {
    var jobs := Sink.JobsOf(j.sink.past.committed);
    assert jobs + [] == jobs;
    if step.sink.Some? {
      CommitStep(c, j.sink, step.sink.value);
    }
    if step.shared.Some? {
      PutStep(e, events, step.shared.value);
    }
  }

  lemma PutStep(e: string, events: seq<Shared.Event>, ev: Shared.Event)
    ensures JobsPut(Changes(e, events + [ev]))
         == JobsPut(Changes(e, events)) + if IsWrite(e, Some(ev)) then ev.jobs else []
  {
    ChangesSnoc(e, events, ev);
    JobsPutConcat(Changes(e, events), Changes(e, [ev]));
    OneEvent(e, ev);
    if IsWrite(e, Some(ev)) {
      PutsAreUpserts(map[], ev.jobs);
    } else if ev.Retention? {
      assert [Remove(ev.before, ev.states)][..0] == [];
    }
  }

  lemma {:induction false} PutsAreCommitted(c: Sink.Config, limits: Shared.Config, e: string, j: Joint, steps: seq<Step>, end: Joint)
    requires Exec(c, limits, e, j, steps) == Some(end) && j.sink.past.committed == []
    ensures JobsPut(Changes(e, SharedEvents(steps))) == Sink.JobsOf(end.sink.past.committed)
    decreases |steps|
  {
    if |steps| > 0 {
      var m := |steps| - 1;
      var front := Exec(c, limits, e, j, steps[..m]).value;
      PutsAreCommitted(c, limits, e, j, steps[..m], front);
      JointStep(c, limits, e, front, steps[m], SharedEvents(steps[..m]));
      assert steps[m].shared.None? ==> SharedEvents(steps) == SharedEvents(steps[..m]);
    }
  }

  lemma {:induction false} PutsAlone(changes: seq<Change>)
    requires forall ch :: ch in changes ==> ch.Put?
    ensures changes == Puts(JobsPut(changes))
  {
    if |changes| > 0 {
      var m := |changes| - 1;
      assert changes[m] in changes;
      PutsAlone(changes[..m]);
      assert JobsPut(changes)[..|JobsPut(changes)| - 1] == JobsPut(changes[..m]);
      assert changes[..m] + [changes[m]] == changes;
    }
  }

  /** The sink refines one-at-a-time writing in a shared store, too.  In every joint run with
      timely heartbeats, the rows of a sink that is still open are what its committed job
      records, one at a time and in order, and the prunes in between make of an empty table,
      whatever the other processes do; without prunes, they are the fold of those records. */
  lemma SharedSinkRefines(c: Sink.Config, limits: Shared.Config, e: string, j: Joint, steps: seq<Step>, end: Joint)
    requires Exec(c, limits, e, j, steps) == Some(end) && j.sink.past.committed == []
    requires Shared.Initial(j.world) && Shared.TimelyRun(limits, j.world, SharedEvents(steps))
    requires Shared.RowsOf(j.world.db.jobs, e) == map[] && ':' !in e && Shared.Young(end.world, e)
    ensures var changes := Changes(e, SharedEvents(steps));
      && Shared.RowsOf(end.world.db.jobs, e) == FoldLeft(ApplyChange, map[], changes)
      && JobsPut(changes) == Sink.JobsOf(end.sink.past.committed)
      && ((forall ch :: ch in changes ==> ch.Put?) ==>
            Shared.RowsOf(end.world.db.jobs, e) == UpsertAll(map[], Sink.JobsOf(end.sink.past.committed)))
  {
    var events := SharedEvents(steps);
    Projects(c, limits, e, j, steps, end);
    Shared.OpenSinkOwnsItsRows(limits, j.world, events, end.world, e);
    ChangesAreSolo(e, events);
    PutsAreCommitted(c, limits, e, j, steps, end);
    if forall ch :: ch in Changes(e, events) ==> ch.Put? {
      PutsAlone(Changes(e, events));
      PutsAreUpserts(map[], JobsPut(Changes(e, events)));
    }
  }
}
