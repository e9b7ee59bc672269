/** Several processes sharing one store (sink/sink.go, Start and beat;
store/memory/memory.go, Heartbeat and ReconcileEpoch).

A process is one sink; its epoch is unique to its boot and holds no colon.  Processes
claim their epoch with a heartbeat, reconcile, launch their writer, beat, write rows
under their own epoch, close and crash in any interleaving, against one clock that
never runs backwards.  A store call that fails is a step that does not happen. */
module SharedStore {
  import opened Bands
  import opened Records
  import opened Merging
  import opened History

  datatype Status =
    | Claimed                  // first heartbeat done, writer not launched
    | Open                     // recording
    | Closing(retired: bool)   // `done` closed: draining, and retiring its epoch
    | Dead                     // crashed

  datatype Proc = Proc(status: Status, lastBeat: Time)

  datatype World = World(db: Db, procs: map<string, Proc>, now: Time)

  /** How long each process lets another go silent. */
  type Config = string -> int

  datatype Event =
    | Advance(to: Time)
    | Claim(epoch: string)
    | Launch(epoch: string)
    | Pulse(epoch: string)
    | Write(epoch: string, jobs: seq<Job>)
    | WriteAttempts(epoch: string, attempts: seq<Attempt>)
    | BeginClose(epoch: string)
    | Retire(epoch: string)
    | Crash(epoch: string)
    | Retention(before: Time, states: set<State>)

  predicate IsIn(w: World, e: string, status: Status) {
    e in w.procs && w.procs[e].status == status
  }

  predicate Recording(w: World, e: string) {
    e in w.procs && (w.procs[e].status.Open? || w.procs[e].status.Closing?)
  }

  /** An epoch nobody has used: not beating, no rows. */
  predicate Unused(w: World, e: string) {
    e !in w.procs && e !in w.db.epochs && forall k :: k in w.db.jobs ==> w.db.jobs[k].epoch != e
  }

  predicate Enabled(w: World, ev: Event) {
    match ev
    case Advance(to) => w.now <= to
    case Claim(e) => w.now != 0 && ':' !in e && (Unused(w, e) || IsIn(w, e, Claimed))
    case Launch(e) => IsIn(w, e, Claimed)
    case Pulse(e) => w.now != 0 && (IsIn(w, e, Open) || IsIn(w, e, Closing(false)))
    case Write(e, jobs) => Recording(w, e) && forall j :: j in jobs ==> j.epoch == e
    case WriteAttempts(e, attempts) => Recording(w, e) && forall a :: a in attempts ==> a.epoch == e
    case BeginClose(e) => IsIn(w, e, Open)
    case Retire(e) => IsIn(w, e, Closing(false))
    case Crash(e) => e in w.procs
    case Retention(_, _) => true
  }

  /** The store call a step makes, if any. */
  function Call(c: Config, w: World, ev: Event): Option<Op> {
    match ev
    case Claim(e) => Some(Beat(e, w.now))
    case Launch(e) => Some(ReconcileAt(e, w.now - c(e)))
    case Pulse(e) => Some(Beat(e, w.now))
    case Write(_, jobs) => Some(Upsert(jobs))
    case WriteAttempts(_, attempts) => Some(Save(attempts))
    case Retire(e) => Some(Beat(e, 0))
    case Retention(before, states) => Some(PruneAt(before, states))
    case _ => None
  }

  function NextProcs(w: World, ev: Event): map<string, Proc>
    requires Enabled(w, ev)
  {
    match ev
    case Claim(e) => w.procs[e := Proc(Claimed, w.now)]
    case Launch(e) => w.procs[e := w.procs[e].(status := Open)]
    case Pulse(e) => w.procs[e := w.procs[e].(lastBeat := w.now)]
    case BeginClose(e) => w.procs[e := w.procs[e].(status := Closing(false))]
    case Retire(e) => w.procs[e := w.procs[e].(status := Closing(true))]
    case Crash(e) => w.procs[e := w.procs[e].(status := Dead)]
    case _ => w.procs
  }

  function Next(c: Config, w: World, ev: Event): World
    requires Enabled(w, ev)
  {
    var call := Call(c, w, ev);
    World(if call.Some? then Apply(w.db, call.value) else w.db,
          NextProcs(w, ev),
          if ev.Advance? then ev.to else w.now)
  }

  function Exec(c: Config, w: World, events: seq<Event>): Option<World> {
    if |events| == 0 then Some(w)
    else
      var front := Exec(c, w, events[..|events| - 1]);
      if front.Some? && Enabled(front.value, events[|events| - 1])
      then Some(Next(c, front.value, events[|events| - 1])) else None
  }

  // ---- Whose row is it ---------------------------------------------------------------

  /** Key `k` belongs to epoch `e`. */
  ghost predicate Under(k: string, e: string) {
    ':' !in e && |e| < |k| && k[..|e|] == e && k[|e|] == ':'
  }

  lemma UnderOne(k: string, e: string, e': string)
    requires Under(k, e) && Under(k, e')
    ensures e == e'
  {
    FirstColon(e, k[|e| + 1..], e', k[|e'| + 1..]);
  }

  lemma KeyUnder(e: string, q: string, i: string)
    requires ':' !in e
    ensures Under(KeyFor(e, q, i), e)
  {
    KeyShape(e, q, i);
  }

  /** Rows are filed under their own epoch. */
  ghost predicate Filed(jobs: map<string, Job>) {
    forall k :: k in jobs ==> Under(k, jobs[k].epoch)
  }

  /** The rows of one epoch. */
  ghost function RowsOf(jobs: map<string, Job>, e: string): map<string, Job> {
    map k | k in jobs && jobs[k].epoch == e :: jobs[k]
  }

  ghost predicate Inv(w: World) {
    Filed(w.db.jobs) && Known(w.procs, w.db.epochs)
  }

  /** Any store the first process might find. */
  ghost predicate Initial(w: World) {
    w.procs == map[] && Filed(w.db.jobs)
  }

  lemma {:induction false} FoldKeepsEpoch(row: Option<Job>, own: seq<Job>, e: string)
    requires row.Some? ==> row.value.epoch == e
    requires forall j :: j in own ==> j.epoch == e
    ensures Fold(Merge, row, own).Some? ==> Fold(Merge, row, own).value.epoch == e
    ensures row.Some? || own != [] <==> Fold(Merge, row, own).Some?
    decreases |own|
  {
    if |own| > 0 {
      FoldKeepsEpoch(row, own[..|own| - 1], e);
      assert own[|own| - 1] in own;
    }
  }

  /** Writing under one epoch touches that epoch's rows only. */
  lemma UpsertRow(jobs: map<string, Job>, batch: seq<Job>, e: string, k: string)
    requires Filed(jobs) && ':' !in e && forall j :: j in batch ==> j.epoch == e
    ensures var after := UpsertAll(jobs, batch);
      if Under(k, e) then k in after ==> after[k].epoch == e else Get(after, k) == Get(jobs, k)
  {
    UpsertProjects(jobs, batch, k);
    var own := Own(k, batch);
    forall j | j in own ensures j.epoch == e && Under(k, e) {
      var i :| 0 <= i < |batch| && JobKey(batch[i]) == k && j == Prepare(batch[i]);
      assert batch[i] in batch;
      KeyUnder(e, batch[i].queue, batch[i].id);
    }
    if Under(k, e) {
      if k in jobs { UnderOne(k, e, jobs[k].epoch); }
      FoldKeepsEpoch(Get(jobs, k), own, e);
    } else {
      assert own == [] by { NoMembers(own); }
    }
  }

  lemma UpsertFiled(jobs: map<string, Job>, batch: seq<Job>, e: string)
    requires Filed(jobs) && ':' !in e && forall j :: j in batch ==> j.epoch == e
    ensures Filed(UpsertAll(jobs, batch))
  {
    forall k | k in UpsertAll(jobs, batch) ensures Under(k, UpsertAll(jobs, batch)[k].epoch) {
      UpsertRow(jobs, batch, e, k);
      if !Under(k, e) { assert Get(jobs, k).Some?; }
    }
  }

  lemma StepFiled(c: Config, w: World, ev: Event)
    requires Inv(w) && Enabled(w, ev)
    ensures Filed(Next(c, w, ev).db.jobs)
  {
    match ev
    case Write(e, jobs) => UpsertFiled(w.db.jobs, jobs, e);
    case Launch(e) => assert forall k :: k in Next(c, w, ev).db.jobs ==> Next(c, w, ev).db.jobs[k].epoch == w.db.jobs[k].epoch;
    case Retention(_, _) =>
    case _ =>
  }

  /** Every process is known by its heartbeat. */
  ghost predicate Known(procs: map<string, Proc>, epochs: map<string, Time>) {
    forall e :: e in procs ==>
      && ':' !in e && e in epochs && procs[e].lastBeat != 0
      && (epochs[e] == procs[e].lastBeat || epochs[e] == 0)
      && (procs[e].status.Claimed? || procs[e].status.Open? ==> epochs[e] == procs[e].lastBeat)
  }

  lemma StepKnown(c: Config, w: World, ev: Event)
    requires Known(w.procs, w.db.epochs) && Enabled(w, ev)
    ensures Known(Next(c, w, ev).procs, Next(c, w, ev).db.epochs)
  {
    if ev.Claim? || ev.Launch? || ev.Pulse? {
      BeatKnown(c, w, ev);
    } else {
      OtherKnown(c, w, ev);
    }
  }

  lemma BeatKnown(c: Config, w: World, ev: Event)
    requires Known(w.procs, w.db.epochs) && Enabled(w, ev) && (ev.Claim? || ev.Launch? || ev.Pulse?)
    ensures Known(Next(c, w, ev).procs, Next(c, w, ev).db.epochs)
  {
    match ev
    case Claim(_) =>
    case Launch(_) =>
    case Pulse(_) =>
  }

  lemma OtherKnown(c: Config, w: World, ev: Event)
    requires Known(w.procs, w.db.epochs) && Enabled(w, ev) && !ev.Claim? && !ev.Launch? && !ev.Pulse?
    ensures Known(Next(c, w, ev).procs, Next(c, w, ev).db.epochs)
  {
    match ev
    case BeginClose(_) =>
    case Retire(_) =>
    case Crash(_) =>
    case _ =>
  }

  lemma StepInv(c: Config, w: World, ev: Event)
    requires Inv(w) && Enabled(w, ev)
    ensures Inv(Next(c, w, ev))
  {
    StepFiled(c, w, ev);
    StepKnown(c, w, ev);
  }

  lemma {:induction false} RunInv(c: Config, w: World, events: seq<Event>, end: World)
    requires Initial(w) && Exec(c, w, events) == Some(end)
    ensures Inv(end)
    decreases |events|
  {
    if |events| > 0 {
      var m := |events| - 1;
      RunInv(c, w, events[..m], Exec(c, w, events[..m]).value);
      StepInv(c, Exec(c, w, events[..m]).value, events[m]);
    }
  }

  // ---- What the protocol promises ---------------------------------------------------------

  predicate Retired(w: World, e: string) {
    e in w.db.epochs && w.db.epochs[e] == 0
  }

  /** Starting a process interrupts exactly the unfinished rows of processes that have
      retired their epoch or have been silent for longer than its limit. */
  lemma LaunchInterruptsIff(c: Config, w: World, events: seq<Event>, end: World, s: string, k: string)
    requires Initial(w) && Exec(c, w, events) == Some(end)
    requires Enabled(end, Launch(s)) && k in end.db.jobs
    requires end.db.jobs[k].epoch in end.procs && end.db.jobs[k].epoch != s
    ensures k in Next(c, end, Launch(s)).db.jobs
    ensures var e, row := end.db.jobs[k].epoch, end.db.jobs[k];
      var after := Next(c, end, Launch(s)).db.jobs[k];
      if !Terminal(row.state) && (Retired(end, e) || end.now - end.procs[e].lastBeat > c(s))
      then after == row.(state := Interrupted) else after == row
  {
    RunInv(c, w, events, end);
  }

  /** A process that has closed has its epoch struck off. */
  ghost predicate StruckOff(procs: map<string, Proc>, epochs: map<string, Time>) {
    forall e :: e in procs && procs[e].status == Closing(true) ==> e in epochs && epochs[e] == 0
  }

  lemma StepStruckOff(c: Config, w: World, ev: Event)
    requires StruckOff(w.procs, w.db.epochs) && Enabled(w, ev)
    ensures StruckOff(Next(c, w, ev).procs, Next(c, w, ev).db.epochs)
  {
    match ev
    case Claim(_) =>
    case Launch(_) =>
    case Pulse(_) =>
    case BeginClose(_) =>
    case Retire(_) =>
    case Crash(_) =>
    case _ =>
  }

  lemma {:induction false} RunStruckOff(c: Config, w: World, events: seq<Event>, end: World)
    requires Initial(w) && Exec(c, w, events) == Some(end)
    ensures StruckOff(end.procs, end.db.epochs)
    decreases |events|
  {
    if |events| > 0 {
      var m := |events| - 1;
      RunStruckOff(c, w, events[..m], Exec(c, w, events[..m]).value);
      StepStruckOff(c, Exec(c, w, events[..m]).value, events[m]);
    }
  }

  /** What a closed process left unfinished is interrupted by the next start of any other, without
      waiting out the staleness limit: after it every row of that process is terminal. */
  lemma ClosedIsReconciledAtOnce(c: Config, w: World, events: seq<Event>, end: World, s: string, e: string)
    requires Initial(w) && Exec(c, w, events) == Some(end)
    requires Enabled(end, Launch(s)) && IsIn(end, e, Closing(true))
    ensures var after := Next(c, end, Launch(s)).db.jobs;
      forall k :: k in end.db.jobs && end.db.jobs[k].epoch == e ==>
        k in after && after[k].state !in {Created, Pending, Active} &&
        after[k] == end.db.jobs[k].(state := after[k].state)
  {
    RunStruckOff(c, w, events, end);
    forall k | k in end.db.jobs && end.db.jobs[k].epoch == e
      ensures var after := Next(c, end, Launch(s)).db.jobs;
        k in after && after[k].state !in {Created, Pending, Active} && after[k] == end.db.jobs[k].(state := after[k].state)
    {
      LaunchInterruptsIff(c, w, events, end, s, k);
    }
  }

  /** A dead process does nothing more. */
  lemma {:induction false} DeadStaysDead(c: Config, w: World, more: seq<Event>, end: World, e: string)
    requires Exec(c, w, more) == Some(end) && IsIn(w, e, Dead)
    ensures IsIn(end, e, Dead) && end.procs[e].lastBeat == w.procs[e].lastBeat
    decreases |more|
  {
    if |more| > 0 {
      var m := |more| - 1;
      DeadStaysDead(c, w, more[..m], Exec(c, w, more[..m]).value, e);
      DeadStep(c, Exec(c, w, more[..m]).value, more[m], e);
    }
  }

  lemma DeadStep(c: Config, w: World, ev: Event, e: string)
    requires Enabled(w, ev) && IsIn(w, e, Dead)
    ensures IsIn(Next(c, w, ev), e, Dead) && Next(c, w, ev).procs[e].lastBeat == w.procs[e].lastBeat
  {}

  lemma ExecThree(c: Config, w: World, a: Event, b: Event, d: Event)
    requires Enabled(w, a) && Enabled(Next(c, w, a), b) && Enabled(Next(c, Next(c, w, a), b), d)
    ensures Exec(c, w, [a, b, d]) == Some(Next(c, Next(c, Next(c, w, a), b), d))
  {
    assert [a][..0] == [];
    assert Exec(c, w, [a]) == Some(Next(c, w, a));
    assert [a, b][..1] == [a];
    assert Exec(c, w, [a, b]) == Some(Next(c, Next(c, w, a), b));
    assert [a, b, d][..2] == [a, b];
  }

  lemma {:induction false} ExecConcat(c: Config, w: World, a: seq<Event>, b: seq<Event>)
    ensures Exec(c, w, a + b) == if Exec(c, w, a).Some? then Exec(c, Exec(c, w, a).value, b) else None
    decreases |b|
  {
    if |b| == 0 {
      assert a + b == a;
    } else {
      assert (a + b)[..|a + b| - 1] == a + b[..|b| - 1];
      ExecConcat(c, w, a, b[..|b| - 1]);
    }
  }

  /** Whatever happens after a crash, a process that starts under a fresh epoch once the limit has
      passed since the last heartbeat leaves no row of the crashed one in flight. */
  lemma NewcomerCleansUp(c: Config, w: World, events: seq<Event>, mid: World, e: string, more: seq<Event>, end: World,
                         s: string, t: Time) returns (after: World)
    requires Initial(w) && Exec(c, w, events) == Some(mid) && e in mid.procs
    requires Exec(c, Next(c, mid, Crash(e)), more) == Some(end)
    requires Unused(end, s) && ':' !in s && t >= end.now && t != 0 && t - mid.procs[e].lastBeat > c(s)
    ensures Exec(c, end, [Advance(t), Claim(s), Launch(s)]) == Some(after) && IsIn(after, s, Open)
    ensures after.db.jobs.Keys == end.db.jobs.Keys
    ensures forall k :: k in after.db.jobs && after.db.jobs[k].epoch == e ==>
      after.db.jobs[k].state !in {Created, Pending, Active}
  {
    DeadStaysDead(c, Next(c, mid, Crash(e)), more, end, e);
    var later := Next(c, end, Advance(t));
    var claimed := Next(c, later, Claim(s));
    after := Next(c, claimed, Launch(s));
    ExecThree(c, end, Advance(t), Claim(s), Launch(s));
    AfterCrash(c, w, events, mid, e, more, end);
    StepInv(c, end, Advance(t));
    StepInv(c, later, Claim(s));
    SilentIsInterrupted(c, claimed, s, e);
  }

  lemma AfterCrash(c: Config, w: World, events: seq<Event>, mid: World, e: string, more: seq<Event>, end: World)
    requires Initial(w) && Exec(c, w, events) == Some(mid) && Enabled(mid, Crash(e))
    requires Exec(c, Next(c, mid, Crash(e)), more) == Some(end)
    ensures Inv(end)
  {
    assert [Crash(e)][..0] == [];
    ExecConcat(c, w, events, [Crash(e)]);
    ExecConcat(c, w, events + [Crash(e)], more);
    RunInv(c, w, events + [Crash(e)] + more, end);
  }

  lemma SilentIsInterrupted(c: Config, w: World, s: string, e: string)
    requires Inv(w) && Enabled(w, Launch(s)) && e in w.procs && e != s && w.now - w.procs[e].lastBeat > c(s)
    ensures var after := Next(c, w, Launch(s)).db.jobs;
      && after.Keys == w.db.jobs.Keys
      && forall k :: k in after && after[k].epoch == e ==> after[k].state !in {Created, Pending, Active}
  {}

  // ---- Attempts in the shared store ---------------------------------------------------------

  function AttemptsWritten(events: seq<Event>): seq<Attempt> {
    if |events| == 0 then []
    else
      var ev := events[|events| - 1];
      AttemptsWritten(events[..|events| - 1]) + if ev.WriteAttempts? then ev.attempts else []
  }

  /** Every process's attempts reach the store: until something is pruned, the table is what all
      of them, in the order they were written, make of the one found at the beginning. */
  lemma {:induction false} AttemptsReachTheStore(c: Config, w: World, events: seq<Event>, end: World)
    requires Exec(c, w, events) == Some(end) && forall ev :: ev in events ==> !ev.Retention?
    ensures end.db.attempts == SaveAll(w.db.attempts, AttemptsWritten(events))
    decreases |events|
  {
    if |events| > 0 {
      var m := |events| - 1;
      var mid, ev := Exec(c, w, events[..m]).value, events[m];
      AttemptsReachTheStore(c, w, events[..m], mid);
      assert ev in events;
      AttemptsStep(c, mid, ev);
      var before, own := AttemptsWritten(events[..m]), if ev.WriteAttempts? then ev.attempts else [];
      FoldLeftConcat(SaveOne, w.db.attempts, before, own);
    }
  }

  lemma AttemptsStep(c: Config, w: World, ev: Event)
    requires Enabled(w, ev) && !ev.Retention?
    ensures Next(c, w, ev).db.attempts == SaveAll(w.db.attempts, if ev.WriteAttempts? then ev.attempts else [])
  {}

  /** Each open sink beats with gaps no longer than the starting process allows. */
  predicate Timely(c: Config, w: World, ev: Event) {
    ev.Launch? ==> forall e :: e in w.procs && w.procs[e].status.Open? ==> w.now - w.procs[e].lastBeat <= c(ev.epoch)
  }

  ghost predicate TimelyRun(c: Config, w: World, events: seq<Event>) {
    forall i :: 0 <= i < |events| && Exec(c, w, events[..i]).Some? ==>
      Timely(c, Exec(c, w, events[..i]).value, events[i])
  }

  /** Live siblings are spared: no start by another process changes any row of an open
      sink. */
  lemma LiveSiblingsSpared(c: Config, w: World, s: string, e: string)
    requires Inv(w) && Enabled(w, Launch(s)) && Timely(c, w, Launch(s))
    requires IsIn(w, e, Open)
    ensures RowsOf(Next(c, w, Launch(s)).db.jobs, e) == RowsOf(w.db.jobs, e)
  {}

  /** And whatever its limit, no start harms a process that has just beaten, be it open or
      draining with its epoch not yet retired. */
  lemma BeatSpares(c: Config, w: World, s: string, e: string)
    requires Inv(w) && IsIn(w, s, Claimed) && w.now != 0 && c(s) >= 0
    requires IsIn(w, e, Open) || IsIn(w, e, Closing(false))
    ensures Enabled(w, Pulse(e)) && Enabled(Next(c, w, Pulse(e)), Launch(s))
    ensures RowsOf(Next(c, Next(c, w, Pulse(e)), Launch(s)).db.jobs, e) == RowsOf(w.db.jobs, e)
  {
    PulseIs(c, w, e);
    JustBeaten(c, Next(c, w, Pulse(e)), s, e);
  }

  lemma JustBeaten(c: Config, w: World, s: string, e: string)
    requires IsIn(w, s, Claimed) && c(s) >= 0 && e in w.db.epochs && w.db.epochs[e] == w.now != 0
    ensures RowsOf(Next(c, w, Launch(s)).db.jobs, e) == RowsOf(w.db.jobs, e)
  {
    LaunchIs(c, w, s);
    BeatingKeepsRows(w.db, s, w.now - c(s), e);
  }

  lemma PulseIs(c: Config, w: World, e: string)
    requires Enabled(w, Pulse(e))
    ensures Next(c, w, Pulse(e)) ==
      w.(db := w.db.(epochs := w.db.epochs[e := w.now]), procs := w.procs[e := w.procs[e].(lastBeat := w.now)])
  {}

  lemma BeatingKeepsRows(db: Db, s: string, cutoff: Time, e: string)
    requires Beating(db.epochs, e, cutoff)
    ensures RowsOf(Reconcile(db, s, cutoff).jobs, e) == RowsOf(db.jobs, e)
  {}

  /** A job of a closed process that its draining writer still has to report. */
  ghost predicate LastReport(w: World, j: Job) {
    && IsIn(w, j.epoch, Closing(true)) && Retired(w, j.epoch) && j.state == Completed
    && JobKey(j) in w.db.jobs && w.db.jobs[JobKey(j)].state == Active && w.db.jobs[JobKey(j)].epoch == j.epoch
  }

  lemma WriteIs(c: Config, w: World, e: string, jobs: seq<Job>)
    requires Enabled(w, Write(e, jobs))
    ensures Next(c, w, Write(e, jobs)) == w.(db := Apply(w.db, Upsert(jobs)))
  {}

  lemma LaunchIs(c: Config, w: World, s: string)
    requires Enabled(w, Launch(s))
    ensures Next(c, w, Launch(s)) ==
      w.(db := Reconcile(w.db, s, w.now - c(s)), procs := w.procs[s := w.procs[s].(status := Open)])
  {}

  /** A process records from its launch until its writer is gone, also while it drains. */
  lemma RecordsUntilStopped(c: Config, w: World, e: string, jobs: seq<Job>, attempts: seq<Attempt>)
    requires e in w.procs && !w.procs[e].status.Claimed? && !w.procs[e].status.Dead?
    requires (forall j :: j in jobs ==> j.epoch == e) && (forall a :: a in attempts ==> a.epoch == e)
    ensures Enabled(w, Write(e, jobs)) && Enabled(w, WriteAttempts(e, attempts))
    ensures Next(c, w, Write(e, jobs)).db == w.db.(jobs := UpsertAll(w.db.jobs, jobs))
    ensures Next(c, w, WriteAttempts(e, attempts)).db == w.db.(attempts := SaveAll(w.db.attempts, attempts))
  {
    WriteIs(c, w, e, jobs);
  }

  /** The end of a draining process's job is recorded if it is written before the next start of
      another process. */
  lemma DrainBeatsReconcile(c: Config, w: World, s: string, j: Job)
    requires LastReport(w, j) && IsIn(w, s, Claimed)
    ensures Enabled(w, Write(j.epoch, [j])) && Enabled(Next(c, w, Write(j.epoch, [j])), Launch(s))
    ensures var after := Next(c, Next(c, w, Write(j.epoch, [j])), Launch(s)).db.jobs;
      JobKey(j) in after && after[JobKey(j)].state == Completed
  {
    WriteIs(c, w, j.epoch, [j]);
    LaunchIs(c, Next(c, w, Write(j.epoch, [j])), s);
    EndThenReconcile(w.db, s, w.now - c(s), j);
  }

  /** But the epoch is retired while the writer still drains: a start in between interrupts the
      job, and its own end comes too late. */
  lemma ReconcileBeatsDrain(c: Config, w: World, s: string, j: Job)
    requires LastReport(w, j) && IsIn(w, s, Claimed)
    ensures Enabled(w, Launch(s)) && Enabled(Next(c, w, Launch(s)), Write(j.epoch, [j]))
    ensures var after := Next(c, Next(c, w, Launch(s)), Write(j.epoch, [j])).db.jobs;
      JobKey(j) in after && after[JobKey(j)].state == Interrupted
  {
    LaunchIs(c, w, s);
    WriteIs(c, Next(c, w, Launch(s)), j.epoch, [j]);
    ReconcileThenEnd(w.db, s, w.now - c(s), j);
  }

  lemma EndThenReconcile(db: Db, s: string, cutoff: Time, j: Job)
    requires JobKey(j) in db.jobs && db.jobs[JobKey(j)].state == Active && j.state == Completed
    ensures var after := Reconcile(Apply(db, Upsert([j])), s, cutoff).jobs;
      JobKey(j) in after && after[JobKey(j)].state == Completed
  {
    OneUpsert(db.jobs, j);
  }

  lemma ReconcileThenEnd(db: Db, s: string, cutoff: Time, j: Job)
    requires JobKey(j) in db.jobs && db.jobs[JobKey(j)].state == Active && db.jobs[JobKey(j)].epoch == j.epoch != s
    requires j.epoch in db.epochs && db.epochs[j.epoch] == 0
    ensures var after := Apply(Reconcile(db, s, cutoff), Upsert([j])).jobs;
      JobKey(j) in after && after[JobKey(j)].state == Interrupted
  {
    var jobs := Reconcile(db, s, cutoff).jobs;
    assert JobKey(j) in jobs && jobs[JobKey(j)].state == Interrupted;
    OneUpsert(jobs, j);
  }

  lemma OneUpsert(jobs: map<string, Job>, j: Job)
    requires JobKey(j) in jobs
    ensures UpsertAll(jobs, [j]) == jobs[JobKey(j) := Merge(jobs[JobKey(j)], Prepare(j))]
  {
    FoldLeftOne(UpsertOne, jobs, j);
  }

  /** What an event means to the rows of epoch `e` alone: its own writes, and retention. */
  ghost function Solo(e: string): (map<string, Job>, Event) -> map<string, Job> {
    (rows: map<string, Job>, ev: Event) =>
      match ev
      case Write(e', jobs) => if e' == e then UpsertAll(rows, jobs) else rows
      case Retention(before, states) => rows - AgedKeys(rows, before, states)
      case _ => rows
  }

  lemma OwnWrite(jobs: map<string, Job>, batch: seq<Job>, e: string)
    requires Filed(jobs) && ':' !in e && forall j :: j in batch ==> j.epoch == e
    ensures RowsOf(UpsertAll(jobs, batch), e) == UpsertAll(RowsOf(jobs, e), batch)
  {
    var rows, after := RowsOf(jobs, e), UpsertAll(jobs, batch);
    forall k ensures Get(RowsOf(after, e), k) == Get(UpsertAll(rows, batch), k) {
      UpsertRow(jobs, batch, e, k);
      UpsertRow(rows, batch, e, k);
      UpsertProjects(jobs, batch, k);
      UpsertProjects(rows, batch, k);
      if k in jobs && Under(k, e) { UnderOne(k, e, jobs[k].epoch); }
    }
    SameMap(RowsOf(after, e), UpsertAll(rows, batch));
  }

  lemma ForeignWrite(jobs: map<string, Job>, batch: seq<Job>, e: string, writer: string)
    requires Filed(jobs) && ':' !in e && ':' !in writer && e != writer
    requires forall j :: j in batch ==> j.epoch == writer
    ensures RowsOf(UpsertAll(jobs, batch), e) == RowsOf(jobs, e)
  {
    var after := UpsertAll(jobs, batch);
    forall k ensures Get(RowsOf(after, e), k) == Get(RowsOf(jobs, e), k) {
      UpsertRow(jobs, batch, writer, k);
      assert k in jobs <==> Get(jobs, k).Some?;
      assert k in after <==> Get(after, k).Some?;
      if k in jobs && Under(k, writer) { UnderOne(k, writer, jobs[k].epoch); }
    }
    SameMap(RowsOf(after, e), RowsOf(jobs, e));
  }

  lemma OthersWrite(c: Config, w: World, writer: string, jobs: seq<Job>, e: string)
    requires Inv(w) && Enabled(w, Write(writer, jobs)) && e != writer && ':' !in e
    ensures RowsOf(Next(c, w, Write(writer, jobs)).db.jobs, e) == RowsOf(w.db.jobs, e)
  {
    ForeignWrite(w.db.jobs, jobs, e, writer);
  }

  lemma RetentionRows(jobs: map<string, Job>, e: string, before: Time, states: set<State>)
    ensures RowsOf(jobs - AgedKeys(jobs, before, states), e)
         == RowsOf(jobs, e) - AgedKeys(RowsOf(jobs, e), before, states)
  {}

  /** One step, seen from an open sink. */
  lemma SoloStep(c: Config, w: World, ev: Event, e: string)
    requires Inv(w) && Enabled(w, ev) && Timely(c, w, ev) && IsIn(w, e, Open)
    ensures RowsOf(Next(c, w, ev).db.jobs, e) == Solo(e)(RowsOf(w.db.jobs, e), ev)
  {
    match ev
    case Write(writer, batch) =>
      if writer == e {
        OwnWrite(w.db.jobs, batch, e);
      } else {
        OthersWrite(c, w, writer, batch, e);
      }
    case Launch(s) => LiveSiblingsSpared(c, w, s, e);
    case Retention(before, states) => RetentionRows(w.db.jobs, e, before, states);
    case _ =>
  }

  lemma NoRowsStay(jobs: map<string, Job>, after: map<string, Job>, e: string)
    requires RowsOf(jobs, e) == map[]
    requires forall k :: k in after ==> k in jobs && after[k].epoch == jobs[k].epoch
    ensures RowsOf(after, e) == map[]
  {
    forall k | k in after ensures after[k].epoch != e {
      assert k !in RowsOf(jobs, e);
    }
  }

  lemma LaunchBringsNoRows(c: Config, w: World, s: string, e: string)
    requires Enabled(w, Launch(s)) && RowsOf(w.db.jobs, e) == map[]
    ensures RowsOf(Next(c, w, Launch(s)).db.jobs, e) == map[]
  {
    NoRowsStay(w.db.jobs, Next(c, w, Launch(s)).db.jobs, e);
  }

  lemma RetentionBringsNoRows(c: Config, w: World, before: Time, states: set<State>, e: string)
    requires RowsOf(w.db.jobs, e) == map[]
    ensures RowsOf(Next(c, w, Retention(before, states)).db.jobs, e) == map[]
  {
    NoRowsStay(w.db.jobs, Next(c, w, Retention(before, states)).db.jobs, e);
  }

  /** Before it opens, a sink has no rows, so starts cannot touch them either. */
  lemma UnopenedHasNoRows(c: Config, w: World, ev: Event, e: string)
    requires Inv(w) && Enabled(w, ev)
    requires (IsIn(w, e, Claimed) || e !in w.procs) && RowsOf(w.db.jobs, e) == map[]
    requires ':' !in e
    ensures RowsOf(Next(c, w, ev).db.jobs, e) == map[]
  {
    match ev
    case Write(writer, jobs) => OthersWrite(c, w, writer, jobs, e);
    case Launch(s) => LaunchBringsNoRows(c, w, s, e);
    case Retention(before, states) => RetentionBringsNoRows(c, w, before, states, e);
    case _ =>
  }

  /** Whether `e` has only ever been unclaimed, claimed or open. */
  ghost predicate Young(w: World, e: string) {
    e !in w.procs || w.procs[e].status.Claimed? || w.procs[e].status.Open?
  }

  lemma YoungBefore(c: Config, w: World, ev: Event, e: string)
    requires Enabled(w, ev) && Young(Next(c, w, ev), e)
    ensures Young(w, e)
  {}

  /** An open sink owns its rows.  In every run of any number of processes in which open
      sinks beat on time, the rows of a sink that is still open are what its own writes
      and retention make of an empty table: no other process's writes, starts, closes
      or crashes leave any trace on them. */
  lemma {:induction false} OpenSinkOwnsItsRows(c: Config, w: World, events: seq<Event>, end: World, e: string)
    requires Initial(w) && Exec(c, w, events) == Some(end) && TimelyRun(c, w, events)
    requires RowsOf(w.db.jobs, e) == map[] && ':' !in e
    requires Young(end, e)
    ensures RowsOf(end.db.jobs, e) == FoldLeft(Solo(e), map[], events)
    ensures !IsIn(end, e, Open) ==> RowsOf(end.db.jobs, e) == map[]
    decreases |events|
  {
    if |events| > 0 {
      var m := |events| - 1;
      var mid, ev := Exec(c, w, events[..m]).value, events[m];
      assert TimelyRun(c, w, events[..m]) by {
        assert forall i :: 0 <= i < m ==> events[..m][..i] == events[..i];
      }
      YoungBefore(c, mid, ev, e);
      OpenSinkOwnsItsRows(c, w, events[..m], mid, e);
      RunInv(c, w, events[..m], mid);
      if IsIn(mid, e, Open) {
        SoloStep(c, mid, ev, e);
      } else {
        UnopenedHasNoRows(c, mid, ev, e);
        SoloIdle(mid, ev, e);
      }
    }
  }

  lemma SoloIdle(w: World, ev: Event, e: string)
    requires Enabled(w, ev) && (IsIn(w, e, Claimed) || e !in w.procs)
    ensures Solo(e)(map[], ev) == map[]
  {
    var none: map<string, Job> := map[];
    if ev.Retention? {
      assert none - AgedKeys(none, ev.before, ev.states) == none;
    }
  }
}
