/** What the sink gets done while it runs (sink/sink.go, offer, run and flush): offers fill the
buffer before any is shed, batches are written when they are full or when the ticker fires, and
a writer left to itself writes everything that was accepted. */
module SinkLiveness {
  import opened Bands
  import opened History
  import opened SinkProtocol
  import opened SinkShutdown

  // ---- One offer --------------------------------------------------------------------------------

  /** An offer that nothing interrupts is appended to the buffer, or shed, and counted, exactly
      when the sink is closed or the buffer is full. */
  lemma OfferRuns(c: Config, s: State, hook: nat, record: Record) returns (events: seq<Event>, t: State)
    requires hook !in s.inFlight
    ensures Exec(c, s, events) == Some(t) && t.inFlight == s.inFlight
    ensures if s.done || |s.channel| >= c.buffer
      then t.dropped == s.dropped + 1 && t.channel == s.channel && t.past.accepted == s.past.accepted
      else t.dropped == s.dropped && t.channel == s.channel + [record] && t.past.accepted == s.past.accepted + [record]
    ensures t.writer == s.writer && t.batch == s.batch && t.db == s.db && t.written == s.written
  {
    events, t := [OfferCheck(hook, record)], Next(c, s, OfferCheck(hook, record));
    ExecOne(c, s, OfferCheck(hook, record));
    if !s.done {
      assert s.inFlight[hook := record] - {hook} == s.inFlight;
      ExecSnoc(c, s, events, t, OfferSend(hook));
      events, t := events + [OfferSend(hook)], Next(c, t, OfferSend(hook));
    }
  }

  // ---- One flush --------------------------------------------------------------------------------

  /** A batch gone to the store with the given answers: nothing of it stays behind, and what the
      store took is counted. */
  ghost predicate Gone(s: State, jobs: bool, attempts: bool, t: State) {
    && t.batch == [] && t.channel == s.channel && t.inFlight == s.inFlight && t.dropped == s.dropped
    && t.past.flushed == s.past.flushed + s.batch && t.past.accepted == s.past.accepted
    && t.written == s.written + (if jobs then |JobsOf(s.batch)| else 0) + (if attempts then |AttemptsOf(s.batch)| else 0)
    && t.written + t.past.rejected == s.written + s.past.rejected + |s.batch|
    && (jobs && attempts ==> t.written == s.written + |s.batch| && t.db == ApplyRecords(s.db, s.batch))
  }

  lemma FlushRuns(c: Config, s: State, jobs: bool, attempts: bool) returns (t: State)
    requires s.writer.FlushJobs?
    ensures Exec(c, s, [WriteJobs(jobs)] + [WriteAttempts(attempts)]) == Some(t)
    ensures Gone(s, jobs, attempts, t) && t.writer == AfterFlush(s.writer.after)
  {
    var mid := Next(c, s, WriteJobs(jobs));
    t := Next(c, mid, WriteAttempts(attempts));
    ExecOne(c, mid, WriteAttempts(attempts));
    ExecCons(c, s, WriteJobs(jobs), [WriteAttempts(attempts)]);
    SplitSizes(s.batch);
    OneAtATime(s.db, s.batch);
  }

  /** A tick leaves nothing received unwritten: in every state of a looping writer with records
      in its batch, the tick and the two store calls that follow it take all of them to the
      store, and the writer loops on.  With an empty batch a tick does nothing. */
  lemma TickFlushes(c: Config, s: State, jobs: bool, attempts: bool) returns (t: State)
    requires s.writer.Looping?
    ensures Enabled(s, Tick)
    ensures s.batch == [] ==> Next(c, s, Tick) == s
    ensures s.batch != [] ==>
      && Exec(c, s, [Tick] + ([WriteJobs(jobs)] + [WriteAttempts(attempts)])) == Some(t)
      && Gone(s, jobs, attempts, t) && t.writer == Looping
  {
    t := s;
    if s.batch != [] {
      t := FlushRuns(c, Next(c, s, Tick), jobs, attempts);
      ExecCons(c, s, Tick, [WriteJobs(jobs)] + [WriteAttempts(attempts)]);
    }
  }

  /** A received record waits in the batch until the batch is full, and then goes to the store
      with it; no other record does. */
  lemma ReceiveFlushes(c: Config, s: State, jobs: bool, attempts: bool) returns (t: State)
    requires s.writer.Looping? && s.channel != []
    ensures Enabled(s, Receive)
    ensures var mid := Next(c, s, Receive);
      && mid.batch == s.batch + [s.channel[0]] && mid.channel == s.channel[1..] && mid.db == s.db
      && (|s.batch| + 1 < c.batchSize ==> mid.writer == Looping)
      && (|s.batch| + 1 >= c.batchSize ==>
            && Exec(c, s, [Receive] + ([WriteJobs(jobs)] + [WriteAttempts(attempts)])) == Some(t)
            && Gone(mid, jobs, attempts, t) && t.writer == Looping)
  {
    t := s;
    if |s.batch| + 1 >= c.batchSize {
      t := FlushRuns(c, Next(c, s, Receive), jobs, attempts);
      ExecCons(c, s, Receive, [WriteJobs(jobs)] + [WriteAttempts(attempts)]);
    }
  }

  /** The drain receives in the same way, and its first look at an empty channel is its last:
      the rest of the batch goes to the store and the writer stops. */
  lemma DrainFlushes(c: Config, s: State, jobs: bool, attempts: bool) returns (t: State)
    requires s.writer.Draining?
    ensures s.channel != [] ==>
      && Enabled(s, DrainReceive)
      && (|s.batch| + 1 < c.batchSize ==>
            Next(c, s, DrainReceive) == s.(channel := s.channel[1..], batch := s.batch + [s.channel[0]]))
      && (|s.batch| + 1 >= c.batchSize ==>
            && Exec(c, s, [DrainReceive] + ([WriteJobs(jobs)] + [WriteAttempts(attempts)])) == Some(t)
            && Gone(Next(c, s, DrainReceive), jobs, attempts, t) && t.channel == s.channel[1..] && t.writer == Draining)
    ensures s.channel == [] ==>
      && Enabled(s, DrainEmpty)
      && (s.batch == [] ==> Next(c, s, DrainEmpty) == s.(writer := Stopped))
      && (s.batch != [] ==>
            && Exec(c, s, [DrainEmpty] + ([WriteJobs(jobs)] + [WriteAttempts(attempts)])) == Some(t)
            && Gone(s, jobs, attempts, t) && t.writer == Stopped)
  {
    t := s;
    var e := if s.channel != [] then DrainReceive else DrainEmpty;
    if Next(c, s, e).writer.FlushJobs? {
      t := FlushRuns(c, Next(c, s, e), jobs, attempts);
      ExecCons(c, s, e, [WriteJobs(jobs)] + [WriteAttempts(attempts)]);
    }
  }

  // ---- Everything accepted gets written ---------------------------------------------------------

  /** Nothing is left for the writer to do. */
  predicate Idle(s: State) {
    s.channel == [] && s.batch == []
  }

  /** A launched writer that will still look at the channel, or need not. */
  predicate Working(s: State) {
    s.started && (PastDrain(s.writer) ==> s.channel == [])
  }

  /** The step the writer takes next, with a store that accepts. */
  function Turn(s: State): Event {
    match s.writer
    case FlushJobs(_) => WriteJobs(true)
    case FlushAttempts(_) => WriteAttempts(true)
    case Draining => if s.channel != [] then DrainReceive else DrainEmpty
    case _ => if s.channel != [] then Receive else Tick
  }

  function Work(s: State): nat {
    4 * |s.channel| +
    match s.writer
    case FlushJobs(_) => 2
    case FlushAttempts(_) => 1
    case _ => if s.batch == [] then 0 else 3
  }

  /** The hooks, Start and Close have no part in it. */
  ghost predicate OnlyWriter(s: State, t: State) {
    && t.past.accepted == s.past.accepted && t.past.offered == s.past.offered && t.past.rejected == s.past.rejected
    && t.dropped == s.dropped && t.inFlight == s.inFlight && t.done == s.done && t.started == s.started
    && t.closer == s.closer && (!InDrain(s.writer) ==> !InDrain(t.writer))
  }

  lemma TurnWorks(c: Config, s: State)
    requires ValidConfig(c) && Bounded(c, s) && Shutdown(s) && Working(s) && !Idle(s)
    ensures Enabled(s, Turn(s)) && OfWriter(Turn(s)) && Turn(s) != SeeDone
    ensures var t := Next(c, s, Turn(s)); Work(t) < Work(s) && Working(t) && OnlyWriter(s, t)
  {
    match s.writer
    case FlushJobs(_) =>
    case FlushAttempts(_) =>
    case Draining =>
    case _ =>
  }

  lemma {:induction false} WorksOn(c: Config, s: State) returns (more: seq<Event>, t: State)
    requires ValidConfig(c) && Inv(c, s) && Working(s)
    ensures Exec(c, s, more) == Some(t) && Inv(c, t) && Idle(t) && OnlyWriter(s, t)
    ensures forall e :: e in more ==> OfWriter(e) && e != SeeDone
    decreases Work(s)
  {
    if Idle(s) {
      more, t := [], s;
    } else {
      var e := Turn(s);
      TurnWorks(c, s);
      StepInv(c, s, e);
      var rest;
      rest, t := WorksOn(c, Next(c, s, e));
      more := [e] + rest;
      ExecCons(c, s, e, rest);
    }
  }

  /** In every reachable state of a launched sink whose writer is not past its last look at the
      channel, the writer's own steps are enough to take every accepted record to the store, in
      order, and to count it.  It needs no Close, no further record and no full batch: a writer
      that is not draining ends up in its loop, with nothing waiting. */
  lemma CatchesUp(c: Config, db: Db, events: seq<Event>, s: State) returns (more: seq<Event>, t: State)
    requires ValidConfig(c) && Exec(c, Init(db), events) == Some(s)
    requires s.started && (PastDrain(s.writer) ==> s.channel == [])
    ensures Exec(c, s, more) == Some(t) && forall e :: e in more ==> OfWriter(e) && e != SeeDone
    ensures t.channel == [] && t.batch == [] && t.past.flushed == t.past.accepted == s.past.accepted
    ensures t.written == s.written + Pending(s) + |s.channel| && t.dropped == s.dropped
    ensures !InDrain(s.writer) ==> t.writer == Looping
  {
    RunInv(c, db, events, s);
    more, t := WorksOn(c, s);
    assert t.past.flushed + [] + [] == t.past.flushed;
  }
}
